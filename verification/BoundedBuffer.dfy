/** The bounded buffer that producers and consumers share (workshop/producer-consumer-problem.c
    and workshop/producer-consumer-problem-semaphore.c): its critical sections, statement by
    statement, and the first-in first-out queue that they implement. */
module BoundedBuffer {

  /** The shared variables; `ins` and `rem` record the items inserted and removed so far, in the
      order of the statements that make the change count. */
  datatype Shared = Shared(buf: seq<int>, space: int, ins: seq<int>, rem: seq<int>)

  /** A thread's position in a critical section, with its local variables. */
  datatype Section =
    | InsPos(item: int)
    | InsWrite(item: int, pos: int)
    | InsCount(item: int)
    | Inserted
    | RemPos
    | RemRead(pos: int)
    | RemCount(pos: int, item: int)
    | RemShift(pos: int, item: int, i: int)
    | Removed(item: int)

  /** A statement either takes the section on or uses an index outside the buffer. */
  datatype Progress = Fault | To(sh: Shared, sec: Section)

  predicate IsFinal(sec: Section) { sec.Inserted? || sec.Removed? }

  predicate IsInsertion(sec: Section) { sec.InsPos? || sec.InsWrite? || sec.InsCount? || sec.Inserted? }

  function SectionStep(sh: Shared, sec: Section): Progress {
    var n := |sh.buf|;
    match sec
    case InsPos(x) => To(sh, InsWrite(x, n - sh.space))
    case InsWrite(x, pos) => if 0 <= pos < n then To(sh.(buf := sh.buf[pos := x]), InsCount(x)) else Fault
    case InsCount(x) => To(sh.(space := sh.space - 1, ins := sh.ins + [x]), Inserted)
    case RemPos => To(sh, RemRead(n - sh.space - 1))
    case RemRead(pos) => if 0 < n then To(sh, RemCount(pos, sh.buf[0])) else Fault
    case RemCount(pos, x) => To(sh.(space := sh.space + 1, rem := sh.rem + [x]), RemShift(pos, x, 0))
    case RemShift(pos, x, i) =>
      if i < pos then
        if 0 <= i && i + 1 < n then To(sh.(buf := sh.buf[i := sh.buf[i + 1]]), RemShift(pos, x, i + 1)) else Fault
      else To(sh, Removed(x))
    case _ => To(sh, sec)
  }

  // ---- The queue behind the buffer ----

  /** The items inserted and not yet removed, oldest first. */
  function Queue(sh: Shared): seq<int> {
    if |sh.rem| <= |sh.ins| then sh.ins[|sh.rem|..] else []
  }

  /** Items leave in the order in which they came, and the space counter is right. */
  ghost predicate Counted(sh: Shared) {
    sh.rem <= sh.ins && |Queue(sh)| == |sh.buf| - sh.space && 0 <= sh.space <= |sh.buf|
  }

  /** Outside critical sections the buffer starts with the queue. */
  ghost predicate Quiet(sh: Shared) {
    Counted(sh) && sh.buf[..|Queue(sh)|] == Queue(sh)
  }

  /** `x` is the item removed last. */
  ghost predicate TookLast(sh: Shared, x: int) {
    sh.rem != [] && sh.rem[|sh.rem| - 1] == x
  }

  ghost predicate SectionInv(sh: Shared, sec: Section) {
    match sec
    case InsPos(x) => Quiet(sh) && 0 < sh.space
    case InsWrite(x, pos) => Quiet(sh) && 0 < sh.space && pos == |sh.buf| - sh.space
    case InsCount(x) => Quiet(sh) && 0 < sh.space && sh.buf[|sh.buf| - sh.space] == x
    case RemPos => Quiet(sh) && sh.space < |sh.buf|
    case RemRead(pos) => Quiet(sh) && sh.space < |sh.buf| && pos == |sh.buf| - sh.space - 1
    case RemCount(pos, x) => Quiet(sh) && sh.space < |sh.buf| && pos == |sh.buf| - sh.space - 1 && x == Queue(sh)[0]
    case RemShift(pos, x, i) =>
      && Counted(sh) && TookLast(sh, x) && pos == |Queue(sh)| < |sh.buf| && 0 <= i <= pos
      && (forall j :: 0 <= j < i ==> sh.buf[j] == Queue(sh)[j])
      && (forall j :: i < j <= pos ==> sh.buf[j] == Queue(sh)[j - 1])
    case Inserted => Quiet(sh)
    case Removed(x) => Quiet(sh) && TookLast(sh, x)
  }

  // ---- Threads ----

  datatype Role = Producer | Consumer

  /** What the environment lets happen next: a thread runs, a producer making up an item if it is
      between calls, or main sets is_exiting. */
  datatype Choice = Run(t: nat, item: int) | Exit

  // ---- The abstract bounded queue ----

  datatype Event = Nothing | Enqueue(item: int) | Dequeue(item: int)

  /** One step of a first-in first-out queue of at most `n` items. */
  predicate FifoStep(q: seq<int>, e: Event, r: seq<int>, n: nat) {
    match e
    case Nothing => r == q
    case Enqueue(x) => |q| < n && r == q + [x]
    case Dequeue(x) => q == [x] + r
  }

  /** 1 if a thread in a critical section has yet to insert item `v`. */
  function Bringing(sec: Section, v: int): int {
    match sec
    case InsPos(x) => if x == v then 1 else 0
    case InsWrite(x, _) => if x == v then 1 else 0
    case InsCount(x) => if x == v then 1 else 0
    case _ => 0
  }

  /** How often `v` occurs. */
  function Count(s: seq<int>, v: int): int { multiset(s)[v] }

  /** What a thread brings into its critical section is what it inserts. */
  lemma SectionBrings(sh: Shared, sec: Section, v: int)
    requires SectionStep(sh, sec).To?
    ensures var r := SectionStep(sh, sec);
            Count(r.sh.ins, v) + Bringing(r.sec, v) == Count(sh.ins, v) + Bringing(sec, v)
  {
  }

  /** A thread in a critical section has removed an item and has not left yet. */
  predicate Taking(sec: Section) { sec.RemShift? || sec.Removed? }

  function EventOf(sec: Section): Event {
    match sec
    case InsCount(x) => Enqueue(x)
    case RemCount(_, x) => Dequeue(x)
    case _ => Nothing
  }

  lemma InsCountOk(sh: Shared, x: int)
    requires SectionInv(sh, InsCount(x))
    ensures var r := sh.(space := sh.space - 1, ins := sh.ins + [x]);
            Quiet(r) && |Queue(sh)| < |sh.buf| && Queue(r) == Queue(sh) + [x]
  {
    var r := sh.(space := sh.space - 1, ins := sh.ins + [x]);
    assert Queue(r) == Queue(sh) + [x];
    assert r.buf[..|Queue(r)|] == sh.buf[..|Queue(sh)|] + [x];
  }

  lemma RemCountOk(sh: Shared, pos: int, x: int)
    requires SectionInv(sh, RemCount(pos, x))
    ensures var r := sh.(space := sh.space + 1, rem := sh.rem + [x]);
            SectionInv(r, RemShift(pos, x, 0)) && Queue(sh) == [x] + Queue(r)
  {
    var r := sh.(space := sh.space + 1, rem := sh.rem + [x]);
    assert Queue(sh) == [x] + Queue(r);
    forall j | 0 < j <= pos ensures sh.buf[j] == Queue(r)[j - 1] {
      assert sh.buf[..|Queue(sh)|][j] == Queue(sh)[j];
    }
  }

  lemma RemShiftOk(sh: Shared, pos: int, x: int, i: int)
    requires SectionInv(sh, RemShift(pos, x, i))
    ensures var r := SectionStep(sh, RemShift(pos, x, i));
            r.To? && |r.sh.buf| == |sh.buf| && SectionInv(r.sh, r.sec) && !IsInsertion(r.sec) && Queue(r.sh) == Queue(sh)
  {
    if i >= pos {
      assert sh.buf[..|Queue(sh)|] == Queue(sh);
    }
  }

  /** No statement of a critical section leaves the buffer's bounds, and each is at most one
      step of the queue. */
  lemma SectionStepOk(sh: Shared, sec: Section)
    requires SectionInv(sh, sec) && !IsFinal(sec)
    ensures var r := SectionStep(sh, sec);
            && r.To? && |r.sh.buf| == |sh.buf| && SectionInv(r.sh, r.sec)
            && (IsInsertion(r.sec) <==> IsInsertion(sec))
            && FifoStep(Queue(sh), EventOf(sec), Queue(r.sh), |sh.buf|)
  {
    match sec
    case InsWrite(x, pos) =>
      assert sh.buf[pos := x][..|Queue(sh)|] == sh.buf[..|Queue(sh)|];
    case InsCount(x) => InsCountOk(sh, x);
    case RemRead(pos) =>
      assert sh.buf[..|Queue(sh)|][0] == Queue(sh)[0];
    case RemCount(pos, x) => RemCountOk(sh, pos, x);
    case RemShift(pos, x, i) => RemShiftOk(sh, pos, x, i);
    case _ =>
  }

  // ---- The buffer as an object, one critical section at a time ----

  class Buffer {
    const buffer: array<int>
    var space: int

    ghost predicate Valid()
      reads this
    {
      0 <= space <= buffer.Length
    }

    ghost function Contents(): seq<int>
      requires Valid()
      reads this, buffer
    {
      buffer[..buffer.Length - space]
    }

    constructor (size: nat)
      ensures Valid() && fresh(buffer) && buffer.Length == size && Contents() == []
    {
      buffer := new int[size](_ => 0);
      space := size;
    }

    /** The guarded insertion of the mutex version. */
    method Insert(item: int) returns (inserted: bool)
      requires Valid()
      modifies this`space, buffer
      ensures Valid() && inserted == (|old(Contents())| < buffer.Length)
      ensures Contents() == old(Contents()) + if inserted then [item] else []
    {
      inserted := space > 0;
      if inserted {
        var pos := buffer.Length - space;
        buffer[pos] := item;
        space := space - 1;
      }
    }

    /** The guarded removal, which moves the remaining items up. */
    method Remove() returns (removed: bool, item: int)
      requires Valid()
      modifies this`space, buffer
      ensures Valid() && removed == (old(Contents()) != [])
      ensures if removed then old(Contents()) == [item] + Contents() else Contents() == old(Contents())
    {
      removed, item := space < buffer.Length, 0;
      if removed {
        var pos := buffer.Length - space - 1;
        item := buffer[0];
        space := space + 1;
        var i := 0;
        while i < pos
          invariant 0 <= i <= pos && space == old(space) + 1
          invariant forall j :: 0 <= j < i ==> buffer[j] == old(buffer[j + 1])
          invariant forall j :: i <= j < buffer.Length ==> buffer[j] == old(buffer[j])
        {
          buffer[i] := buffer[i + 1];
          i := i + 1;
        }
      }
    }
  }
}
