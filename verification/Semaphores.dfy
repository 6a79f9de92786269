/** The semaphore version (workshop/producer-consumer-problem-semaphore.c) for any number of
    producers and consumers, under every interleaving of their statements. */
module Semaphores {
  import opened Sums
  import opened BoundedBuffer

  /** Where a thread is: between calls, at the first or the second sem_wait, in its critical
      section, at the last sem_post, or ended.  A producer carries its item. */
  datatype Pc = Idle | WaitToken(item: int) | WaitBuffer(item: int) | Inside(sec: Section) | PostToken | Exited(item: int)

  datatype Thread = Thread(role: Role, pc: Pc)

  datatype System = System(sh: Shared, bufferSem: nat, spaceSem: nat, itemsSem: nat, exiting: bool, threads: seq<Thread>)

  datatype Outcome = Blocked | Faulty | Went(s: System)

  /** The system as main sets it up, with every thread between calls. */
  function Start(size: nat, roles: seq<Role>): System {
    System(Shared(seq(size, _ => 0), size, [], []), 1, size, 0, false,
           seq(|roles|, i requires 0 <= i < |roles| => Thread(roles[i], Idle)))
  }

  function Moved(s: System, t: nat, pc: Pc): System
    requires t < |s.threads|
  {
    s.(threads := s.threads[t := s.threads[t].(pc := pc)])
  }

  /** The next statement of thread `t`; a producer between calls makes up item `x`. */
  function Step(s: System, t: nat, x: int): Outcome
    requires t < |s.threads|
  {
    var producer := s.threads[t].role == Producer;
    match s.threads[t].pc
    case Idle => Went(Moved(s, t, if s.exiting then Exited(x) else WaitToken(x)))
    case WaitToken(item) =>
      if producer then
        if s.spaceSem == 0 then Blocked else Went(Moved(s, t, WaitBuffer(item)).(spaceSem := s.spaceSem - 1))
      else
        if s.itemsSem == 0 then Blocked else Went(Moved(s, t, WaitBuffer(item)).(itemsSem := s.itemsSem - 1))
    case WaitBuffer(item) =>
      if s.bufferSem == 0 then Blocked
      else Went(Moved(s, t, Inside(if producer then InsPos(item) else RemPos)).(bufferSem := s.bufferSem - 1))
    case Inside(sec) =>
      if IsFinal(sec) then Went(Moved(s, t, PostToken).(bufferSem := s.bufferSem + 1))
      else (match SectionStep(s.sh, sec)
            case Fault => Faulty
            case To(sh, sec') => Went(Moved(s, t, Inside(sec')).(sh := sh)))
    case PostToken =>
      if producer then Went(Moved(s, t, Idle).(itemsSem := s.itemsSem + 1))
      else Went(Moved(s, t, Idle).(spaceSem := s.spaceSem + 1))
    case Exited(_) => Blocked
  }

  function Chosen(s: System, c: Choice): System {
    match c
    case Exit => s.(exiting := true)
    case Run(t, x) =>
      if t < |s.threads| && Step(s, t, x).Went? then Step(s, t, x).s else s
  }

  /** The system after a series of choices. */
  function After(size: nat, roles: seq<Role>, choices: seq<Choice>): System {
    if choices == [] then Start(size, roles)
    else Chosen(After(size, roles, choices[..|choices| - 1]), choices[|choices| - 1])
  }

  // ---- Who holds what ----

  function InSection(t: Thread): int { if t.pc.Inside? then 1 else 0 }

  /** 1 for a thread that accounts for an item in the buffer: a producer that has inserted and
      not yet posted, or a consumer that has waited and not yet removed. */
  function ItemShare(t: Thread): int {
    match t.pc
    case WaitBuffer(_) => if t.role == Consumer then 1 else 0
    case Inside(sec) => if sec.Inserted? || sec.RemPos? || sec.RemRead? || sec.RemCount? then 1 else 0
    case PostToken => if t.role == Producer then 1 else 0
    case _ => 0
  }

  /** 1 for a thread that accounts for a free place in the buffer. */
  function SpaceShare(t: Thread): int {
    match t.pc
    case WaitBuffer(_) => if t.role == Producer then 1 else 0
    case Inside(sec) => if sec.InsPos? || sec.InsWrite? || sec.InsCount? || sec.RemShift? || sec.Removed? then 1 else 0
    case PostToken => if t.role == Consumer then 1 else 0
    case _ => 0
  }

  ghost predicate ThreadOk(s: System, t: Thread) {
    && (t.pc.Inside? ==> SectionInv(s.sh, t.pc.sec) && (IsInsertion(t.pc.sec) <==> t.role == Producer))
    && (t.pc.Exited? ==> s.exiting)
  }

  ghost predicate Inv(s: System, size: nat) {
    && |s.sh.buf| == size
    && s.bufferSem + Sum(s.threads, InSection) == 1
    && size - s.sh.space == s.itemsSem + Sum(s.threads, ItemShare)
    && s.sh.space == s.spaceSem + Sum(s.threads, SpaceShare)
    && (s.bufferSem == 1 ==> Quiet(s.sh))
    && (forall t :: 0 <= t < |s.threads| ==> ThreadOk(s, s.threads[t]))
  }

  lemma StartInv(size: nat, roles: seq<Role>)
    ensures Inv(Start(size, roles), size)
  {
    var s := Start(size, roles);
    SumZero(s.threads, InSection);
    SumZero(s.threads, ItemShare);
    SumZero(s.threads, SpaceShare);
  }

  lemma MovedSums(ts: seq<Thread>, t: nat, r: Thread)
    requires t < |ts|
    ensures Sum(ts[t := r], InSection) == Sum(ts, InSection) - InSection(ts[t]) + InSection(r)
    ensures Sum(ts[t := r], ItemShare) == Sum(ts, ItemShare) - ItemShare(ts[t]) + ItemShare(r)
    ensures Sum(ts[t := r], SpaceShare) == Sum(ts, SpaceShare) - SpaceShare(ts[t]) + SpaceShare(r)
    ensures 0 <= InSection(ts[t]) <= Sum(ts, InSection)
    ensures 0 <= ItemShare(ts[t]) <= Sum(ts, ItemShare)
    ensures 0 <= SpaceShare(ts[t]) <= Sum(ts, SpaceShare)
  {
    SumUpdate(ts, t, r, InSection);
    SumUpdate(ts, t, r, ItemShare);
    SumUpdate(ts, t, r, SpaceShare);
    SumMember(ts, t, InSection);
    SumMember(ts, t, ItemShare);
    SumMember(ts, t, SpaceShare);
  }

  /** At most one thread is in a critical section. */
  lemma MutualExclusion(s: System, size: nat, t: nat, u: nat)
    requires Inv(s, size) && t < |s.threads| && u < |s.threads| && t != u
    ensures !(s.threads[t].pc.Inside? && s.threads[u].pc.Inside?)
    ensures s.threads[t].pc.Inside? ==> s.bufferSem == 0
  {
    SumMember(s.threads, t, InSection);
  }

  lemma StepOthers(s: System, size: nat, t: nat, x: int, u: nat)
    requires Inv(s, size) && t < |s.threads| && u < |s.threads| && u != t && Step(s, t, x).Went?
    ensures u < |Step(s, t, x).s.threads| && Step(s, t, x).s.threads[u] == s.threads[u]
    ensures ThreadOk(Step(s, t, x).s, s.threads[u])
  {
    MutualExclusion(s, size, t, u);
    assert ThreadOk(s, s.threads[u]);
  }

  /** What the next statement of a thread does to the queue. */
  function StepEvent(t: Thread): Event { if t.pc.Inside? then EventOf(t.pc.sec) else Nothing }

  /** No statement uses an index outside the buffer, and each is at most one step of the queue. */
  lemma StepIsFifo(s: System, size: nat, t: nat, x: int)
    requires Inv(s, size) && t < |s.threads|
    ensures !Step(s, t, x).Faulty?
    ensures Step(s, t, x).Went? ==>
              var r := Step(s, t, x).s;
              |r.sh.buf| == size && FifoStep(Queue(s.sh), StepEvent(s.threads[t]), Queue(r.sh), size)
  {
    var th := s.threads[t];
    assert ThreadOk(s, th);
    if th.pc.Inside? && !IsFinal(th.pc.sec) {
      SectionStepOk(s.sh, th.pc.sec);
    }
  }

  /** What a thread gains in tokens, the semaphores and the space counter lose. */
  lemma StepDelta(s: System, t: nat, x: int)
    requires t < |s.threads| && Step(s, t, x).Went?
    requires var th := s.threads[t]; th.pc.Inside? ==> (IsInsertion(th.pc.sec) <==> th.role == Producer)
    ensures var r := Step(s, t, x).s;
            && |r.threads| == |s.threads| && r.threads == s.threads[t := r.threads[t]]
            && r.bufferSem + InSection(r.threads[t]) == s.bufferSem + InSection(s.threads[t])
            && r.itemsSem + ItemShare(r.threads[t]) + r.sh.space == s.itemsSem + ItemShare(s.threads[t]) + s.sh.space
            && r.spaceSem + SpaceShare(r.threads[t]) - r.sh.space == s.spaceSem + SpaceShare(s.threads[t]) - s.sh.space
  {
  }

  /** No statement creates or loses a token. */
  lemma StepCounts(s: System, size: nat, t: nat, x: int)
    requires Inv(s, size) && t < |s.threads| && Step(s, t, x).Went?
    ensures var r := Step(s, t, x).s;
            && r.bufferSem + Sum(r.threads, InSection) == 1
            && size - r.sh.space == r.itemsSem + Sum(r.threads, ItemShare)
            && r.sh.space == r.spaceSem + Sum(r.threads, SpaceShare)
  {
    assert ThreadOk(s, s.threads[t]);
    StepDelta(s, t, x);
    MovedSums(s.threads, t, Step(s, t, x).s.threads[t]);
  }

  /** A thread that gets the buffer finds it quiet, with room or with an item for it. */
  lemma EntryOk(s: System, size: nat, t: nat)
    requires Inv(s, size) && t < |s.threads| && s.threads[t].pc.WaitBuffer? && s.bufferSem != 0
    ensures Quiet(s.sh) && if s.threads[t].role == Producer then 0 < s.sh.space else s.sh.space < size
  {
    SumMember(s.threads, t, ItemShare);
    SumMember(s.threads, t, SpaceShare);
    SumNonnegative(s.threads, InSection);
  }

  lemma StepOwn(s: System, size: nat, t: nat, x: int)
    requires Inv(s, size) && t < |s.threads| && Step(s, t, x).Went?
    ensures ThreadOk(Step(s, t, x).s, Step(s, t, x).s.threads[t])
    ensures Step(s, t, x).s.bufferSem == 1 ==> Quiet(Step(s, t, x).s.sh)
  {
    var th := s.threads[t];
    assert ThreadOk(s, th);
    SumMember(s.threads, t, InSection);
    match th.pc
    case WaitBuffer(_) => EntryOk(s, size, t);
    case Inside(sec) => if !IsFinal(sec) { SectionStepOk(s.sh, sec); }
    case _ =>
  }

  lemma StepThreads(s: System, size: nat, t: nat, x: int, u: nat)
    requires Inv(s, size) && t < |s.threads| && u < |s.threads| && Step(s, t, x).Went?
    ensures u < |Step(s, t, x).s.threads| && ThreadOk(Step(s, t, x).s, Step(s, t, x).s.threads[u])
  {
    if u == t { StepOwn(s, size, t, x); } else { StepOthers(s, size, t, x, u); }
  }

  /** Every statement of every thread keeps the invariant. */
  lemma StepInv(s: System, size: nat, t: nat, x: int)
    requires Inv(s, size) && t < |s.threads| && Step(s, t, x).Went?
    ensures Inv(Step(s, t, x).s, size)
  {
    var r := Step(s, t, x).s;
    assert |r.sh.buf| == size by { StepIsFifo(s, size, t, x); }
    assert r.bufferSem == 1 ==> Quiet(r.sh) by { StepOwn(s, size, t, x); }
    StepCounts(s, size, t, x);
    assert |r.threads| == |s.threads| by { StepRoles(s, t, x); }
    forall u | 0 <= u < |r.threads| ensures ThreadOk(r, r.threads[u]) {
      StepThreads(s, size, t, x, u);
    }
  }

  lemma ExitInv(s: System, size: nat)
    requires Inv(s, size)
    ensures Inv(s.(exiting := true), size)
  {
    var r := s.(exiting := true);
    forall t | 0 <= t < |r.threads| ensures ThreadOk(r, r.threads[t]) {
      assert ThreadOk(s, s.threads[t]);
    }
  }

  lemma StepRoles(s: System, t: nat, x: int)
    requires t < |s.threads| && Step(s, t, x).Went?
    ensures |Step(s, t, x).s.threads| == |s.threads|
    ensures forall u :: 0 <= u < |s.threads| ==> Step(s, t, x).s.threads[u].role == s.threads[u].role
  {
  }

  lemma ChosenInv(s: System, size: nat, c: Choice)
    requires Inv(s, size)
    ensures Inv(Chosen(s, c), size) && |Chosen(s, c).threads| == |s.threads|
    ensures forall t :: 0 <= t < |s.threads| ==> Chosen(s, c).threads[t].role == s.threads[t].role
  {
    if c.Exit? {
      ExitInv(s, size);
    } else if c.t < |s.threads| && Step(s, c.t, c.item).Went? {
      StepInv(s, size, c.t, c.item);
      StepRoles(s, c.t, c.item);
    }
  }

  /** Every reachable state, for any threads and any interleaving, satisfies the invariant. */
  lemma RunInv(size: nat, roles: seq<Role>, choices: seq<Choice>)
    ensures Inv(After(size, roles, choices), size)
    ensures |After(size, roles, choices).threads| == |roles|
    ensures forall t :: 0 <= t < |roles| ==> After(size, roles, choices).threads[t].role == roles[t]
  {
    StartInv(size, roles);
    for n := 0 to |choices|
      invariant var s := After(size, roles, choices[..n]);
                Inv(s, size) && |s.threads| == |roles| && forall t :: 0 <= t < |roles| ==> s.threads[t].role == roles[t]
    {
      assert choices[..n + 1][..n] == choices[..n];
      ChosenInv(After(size, roles, choices[..n]), size, choices[n]);
    }
    assert choices[..|choices|] == choices;
  }

  /** What holds of every state that satisfies the invariant. */
  ghost predicate Safe(s: System, size: nat, t: nat, x: int)
    requires t < |s.threads|
  {
    && !Step(s, t, x).Faulty?
    && (forall u :: 0 <= u < |s.threads| && u != t ==> !(s.threads[t].pc.Inside? && s.threads[u].pc.Inside?))
    && s.spaceSem + s.itemsSem + Sum(s.threads, ItemShare) + Sum(s.threads, SpaceShare) == size
    && s.sh.ins == s.sh.rem + Queue(s.sh) && |Queue(s.sh)| <= size == |s.sh.buf|
    && (s.bufferSem == 1 ==> s.sh.buf[..|Queue(s.sh)|] == Queue(s.sh))
    && (s.threads[t].pc.Inside? && s.threads[t].pc.sec.Removed? ==> TookLast(s.sh, s.threads[t].pc.sec.item))
  }

  lemma InvIsSafe(s: System, size: nat, t: nat, x: int)
    requires Inv(s, size) && t < |s.threads|
    ensures Safe(s, size, t, x)
  {
    assert ThreadOk(s, s.threads[t]);
    assert !Step(s, t, x).Faulty? by { StepIsFifo(s, size, t, x); }
    forall u | 0 <= u < |s.threads| && u != t ensures !(s.threads[t].pc.Inside? && s.threads[u].pc.Inside?) {
      MutualExclusion(s, size, t, u);
    }
    QueueCounted(s, size);
  }

  /** In every run no index leaves the buffer, at most one thread is in a critical section, the
      tokens in the semaphores and in the hands of threads number `size`, and what has been
      removed followed by the queue is what has been inserted; a consumer leaves its critical
      section with the item removed last. */
  lemma RunSafe(size: nat, roles: seq<Role>, choices: seq<Choice>, t: nat, x: int)
    requires t < |roles|
    ensures var s := After(size, roles, choices);
            |s.threads| == |roles| && Safe(s, size, t, x)
  {
    RunInv(size, roles, choices);
    InvIsSafe(After(size, roles, choices), size, t, x);
  }

  lemma QueueCounted(s: System, size: nat)
    requires Inv(s, size)
    ensures Counted(s.sh)
  {
    if s.bufferSem != 1 {
      SumZero(s.threads, InSection);
      var t :| 0 <= t < |s.threads| && InSection(s.threads[t]) != 0;
      assert ThreadOk(s, s.threads[t]);
    }
  }

  // ---- No deadlock ----

  lemma OneOfThemMoves(s: System, size: nat, t: nat)
    requires Inv(s, size) && t < |s.threads| && !s.exiting
    requires forall u, x :: 0 <= u < |s.threads| ==> Step(s, u, x).Blocked?
    ensures s.threads[t].pc.WaitToken? || s.threads[t].pc.WaitBuffer?
    ensures s.threads[t].pc.WaitBuffer? ==> s.bufferSem == 0
    ensures s.threads[t].pc.WaitToken? ==> (if s.threads[t].role == Producer then s.spaceSem else s.itemsSem) == 0
  {
    assert ThreadOk(s, s.threads[t]);
    assert Step(s, t, 0).Blocked?;
    StepIsFifo(s, size, t, 0);
  }

  /** While the program is not exiting, a buffer with at least one place, one producer and one
      consumer never has all threads blocked. */
  lemma NoDeadlock(size: nat, roles: seq<Role>, choices: seq<Choice>)
    requires 0 < size && Producer in roles && Consumer in roles && !After(size, roles, choices).exiting
    ensures var s := After(size, roles, choices);
            exists t, x :: 0 <= t < |s.threads| && !Step(s, t, x).Blocked?
  {
    var s := After(size, roles, choices);
    RunInv(size, roles, choices);
    if forall t, x :: 0 <= t < |s.threads| ==> Step(s, t, x).Blocked? {
      forall t | 0 <= t < |s.threads| ensures InSection(s.threads[t]) == 0 {
        OneOfThemMoves(s, size, t);
      }
      SumZero(s.threads, InSection);
      forall t | 0 <= t < |s.threads| ensures ItemShare(s.threads[t]) == 0 == SpaceShare(s.threads[t]) {
        OneOfThemMoves(s, size, t);
      }
      SumZero(s.threads, ItemShare);
      SumZero(s.threads, SpaceShare);
      var p :| 0 <= p < |roles| && roles[p] == Producer;
      var c :| 0 <= c < |roles| && roles[c] == Consumer;
      OneOfThemMoves(s, size, p);
      OneOfThemMoves(s, size, c);
      assert false;
    }
  }

  // ---- Every item arrives ----

  /** 1 if a producer has made item `v` and not yet inserted it, or has given it up on exit. */
  function Carries(t: Thread, v: int): int {
    if t.role == Consumer then 0
    else
      match t.pc
      case WaitToken(x) => if x == v then 1 else 0
      case WaitBuffer(x) => if x == v then 1 else 0
      case Exited(x) => if x == v then 1 else 0
      case Inside(sec) => Bringing(sec, v)
      case _ => 0
  }

  function Carrying(v: int): Thread -> int { (t: Thread) => Carries(t, v) }

  /** A consumer that has removed an item and has not left its critical section. */
  predicate Takes(t: Thread) { t.pc.Inside? && Taking(t.pc.sec) }

  /** The items that producers have made in a run, in order. */
  function Made(size: nat, roles: seq<Role>, choices: seq<Choice>): seq<int> {
    if choices == [] then []
    else
      var n := |choices| - 1;
      Made(size, roles, choices[..n]) + NewItem(After(size, roles, choices[..n]), choices[n])
  }

  /** A producer between calls makes up an item. */
  function NewItem(s: System, c: Choice): seq<int> {
    if c.Run? && c.t < |s.threads| && s.threads[c.t] == Thread(Producer, Idle) then [c.item] else []
  }

  /** The items with which consumers have left their critical sections in a run, in order. */
  function Delivered(size: nat, roles: seq<Role>, choices: seq<Choice>): seq<int> {
    if choices == [] then []
    else
      var n := |choices| - 1;
      var s, c := After(size, roles, choices[..n]), choices[n];
      Delivered(size, roles, choices[..n]) + if c.Run? && c.t < |s.threads| then Leaving(s.threads[c.t]) else []
  }

  /** The item of a thread that is about to leave its critical section with one. */
  function Leaving(t: Thread): seq<int> {
    if t.pc.Inside? && t.pc.sec.Removed? then [t.pc.sec.item] else []
  }

  /** An item is in hand from the moment it is made until it is the one inserted. */
  lemma StepBrings(s: System, t: nat, x: int, v: int)
    requires t < |s.threads| && Step(s, t, x).Went?
    requires var th := s.threads[t]; th.pc.Inside? ==> (IsInsertion(th.pc.sec) <==> th.role == Producer)
    ensures var r := Step(s, t, x).s;
            && t < |r.threads|
            && Count(r.sh.ins, v) + Carries(r.threads[t], v)
               == Count(s.sh.ins, v) + Carries(s.threads[t], v)
                  + if s.threads[t] == Thread(Producer, Idle) && x == v then 1 else 0
  {
    var th := s.threads[t];
    if th.pc.Inside? && !IsFinal(th.pc.sec) {
      SectionBrings(s.sh, th.pc.sec, v);
      var q := SectionStep(s.sh, th.pc.sec);
      assert Step(s, t, x).s.sh == q.sh && Step(s, t, x).s.threads[t] == th.(pc := Inside(q.sec));
    } else {
      assert Step(s, t, x).s.sh == s.sh;
    }
  }

  lemma StepUpdates(s: System, t: nat, x: int)
    requires t < |s.threads| && Step(s, t, x).Went?
    ensures var r := Step(s, t, x).s;
            |r.threads| == |s.threads| && r.threads == s.threads[t := r.threads[t]]
  {
  }

  lemma ChosenBrings(s: System, size: nat, c: Choice, v: int)
    requires Inv(s, size)
    ensures Count(Chosen(s, c).sh.ins, v) + Sum(Chosen(s, c).threads, Carrying(v))
            == Count(s.sh.ins, v) + Sum(s.threads, Carrying(v)) + Count(NewItem(s, c), v)
  {
    if c.Run? && c.t < |s.threads| && Step(s, c.t, c.item).Went? {
      assert ThreadOk(s, s.threads[c.t]);
      StepBrings(s, c.t, c.item, v);
      StepUpdates(s, c.t, c.item);
      SumUpdate(s.threads, c.t, Chosen(s, c).threads[c.t], Carrying(v));
    }
  }

  /** `d` is what has been removed, but for the item of a thread still in its critical section. */
  ghost predicate DeliveredOk(s: System, d: seq<int>) {
    if exists t :: 0 <= t < |s.threads| && Takes(s.threads[t])
    then |s.sh.rem| > 0 && d == s.sh.rem[..|s.sh.rem| - 1]
    else d == s.sh.rem
  }

  lemma OnlyTaker(s: System, size: nat, t: nat, u: nat)
    requires Inv(s, size) && t < |s.threads| && u < |s.threads| && s.threads[t].pc.Inside? && Takes(s.threads[u])
    ensures u == t
  {
    if u != t { MutualExclusion(s, size, t, u); }
  }

  lemma StepTakes(s: System, t: nat, x: int)
    requires t < |s.threads| && Step(s, t, x).Went?
    ensures var r, th := Step(s, t, x).s, s.threads[t];
            && |r.threads| == |s.threads| && (forall u :: 0 <= u < |s.threads| && u != t ==> r.threads[u] == s.threads[u])
            && if Takes(th) then r.sh.rem == s.sh.rem && (Takes(r.threads[t]) <==> Leaving(th) == [])
               else if Takes(r.threads[t]) then th.pc.Inside? && r.sh.rem == s.sh.rem + [r.threads[t].pc.sec.item]
               else r.sh.rem == s.sh.rem
  {
  }

  lemma StepDelivers(s: System, size: nat, t: nat, x: int, d: seq<int>)
    requires Inv(s, size) && t < |s.threads| && Step(s, t, x).Went? && DeliveredOk(s, d)
    ensures DeliveredOk(Step(s, t, x).s, d + Leaving(s.threads[t]))
  {
    var r, th := Step(s, t, x).s, s.threads[t];
    StepTakes(s, t, x);
    if th.pc.Inside? {
      assert ThreadOk(s, th);
      forall u | 0 <= u < |s.threads| && Takes(s.threads[u]) ensures u == t {
        OnlyTaker(s, size, t, u);
      }
    } else {
      assert forall u :: 0 <= u < |s.threads| ==> Takes(r.threads[u]) == Takes(s.threads[u]);
    }
  }

  lemma ChosenDelivers(s: System, size: nat, c: Choice, d: seq<int>)
    requires Inv(s, size) && DeliveredOk(s, d)
    ensures DeliveredOk(Chosen(s, c), d + if c.Run? && c.t < |s.threads| then Leaving(s.threads[c.t]) else [])
  {
    if c.Run? && c.t < |s.threads| {
      assert ThreadOk(s, s.threads[c.t]);
      StepIsFifo(s, size, c.t, c.item);
      if Step(s, c.t, c.item).Went? { StepDelivers(s, size, c.t, c.item, d); }
    }
  }

  lemma OneMoreArrives(size: nat, roles: seq<Role>, choices: seq<Choice>, v: int)
    requires choices != []
    ensures var prior := choices[..|choices| - 1];
            var s, r := After(size, roles, prior), After(size, roles, choices);
            Count(r.sh.ins, v) + Sum(r.threads, Carrying(v)) - Count(Made(size, roles, choices), v)
            == Count(s.sh.ins, v) + Sum(s.threads, Carrying(v)) - Count(Made(size, roles, prior), v)
  {
    var prior := choices[..|choices| - 1];
    RunInv(size, roles, prior);
    ChosenBrings(After(size, roles, prior), size, choices[|choices| - 1], v);
  }

  /** In every run the items that producers have made are, each as often as it was made, those
      that have been inserted and those still in hand. */
  lemma {:induction false} EveryItemArrives(size: nat, roles: seq<Role>, choices: seq<Choice>, v: int)
    ensures var s := After(size, roles, choices);
            Count(Made(size, roles, choices), v) == Count(s.sh.ins, v) + Sum(s.threads, Carrying(v))
    decreases |choices|
  {
    if choices == [] {
      SumZero(Start(size, roles).threads, Carrying(v));
    } else {
      EveryItemArrives(size, roles, choices[..|choices| - 1], v);
      OneMoreArrives(size, roles, choices, v);
    }
  }

  /** In every run consumers leave with the inserted items, in the order of their insertion; what
      has been removed beyond that is one item at most, in a critical section. */
  lemma DeliveredInOrder(size: nat, roles: seq<Role>, choices: seq<Choice>)
    ensures var s, d := After(size, roles, choices), Delivered(size, roles, choices);
            && d <= s.sh.rem <= s.sh.ins && |s.sh.rem| <= |d| + 1
            && ((forall t :: 0 <= t < |s.threads| ==> !s.threads[t].pc.Inside?) ==> d == s.sh.rem)
  {
    for n := 0 to |choices|
      invariant DeliveredOk(After(size, roles, choices[..n]), Delivered(size, roles, choices[..n]))
    {
      assert choices[..n + 1][..n] == choices[..n];
      RunInv(size, roles, choices[..n]);
      ChosenDelivers(After(size, roles, choices[..n]), size, choices[n], Delivered(size, roles, choices[..n]));
    }
    assert choices[..|choices|] == choices;
    RunInv(size, roles, choices);
    QueueCounted(After(size, roles, choices), size);
  }

  // ---- Exiting ----

  /** The number of insertions and removals so far. */
  function Done(s: System): nat { |s.sh.ins| + |s.sh.rem| }

  /** 1 for a thread that may still insert or remove an item once the program is exiting. */
  function Unfinished(t: Thread): int {
    match t.pc
    case WaitToken(_) => 1
    case WaitBuffer(_) => 1
    case Inside(sec) => if IsFinal(sec) || Taking(sec) then 0 else 1
    case _ => 0
  }

  lemma StepDrains(s: System, t: nat, x: int)
    requires t < |s.threads| && Step(s, t, x).Went? && s.exiting
    ensures var r := Step(s, t, x).s;
            t < |r.threads| && r.exiting && Done(r) + Unfinished(r.threads[t]) <= Done(s) + Unfinished(s.threads[t])
  {
  }

  lemma ChosenDrains(s: System, c: Choice)
    requires s.exiting
    ensures Chosen(s, c).exiting
    ensures Done(Chosen(s, c)) + Sum(Chosen(s, c).threads, Unfinished) <= Done(s) + Sum(s.threads, Unfinished)
  {
    if c.Run? && c.t < |s.threads| && Step(s, c.t, c.item).Went? {
      StepDrains(s, c.t, c.item);
      StepUpdates(s, c.t, c.item);
      SumUpdate(s.threads, c.t, Chosen(s, c).threads[c.t], Unfinished);
    }
  }

  /** The system after further choices. */
  function Follow(s: System, choices: seq<Choice>): System
    decreases |choices|
  {
    if choices == [] then s else Follow(Chosen(s, choices[0]), choices[1..])
  }

  lemma {:induction false} AfterFollows(size: nat, roles: seq<Role>, choices: seq<Choice>, more: seq<Choice>)
    ensures After(size, roles, choices + more) == Follow(After(size, roles, choices), more)
    decreases |more|
  {
    if more == [] {
      assert choices + more == choices;
    } else {
      assert choices + more == (choices + [more[0]]) + more[1..];
      AfterFollows(size, roles, choices + [more[0]], more[1..]);
      assert (choices + [more[0]])[..|choices|] == choices;
    }
  }

  lemma {:induction false} FollowDrains(s: System, more: seq<Choice>)
    requires s.exiting
    ensures Done(Follow(s, more)) + Sum(Follow(s, more).threads, Unfinished) <= Done(s) + Sum(s.threads, Unfinished)
    decreases |more|
  {
    if more != [] {
      ChosenDrains(s, more[0]);
      FollowDrains(Chosen(s, more[0]), more[1..]);
    }
  }

  lemma {:induction false} UnfinishedBound(ts: seq<Thread>)
    ensures 0 <= Sum(ts, Unfinished) <= |ts|
    decreases |ts|
  {
    if ts != [] { UnfinishedBound(ts[..|ts| - 1]); }
  }

  /** Once the program is exiting, every thread completes at most the operation it has begun. */
  lemma ExitDrains(size: nat, roles: seq<Role>, choices: seq<Choice>, more: seq<Choice>)
    requires After(size, roles, choices).exiting
    ensures Done(After(size, roles, choices + more)) <= Done(After(size, roles, choices)) + |roles|
  {
    RunInv(size, roles, choices);
    AfterFollows(size, roles, choices, more);
    FollowDrains(After(size, roles, choices), more);
    UnfinishedBound(After(size, roles, choices).threads);
    UnfinishedBound(After(size, roles, choices + more).threads);
  }

  // ---- Progress ----

  /** The program is running, with a producer `p` and a consumer `c`. */
  ghost predicate Live(s: System, size: nat, p: nat, c: nat) {
    && Inv(s, size) && 0 < size && !s.exiting && p < |s.threads| && c < |s.threads|
    && s.threads[p].role == Producer && s.threads[c].role == Consumer
  }

  lemma StaysLive(s: System, size: nat, p: nat, c: nat, t: nat, x: int)
    requires Live(s, size, p, c) && t < |s.threads| && Step(s, t, x).Went?
    ensures Live(Step(s, t, x).s, size, p, c) && |Step(s, t, x).s.threads| == |s.threads|
  {
    StepInv(s, size, t, x);
    StepRoles(s, t, x);
    StepExits(s, t, x);
  }

  lemma StepExits(s: System, t: nat, x: int)
    requires t < |s.threads| && Step(s, t, x).Went?
    ensures Step(s, t, x).s.exiting == s.exiting
  {
  }

  /** A bound on the statements left in a critical section. */
  function SectionToGo(sec: Section): nat {
    match sec
    case InsPos(_) => 5
    case RemPos => 5
    case InsWrite(_, _) => 4
    case RemRead(_) => 4
    case InsCount(_) => 3
    case RemCount(_, _) => 3
    case RemShift(pos, _, i) => if i < pos then 1 + pos - i else 1
    case _ => 0
  }

  lemma SectionMoves(s: System, t: nat)
    requires t < |s.threads| && s.threads[t].pc.Inside? && Step(s, t, 0).Went?
    ensures var sec, r := s.threads[t].pc.sec, Step(s, t, 0).s;
            && t < |r.threads| && Done(s) <= Done(r)
            && if IsFinal(sec) then r.bufferSem == s.bufferSem + 1
               else if sec.InsCount? || sec.RemCount? then Done(r) > Done(s)
               else r.threads[t].pc.Inside? && SectionToGo(r.threads[t].pc.sec) < SectionToGo(sec)
                    && (!Taking(sec) ==> !Taking(r.threads[t].pc.sec) && !IsFinal(r.threads[t].pc.sec))
  {
  }

  lemma OneChoice(s: System, t: nat, x: int, rest: seq<Choice>)
    requires t < |s.threads| && Step(s, t, x).Went?
    ensures Follow(s, [Run(t, x)] + rest) == Follow(Step(s, t, x).s, rest)
  {
    assert ([Run(t, x)] + rest)[1..] == rest;
  }

  /** A thread in a critical section completes its operation, or leaves if it has done so. */
  lemma {:induction false} SectionRuns(s: System, size: nat, p: nat, c: nat, t: nat) returns (more: seq<Choice>)
    requires Live(s, size, p, c) && t < |s.threads| && s.threads[t].pc.Inside?
    ensures var r, sec := Follow(s, more), s.threads[t].pc.sec;
            && Live(r, size, p, c)
            && (Done(r) > Done(s) || (Done(r) == Done(s) && r.bufferSem == 1 && (Taking(sec) || IsFinal(sec))))
    decreases SectionToGo(s.threads[t].pc.sec)
  {
    StepIsFifo(s, size, t, 0);
    SectionMoves(s, t);
    StaysLive(s, size, p, c, t, 0);
    var r := Step(s, t, 0).s;
    if IsFinal(s.threads[t].pc.sec) {
      MutualExclusion(s, size, t, if t == p then c else p);
      assert Done(r) == Done(s);
    }
    if Done(r) > Done(s) || IsFinal(s.threads[t].pc.sec) {
      more := [];
    } else {
      more := SectionRuns(r, size, p, c, t);
    }
    OneChoice(s, t, 0, more);
    more := [Run(t, 0)] + more;
  }

  /** A thread that has its token gets the buffer and completes its operation. */
  lemma EntersAndRuns(s: System, size: nat, p: nat, c: nat, t: nat) returns (more: seq<Choice>)
    requires Live(s, size, p, c) && t < |s.threads| && s.threads[t].pc.WaitBuffer? && s.bufferSem == 1
    ensures Live(Follow(s, more), size, p, c) && Done(Follow(s, more)) > Done(s)
  {
    StaysLive(s, size, p, c, t, 0);
    more := SectionRuns(Step(s, t, 0).s, size, p, c, t);
    OneChoice(s, t, 0, more);
    more := [Run(t, 0)] + more;
  }

  /** A thread whose token is there gets it, and then goes on. */
  lemma {:induction false} GetsToken(s: System, size: nat, p: nat, c: nat, t: nat) returns (more: seq<Choice>)
    requires Live(s, size, p, c) && t < |s.threads| && s.bufferSem == 1 && (s.threads[t].pc.Idle? || s.threads[t].pc.WaitToken?)
    requires 0 < if s.threads[t].role == Producer then s.spaceSem else s.itemsSem
    ensures Live(Follow(s, more), size, p, c) && Done(Follow(s, more)) > Done(s)
    decreases s.threads[t].pc.Idle?
  {
    StaysLive(s, size, p, c, t, 0);
    var r := Step(s, t, 0).s;
    if s.threads[t].pc.Idle? {
      more := GetsToken(r, size, p, c, t);
    } else {
      more := EntersAndRuns(r, size, p, c, t);
    }
    OneChoice(s, t, 0, more);
    more := [Run(t, 0)] + more;
  }

  function AtPost(t: Thread): int { if t.pc.PostToken? then 1 else 0 }

  /** With the buffer free and no thread on its way to or from it, some token is there. */
  lemma SomeToken(s: System, size: nat, p: nat, c: nat) returns (t: nat)
    requires Live(s, size, p, c) && s.bufferSem == 1
    requires forall u :: 0 <= u < |s.threads| ==> !s.threads[u].pc.WaitBuffer? && !s.threads[u].pc.PostToken?
    ensures t < |s.threads| && (s.threads[t].pc.Idle? || s.threads[t].pc.WaitToken?)
    ensures 0 < if s.threads[t].role == Producer then s.spaceSem else s.itemsSem
  {
    SumZero(s.threads, InSection);
    forall u | 0 <= u < |s.threads| ensures ItemShare(s.threads[u]) == 0 == SpaceShare(s.threads[u]) {
      assert InSection(s.threads[u]) == 0;
    }
    SumZero(s.threads, ItemShare);
    SumZero(s.threads, SpaceShare);
    t := if s.spaceSem > 0 then p else c;
    assert ThreadOk(s, s.threads[t]) && InSection(s.threads[t]) == 0;
  }

  lemma Posts(s: System, size: nat, p: nat, c: nat, t: nat)
    requires Live(s, size, p, c) && t < |s.threads| && s.threads[t].pc.PostToken?
    ensures Step(s, t, 0).Went?
    ensures var r := Step(s, t, 0).s;
            && Live(r, size, p, c) && r.bufferSem == s.bufferSem && Done(r) == Done(s)
            && 0 <= Sum(r.threads, AtPost) < Sum(s.threads, AtPost)
  {
    StaysLive(s, size, p, c, t, 0);
    StepUpdates(s, t, 0);
    var r := Step(s, t, 0).s;
    SumUpdate(s.threads, t, r.threads[t], AtPost);
    SumNonnegative(r.threads, AtPost);
  }

  lemma {:induction false} QuietProgress(s: System, size: nat, p: nat, c: nat) returns (more: seq<Choice>)
    requires Live(s, size, p, c) && s.bufferSem == 1
    ensures Done(Follow(s, more)) > Done(s)
    decreases Sum(s.threads, AtPost)
  {
    if t :| 0 <= t < |s.threads| && s.threads[t].pc.WaitBuffer? {
      more := EntersAndRuns(s, size, p, c, t);
    } else if t :| 0 <= t < |s.threads| && s.threads[t].pc.PostToken? {
      Posts(s, size, p, c, t);
      more := QuietProgress(Step(s, t, 0).s, size, p, c);
      OneChoice(s, t, 0, more);
      more := [Run(t, 0)] + more;
    } else {
      var t := SomeToken(s, size, p, c);
      more := GetsToken(s, size, p, c, t);
    }
  }

  lemma {:induction false} FollowConcat(s: System, a: seq<Choice>, b: seq<Choice>)
    ensures Follow(s, a + b) == Follow(Follow(s, a), b)
    decreases |a|
  {
    if a == [] {
      assert a + b == b;
    } else {
      assert (a + b)[0] == a[0] && (a + b)[1..] == a[1..] + b;
      FollowConcat(Chosen(s, a[0]), a[1..], b);
    }
  }

  lemma LiveProgress(s: System, size: nat, p: nat, c: nat) returns (more: seq<Choice>)
    requires Live(s, size, p, c)
    ensures Done(Follow(s, more)) > Done(s)
  {
    if s.bufferSem == 1 {
      more := QuietProgress(s, size, p, c);
    } else {
      SumZero(s.threads, InSection);
      var t :| 0 <= t < |s.threads| && InSection(s.threads[t]) != 0;
      more := SectionRuns(s, size, p, c, t);
      var r := Follow(s, more);
      if Done(r) == Done(s) {
        var rest := QuietProgress(r, size, p, c);
        FollowConcat(s, more, rest);
        more := more + rest;
      }
    }
  }

  /** From every reachable state in which the program is not exiting, some continuation completes
      an insertion or a removal. */
  lemma Progress(size: nat, roles: seq<Role>, choices: seq<Choice>) returns (more: seq<Choice>)
    requires 0 < size && Producer in roles && Consumer in roles && !After(size, roles, choices).exiting
    ensures Done(After(size, roles, choices + more)) > Done(After(size, roles, choices))
  {
    RunInv(size, roles, choices);
    var p :| 0 <= p < |roles| && roles[p] == Producer;
    var c :| 0 <= c < |roles| && roles[c] == Consumer;
    more := LiveProgress(After(size, roles, choices), size, p, c);
    AfterFollows(size, roles, choices, more);
  }
}
