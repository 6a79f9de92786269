/** The mutex version (workshop/producer-consumer-problem.c): the same buffer under one lock,
    with a retry loop in place of the counting semaphores. */
module Mutexes {
  import opened Sums
  import opened BoundedBuffer

  /** Where a thread is: between calls, at the loop test, at the lock, at the test of the buffer,
      in the critical section, at the unlock after a failed test, or ended. */
  datatype Pc = Idle | Loop(item: int) | Lock(item: int) | Check(item: int) | Inside(sec: Section) | Retry(item: int) | Exited(item: int)

  datatype Thread = Thread(role: Role, pc: Pc)

  datatype System = System(sh: Shared, locked: bool, exiting: bool, threads: seq<Thread>)

  datatype Outcome = Blocked | Faulty | Went(s: System)

  function Start(size: nat, roles: seq<Role>): System {
    System(Shared(seq(size, _ => 0), size, [], []), false, false,
           seq(|roles|, i requires 0 <= i < |roles| => Thread(roles[i], Idle)))
  }

  function Moved(s: System, t: nat, pc: Pc): System
    requires t < |s.threads|
  {
    s.(threads := s.threads[t := s.threads[t].(pc := pc)])
  }

  /** The next statement of thread `t`; a producer between calls makes up item `x`. */
  function Step(s: System, t: nat, x: int): Outcome
    requires t < |s.threads|
  {
    var producer := s.threads[t].role == Producer;
    match s.threads[t].pc
    case Idle => Went(Moved(s, t, Loop(x)))
    case Loop(item) => Went(Moved(s, t, if s.exiting then Exited(item) else Lock(item)))
    case Lock(item) => if s.locked then Blocked else Went(Moved(s, t, Check(item)).(locked := true))
    case Check(item) =>
      if producer then Went(Moved(s, t, if s.sh.space > 0 then Inside(InsPos(item)) else Retry(item)))
      else Went(Moved(s, t, if s.sh.space < |s.sh.buf| then Inside(RemPos) else Retry(item)))
    case Inside(sec) =>
      if IsFinal(sec) then Went(Moved(s, t, Idle).(locked := false))
      else (match SectionStep(s.sh, sec)
            case Fault => Faulty
            case To(sh, sec') => Went(Moved(s, t, Inside(sec')).(sh := sh)))
    case Retry(item) => Went(Moved(s, t, Loop(item)).(locked := false))
    case Exited(_) => Blocked
  }

  function Chosen(s: System, c: Choice): System {
    match c
    case Exit => s.(exiting := true)
    case Run(t, x) =>
      if t < |s.threads| && Step(s, t, x).Went? then Step(s, t, x).s else s
  }

  function After(size: nat, roles: seq<Role>, choices: seq<Choice>): System {
    if choices == [] then Start(size, roles)
    else Chosen(After(size, roles, choices[..|choices| - 1]), choices[|choices| - 1])
  }

  /** 1 for the thread that holds the lock. */
  function Holds(t: Thread): int { if t.pc.Check? || t.pc.Inside? || t.pc.Retry? then 1 else 0 }

  ghost predicate ThreadOk(s: System, t: Thread) {
    && (t.pc.Inside? ==> SectionInv(s.sh, t.pc.sec))
    && (t.pc.Check? || t.pc.Retry? ==> Quiet(s.sh))
    && (t.pc.Inside? ==> (IsInsertion(t.pc.sec) <==> t.role == Producer))
    && (t.pc.Exited? ==> s.exiting)
  }

  ghost predicate Inv(s: System, size: nat) {
    && |s.sh.buf| == size
    && Sum(s.threads, Holds) == (if s.locked then 1 else 0)
    && (!s.locked ==> Quiet(s.sh))
    && (forall t :: 0 <= t < |s.threads| ==> ThreadOk(s, s.threads[t]))
  }

  lemma StartInv(size: nat, roles: seq<Role>)
    ensures Inv(Start(size, roles), size)
  {
    SumZero(Start(size, roles).threads, Holds);
  }

  lemma HolderIsAlone(s: System, size: nat, t: nat)
    requires Inv(s, size) && t < |s.threads| && Holds(s.threads[t]) == 1
    ensures s.locked && forall u :: 0 <= u < |s.threads| && u != t ==> Holds(s.threads[u]) == 0
  {
    SumMember(s.threads, t, Holds);
  }

  /** What the next statement of a thread does to the queue. */
  function StepEvent(t: Thread): Event { if t.pc.Inside? then EventOf(t.pc.sec) else Nothing }

  /** No statement uses an index outside the buffer, and each is at most one step of the same
      bounded queue that the semaphore version implements. */
  lemma StepIsFifo(s: System, size: nat, t: nat, x: int)
    requires Inv(s, size) && t < |s.threads|
    ensures !Step(s, t, x).Faulty?
    ensures Step(s, t, x).Went? ==>
              var r := Step(s, t, x).s;
              |r.sh.buf| == size && FifoStep(Queue(s.sh), StepEvent(s.threads[t]), Queue(r.sh), size)
  {
    var th := s.threads[t];
    assert ThreadOk(s, th);
    if th.pc.Inside? && !IsFinal(th.pc.sec) {
      SectionStepOk(s.sh, th.pc.sec);
    }
  }

  /** The lock goes where the holder goes. */
  lemma StepLock(s: System, t: nat, x: int)
    requires t < |s.threads| && Step(s, t, x).Went? && (Holds(s.threads[t]) == 1 ==> s.locked)
    ensures var r := Step(s, t, x).s;
            && |r.threads| == |s.threads| && r.threads == s.threads[t := r.threads[t]]
            && Holds(r.threads[t]) - Holds(s.threads[t]) == (if r.locked then 1 else 0) - (if s.locked then 1 else 0)
  {
  }

  lemma StepOwn(s: System, size: nat, t: nat, x: int)
    requires Inv(s, size) && t < |s.threads| && Step(s, t, x).Went?
    ensures var r := Step(s, t, x).s;
            ThreadOk(r, r.threads[t]) && (!r.locked ==> Quiet(r.sh))
  {
    var th := s.threads[t];
    assert ThreadOk(s, th);
    if Holds(th) == 1 { HolderIsAlone(s, size, t); }
    if th.pc.Inside? && !IsFinal(th.pc.sec) { SectionStepOk(s.sh, th.pc.sec); }
  }

  lemma StepOthers(s: System, size: nat, t: nat, x: int, u: nat)
    requires Inv(s, size) && t < |s.threads| && u < |s.threads| && u != t && Step(s, t, x).Went?
    ensures ThreadOk(Step(s, t, x).s, s.threads[u])
  {
    assert ThreadOk(s, s.threads[u]);
    if Holds(s.threads[u]) == 1 { HolderIsAlone(s, size, u); }
  }

  lemma StepInv(s: System, size: nat, t: nat, x: int)
    requires Inv(s, size) && t < |s.threads| && Step(s, t, x).Went?
    ensures Inv(Step(s, t, x).s, size)
  {
    var r := Step(s, t, x).s;
    assert |r.sh.buf| == size by { StepIsFifo(s, size, t, x); }
    if Holds(s.threads[t]) == 1 { HolderIsAlone(s, size, t); }
    StepLock(s, t, x);
    StepOwn(s, size, t, x);
    SumUpdate(s.threads, t, r.threads[t], Holds);
    forall u | 0 <= u < |r.threads| ensures ThreadOk(r, r.threads[u]) {
      if u != t { StepOthers(s, size, t, x, u); }
    }
  }

  lemma StepRoles(s: System, t: nat, x: int)
    requires t < |s.threads| && Step(s, t, x).Went?
    ensures |Step(s, t, x).s.threads| == |s.threads|
    ensures forall u :: 0 <= u < |s.threads| ==> Step(s, t, x).s.threads[u].role == s.threads[u].role
  {
  }

  lemma ChosenInv(s: System, size: nat, c: Choice)
    requires Inv(s, size)
    ensures Inv(Chosen(s, c), size) && |Chosen(s, c).threads| == |s.threads|
    ensures forall t :: 0 <= t < |s.threads| ==> Chosen(s, c).threads[t].role == s.threads[t].role
  {
    if c.Exit? {
      var r := s.(exiting := true);
      forall t | 0 <= t < |r.threads| ensures ThreadOk(r, r.threads[t]) {
        assert ThreadOk(s, s.threads[t]);
      }
    } else if c.t < |s.threads| && Step(s, c.t, c.item).Went? {
      StepInv(s, size, c.t, c.item);
      StepRoles(s, c.t, c.item);
    }
  }

  /** Every reachable state, for any threads and any interleaving, satisfies the invariant. */
  lemma RunInv(size: nat, roles: seq<Role>, choices: seq<Choice>)
    ensures Inv(After(size, roles, choices), size)
    ensures |After(size, roles, choices).threads| == |roles|
    ensures forall t :: 0 <= t < |roles| ==> After(size, roles, choices).threads[t].role == roles[t]
  {
    StartInv(size, roles);
    for n := 0 to |choices|
      invariant var s := After(size, roles, choices[..n]);
                Inv(s, size) && |s.threads| == |roles| && forall t :: 0 <= t < |roles| ==> s.threads[t].role == roles[t]
    {
      assert choices[..n + 1][..n] == choices[..n];
      ChosenInv(After(size, roles, choices[..n]), size, choices[n]);
    }
    assert choices[..|choices|] == choices;
  }

  /** What holds of every state that satisfies the invariant. */
  ghost predicate Safe(s: System, size: nat, t: nat, x: int)
    requires t < |s.threads|
  {
    && !Step(s, t, x).Faulty?
    && (forall u :: 0 <= u < |s.threads| && u != t ==> Holds(s.threads[t]) + Holds(s.threads[u]) <= 1)
    && s.sh.ins == s.sh.rem + Queue(s.sh) && |Queue(s.sh)| <= size == |s.sh.buf|
    && (!s.locked ==> s.sh.buf[..|Queue(s.sh)|] == Queue(s.sh))
    && (s.threads[t].pc.Inside? && s.threads[t].pc.sec.Removed? ==> TookLast(s.sh, s.threads[t].pc.sec.item))
  }

  lemma InvIsSafe(s: System, size: nat, t: nat, x: int)
    requires Inv(s, size) && t < |s.threads|
    ensures Safe(s, size, t, x)
  {
    assert ThreadOk(s, s.threads[t]);
    assert !Step(s, t, x).Faulty? by { StepIsFifo(s, size, t, x); }
    if Holds(s.threads[t]) == 1 { HolderIsAlone(s, size, t); }
    QueueCounted(s, size);
  }

  /** In every run no index leaves the buffer, one thread at most holds the lock, and what has
      been removed followed by the queue is what has been inserted; a consumer leaves its critical
      section with the item removed last. */
  lemma RunSafe(size: nat, roles: seq<Role>, choices: seq<Choice>, t: nat, x: int)
    requires t < |roles|
    ensures var s := After(size, roles, choices);
            |s.threads| == |roles| && Safe(s, size, t, x)
  {
    RunInv(size, roles, choices);
    InvIsSafe(After(size, roles, choices), size, t, x);
  }

  lemma QueueCounted(s: System, size: nat)
    requires Inv(s, size)
    ensures Counted(s.sh)
  {
    if s.locked {
      var t := Holder(s, size);
      assert ThreadOk(s, s.threads[t]);
    }
  }

  lemma Holder(s: System, size: nat) returns (t: nat)
    requires Inv(s, size) && s.locked
    ensures t < |s.threads| && Holds(s.threads[t]) == 1
  {
    SumZero(s.threads, Holds);
    t :| 0 <= t < |s.threads| && Holds(s.threads[t]) != 0;
  }

  /** As long as one thread has not ended, some thread can go on. */
  lemma NoDeadlock(size: nat, roles: seq<Role>, choices: seq<Choice>, t: nat)
    requires t < |roles|
    ensures var s := After(size, roles, choices);
            && |s.threads| == |roles|
            && (!s.threads[t].pc.Exited? ==> exists u, x :: 0 <= u < |s.threads| && Step(s, u, x).Went?)
  {
    var s := After(size, roles, choices);
    RunInv(size, roles, choices);
    if !s.threads[t].pc.Exited? {
      var u := t;
      if s.locked { u := Holder(s, size); }
      StepIsFifo(s, size, u, 0);
      assert Step(s, u, 0).Went?;
    }
  }

  // ---- Retrying is not all that can go on ----

  /** The number of insertions and removals so far. */
  function Done(s: System): nat { |s.sh.ins| + |s.sh.rem| }

  /** A bound on the statements that a thread takes alone before it is done or has let go. */
  function ToGo(pc: Pc): nat {
    match pc
    case Idle => 10
    case Loop(_) => 9
    case Lock(_) => 8
    case Check(_) => 7
    case Retry(_) => 1
    case Exited(_) => 0
    case Inside(sec) =>
      match sec
      case InsPos(_) => 6
      case RemPos => 6
      case InsWrite(_, _) => 5
      case RemRead(_) => 5
      case InsCount(_) => 4
      case RemCount(_, _) => 4
      case RemShift(pos, _, i) => if i < pos then 2 + pos - i else 2
      case _ => 1
  }

  /** The next operation of thread `t` finds room, or an item, or has already found it. */
  predicate Sure(s: System, t: nat)
    requires t < |s.threads|
  {
    match s.threads[t].pc
    case Inside(sec) => !IsFinal(sec) && !sec.RemShift?
    case Retry(_) => false
    case Exited(_) => false
    case _ => if s.threads[t].role == Producer then s.sh.space > 0 else s.sh.space < |s.sh.buf|
  }

  /** Thread `t` can run alone: nobody else holds the lock. */
  ghost predicate Free(s: System, size: nat, t: nat) {
    && Inv(s, size) && t < |s.threads| && !s.exiting && !s.threads[t].pc.Exited?
    && (s.locked ==> Holds(s.threads[t]) == 1)
  }

  lemma AloneGains(s: System, t: nat)
    requires t < |s.threads| && Step(s, t, 0).Went?
    ensures var r := Step(s, t, 0).s;
            && |r.threads| == |s.threads| && Done(s) <= Done(r)
            && (Done(r) > Done(s)
                || (!Sure(s, t) && !r.locked)
                || s.exiting
                || (ToGo(r.threads[t].pc) < ToGo(s.threads[t].pc) && (Sure(s, t) ==> Sure(r, t))))
  {
  }

  lemma AloneStaysFree(s: System, t: nat)
    requires t < |s.threads| && Step(s, t, 0).Went? && !s.exiting && (Holds(s.threads[t]) == 1 <==> s.locked)
    ensures var r := Step(s, t, 0).s;
            t < |r.threads| && !r.exiting && !r.threads[t].pc.Exited? && (Holds(r.threads[t]) == 1 <==> r.locked)
  {
  }

  lemma AloneStep(s: System, size: nat, t: nat)
    requires Free(s, size, t)
    ensures Step(s, t, 0).Went?
    ensures Free(Step(s, t, 0).s, size, t)
  {
    assert !Step(s, t, 0).Faulty? by { StepIsFifo(s, size, t, 0); }
    if Holds(s.threads[t]) == 1 { HolderIsAlone(s, size, t); }
    AloneStaysFree(s, t);
    StepInv(s, size, t, 0);
  }

  /** The system after further choices. */
  function Follow(s: System, choices: seq<Choice>): System
    decreases |choices|
  {
    if choices == [] then s else Follow(Chosen(s, choices[0]), choices[1..])
  }

  lemma {:induction false} FollowConcat(s: System, a: seq<Choice>, b: seq<Choice>)
    ensures Follow(s, a + b) == Follow(Follow(s, a), b)
    decreases |a|
  {
    if a == [] {
      assert a + b == b;
    } else {
      assert (a + b)[0] == a[0] && (a + b)[1..] == a[1..] + b;
      FollowConcat(Chosen(s, a[0]), a[1..], b);
    }
  }

  lemma {:induction false} AfterFollows(size: nat, roles: seq<Role>, choices: seq<Choice>, more: seq<Choice>)
    ensures After(size, roles, choices + more) == Follow(After(size, roles, choices), more)
    decreases |more|
  {
    if more == [] {
      assert choices + more == choices;
    } else {
      assert choices + more == (choices + [more[0]]) + more[1..];
      AfterFollows(size, roles, choices + [more[0]], more[1..]);
      assert (choices + [more[0]])[..|choices|] == choices;
    }
  }

  /** A thread that runs alone completes an operation, or gives the lock back if it need not. */
  lemma {:induction false} Alone(s: System, size: nat, t: nat) returns (more: seq<Choice>)
    requires Free(s, size, t)
    ensures var r := Follow(s, more);
            && Free(r, size, t) && |r.threads| == |s.threads|
            && (Done(r) > Done(s) || (!Sure(s, t) && !r.locked && Done(r) == Done(s)))
    decreases ToGo(s.threads[t].pc)
  {
    AloneStep(s, size, t);
    AloneGains(s, t);
    var r := Step(s, t, 0).s;
    assert Chosen(s, Run(t, 0)) == r;
    if Done(r) > Done(s) || (!Sure(s, t) && !r.locked) {
      more := [Run(t, 0)];
      assert Follow(r, more[1..]) == r;
    } else {
      var rest := Alone(r, size, t);
      more := [Run(t, 0)] + rest;
      assert more[1..] == rest;
    }
  }

  /** With the lock free and nobody exiting, a producer or a consumer is sure to succeed. */
  lemma SomeoneIsSure(s: System, size: nat, p: nat, c: nat) returns (t: nat)
    requires Inv(s, size) && 0 < size && !s.locked && !s.exiting && p < |s.threads| && c < |s.threads|
    requires s.threads[p].role == Producer && s.threads[c].role == Consumer
    ensures Free(s, size, t) && Sure(s, t)
  {
    t := if s.sh.space > 0 then p else c;
    SumMember(s.threads, t, Holds);
    assert ThreadOk(s, s.threads[t]);
  }

  /** From every reachable state in which the program is not exiting, some continuation completes
      an insertion or a removal, so the retry loops never lock each other out for good. */
  lemma Progress(size: nat, roles: seq<Role>, choices: seq<Choice>) returns (more: seq<Choice>)
    requires 0 < size && Producer in roles && Consumer in roles && !After(size, roles, choices).exiting
    ensures Done(After(size, roles, choices + more)) > Done(After(size, roles, choices))
  {
    var s := After(size, roles, choices);
    RunInv(size, roles, choices);
    more := [];
    if s.locked {
      var h := Holder(s, size);
      more := Alone(s, size, h);
    }
    var r := Follow(s, more);
    AfterFollows(size, roles, choices, more);
    if Done(r) == Done(s) {
      RunInv(size, roles, choices + more);
      var p :| 0 <= p < |roles| && roles[p] == Producer;
      var c :| 0 <= c < |roles| && roles[c] == Consumer;
      var t := SomeoneIsSure(r, size, p, c);
      var rest := Alone(r, size, t);
      FollowConcat(s, more, rest);
      more := more + rest;
      AfterFollows(size, roles, choices, more);
    }
  }

  // ---- Every item arrives ----

  /** 1 if a producer has made item `v` and not yet inserted it, or has given it up on exit. */
  function Carries(t: Thread, v: int): int {
    if t.role == Consumer then 0
    else
      match t.pc
      case Loop(x) => if x == v then 1 else 0
      case Lock(x) => if x == v then 1 else 0
      case Check(x) => if x == v then 1 else 0
      case Retry(x) => if x == v then 1 else 0
      case Exited(x) => if x == v then 1 else 0
      case Inside(sec) => Bringing(sec, v)
      case _ => 0
  }

  function Carrying(v: int): Thread -> int { (t: Thread) => Carries(t, v) }

  /** A consumer that has removed an item and has not left its critical section. */
  predicate Takes(t: Thread) { t.pc.Inside? && Taking(t.pc.sec) }

  /** The items that producers have made in a run, in order. */
  function Made(size: nat, roles: seq<Role>, choices: seq<Choice>): seq<int> {
    if choices == [] then []
    else
      var n := |choices| - 1;
      Made(size, roles, choices[..n]) + NewItem(After(size, roles, choices[..n]), choices[n])
  }

  /** A producer between calls makes up an item. */
  function NewItem(s: System, c: Choice): seq<int> {
    if c.Run? && c.t < |s.threads| && s.threads[c.t] == Thread(Producer, Idle) then [c.item] else []
  }

  /** The items with which consumers have left their critical sections in a run, in order. */
  function Delivered(size: nat, roles: seq<Role>, choices: seq<Choice>): seq<int> {
    if choices == [] then []
    else
      var n := |choices| - 1;
      var s, c := After(size, roles, choices[..n]), choices[n];
      Delivered(size, roles, choices[..n]) + if c.Run? && c.t < |s.threads| then Leaving(s.threads[c.t]) else []
  }

  /** The item of a thread that is about to leave its critical section with one. */
  function Leaving(t: Thread): seq<int> {
    if t.pc.Inside? && t.pc.sec.Removed? then [t.pc.sec.item] else []
  }

  /** An item is in hand from the moment it is made until it is the one inserted. */
  lemma StepBrings(s: System, t: nat, x: int, v: int)
    requires t < |s.threads| && Step(s, t, x).Went?
    requires var th := s.threads[t]; th.pc.Inside? ==> (IsInsertion(th.pc.sec) <==> th.role == Producer)
    ensures var r := Step(s, t, x).s;
            && t < |r.threads|
            && Count(r.sh.ins, v) + Carries(r.threads[t], v)
               == Count(s.sh.ins, v) + Carries(s.threads[t], v)
                  + if s.threads[t] == Thread(Producer, Idle) && x == v then 1 else 0
  {
    var th := s.threads[t];
    if th.pc.Inside? && !IsFinal(th.pc.sec) {
      SectionBrings(s.sh, th.pc.sec, v);
      var q := SectionStep(s.sh, th.pc.sec);
      assert Step(s, t, x).s.sh == q.sh && Step(s, t, x).s.threads[t] == th.(pc := Inside(q.sec));
    } else {
      assert Step(s, t, x).s.sh == s.sh;
    }
  }

  lemma StepUpdates(s: System, t: nat, x: int)
    requires t < |s.threads| && Step(s, t, x).Went?
    ensures var r := Step(s, t, x).s;
            |r.threads| == |s.threads| && r.threads == s.threads[t := r.threads[t]]
  {
  }

  lemma ChosenBrings(s: System, size: nat, c: Choice, v: int)
    requires Inv(s, size)
    ensures Count(Chosen(s, c).sh.ins, v) + Sum(Chosen(s, c).threads, Carrying(v))
            == Count(s.sh.ins, v) + Sum(s.threads, Carrying(v)) + Count(NewItem(s, c), v)
  {
    if c.Run? && c.t < |s.threads| && Step(s, c.t, c.item).Went? {
      assert ThreadOk(s, s.threads[c.t]);
      StepBrings(s, c.t, c.item, v);
      StepUpdates(s, c.t, c.item);
      SumUpdate(s.threads, c.t, Chosen(s, c).threads[c.t], Carrying(v));
    }
  }

  /** `d` is what has been removed, but for the item of a thread still in its critical section. */
  ghost predicate DeliveredOk(s: System, d: seq<int>) {
    if exists t :: 0 <= t < |s.threads| && Takes(s.threads[t])
    then |s.sh.rem| > 0 && d == s.sh.rem[..|s.sh.rem| - 1]
    else d == s.sh.rem
  }

  lemma OnlyTaker(s: System, size: nat, t: nat, u: nat)
    requires Inv(s, size) && t < |s.threads| && u < |s.threads| && s.threads[t].pc.Inside? && Takes(s.threads[u])
    ensures u == t
  {
    HolderIsAlone(s, size, t);
  }

  lemma StepTakes(s: System, t: nat, x: int)
    requires t < |s.threads| && Step(s, t, x).Went?
    ensures var r, th := Step(s, t, x).s, s.threads[t];
            && |r.threads| == |s.threads| && (forall u :: 0 <= u < |s.threads| && u != t ==> r.threads[u] == s.threads[u])
            && if Takes(th) then r.sh.rem == s.sh.rem && (Takes(r.threads[t]) <==> Leaving(th) == [])
               else if Takes(r.threads[t]) then th.pc.Inside? && r.sh.rem == s.sh.rem + [r.threads[t].pc.sec.item]
               else r.sh.rem == s.sh.rem
  {
  }

  lemma StepDelivers(s: System, size: nat, t: nat, x: int, d: seq<int>)
    requires Inv(s, size) && t < |s.threads| && Step(s, t, x).Went? && DeliveredOk(s, d)
    ensures DeliveredOk(Step(s, t, x).s, d + Leaving(s.threads[t]))
  {
    var r, th := Step(s, t, x).s, s.threads[t];
    StepTakes(s, t, x);
    if th.pc.Inside? {
      assert ThreadOk(s, th);
      forall u | 0 <= u < |s.threads| && Takes(s.threads[u]) ensures u == t {
        OnlyTaker(s, size, t, u);
      }
    } else {
      assert forall u :: 0 <= u < |s.threads| ==> Takes(r.threads[u]) == Takes(s.threads[u]);
    }
  }

  lemma ChosenDelivers(s: System, size: nat, c: Choice, d: seq<int>)
    requires Inv(s, size) && DeliveredOk(s, d)
    ensures DeliveredOk(Chosen(s, c), d + if c.Run? && c.t < |s.threads| then Leaving(s.threads[c.t]) else [])
  {
    if c.Run? && c.t < |s.threads| {
      assert ThreadOk(s, s.threads[c.t]);
      StepIsFifo(s, size, c.t, c.item);
      if Step(s, c.t, c.item).Went? { StepDelivers(s, size, c.t, c.item, d); }
    }
  }

  lemma OneMoreArrives(size: nat, roles: seq<Role>, choices: seq<Choice>, v: int)
    requires choices != []
    ensures var prior := choices[..|choices| - 1];
            var s, r := After(size, roles, prior), After(size, roles, choices);
            Count(r.sh.ins, v) + Sum(r.threads, Carrying(v)) - Count(Made(size, roles, choices), v)
            == Count(s.sh.ins, v) + Sum(s.threads, Carrying(v)) - Count(Made(size, roles, prior), v)
  {
    var prior := choices[..|choices| - 1];
    RunInv(size, roles, prior);
    ChosenBrings(After(size, roles, prior), size, choices[|choices| - 1], v);
  }

  /** In every run the items that producers have made are, each as often as it was made, those
      that have been inserted and those still in hand. */
  lemma {:induction false} EveryItemArrives(size: nat, roles: seq<Role>, choices: seq<Choice>, v: int)
    ensures var s := After(size, roles, choices);
            Count(Made(size, roles, choices), v) == Count(s.sh.ins, v) + Sum(s.threads, Carrying(v))
    decreases |choices|
  {
    if choices == [] {
      SumZero(Start(size, roles).threads, Carrying(v));
    } else {
      EveryItemArrives(size, roles, choices[..|choices| - 1], v);
      OneMoreArrives(size, roles, choices, v);
    }
  }

  /** In every run consumers leave with the inserted items, in the order of their insertion; what
      has been removed beyond that is one item at most, in a critical section. */
  lemma DeliveredInOrder(size: nat, roles: seq<Role>, choices: seq<Choice>)
    ensures var s, d := After(size, roles, choices), Delivered(size, roles, choices);
            && d <= s.sh.rem <= s.sh.ins && |s.sh.rem| <= |d| + 1
            && ((forall t :: 0 <= t < |s.threads| ==> !s.threads[t].pc.Inside?) ==> d == s.sh.rem)
  {
    for n := 0 to |choices|
      invariant DeliveredOk(After(size, roles, choices[..n]), Delivered(size, roles, choices[..n]))
    {
      assert choices[..n + 1][..n] == choices[..n];
      RunInv(size, roles, choices[..n]);
      ChosenDelivers(After(size, roles, choices[..n]), size, choices[n], Delivered(size, roles, choices[..n]));
    }
    assert choices[..|choices|] == choices;
    RunInv(size, roles, choices);
    QueueCounted(After(size, roles, choices), size);
  }

  // ---- Exiting ----

  /** 1 for a thread that may still insert or remove an item once the program is exiting. */
  function Unfinished(t: Thread): int {
    match t.pc
    case Lock(_) => 1
    case Check(_) => 1
    case Inside(sec) => if IsFinal(sec) || Taking(sec) then 0 else 1
    case _ => 0
  }

  lemma StepDrains(s: System, t: nat, x: int)
    requires t < |s.threads| && Step(s, t, x).Went? && s.exiting
    ensures var r := Step(s, t, x).s;
            t < |r.threads| && r.exiting && Done(r) + Unfinished(r.threads[t]) <= Done(s) + Unfinished(s.threads[t])
  {
  }

  lemma ChosenDrains(s: System, c: Choice)
    requires s.exiting
    ensures Chosen(s, c).exiting
    ensures Done(Chosen(s, c)) + Sum(Chosen(s, c).threads, Unfinished) <= Done(s) + Sum(s.threads, Unfinished)
  {
    if c.Run? && c.t < |s.threads| && Step(s, c.t, c.item).Went? {
      StepDrains(s, c.t, c.item);
      StepUpdates(s, c.t, c.item);
      SumUpdate(s.threads, c.t, Chosen(s, c).threads[c.t], Unfinished);
    }
  }

  lemma {:induction false} FollowDrains(s: System, more: seq<Choice>)
    requires s.exiting
    ensures Done(Follow(s, more)) + Sum(Follow(s, more).threads, Unfinished) <= Done(s) + Sum(s.threads, Unfinished)
    decreases |more|
  {
    if more != [] {
      ChosenDrains(s, more[0]);
      FollowDrains(Chosen(s, more[0]), more[1..]);
    }
  }

  lemma {:induction false} UnfinishedBound(ts: seq<Thread>)
    ensures 0 <= Sum(ts, Unfinished) <= |ts|
    decreases |ts|
  {
    if ts != [] { UnfinishedBound(ts[..|ts| - 1]); }
  }

  /** Once the program is exiting, every thread completes at most the operation it has begun. */
  lemma ExitDrains(size: nat, roles: seq<Role>, choices: seq<Choice>, more: seq<Choice>)
    requires After(size, roles, choices).exiting
    ensures Done(After(size, roles, choices + more)) <= Done(After(size, roles, choices)) + |roles|
  {
    RunInv(size, roles, choices);
    AfterFollows(size, roles, choices, more);
    FollowDrains(After(size, roles, choices), more);
    UnfinishedBound(After(size, roles, choices).threads);
    UnfinishedBound(After(size, roles, choices + more).threads);
  }
}
