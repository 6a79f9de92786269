/** The order and the length of the dispatches, and how the two schedulers compare. */
module Schedules {
  import opened Options
  import opened Cpu
  import opened CpuTheorems

  // ---- Every queue is first in, first out ----

  /** The processes dispatched from level `k`, in order. */
  function LevelTrace(trace: seq<Dispatched>, k: nat): seq<nat> {
    if trace == [] then []
    else
      var last := trace[|trace| - 1];
      LevelTrace(trace[..|trace| - 1], k) + if last.level == k then [last.slot] else []
  }

  lemma LevelTraceAppend(trace: seq<Dispatched>, d: Dispatched, k: nat)
    ensures LevelTrace(trace + [d], k) == LevelTrace(trace, k) + if d.level == k then [d.slot] else []
  {
    assert (trace + [d])[..|trace|] == trace;
  }

  /** Between `c` and `r`, `dispatched` left level `k` and `joined` entered it. */
  ghost predicate Moved(c: Sched, r: Sched, k: nat, dispatched: seq<nat>, joined: seq<nat>)
    requires k < |c.ready| && k < |r.ready|
  {
    && LevelTrace(r.trace, k) == LevelTrace(c.trace, k) + dispatched
    && c.ready[k] + joined == dispatched + r.ready[k]
  }

  /** Between `c` and `r`, level `k` was left in the order of its queue, joiners after waiters. */
  ghost predicate InOrder(c: Sched, r: Sched, k: nat)
    requires k < |c.ready| && k < |r.ready|
  {
    exists dispatched, joined :: Moved(c, r, k, dispatched, joined)
  }

  lemma InOrderTransitive(c: Sched, d: Sched, r: Sched, k: nat)
    requires k < |c.ready| && k < |d.ready| && k < |r.ready|
    requires InOrder(c, d, k) && InOrder(d, r, k)
    ensures InOrder(c, r, k)
  {
    var d1, j1 :| Moved(c, d, k, d1, j1);
    var d2, j2 :| Moved(d, r, k, d2, j2);
    assert c.ready[k] + (j1 + j2) == (d1 + d.ready[k]) + j2;
    assert d1 + (d.ready[k] + j2) == (d1 + d2) + r.ready[k];
    assert LevelTrace(c.trace, k) + (d1 + d2) == (LevelTrace(c.trace, k) + d1) + d2;
    assert Moved(c, r, k, d1 + d2, j1 + j2);
  }

  lemma StillInOrder(c: Sched, r: Sched, k: nat, joined: seq<nat>)
    requires k < |c.ready| == |r.ready| && r.trace == c.trace && r.ready[k] == c.ready[k] + joined
    ensures InOrder(c, r, k)
  {
    assert Moved(c, r, k, [], joined);
  }

  lemma {:induction false} AdmittedInOrder(w: seq<Job>, c: Sched, k: nat)
    requires k < |c.ready|
    ensures |Admitted(w, c).ready| == |c.ready| && InOrder(c, Admitted(w, c), k)
    decreases |w| - c.spi
  {
    if c.spi < |w| && w[c.spi].start <= c.time {
      StillInOrder(c, AdmitOne(w, c), k, if k == 0 then [c.spi] else []);
      AdmittedInOrder(w, AdmitOne(w, c), k);
      InOrderTransitive(c, AdmitOne(w, c), Admitted(w, c), k);
    } else {
      StillInOrder(c, c, k, []);
    }
  }

  lemma PickedInOrder(c: Sched, k: nat)
    requires k < |c.ready|
    ensures |Picked(c).ready| == |c.ready| && InOrder(c, Picked(c), k)
  {
    if CanDispatch(c) {
      var j := FirstWaiting(c.ready);
      LevelTraceAppend(c.trace, Dispatched(c.time, Head(c), j), k);
      if k == j {
        assert c.ready[k] + [] == [Head(c)] + Picked(c).ready[k];
        assert Moved(c, Picked(c), k, [Head(c)], []);
      } else {
        assert Moved(c, Picked(c), k, [], []);
      }
    } else {
      StillInOrder(c, c, k, []);
    }
  }

  lemma RanInOrder(p: Policy, c: Sched, k: nat)
    requires Fits(p, c) && k < |c.ready|
    ensures |Ran(p, c).ready| == |c.ready| && InOrder(c, Ran(p, c), k)
  {
    var r := Ran(p, c);
    if r.ready[k] == c.ready[k] {
      StillInOrder(c, r, k, []);
    } else {
      StillInOrder(c, r, k, [c.running.value]);
    }
  }

  lemma NextInOrder(p: Policy, w: seq<Job>, c: Sched, k: nat)
    requires Fits(p, c) && k < Levels(p)
    ensures InOrder(c, Next(p, w, c), k)
  {
    if Over(w, c) {
      StillInOrder(c, c, k, []);
    } else {
      var a := Admitted(w, c);
      AdmittedInOrder(w, c, k);
      PickedInOrder(a, k);
      RanInOrder(p, Picked(a), k);
      InOrderTransitive(c, a, Picked(a), k);
      InOrderTransitive(c, Picked(a), Ran(p, Picked(a)), k);
    }
  }

  lemma OneMoreInOrder(p: Policy, w: seq<Job>, c: Sched, n: nat, k: nat)
    requires GoodPolicy(p) && Fits(p, c) && k < Levels(p) && InOrder(c, After(p, w, n), k)
    ensures InOrder(c, After(p, w, n + 1), k)
  {
    NextInOrder(p, w, After(p, w, n), k);
    InOrderTransitive(c, After(p, w, n), After(p, w, n + 1), k);
  }

  /** In every run, between any two moments, the processes of a level are dispatched in the
      order in which they joined it. */
  lemma QueuesAreFifo(p: Policy, w: seq<Job>, n: nat, m: nat, k: nat)
    requires GoodPolicy(p) && n <= m && k < Levels(p)
    ensures InOrder(After(p, w, n), After(p, w, m), k)
  {
    var c := After(p, w, n);
    StillInOrder(c, c, k, []);
    for l := n to m
      invariant InOrder(c, After(p, w, l), k)
    {
      OneMoreInOrder(p, w, c, l, k);
    }
  }

  // ---- First dispatches come in file order ----

  function Upto(n: nat): seq<nat> { seq(n, i => i) }

  /** No process returns to the top level. */
  predicate TopIsFresh(p: Policy) { p.Fcfs? || 1 < Levels(p) }

  ghost predicate FileOrder(c: Sched)
    requires c.ready != []
  {
    LevelTrace(c.trace, 0) + c.ready[0] == Upto(c.spi)
  }

  lemma {:induction false} AdmittedFileOrder(w: seq<Job>, c: Sched)
    requires c.ready != [] && FileOrder(c)
    ensures Admitted(w, c).ready != [] && FileOrder(Admitted(w, c))
    decreases |w| - c.spi
  {
    if c.spi < |w| && w[c.spi].start <= c.time {
      var r := AdmitOne(w, c);
      assert LevelTrace(r.trace, 0) + r.ready[0] == Upto(c.spi) + [c.spi];
      assert Upto(c.spi + 1) == Upto(c.spi) + [c.spi];
      AdmittedFileOrder(w, r);
    }
  }

  lemma PickedFileOrder(c: Sched)
    requires c.ready != [] && FileOrder(c)
    ensures FileOrder(Picked(c))
  {
    if CanDispatch(c) {
      var j := FirstWaiting(c.ready);
      LevelTraceAppend(c.trace, Dispatched(c.time, Head(c), j), 0);
      if j == 0 {
        assert c.ready[0] == [Head(c)] + c.ready[0][1..];
      }
    }
  }

  lemma RanFileOrder(p: Policy, c: Sched)
    requires Fits(p, c) && TopIsFresh(p) && FileOrder(c)
    ensures Ran(p, c).ready != [] && FileOrder(Ran(p, c))
  {
    assert Ran(p, c).ready[0] == c.ready[0];
  }

  lemma NextFileOrder(p: Policy, w: seq<Job>, c: Sched)
    requires Fits(p, c) && TopIsFresh(p) && FileOrder(c)
    ensures FileOrder(Next(p, w, c))
  {
    var a := Admitted(w, c);
    AdmittedFileOrder(w, c);
    PickedFileOrder(a);
    RanFileOrder(p, Picked(a));
  }

  lemma RunFileOrder(p: Policy, w: seq<Job>, n: nat)
    requires GoodPolicy(p) && TopIsFresh(p)
    ensures FileOrder(After(p, w, n))
  {
    assert Initial(p).ready[0] == [];
    for k := 0 to n
      invariant FileOrder(After(p, w, k))
    {
      NextFileOrder(p, w, After(p, w, k));
    }
  }

  function Slots(trace: seq<Dispatched>): seq<nat> { seq(|trace|, i requires 0 <= i < |trace| => trace[i].slot) }

  lemma {:induction false} SingleLevel(trace: seq<Dispatched>)
    requires forall i :: 0 <= i < |trace| ==> trace[i].level == 0
    ensures LevelTrace(trace, 0) == Slots(trace)
    decreases |trace|
  {
    if trace != [] {
      SingleLevel(trace[..|trace| - 1]);
      assert Slots(trace) == Slots(trace[..|trace| - 1]) + [trace[|trace| - 1].slot];
    }
  }

  lemma FcfsSingleLevel(w: seq<Job>, n: nat)
    ensures forall i :: 0 <= i < |After(Fcfs, w, n).trace| ==> After(Fcfs, w, n).trace[i].level == 0
  {
    for k := 0 to n
      invariant forall i :: 0 <= i < |After(Fcfs, w, k).trace| ==> After(Fcfs, w, k).trace[i].level == 0
    {
    }
  }

  /** Under FCFS the processes are dispatched in file order, and at the end each exactly once. */
  lemma FcfsDispatchesInFileOrder(w: seq<Job>, n: nat)
    ensures Slots(After(Fcfs, w, n).trace) <= Upto(After(Fcfs, w, n).spi)
    ensures Over(w, After(Fcfs, w, n)) ==> Slots(After(Fcfs, w, n).trace) == Upto(|w|)
  {
    var c := After(Fcfs, w, n);
    RunFileOrder(Fcfs, w, n);
    FcfsSingleLevel(w, n);
    SingleLevel(c.trace);
    if Over(w, c) {
      RunInv(Fcfs, w, n);
      OverMeansDone(Fcfs, w, c);
      assert !CanDispatch(c);
      assert FirstWaiting(c.ready) == |c.ready|;
      assert c.ready[0] == [];
    }
  }

  // ---- How long a dispatch lasts ----

  /** The steps that the running process goes on for. */
  function BurstLeft(p: Policy, b: Pcb): int
    requires b.level < Levels(p)
  {
    var left := Need(b.jobTime) - b.cpu;
    match p
    case Fcfs => left
    case Mlfq(quanta) => if left <= quanta[b.level] - b.burst then left else quanta[b.level] - b.burst
  }

  ghost predicate RunsOn(p: Policy, c: Sched, i: nat, left: int) {
    if left == 0 then c.running == None
    else c.running == Some(i) && i < |c.pcbs| && c.pcbs[i].level < Levels(p) && BurstLeft(p, c.pcbs[i]) == left
  }

  lemma RanRunsOn(p: Policy, c: Sched, i: nat)
    requires Fits(p, c) && c.running == Some(i) && i < |c.pcbs| && RunningOk(p, c.pcbs[i])
    ensures BurstLeft(p, c.pcbs[i]) >= 1
    ensures RunsOn(p, Ran(p, c), i, BurstLeft(p, c.pcbs[i]) - 1)
    ensures Ran(p, c).trace == c.trace
  {
  }

  lemma NextRunsOn(p: Policy, w: seq<Job>, c: Sched, i: nat)
    requires GoodPolicy(p) && Inv(p, w, c) && c.running == Some(i)
    ensures i < |c.pcbs| && c.pcbs[i].level < Levels(p) && BurstLeft(p, c.pcbs[i]) >= 1
    ensures RunsOn(p, Next(p, w, c), i, BurstLeft(p, c.pcbs[i]) - 1)
    ensures Next(p, w, c).trace == c.trace
  {
    var a := Admitted(w, c);
    assert Inv(p, w, a) by { AdmittedInv(p, w, c); }
    AdmittedKeeps(w, c, i);
    RanRunsOn(p, a, i);
  }

  lemma {:induction false} AdmittedKeeps(w: seq<Job>, c: Sched, i: nat)
    requires c.ready != [] && i < |c.pcbs|
    ensures i < |Admitted(w, c).pcbs| && Admitted(w, c).pcbs[i] == c.pcbs[i]
    decreases |w| - c.spi
  {
    if c.spi < |w| && w[c.spi].start <= c.time {
      AdmittedKeeps(w, AdmitOne(w, c), i);
    }
  }

  /** A process has just been dispatched for `d` steps, the first of which it has used. */
  lemma DispatchNext(p: Policy, w: seq<Job>, c: Sched)
    requires GoodPolicy(p) && Inv(p, w, c) && CanDispatch(Admitted(w, c))
    ensures
      var a := Admitted(w, c);
      var i, k := Head(a), FirstWaiting(a.ready);
      && i < |a.pcbs| && k < Levels(p) && a.pcbs[i].level == k && a.pcbs[i].burst == 0
      && BurstLeft(p, a.pcbs[i]) >= 1
      && RunsOn(p, Next(p, w, c), i, BurstLeft(p, a.pcbs[i]) - 1)
      && Next(p, w, c).trace == c.trace + [Dispatched(c.time, i, k)]
  {
    var a := Admitted(w, c);
    assert Inv(p, w, a) by { AdmittedInv(p, w, c); }
    var i, k := Head(a), FirstWaiting(a.ready);
    assert WaitingOk(p, a.pcbs, i, k);
    assert Inv(p, w, Loaded(a)) by { LoadedInv(p, w, a); }
    RanRunsOn(p, Loaded(a), i);
    assert Next(p, w, c) == Ran(p, Loaded(a));
  }

  /** Every new line of the trace names the head of a queue, and every queue of higher priority
      is empty when it is written. */
  lemma StrictPriority(p: Policy, w: seq<Job>, c: Sched)
    requires Fits(p, c) && Next(p, w, c).trace != c.trace
    ensures CanDispatch(Admitted(w, c))
    ensures var a, k := Admitted(w, c), FirstWaiting(Admitted(w, c).ready);
            && Next(p, w, c).trace == c.trace + [Dispatched(c.time, a.ready[k][0], k)]
            && forall j :: 0 <= j < k ==> a.ready[j] == []
  {
  }

  /** In state `c` process `i` has `left` more steps to run, and `trace` is the log. */
  ghost predicate Keeps(p: Policy, c: Sched, i: nat, left: int, trace: seq<Dispatched>) {
    RunsOn(p, c, i, left) && c.trace == trace
  }

  /** The states of a run by number. */
  function Run(p: Policy, w: seq<Job>): nat -> Sched
    requires GoodPolicy(p)
  {
    (n: nat) => After(p, w, n)
  }

  /** State `k` of `run` satisfies the invariant, and state `k + 1` follows it. */
  ghost predicate Follows(p: Policy, w: seq<Job>, run: nat -> Sched, k: nat)
    requires GoodPolicy(p)
  {
    Inv(p, w, run(k)) && run(k + 1) == Next(p, w, run(k))
  }

  lemma RunFollows(p: Policy, w: seq<Job>, k: nat)
    requires GoodPolicy(p)
    ensures Follows(p, w, Run(p, w), k)
  {
    RunInv(p, w, k);
  }

  lemma OneMoreKeeps(p: Policy, w: seq<Job>, run: nat -> Sched, k: nat, i: nat, left: int, trace: seq<Dispatched>)
    requires GoodPolicy(p) && Follows(p, w, run, k) && Keeps(p, run(k), i, left, trace) && 1 <= left
    ensures Keeps(p, run(k + 1), i, left - 1, trace)
  {
    NextRunsOn(p, w, run(k), i);
  }

  lemma KeepsRunning(p: Policy, w: seq<Job>, run: nat -> Sched, n: nat, m: nat, i: nat, left: int, trace: seq<Dispatched>)
    requires GoodPolicy(p) && (forall k: nat :: Follows(p, w, run, k))
    requires Keeps(p, run(n), i, left, trace) && n <= m <= n + left
    ensures Keeps(p, run(m), i, left - (m - n), trace)
  {
    for k := n to m
      invariant Keeps(p, run(k), i, left - (k - n), trace)
    {
      OneMoreKeeps(p, w, run, k, i, left - (k - n), trace);
    }
  }

  /** The dispatch of `i` from level `k` at state `a` lasts `d` steps. */
  ghost predicate Begins(p: Policy, a: Sched, i: nat, k: nat, d: int) {
    && CanDispatch(a) && i == Head(a) && k == FirstWaiting(a.ready) && i < |a.pcbs| && k < Levels(p)
    && var left := Need(a.pcbs[i].jobTime) - a.pcbs[i].cpu;
       d == (if p.Fcfs? || left <= p.quanta[k] then left else p.quanta[k]) >= 1
  }

  lemma DispatchKeeps(p: Policy, w: seq<Job>, n: nat) returns (i: nat, k: nat, d: int)
    requires GoodPolicy(p) && CanDispatch(Admitted(w, After(p, w, n)))
    ensures Begins(p, Admitted(w, After(p, w, n)), i, k, d)
    ensures Keeps(p, After(p, w, n + 1), i, d - 1, After(p, w, n).trace + [Dispatched(After(p, w, n).time, i, k)])
  {
    var c := After(p, w, n);
    RunInv(p, w, n);
    DispatchNext(p, w, c);
    var a := Admitted(w, c);
    i, k := Head(a), FirstWaiting(a.ready);
    d := BurstLeft(p, a.pcbs[i]);
  }

  /** In every run, a process dispatched in the next iteration keeps the processor for exactly
      the smaller of its level's quantum and its remaining work, and is then off it. */
  lemma DispatchLasts(p: Policy, w: seq<Job>, n: nat, m: nat) returns (i: nat, k: nat, d: int)
    requires GoodPolicy(p) && CanDispatch(Admitted(w, After(p, w, n)))
    ensures Begins(p, Admitted(w, After(p, w, n)), i, k, d)
    ensures n < m < n + d ==> After(p, w, m).running == Some(i)
    ensures m == n + d ==> After(p, w, m).running == None
    ensures n < m <= n + d ==> After(p, w, m).trace == After(p, w, n).trace + [Dispatched(After(p, w, n).time, i, k)]
  {
    i, k, d := DispatchKeeps(p, w, n);
    if n < m <= n + d {
      forall j: nat ensures Follows(p, w, Run(p, w), j) {
        RunFollows(p, w, j);
      }
      KeepsRunning(p, w, Run(p, w), n + 1, m, i, d - 1, After(p, w, n).trace + [Dispatched(After(p, w, n).time, i, k)]);
    }
  }

  // ---- When the feedback queue is first come, first served ----

  /** An FCFS state with further, empty queues. */
  function Widened(f: Sched, levels: nat): Sched
    requires f.ready != [] && 0 < levels
  {
    f.(ready := [f.ready[0]] + seq(levels - 1, _ => []))
  }

  lemma {:induction false} AdmittedWidened(w: seq<Job>, f: Sched, levels: nat)
    requires |f.ready| == 1 && 0 < levels
    ensures |Admitted(w, f).ready| == 1
    ensures Admitted(w, Widened(f, levels)) == Widened(Admitted(w, f), levels)
    decreases |w| - f.spi
  {
    if f.spi < |w| && w[f.spi].start <= f.time {
      AdmittedWidened(w, AdmitOne(w, f), levels);
      assert AdmitOne(w, Widened(f, levels)) == Widened(AdmitOne(w, f), levels);
    }
  }

  lemma PickedWidened(f: Sched, levels: nat)
    requires |f.ready| == 1 && 0 < levels
    ensures CanDispatch(Widened(f, levels)) <==> CanDispatch(f)
    ensures CanDispatch(f) ==> Head(Widened(f, levels)) == Head(f)
    ensures |Picked(f).ready| == 1 && Picked(Widened(f, levels)) == Widened(Picked(f), levels)
  {
    var m := Widened(f, levels);
    if f.ready[0] != [] {
      assert FirstWaiting(m.ready) == 0 == FirstWaiting(f.ready);
    } else {
      var k := FirstWaiting(m.ready);
      assert forall j :: 0 <= j < |m.ready| ==> m.ready[j] == [];
      assert FirstWaiting(f.ready) == 1 && k == |m.ready|;
    }
    if CanDispatch(f) {
      assert Picked(m).ready == Widened(Picked(f), levels).ready;
    }
  }

  lemma RanWidened(p: Policy, f: Sched)
    requires GoodPolicy(p) && p.Mlfq? && |f.ready| == 1
    requires f.running.Some? ==>
               f.running.value < |f.pcbs| &&
               RunningOk(Fcfs, f.pcbs[f.running.value]) && Need(f.pcbs[f.running.value].jobTime) <= p.quanta[0]
    ensures |Ran(Fcfs, f).ready| == 1 && Ran(p, Widened(f, Levels(p))) == Widened(Ran(Fcfs, f), Levels(p))
  {
  }

  ghost predicate ShortJobs(w: seq<Job>, q: int) {
    forall i :: 0 <= i < |w| ==> Need(w[i].time) <= q
  }

  lemma NextWidened(p: Policy, w: seq<Job>, f: Sched)
    requires GoodPolicy(p) && p.Mlfq? && ShortJobs(w, p.quanta[0]) && Inv(Fcfs, w, f)
    ensures Next(p, w, Widened(f, Levels(p))) == Widened(Next(Fcfs, w, f), Levels(p))
    ensures Over(w, Widened(f, Levels(p))) <==> Over(w, f)
  {
    var a := Admitted(w, f);
    AdmittedWidened(w, f, Levels(p));
    assert Inv(Fcfs, w, a) by { AdmittedInv(Fcfs, w, f); }
    assert Inv(Fcfs, w, Picked(a)) by { PickedInv(Fcfs, w, a); }
    PickedWidened(a, Levels(p));
    var b := Picked(a);
    if b.running.Some? {
      var i := b.running.value;
      assert RecordOk(Fcfs, w[i], b.pcbs[i], TimesDispatched(b.trace, i));
    }
    RanWidened(p, b);
  }

  lemma NextWidenedInRun(p: Policy, w: seq<Job>, n: nat)
    requires GoodPolicy(p) && p.Mlfq? && ShortJobs(w, p.quanta[0])
    requires After(p, w, n) == Widened(After(Fcfs, w, n), Levels(p))
    ensures After(p, w, n + 1) == Widened(After(Fcfs, w, n + 1), Levels(p))
  {
    RunInv(Fcfs, w, n);
    NextWidened(p, w, After(Fcfs, w, n));
  }

  /** If no job outlasts the first quantum, the feedback queue goes through exactly the states
      of FCFS, its lower queues staying empty. */
  lemma ShortJobsRunFcfs(p: Policy, w: seq<Job>, n: nat)
    requires GoodPolicy(p) && p.Mlfq? && ShortJobs(w, p.quanta[0])
    ensures After(p, w, n) == Widened(After(Fcfs, w, n), Levels(p))
  {
    assert Initial(p) == Widened(Initial(Fcfs), Levels(p));
    for k := 0 to n
      invariant After(p, w, k) == Widened(After(Fcfs, w, k), Levels(p))
    {
      NextWidenedInRun(p, w, k);
    }
  }

  /** The feedback queue dispatches as FCFS does if and only if no job outlasts the first quantum. */
  lemma SameDispatchesIffShortJobs(p: Policy, w: seq<Job>)
    requires GoodPolicy(p) && p.Mlfq?
    ensures 0 <= FinishTime(w)
    ensures After(p, w, FinishTime(w)).trace == After(Fcfs, w, FinishTime(w)).trace <==> ShortJobs(w, p.quanta[0])
  {
    RunEnds(p, w, 0);
    var n: nat := FinishTime(w);
    if ShortJobs(w, p.quanta[0]) { ShortJobsRunFcfs(p, w, n); }
    RunEnds(p, w, n);
    RunEnds(Fcfs, w, n);
    RunInv(p, w, n);
    RunInv(Fcfs, w, n);
    OverMeansDone(p, w, After(p, w, n));
    OverMeansDone(Fcfs, w, After(Fcfs, w, n));
    if After(p, w, n).trace == After(Fcfs, w, n).trace {
      forall i | 0 <= i < |w| ensures Need(w[i].time) <= p.quanta[0] {
        OneDispatch(p, 0, Need(w[i].time));
      }
    }
  }
}
