/** Whole runs of the two schedulers. */
module CpuTheorems {
  import opened Sums
  import opened Cpu

  // ---- Work conservation: both schedulers refine one machine that only counts work ----

  /** The clock, the number of admitted jobs and the work they still need. */
  datatype Load = Load(time: int, spi: nat, left: int)

  function LoadAdmitted(w: seq<Job>, l: Load): Load
    decreases |w| - l.spi
  {
    if l.spi < |w| && w[l.spi].start <= l.time
    then LoadAdmitted(w, Load(l.time, l.spi + 1, l.left + Need(w[l.spi].time)))
    else l
  }

  function LoadStep(w: seq<Job>, l: Load): Load {
    var a := LoadAdmitted(w, l);
    Load(a.time + 1, a.spi, if a.left > 0 then a.left - 1 else a.left)
  }

  predicate LoadOver(w: seq<Job>, l: Load) {
    var a := LoadAdmitted(w, l);
    a.left == 0 && a.spi >= |w|
  }

  function Remaining(b: Pcb): int { Need(b.jobTime) - b.cpu }

  function Left(c: Sched): int { Sum(c.pcbs, Remaining) }

  function LoadOf(c: Sched): Load { Load(c.time, c.spi, Left(c)) }

  lemma AdmitOneLoad(w: seq<Job>, c: Sched)
    requires c.ready != [] && c.spi < |w|
    ensures LoadOf(AdmitOne(w, c)) == Load(c.time, c.spi + 1, Left(c) + Need(w[c.spi].time))
  {
    SumAppend(c.pcbs, NewPcb(w[c.spi]), Remaining);
  }

  lemma {:induction false} AdmittedLoad(w: seq<Job>, c: Sched)
    requires c.ready != []
    ensures LoadOf(Admitted(w, c)) == LoadAdmitted(w, LoadOf(c))
    decreases |w| - c.spi
  {
    if c.spi < |w| && w[c.spi].start <= c.time {
      AdmitOneLoad(w, c);
      AdmittedLoad(w, AdmitOne(w, c));
    }
  }

  lemma RemainingNonnegative(p: Policy, w: seq<Job>, c: Sched)
    requires GoodPolicy(p) && Inv(p, w, c)
    ensures forall i :: 0 <= i < |c.pcbs| ==> 0 <= Remaining(c.pcbs[i])
  {
    forall i | 0 <= i < |c.pcbs| ensures 0 <= Remaining(c.pcbs[i]) {
      assert RecordOk(p, w[i], c.pcbs[i], TimesDispatched(c.trace, i));
    }
  }

  /** The processor idles exactly when no admitted process is unfinished. */
  lemma IdleIffNoWork(p: Policy, w: seq<Job>, c: Sched)
    requires GoodPolicy(p) && Inv(p, w, c)
    ensures 0 <= Left(c)
    ensures c.running.None? && !CanDispatch(c) <==> Left(c) == 0
    ensures Left(c) == 0 ==> forall i :: 0 <= i < c.spi ==> i in c.done
  {
    RemainingNonnegative(p, w, c);
    SumNonnegative(c.pcbs, Remaining);
    SumZero(c.pcbs, Remaining);
    if c.running.None? && !CanDispatch(c) {
      forall i | 0 <= i < |c.pcbs| ensures i in c.done && Remaining(c.pcbs[i]) == 0 {
        InOnePlace(c, i);
        assert DoneOk(c.pcbs[i]);
      }
    } else {
      if c.running.None? { assert WaitingOk(p, c.pcbs, Head(c), FirstWaiting(c.ready)); }
      var i := if c.running.Some? then c.running.value else Head(c);
      assert Remaining(c.pcbs[i]) > 0;
    }
  }

  lemma PickedLoad(a: Sched)
    ensures LoadOf(Picked(a)) == LoadOf(a)
  {
    if CanDispatch(a) && Head(a) < |a.pcbs| {
      SumUpdate(a.pcbs, Head(a), Picked(a).pcbs[Head(a)], Remaining);
    }
  }

  lemma RanLoad(p: Policy, b: Sched)
    requires Fits(p, b) && (b.running.Some? ==> b.running.value < |b.pcbs|)
    ensures LoadOf(Ran(p, b)) == Load(b.time + 1, b.spi, Left(b) - if b.running.Some? then 1 else 0)
  {
    if b.running.Some? {
      var i := b.running.value;
      var r := Ran(p, b).pcbs[i];
      assert Ran(p, b).pcbs == b.pcbs[i := r];
      SumUpdate(b.pcbs, i, r, Remaining);
    }
  }

  function LoadNext(w: seq<Job>, l: Load): Load {
    if LoadOver(w, l) then l else LoadStep(w, l)
  }

  lemma StepLoadOf(p: Policy, a: Sched)
    requires Fits(p, a) && (Picked(a).running.Some? ==> Picked(a).running.value < |Picked(a).pcbs|)
    requires a.running.None? && !CanDispatch(a) <==> Left(a) == 0
    ensures LoadOf(Ran(p, Picked(a))) == Load(a.time + 1, a.spi, if Left(a) == 0 then 0 else Left(a) - 1)
  {
    PickedLoad(a);
    RanLoad(p, Picked(a));
  }

  /** One iteration of either scheduler is one step of the work machine. */
  lemma StepLoad(p: Policy, w: seq<Job>, c: Sched)
    requires GoodPolicy(p) && Inv(p, w, c)
    ensures 0 <= Left(c)
    ensures Over(w, c) <==> LoadOver(w, LoadOf(c))
    ensures LoadOf(Next(p, w, c)) == LoadNext(w, LoadOf(c))
  {
    var a := Admitted(w, c);
    AdmittedLoad(w, c);
    assert 0 <= Left(c) by { IdleIffNoWork(p, w, c); }
    assert Inv(p, w, a) by { AdmittedInv(p, w, c); }
    assert 0 <= Left(a) && (a.running.None? && !CanDispatch(a) <==> Left(a) == 0) by { IdleIffNoWork(p, w, a); }
    assert Inv(p, w, Picked(a)) by { PickedInv(p, w, a); }
    StepLoadOf(p, a);
  }

  /** When all of the work up to job `spi` is done by `t`, the rest is done by this time. */
  function Predict(w: seq<Job>, spi: nat, t: int): int
    decreases |w| - spi
  {
    if spi >= |w| then t
    else Predict(w, spi + 1, (if t < w[spi].start then w[spi].start else t) + Need(w[spi].time))
  }

  /** The jobs one after the other, in file order, each as early as it may start. */
  function FinishTime(w: seq<Job>): int { Predict(w, 0, 0) }

  lemma {:induction false} PredictGrows(w: seq<Job>, spi: nat, t: int)
    ensures Predict(w, spi, t) >= t
    ensures spi < |w| ==> Predict(w, spi, t) > t
    decreases |w| - spi
  {
    if spi < |w| {
      PredictGrows(w, spi + 1, (if t < w[spi].start then w[spi].start else t) + Need(w[spi].time));
    }
  }

  lemma {:induction false} LoadAdmittedPredict(w: seq<Job>, l: Load)
    requires 0 <= l.left
    ensures var a := LoadAdmitted(w, l);
            && 0 <= a.left && a.time == l.time && (a.spi < |w| ==> a.time < w[a.spi].start)
            && Predict(w, a.spi, a.time + a.left) == Predict(w, l.spi, l.time + l.left)
    decreases |w| - l.spi
  {
    if l.spi < |w| && w[l.spi].start <= l.time {
      LoadAdmittedPredict(w, Load(l.time, l.spi + 1, l.left + Need(w[l.spi].time)));
    }
  }

  lemma LoadNextPredict(w: seq<Job>, l: Load)
    requires 0 <= l.left
    ensures var r, end := LoadNext(w, l), Predict(w, l.spi, l.time + l.left);
            && l.time <= end && 0 <= r.left && Predict(w, r.spi, r.time + r.left) == end
            && (LoadOver(w, l) <==> l.time == end)
            && (l.time < end ==> r.time == l.time + 1)
  {
    LoadAdmittedPredict(w, l);
    var a := LoadAdmitted(w, l);
    PredictGrows(w, a.spi, a.time + a.left);
  }

  function LoadAfter(w: seq<Job>, n: nat): Load {
    if n == 0 then Load(0, 0, 0) else LoadNext(w, LoadAfter(w, n - 1))
  }

  lemma LoadRun(w: seq<Job>, n: nat)
    ensures var l := LoadAfter(w, n);
            && 0 <= l.left && 0 <= FinishTime(w)
            && Predict(w, l.spi, l.time + l.left) == FinishTime(w)
            && l.time == (if n < FinishTime(w) then n else FinishTime(w))
  {
    PredictGrows(w, 0, 0);
    for k := 0 to n
      invariant var l := LoadAfter(w, k);
                && 0 <= l.left
                && Predict(w, l.spi, l.time + l.left) == FinishTime(w)
                && l.time == (if k < FinishTime(w) then k else FinishTime(w))
    {
      LoadNextPredict(w, LoadAfter(w, k));
    }
  }

  lemma LoadRunEnds(w: seq<Job>, n: nat)
    ensures 0 <= FinishTime(w)
    ensures LoadOver(w, LoadAfter(w, n)) <==> n >= FinishTime(w)
    ensures LoadAfter(w, n).time == if n < FinishTime(w) then n else FinishTime(w)
  {
    LoadRun(w, n);
    LoadNextPredict(w, LoadAfter(w, n));
  }

  lemma StepLoadInRun(p: Policy, w: seq<Job>, n: nat)
    requires GoodPolicy(p)
    ensures LoadOf(After(p, w, n + 1)) == LoadNext(w, LoadOf(After(p, w, n)))
  {
    RunInv(p, w, n);
    StepLoad(p, w, After(p, w, n));
  }

  lemma OverInRun(p: Policy, w: seq<Job>, n: nat)
    requires GoodPolicy(p)
    ensures Over(w, After(p, w, n)) <==> LoadOver(w, LoadOf(After(p, w, n)))
  {
    RunInv(p, w, n);
    StepLoad(p, w, After(p, w, n));
  }

  lemma RunLoad(p: Policy, w: seq<Job>, n: nat)
    requires GoodPolicy(p)
    ensures LoadOf(After(p, w, n)) == LoadAfter(w, n)
  {
    for k := 0 to n
      invariant LoadOf(After(p, w, k)) == LoadAfter(w, k)
    {
      StepLoadInRun(p, w, k);
    }
  }

  /** Every run ends, after exactly FinishTime iterations, and its clock then shows that time. */
  lemma RunEnds(p: Policy, w: seq<Job>, n: nat)
    requires GoodPolicy(p)
    ensures 0 <= FinishTime(w)
    ensures Over(w, After(p, w, n)) <==> n >= FinishTime(w)
    ensures After(p, w, n).time == if n < FinishTime(w) then n else FinishTime(w)
  {
    RunLoad(p, w, n);
    OverInRun(p, w, n);
    LoadRunEnds(w, n);
  }

  /** At every time the two schedulers have admitted the same jobs and have the same amount of
      work left, whatever their quanta. */
  lemma SameLoad(p: Policy, q: Policy, w: seq<Job>, n: nat)
    requires GoodPolicy(p) && GoodPolicy(q)
    ensures LoadOf(After(p, w, n)) == LoadOf(After(q, w, n))
  {
    RunLoad(p, w, n);
    RunLoad(q, w, n);
  }

  // ---- The end of a run ----

  lemma {:induction false} AdmittedWaits(w: seq<Job>, c: Sched)
    requires c.ready != []
    ensures |Admitted(w, c).ready| == |c.ready| && |c.ready[0]| <= |Admitted(w, c).ready[0]|
    ensures Admitted(w, c) == c || Admitted(w, c).ready[0] != []
    decreases |w| - c.spi
  {
    if c.spi < |w| && w[c.spi].start <= c.time {
      AdmittedWaits(w, AdmitOne(w, c));
    }
  }

  /** A run is over only when every job is terminated, having run for exactly its time, or for
      one step if its time is not positive. */
  lemma OverMeansDone(p: Policy, w: seq<Job>, c: Sched)
    requires GoodPolicy(p) && Inv(p, w, c) && Over(w, c)
    ensures Admitted(w, c) == c && c.spi == |w| && c.running.None?
    ensures forall i :: 0 <= i < |w| ==> i in c.done && c.pcbs[i].state == Terminated && c.pcbs[i].cpu == Need(w[i].time)
    ensures forall i :: 0 <= i < |w| ==> TimesDispatched(c.trace, i) == Dispatches(p, 0, Need(w[i].time))
  {
    AdmittedInv(p, w, c);
    AdmittedWaits(w, c);
    var a := Admitted(w, c);
    assert FirstWaiting(a.ready) == |a.ready|;
    assert a.ready[0] == [];
    IdleIffNoWork(p, w, c);
    forall i | 0 <= i < |w|
      ensures i in c.done && c.pcbs[i].state == Terminated && c.pcbs[i].cpu == Need(w[i].time)
      ensures TimesDispatched(c.trace, i) == Dispatches(p, 0, Need(w[i].time))
    {
      assert DoneOk(c.pcbs[i]);
      assert RecordOk(p, w[i], c.pcbs[i], TimesDispatched(c.trace, i));
    }
  }

  // ---- How often each process is dispatched ----

  function CeilDiv(x: int, d: int): int
    requires 0 < d
  {
    (x + d - 1) / d
  }

  lemma {:induction false} LastLevelDispatches(left: int)
    requires 1 <= left
    ensures Dispatches(STANDARD, 2, left) == CeilDiv(left, 8)
    decreases left
  {
    if left > 8 {
      LastLevelDispatches(left - 8);
      assert CeilDiv(left, 8) == 1 + CeilDiv(left - 8, 8);
    }
  }

  /** With quanta 2, 4 and 8 a process of job time `j` is dispatched once, twice, or twice and
      then once for every eight steps begun, whatever the memory and the other processes. */
  lemma StandardDispatches(j: int)
    requires 1 <= j
    ensures Dispatches(STANDARD, 0, j) == if j <= 2 then 1 else if j <= 6 then 2 else 2 + CeilDiv(j - 6, 8)
  {
    assert STANDARD.quanta == [2, 4, 8];
    if j > 2 {
      assert Dispatches(STANDARD, 0, j) == 1 + Dispatches(STANDARD, 1, j - 2);
      if j > 6 {
        assert Dispatches(STANDARD, 1, j - 2) == 1 + Dispatches(STANDARD, 2, j - 6);
        LastLevelDispatches(j - 6);
      }
    }
  }

  /** At the end of every run of the program's feedback queue, each process has been dispatched
      exactly that often. */
  lemma StandardRun(w: seq<Job>, n: nat, i: nat)
    requires Over(w, After(STANDARD, w, n)) && i < |w|
    ensures var j := Need(w[i].time);
            TimesDispatched(After(STANDARD, w, n).trace, i)
            == if j <= 2 then 1 else if j <= 6 then 2 else 2 + CeilDiv(j - 6, 8)
  {
    RunInv(STANDARD, w, n);
    OverMeansDone(STANDARD, w, After(STANDARD, w, n));
    StandardDispatches(Need(w[i].time));
  }

  lemma {:induction false} OneDispatch(p: Policy, level: nat, left: int)
    requires GoodPolicy(p) && level < Levels(p)
    ensures Dispatches(p, level, left) >= 1
    ensures p.Mlfq? ==> (Dispatches(p, level, left) == 1 <==> left <= p.quanta[level])
    decreases left
  {
    if p.Mlfq? && left > p.quanta[level] {
      OneDispatch(p, Lowered(p, level), left - p.quanta[level]);
    }
  }

  lemma StandardWaitTime(level: nat, t: int)
    requires level < 3
    ensures WaitTime(STANDARD, level, t) <==>
              if level == 0 then t == 0 else if level == 1 then t == 2 else t >= 6 && (t - 6) % 8 == 0
  {
    assert STANDARD.quanta == [2, 4, 8];
    assert Spent([2, 4, 8], 0) == 0;
    assert Spent([2, 4, 8], 1) == 2;
    assert Spent([2, 4, 8], 2) == 6;
  }

  /** In every run of the program's feedback queue, a process that waits at level `k` has that
      level and has had 0 steps, or 2, or 6 and a multiple of 8 more. */
  lemma StandardWaitTimes(w: seq<Job>, n: nat, k: nat, i: nat)
    requires k < 3 && i in After(STANDARD, w, n).ready[k]
    ensures i < |After(STANDARD, w, n).pcbs|
    ensures var b := After(STANDARD, w, n).pcbs[i];
            && b.level == k && b.state == Ready && b.cpu < Need(b.jobTime)
            && if k == 0 then b.cpu == 0 else if k == 1 then b.cpu == 2 else exists m: nat :: b.cpu == 6 + 8 * m
  {
    var c := After(STANDARD, w, n);
    RunInv(STANDARD, w, n);
    assert WaitingOk(STANDARD, c.pcbs, i, k);
    StandardWaitTime(k, c.pcbs[i].cpu);
    if k == 2 { assert c.pcbs[i].cpu == 6 + 8 * ((c.pcbs[i].cpu - 6) / 8); }
  }

  // ---- Larger quanta ----

  /** The same number of levels, and no quantum smaller. */
  ghost predicate LargerQuanta(p: Policy, q: Policy) {
    p.Mlfq? && q.Mlfq? && |p.quanta| == |q.quanta| && forall k :: 0 <= k < |p.quanta| ==> p.quanta[k] <= q.quanta[k]
  }

  /** With larger quanta a process never needs more dispatches. */
  lemma {:induction false} LargerQuantaDispatchLess(p: Policy, q: Policy, level: nat, left: int, left': int)
    requires GoodPolicy(p) && GoodPolicy(q) && LargerQuanta(p, q) && level < Levels(p) && left' <= left
    ensures Dispatches(q, level, left') <= Dispatches(p, level, left)
    decreases left
  {
    if left' > q.quanta[level] {
      LargerQuantaDispatchLess(p, q, Lowered(p, level), left - p.quanta[level], left' - q.quanta[level]);
    } else {
      OneDispatch(p, level, left);
    }
  }

  // ---- The number of dispatches of a whole run ----

  /** How often a job is dispatched in a run. */
  function DispatchesOf(p: Policy): Job -> int
    requires GoodPolicy(p)
  {
    (j: Job) => Dispatches(p, 0, Need(j.time))
  }

  /** The dispatches of the first `n` slots. */
  function DispatchedBelow(trace: seq<Dispatched>, n: nat): int {
    if n == 0 then 0 else DispatchedBelow(trace, n - 1) + TimesDispatched(trace, n - 1)
  }

  lemma {:induction false} DispatchedBelowAppend(trace: seq<Dispatched>, d: Dispatched, n: nat)
    ensures DispatchedBelow(trace + [d], n) == DispatchedBelow(trace, n) + if d.slot < n then 1 else 0
    decreases n
  {
    if n > 0 {
      DispatchedBelowAppend(trace, d, n - 1);
      SumAppend(trace, d, IsSlot(n - 1));
    }
  }

  lemma {:induction false} NothingDispatched(n: nat)
    ensures DispatchedBelow([], n) == 0
    decreases n
  {
    if n > 0 { NothingDispatched(n - 1); }
  }

  /** Counting a log slot by slot counts all of it. */
  lemma {:induction false} TraceLength(trace: seq<Dispatched>, n: nat)
    requires forall k :: 0 <= k < |trace| ==> trace[k].slot < n
    ensures DispatchedBelow(trace, n) == |trace|
    decreases |trace|
  {
    if trace == [] {
      NothingDispatched(n);
    } else {
      var m := |trace| - 1;
      TraceLength(trace[..m], n);
      DispatchedBelowAppend(trace[..m], trace[m], n);
      assert trace[..m] + [trace[m]] == trace;
    }
  }

  lemma SlotsExist(p: Policy, w: seq<Job>, c: Sched, k: nat)
    requires GoodPolicy(p) && Inv(p, w, c) && k < |c.trace|
    ensures c.trace[k].slot < |w|
  {
    SumMember(c.trace, k, IsSlot(c.trace[k].slot));
    assert TimesDispatched(c.trace, c.trace[k].slot) >= 1;
  }

  /** A finished run has dispatched as often as its jobs need in all, whatever their order, their
      start times and the memory. */
  lemma RunLength(p: Policy, w: seq<Job>, c: Sched)
    requires GoodPolicy(p) && Inv(p, w, c) && Over(w, c)
    ensures |c.trace| == Sum(w, DispatchesOf(p))
  {
    OverMeansDone(p, w, c);
    forall k | 0 <= k < |c.trace| ensures c.trace[k].slot < |w| {
      SlotsExist(p, w, c, k);
    }
    TraceLength(c.trace, |w|);
    for n := 0 to |w|
      invariant DispatchedBelow(c.trace, n) == Sum(w[..n], DispatchesOf(p))
    {
      SumAppend(w[..n], w[n], DispatchesOf(p));
      assert w[..n + 1] == w[..n] + [w[n]];
    }
    assert w[..|w|] == w;
  }

  lemma {:induction false} SumMonotone(w: seq<Job>, f: Job -> int, g: Job -> int)
    requires forall j :: f(j) <= g(j)
    ensures Sum(w, f) <= Sum(w, g)
    decreases |w|
  {
    if w != [] { SumMonotone(w[..|w| - 1], f, g); }
  }

  /** Larger quanta never make a run dispatch more often, and no run dispatches less often than
      there are jobs. */
  lemma LargerQuantaSwitchLess(p: Policy, q: Policy, w: seq<Job>)
    requires GoodPolicy(p) && GoodPolicy(q) && LargerQuanta(p, q)
    ensures |w| <= Sum(w, DispatchesOf(q)) <= Sum(w, DispatchesOf(p))
  {
    forall j: Job ensures 1 <= DispatchesOf(q)(j) <= DispatchesOf(p)(j) {
      OneDispatch(q, 0, Need(j.time));
      LargerQuantaDispatchLess(p, q, 0, Need(j.time), Need(j.time));
    }
    SumMonotone(w, DispatchesOf(q), DispatchesOf(p));
    var one := (j: Job) => 1;
    SumMonotone(w, one, DispatchesOf(q));
    for n := 0 to |w|
      invariant Sum(w[..n], one) == n
    {
      SumAppend(w[..n], w[n], one);
      assert w[..n + 1] == w[..n] + [w[n]];
    }
    assert w[..|w|] == w;
  }
}
