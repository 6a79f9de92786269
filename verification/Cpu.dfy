/** The two schedulers of project1/process-scheduler.c as step machines over the processor, the
    ready queues and the terminated list.  Memory takes no part in any scheduling decision; it
    is added in the module Simulation.

    A process is named by its slot: its position in the list of scheduled processes.  Levels
    count from 0, so level `k` is priority `k + 1`. */
module Cpu {
  import opened Options
  import opened Sums

  /** A scheduled process. */
  datatype Job = Job(start: int, pid: int, memory: int, time: int)

  datatype Policy = Fcfs | Mlfq(quanta: seq<int>)

  datatype ProcessState = Ready | Running | Terminated

  datatype Pcb = Pcb(pid: int, state: ProcessState, level: nat, jobTime: int, burst: int, cpu: int)

  /** The part of a status line that names the dispatched process. */
  datatype Dispatched = Dispatched(time: int, slot: nat, level: nat)

  /** The scheduler between two time steps; `trace` holds the dispatches so far. */
  datatype Sched = Sched(time: int, spi: nat, running: Option<nat>, ready: seq<seq<nat>>, done: seq<nat>,
                         pcbs: seq<Pcb>, trace: seq<Dispatched>)

  function Levels(p: Policy): nat {
    match p
    case Fcfs => 1
    case Mlfq(quanta) => |quanta|
  }

  ghost predicate GoodPolicy(p: Policy) {
    0 < Levels(p) && (p.Mlfq? ==> forall k :: 0 <= k < |p.quanta| ==> 0 < p.quanta[k])
  }

  /** The quanta of the program. */
  const STANDARD := Mlfq([2, 4, 8])

  /** The number of time steps a process runs in all: never fewer than one. */
  function Need(jobTime: int): int { if jobTime < 1 then 1 else jobTime }

  /** The scheduler has one queue for every level. */
  ghost predicate Fits(p: Policy, c: Sched) {
    GoodPolicy(p) && |c.ready| == Levels(p)
  }

  /** The control block in a slot, and the blocks after it has been replaced.  Reachable states
      only ever name slots that exist, as the invariant below shows. */
  function At(bs: seq<Pcb>, i: nat): Pcb {
    if i < |bs| then bs[i] else Pcb(0, Ready, 0, 0, 0, 0)
  }

  function Put(bs: seq<Pcb>, i: nat, b: Pcb): seq<Pcb> {
    if i < |bs| then bs[i := b] else bs
  }

  // ---- One iteration of the scheduler loop ----

  function Initial(p: Policy): Sched {
    Sched(0, 0, None, seq(Levels(p), _ => []), [], [], [])
  }

  function NewPcb(j: Job): Pcb { Pcb(j.pid, Ready, 0, j.time, 0, 0) }

  function AdmitOne(w: seq<Job>, c: Sched): Sched
    requires c.spi < |w| && c.ready != []
  {
    c.(spi := c.spi + 1, ready := c.ready[0 := c.ready[0] + [c.spi]], pcbs := c.pcbs + [NewPcb(w[c.spi])])
  }

  /** check_scheduled_processes: admission stops at the first job that is not due. */
  function Admitted(w: seq<Job>, c: Sched): (a: Sched)
    requires c.ready != []
    ensures |a.ready| == |c.ready| && a.time == c.time && a.running == c.running && a.trace == c.trace && a.done == c.done
    ensures c.spi <= a.spi && (a.spi < |w| ==> c.time < w[a.spi].start)
    decreases |w| - c.spi
  {
    if c.spi < |w| && w[c.spi].start <= c.time then Admitted(w, AdmitOne(w, c)) else c
  }

  /** The highest level with a waiting process, or the number of levels. */
  function FirstWaiting(ready: seq<seq<nat>>): (k: nat)
    ensures k <= |ready|
    ensures forall j :: 0 <= j < k ==> ready[j] == []
    ensures k < |ready| ==> ready[k] != []
  {
    if ready == [] then 0 else if ready[0] != [] then 0 else 1 + FirstWaiting(ready[1..])
  }

  predicate CanDispatch(c: Sched) {
    c.running.None? && FirstWaiting(c.ready) < |c.ready|
  }

  /** The process at the head of the highest non-empty queue. */
  function Head(c: Sched): nat
    requires CanDispatch(c)
  {
    c.ready[FirstWaiting(c.ready)][0]
  }

  /** pop_front_pcb_from_pcbs_queue and load_pcb. */
  function Loaded(c: Sched): Sched
    requires CanDispatch(c)
  {
    var k, i := FirstWaiting(c.ready), Head(c);
    c.(running := Some(i), ready := c.ready[k := c.ready[k][1..]],
       pcbs := Put(c.pcbs, i, At(c.pcbs, i).(state := Running, burst := 0)),
       trace := c.trace + [Dispatched(c.time, i, k)])
  }

  function Picked(c: Sched): Sched {
    if CanDispatch(c) then Loaded(c) else c
  }

  predicate IsFinished(b: Pcb) { b.cpu >= b.jobTime }

  /** get_quantum_by_pcb: below the last level the last quantum applies. */
  function Quantum(quanta: seq<int>, level: nat): int
    requires quanta != []
  {
    if level < |quanta| then quanta[level] else quanta[|quanta| - 1]
  }

  predicate IsExhausted(p: Policy, b: Pcb)
    requires 0 < Levels(p)
  {
    p.Mlfq? && b.burst >= Quantum(p.quanta, b.level)
  }

  function Lowered(p: Policy, level: nat): nat
    requires 0 < Levels(p)
  {
    if level + 1 > Levels(p) - 1 then Levels(p) - 1 else level + 1
  }

  /** A control block after one more time step on the processor. */
  function Ticked(b: Pcb): Pcb { b.(burst := b.burst + 1, cpu := b.cpu + 1) }

  /** run_pcb, the tick of the clock, and what becomes of the process after it. */
  function Ran(p: Policy, c: Sched): Sched
    requires Fits(p, c)
  {
    if c.running.None? then c.(time := c.time + 1)
    else
      var i := c.running.value;
      var b := Ticked(At(c.pcbs, i));
      if IsFinished(b) then
        c.(time := c.time + 1, running := None, done := c.done + [i], pcbs := Put(c.pcbs, i, b.(state := Terminated)))
      else if IsExhausted(p, b) then
        var k := Lowered(p, b.level);
        c.(time := c.time + 1, running := None, ready := c.ready[k := c.ready[k] + [i]],
           pcbs := Put(c.pcbs, i, b.(state := Ready, burst := 0, level := k)))
      else
        c.(time := c.time + 1, pcbs := Put(c.pcbs, i, b))
  }

  /** Nothing runs, nothing waits and nothing will arrive: the loop ends. */
  predicate Over(w: seq<Job>, c: Sched)
    requires c.ready != []
  {
    var a := Admitted(w, c);
    a.running.None? && !CanDispatch(a) && a.spi >= |w|
  }

  /** One iteration of the loop; a finished run stays as it is. */
  function Next(p: Policy, w: seq<Job>, c: Sched): (r: Sched)
    requires Fits(p, c)
    ensures Fits(p, r)
  {
    if Over(w, c) then c else Ran(p, Picked(Admitted(w, c)))
  }

  /** The scheduler at the head of its loop after `n` iterations. */
  function After(p: Policy, w: seq<Job>, n: nat): (c: Sched)
    requires GoodPolicy(p)
    ensures Fits(p, c)
  {
    if n == 0 then Initial(p) else Next(p, w, After(p, w, n - 1))
  }

  // ---- Where every process is ----

  function Occurs(i: nat): seq<nat> -> int { (q: seq<nat>) => multiset(q)[i] }

  /** How often slot `i` appears among the running process, the queues and the terminated list. */
  function Places(c: Sched, i: nat): int {
    Sum(c.ready, Occurs(i)) + (if c.running == Some(i) then 1 else 0) + multiset(c.done)[i]
  }

  /** Every admitted process is in exactly one place, and no other is in any. */
  ghost predicate OnePlace(c: Sched) {
    forall i: nat :: Places(c, i) == if i < c.spi then 1 else 0
  }

  // ---- How much processor time a process has had ----

  /** The time that a process has had when it first enters level `k`. */
  function Spent(quanta: seq<int>, k: nat): int
    requires k <= |quanta|
  {
    if k == 0 then 0 else Spent(quanta, k - 1) + quanta[k - 1]
  }

  /** `t` is an amount of processor time that a process waiting at `level` can have had. */
  ghost predicate WaitTime(p: Policy, level: nat, t: int)
    requires GoodPolicy(p)
  {
    match p
    case Fcfs => level == 0 && t == 0
    case Mlfq(quanta) =>
      && level < |quanta|
      && Spent(quanta, level) <= t
      && (if level < |quanta| - 1 then t == Spent(quanta, level) else (t - Spent(quanta, level)) % quanta[level] == 0)
  }

  ghost predicate WaitingOk(p: Policy, bs: seq<Pcb>, i: nat, level: nat)
    requires GoodPolicy(p)
  {
    i < |bs| && WaitingPcb(p, bs[i], level)
  }

  ghost predicate WaitingPcb(p: Policy, b: Pcb, level: nat)
    requires GoodPolicy(p)
  {
    b.state == Ready && b.level == level && b.burst == 0 && 0 <= b.cpu < Need(b.jobTime) && WaitTime(p, level, b.cpu)
  }

  ghost predicate RunningOk(p: Policy, b: Pcb)
    requires GoodPolicy(p)
  {
    && b.state == Running && b.level < Levels(p) && 0 <= b.burst && 0 <= b.cpu < Need(b.jobTime)
    && WaitTime(p, b.level, b.cpu - b.burst)
    && (p.Mlfq? ==> b.burst < p.quanta[b.level])
  }

  ghost predicate DoneOk(b: Pcb) {
    b.state == Terminated && b.cpu == Need(b.jobTime)
  }

  // ---- How often a process is dispatched ----

  /** The dispatches that a process entering `level` with `left` steps to go still needs. */
  function Dispatches(p: Policy, level: nat, left: int): int
    requires GoodPolicy(p) && level < Levels(p)
    decreases left
  {
    match p
    case Fcfs => 1
    case Mlfq(quanta) =>
      if left <= quanta[level] then 1 else 1 + Dispatches(p, Lowered(p, level), left - quanta[level])
  }

  /** The dispatches that lie ahead of a process. */
  function Pending(p: Policy, b: Pcb): int
    requires GoodPolicy(p) && b.level < Levels(p)
  {
    match b.state
    case Ready => Dispatches(p, b.level, Need(b.jobTime) - b.cpu)
    case Running => Dispatches(p, b.level, Need(b.jobTime) - b.cpu + b.burst) - 1
    case Terminated => 0
  }

  function IsSlot(i: nat): Dispatched -> int { (d: Dispatched) => if d.slot == i then 1 else 0 }

  function TimesDispatched(trace: seq<Dispatched>, i: nat): int { Sum(trace, IsSlot(i)) }

  // ---- The invariant ----

  ghost predicate Shape(p: Policy, w: seq<Job>, c: Sched) {
    0 <= c.time && c.spi == |c.pcbs| <= |w| && |c.ready| == Levels(p)
  }

  ghost predicate Statuses(p: Policy, c: Sched)
    requires GoodPolicy(p)
  {
    && (forall k, i {:trigger WaitingOk(p, c.pcbs, i, k)} ::
          0 <= k < |c.ready| && i in c.ready[k] ==> WaitingOk(p, c.pcbs, i, k))
    && (c.running.Some? ==> c.running.value < |c.pcbs| && RunningOk(p, c.pcbs[c.running.value]))
    && (forall i :: i in c.done ==> i < |c.pcbs| && DoneOk(c.pcbs[i]))
  }

  /** What holds of the control block of job `j`, dispatched `n` times so far. */
  ghost predicate RecordOk(p: Policy, j: Job, b: Pcb, n: int)
    requires GoodPolicy(p)
  {
    && b.pid == j.pid && b.jobTime == j.time && b.level < Levels(p) && 0 <= b.cpu <= Need(j.time)
    && n + Pending(p, b) == Dispatches(p, 0, Need(j.time))
  }

  ghost predicate Records(p: Policy, w: seq<Job>, c: Sched)
    requires GoodPolicy(p) && |c.pcbs| <= |w|
  {
    && (forall i {:trigger RecordOk(p, w[i], c.pcbs[i], TimesDispatched(c.trace, i))} ::
          0 <= i < |c.pcbs| ==> RecordOk(p, w[i], c.pcbs[i], TimesDispatched(c.trace, i)))
    && (forall i :: |c.pcbs| <= i ==> TimesDispatched(c.trace, i) == 0)
  }

  ghost predicate Inv(p: Policy, w: seq<Job>, c: Sched)
    requires GoodPolicy(p)
  {
    Shape(p, w, c) && OnePlace(c) && Statuses(p, c) && Records(p, w, c)
  }

  lemma InitialInv(p: Policy, w: seq<Job>)
    requires GoodPolicy(p)
    ensures Inv(p, w, Initial(p))
  {
    var c := Initial(p);
    forall i: nat ensures Places(c, i) == 0 {
      SumZero(c.ready, Occurs(i));
    }
  }

  // ---- Consequences of being in one place ----

  lemma InOnePlace(c: Sched, i: nat)
    requires OnePlace(c)
    ensures c.running == Some(i) ==> i < c.spi && i !in c.done && forall k :: 0 <= k < |c.ready| ==> i !in c.ready[k]
    ensures forall k :: 0 <= k < |c.ready| && i in c.ready[k] ==> i < c.spi && i !in c.done && c.running != Some(i)
    ensures i in c.done ==> i < c.spi
    ensures i < c.spi ==> c.running == Some(i) || i in c.done || exists k :: 0 <= k < |c.ready| && i in c.ready[k]
  {
    assert Places(c, i) == if i < c.spi then 1 else 0;
    forall k | 0 <= k < |c.ready|
      ensures i in c.ready[k] ==> 1 <= Sum(c.ready, Occurs(i))
    {
      SumMember(c.ready, k, Occurs(i));
    }
    SumNonnegative(c.ready, Occurs(i));
    SumZero(c.ready, Occurs(i));
    if i < c.spi && c.running != Some(i) && i !in c.done {
      var k :| 0 <= k < |c.ready| && Occurs(i)(c.ready[k]) != 0;
      assert i in c.ready[k];
    }
  }

  // ---- Admission keeps the invariant ----

  /** Only due jobs are admitted. */
  lemma {:induction false} AdmittedAreDue(w: seq<Job>, c: Sched, k: nat)
    requires c.ready != [] && c.spi <= k < Admitted(w, c).spi
    ensures k < |w| && w[k].start <= c.time
    decreases |w| - c.spi
  {
    if c.spi < k { AdmittedAreDue(w, AdmitOne(w, c), k); }
  }

  lemma AdmitOnePlaces(w: seq<Job>, c: Sched, i: nat)
    requires c.spi < |w| && c.ready != []
    ensures Places(AdmitOne(w, c), i) == Places(c, i) + if i == c.spi then 1 else 0
  {
    SumUpdate(c.ready, 0, c.ready[0] + [c.spi], Occurs(i));
  }

  lemma AdmitOneInv(p: Policy, w: seq<Job>, c: Sched)
    requires GoodPolicy(p) && Inv(p, w, c) && c.spi < |w|
    ensures Inv(p, w, AdmitOne(w, c))
  {
    var r := AdmitOne(w, c);
    forall i: nat ensures Places(r, i) == if i < r.spi then 1 else 0 {
      AdmitOnePlaces(w, c, i);
      assert Places(c, i) == if i < c.spi then 1 else 0;
    }
    forall i | 0 <= i < |r.pcbs| ensures RecordOk(p, w[i], r.pcbs[i], TimesDispatched(r.trace, i)) {
      if i < |c.pcbs| {
        assert RecordOk(p, w[i], c.pcbs[i], TimesDispatched(c.trace, i));
      }
    }
    forall k, i | 0 <= k < |r.ready| && i in r.ready[k] ensures WaitingOk(p, r.pcbs, i, k) {
      if i in c.ready[k] {
        assert WaitingOk(p, c.pcbs, i, k);
      } else {
        assert k == 0 && i == c.spi && r.pcbs[i] == NewPcb(w[i]);
      }
    }
  }

  lemma {:induction false} AdmittedInv(p: Policy, w: seq<Job>, c: Sched)
    requires GoodPolicy(p) && Inv(p, w, c)
    ensures Inv(p, w, Admitted(w, c))
    decreases |w| - c.spi
  {
    if c.spi < |w| && w[c.spi].start <= c.time {
      AdmitOneInv(p, w, c);
      AdmittedInv(p, w, AdmitOne(w, c));
    }
  }

  // ---- Dispatching keeps the invariant ----

  lemma LoadedPlaces(c: Sched, i: nat)
    requires CanDispatch(c)
    ensures Places(Loaded(c), i) == Places(c, i)
  {
    var k := FirstWaiting(c.ready);
    SumUpdate(c.ready, k, c.ready[k][1..], Occurs(i));
    assert c.ready[k] == [c.ready[k][0]] + c.ready[k][1..];
  }

  lemma LoadedInv(p: Policy, w: seq<Job>, c: Sched)
    requires GoodPolicy(p) && Inv(p, w, c) && CanDispatch(c)
    ensures Head(c) < |c.pcbs| && Inv(p, w, Loaded(c))
  {
    assert WaitingOk(p, c.pcbs, Head(c), FirstWaiting(c.ready));
    var i, r := Head(c), Loaded(c);
    forall j: nat ensures Places(r, j) == if j < r.spi then 1 else 0 {
      LoadedPlaces(c, j);
      assert Places(c, j) == if j < c.spi then 1 else 0;
    }
    InOnePlace(r, i);
    forall k, j | 0 <= k < |r.ready| && j in r.ready[k] ensures WaitingOk(p, r.pcbs, j, k) {
      assert j in c.ready[k] && j != i;
      assert WaitingOk(p, c.pcbs, j, k);
    }
    forall j: nat ensures TimesDispatched(r.trace, j) == TimesDispatched(c.trace, j) + if j == i then 1 else 0 {
      SumAppend(c.trace, Dispatched(c.time, i, FirstWaiting(c.ready)), IsSlot(j));
    }
    forall j | 0 <= j < |r.pcbs| ensures RecordOk(p, w[j], r.pcbs[j], TimesDispatched(r.trace, j)) {
      assert RecordOk(p, w[j], c.pcbs[j], TimesDispatched(c.trace, j));
    }
  }

  lemma PickedInv(p: Policy, w: seq<Job>, c: Sched)
    requires GoodPolicy(p) && Inv(p, w, c)
    ensures Inv(p, w, Picked(c))
  {
    if CanDispatch(c) { LoadedInv(p, w, c); }
  }

  // ---- A time step keeps the invariant ----

  lemma RanPlaces(p: Policy, c: Sched, i: nat)
    requires Fits(p, c)
    ensures Places(Ran(p, c), i) == Places(c, i)
  {
    if c.running.Some? {
      var k := Lowered(p, At(c.pcbs, c.running.value).level);
      SumUpdate(c.ready, k, c.ready[k] + [c.running.value], Occurs(i));
    }
  }

  lemma AddModulus(x: int, q: int)
    requires 0 < q && x % q == 0
    ensures (x + q) % q == 0
  {
    assert x == (x / q) * q;
    assert x + q == (x / q + 1) * q;
    MultipleMod(x / q + 1, q);
  }

  lemma MultipleMod(m: int, q: int)
    requires 0 < q
    ensures (m * q) % q == 0
  {
    var d, r := (m * q) / q, (m * q) % q;
    assert m * q == d * q + r;
    assert (m - d) * q == r;
    assert m - d >= 1 ==> (m - d) * q >= q;
    assert m - d <= -1 ==> (m - d) * q <= -q;
  }

  /** A process that uses up its quantum at one level may wait at the next. */
  lemma ExhaustedWaits(p: Policy, b: Pcb)
    requires GoodPolicy(p) && RunningOk(p, b) && p.Mlfq? && b.burst + 1 >= p.quanta[b.level]
    ensures WaitTime(p, Lowered(p, b.level), b.cpu + 1)
  {
    var q := p.quanta;
    assert b.burst + 1 == q[b.level];
    if b.level == |q| - 1 {
      AddModulus(b.cpu - b.burst - Spent(q, b.level), q[b.level]);
    }
  }

  /** One time step of a running process: it ends, or it waits at a lower level, or it runs on. */
  lemma RanPcb(p: Policy, b: Pcb)
    requires GoodPolicy(p) && RunningOk(p, b)
    ensures var r := Ticked(b);
            if IsFinished(r) then DoneOk(r.(state := Terminated)) && Pending(p, b) == 0
            else if IsExhausted(p, r) then
              var q := r.(state := Ready, burst := 0, level := Lowered(p, b.level));
              WaitingPcb(p, q, Lowered(p, b.level)) && Pending(p, q) == Pending(p, b)
            else RunningOk(p, r) && Pending(p, r) == Pending(p, b)
  {
    var r := Ticked(b);
    assert r.cpu - r.burst == b.cpu - b.burst;
    if IsFinished(r) {
      assert p.Mlfq? ==> Need(b.jobTime) - b.cpu + b.burst <= p.quanta[b.level];
    } else if IsExhausted(p, r) {
      ExhaustedWaits(p, b);
    } else {
      assert Need(r.jobTime) - r.cpu + r.burst == Need(b.jobTime) - b.cpu + b.burst;
    }
  }

  lemma RanStatuses(p: Policy, w: seq<Job>, c: Sched)
    requires GoodPolicy(p) && Inv(p, w, c)
    ensures Statuses(p, Ran(p, c))
  {
    var r := Ran(p, c);
    if c.running.Some? {
      var i := c.running.value;
      InOnePlace(c, i);
      RanPcb(p, c.pcbs[i]);
      forall k, j | 0 <= k < |r.ready| && j in r.ready[k] ensures WaitingOk(p, r.pcbs, j, k) {
        if j != i { assert j in c.ready[k] && WaitingOk(p, c.pcbs, j, k); }
      }
      forall j | j in r.done ensures j < |r.pcbs| && DoneOk(r.pcbs[j]) {
        if j != i { assert j in c.done; }
      }
    }
  }

  lemma RanRecords(p: Policy, w: seq<Job>, c: Sched)
    requires GoodPolicy(p) && Inv(p, w, c)
    ensures Records(p, w, Ran(p, c))
  {
    var r := Ran(p, c);
    if c.running.Some? { RanPcb(p, c.pcbs[c.running.value]); }
    forall j | 0 <= j < |r.pcbs| ensures RecordOk(p, w[j], r.pcbs[j], TimesDispatched(r.trace, j)) {
      assert RecordOk(p, w[j], c.pcbs[j], TimesDispatched(c.trace, j));
    }
  }

  lemma RanInv(p: Policy, w: seq<Job>, c: Sched)
    requires GoodPolicy(p) && Inv(p, w, c)
    ensures Inv(p, w, Ran(p, c))
  {
    RanStatuses(p, w, c);
    RanRecords(p, w, c);
    var r := Ran(p, c);
    forall i: nat ensures Places(r, i) == if i < r.spi then 1 else 0 {
      RanPlaces(p, c, i);
      assert Places(c, i) == if i < c.spi then 1 else 0;
    }
  }

  lemma NextInv(p: Policy, w: seq<Job>, c: Sched)
    requires GoodPolicy(p) && Inv(p, w, c)
    ensures Inv(p, w, Next(p, w, c))
  {
    var a := Admitted(w, c);
    assert Inv(p, w, a) by { AdmittedInv(p, w, c); }
    assert Inv(p, w, Picked(a)) by { PickedInv(p, w, a); }
    RanInv(p, w, Picked(a));
  }

  /** Every state of every run satisfies the invariant. */
  lemma RunInv(p: Policy, w: seq<Job>, n: nat)
    requires GoodPolicy(p)
    ensures Inv(p, w, After(p, w, n))
  {
    InitialInv(p, w);
    for k := 0 to n
      invariant Inv(p, w, After(p, w, k))
    {
      NextInv(p, w, After(p, w, k));
    }
  }
}
