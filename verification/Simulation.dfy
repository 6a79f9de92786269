/** The schedulers together with main memory: what each iteration does to the images, and what
    it prints. */
module Simulation {
  import opened FreeList
  import opened Sums
  import opened Memory
  import opened MemoryTheorems
  import opened Options
  import opened Cpu
  import opened CpuTheorems
  import opened Schedules

  /** A line of output: time, process id, numprocesses, numholes and memusage. */
  datatype Line = Line(time: int, pid: int, processes: int, holes: int, usage: int)

  datatype Sim = Sim(sched: Sched, mem: Mem, lines: seq<Line>)

  /** A memory that can hold every job. */
  ghost predicate GoodJobs(w: seq<Job>, memsize: int) {
    0 < memsize && forall i :: 0 <= i < |w| ==> 0 < w[i].memory <= memsize
  }

  function StatusLine(time: int, pid: int, m: Mem, memsize: int): Line
    requires 0 < memsize
  {
    Line(time, pid, ResidentCount(m.procs), |m.free|, UsagePercent(ResidentSize(m.procs), memsize))
  }

  // ---- One iteration ----

  /** The images of the jobs from `i` up to `n`, each on disk, behind the others. */
  function ImagesAdmitted(w: seq<Job>, m: Mem, i: nat, n: nat): Mem
    requires n <= |w|
    decreases n - i
  {
    if i < n then ImagesAdmitted(w, Added(m, w[i].memory, w[i].pid), i + 1, n) else m
  }

  /** The memory after image `i` has been brought in, if it is not there already. */
  ghost function ImageLoaded(m: Mem, i: nat, t: int, memsize: int): Mem {
    if CanSwapIn(m, i, memsize) then SwapIn(m, i, t, memsize) else m
  }

  function ImageFreed(m: Mem, i: nat): Mem {
    if Resident(m.procs, i) then SwappedOut(m, i) else m
  }

  /** The running process ends with this time step. */
  predicate Ends(c: Sched) {
    c.running.Some? && IsFinished(Ticked(At(c.pcbs, c.running.value)))
  }

  /** The state after the dispatch of the first waiting process, if there is one and the
      processor is free. */
  ghost function Served(a: Sched, m: Mem, lines: seq<Line>, memsize: int): Sim
    requires 0 < memsize
  {
    if CanDispatch(a) then
      var m' := ImageLoaded(m, Head(a), a.time, memsize);
      Sim(Loaded(a), m', lines + [StatusLine(a.time, At(a.pcbs, Head(a)).pid, m', memsize)])
    else Sim(a, m, lines)
  }

  /** The state after admission and dispatch, before the time step. */
  ghost function Dispatch(w: seq<Job>, memsize: int, s: Sim): Sim
    requires s.sched.ready != [] && 0 < memsize
  {
    var a := Admitted(w, s.sched);
    var m := if a.spi <= |w| then ImagesAdmitted(w, s.mem, s.sched.spi, a.spi) else s.mem;
    Served(a, m, s.lines, memsize)
  }

  /** The time step. */
  function Tick(p: Policy, b: Sim): Sim
    requires Fits(p, b.sched)
  {
    Sim(Ran(p, b.sched), if Ends(b.sched) then ImageFreed(b.mem, b.sched.running.value) else b.mem, b.lines)
  }

  ghost function SimNext(p: Policy, w: seq<Job>, memsize: int, s: Sim): (r: Sim)
    requires Fits(p, s.sched) && 0 < memsize
    ensures r.sched == Next(p, w, s.sched)
  {
    if Over(w, s.sched) then s
    else Tick(p, Dispatch(w, memsize, s))
  }

  /** The simulation at the head of its loop after `n` iterations.  Its schedule is that of the
      scheduler alone, so it depends neither on the memory nor on the images. */
  ghost function SimAfter(p: Policy, w: seq<Job>, memsize: int, n: nat): (s: Sim)
    requires GoodPolicy(p) && 0 < memsize
    ensures s.sched == After(p, w, n)
  {
    if n == 0 then Sim(Cpu.Initial(p), Memory.Initial(memsize), [])
    else SimNext(p, w, memsize, SimAfter(p, w, memsize, n - 1))
  }

  // ---- The invariant that ties the images to the schedule ----

  /** The image of job `j`. */
  ghost predicate ImageOf(j: Job, p: ProcMem) {
    p.size == j.memory && p.pid == j.pid
  }

  /** Every admitted job has its image; the resident ones belong to unfinished processes and
      were brought in at different times, all before `t`. */
  ghost predicate Images(w: seq<Job>, bs: seq<Pcb>, m: Mem, memsize: int, t: int) {
    && Valid(m, memsize)
    && |m.procs| == |bs| <= |w|
    && (forall i :: 0 <= i < |bs| ==> ImageOf(w[i], m.procs[i]))
    && (forall i :: Resident(m.procs, i) ==> 0 <= m.procs[i].swapIn < t && bs[i].cpu < Need(bs[i].jobTime))
    && (forall i, j :: Resident(m.procs, i) && Resident(m.procs, j) && i != j ==> m.procs[i].swapIn != m.procs[j].swapIn)
  }

  ghost predicate RunningIsResident(c: Sched, m: Mem) {
    c.running.Some? ==> Resident(m.procs, c.running.value)
  }

  /** The memory of FCFS: the running process at most, and one hole at most. */
  ghost predicate OneProcessMemory(c: Sched, m: Mem) {
    |m.free| <= 1 && forall i :: Resident(m.procs, i) ==> c.running == Some(i)
  }

  /** What a printed line says of a valid memory with something in it. */
  ghost predicate Describes(l: Line, m: Mem, memsize: int)
    requires 0 < memsize
  {
    && Valid(m, memsize) && SomeResident(m.procs)
    && l.processes == ResidentCount(m.procs) && l.holes == |m.free|
    && l.usage == UsagePercent(ResidentSize(m.procs), memsize)
  }

  ghost predicate LineOk(l: Line) {
    1 <= l.processes && 0 <= l.holes <= l.processes + 1 && 1 <= l.usage <= 100
  }

  lemma DescribedLineOk(l: Line, m: Mem, memsize: int)
    requires 0 < memsize && Describes(l, m, memsize)
    ensures LineOk(l)
    ensures (l.usage - 1) * memsize < 100 * ResidentSize(m.procs) <= l.usage * memsize
  {
    ResidentCountZero(m.procs);
    Accounting(m, memsize);
    UsageIsCeiling(m, memsize);
  }

  /** Line `l` reports dispatch `d`: it describes the memory just after that dispatch. */
  ghost predicate Reports(p: Policy, w: seq<Job>, memsize: int, l: Line, d: Dispatched)
    requires GoodPolicy(p) && 0 < memsize
  {
    && LineOk(l) && l.time == d.time && d.slot < |w| && l.pid == w[d.slot].pid
    && 0 <= d.time
    && var m := Dispatch(w, memsize, SimAfter(p, w, memsize, d.time)).mem;
       Describes(l, m, memsize) && Resident(m.procs, d.slot)
  }

  ghost predicate Lines(p: Policy, w: seq<Job>, memsize: int, lines: seq<Line>, trace: seq<Dispatched>)
    requires GoodPolicy(p) && 0 < memsize
  {
    |lines| == |trace| && forall k :: 0 <= k < |lines| ==> Reports(p, w, memsize, lines[k], trace[k])
  }

  ghost predicate SimInv(p: Policy, w: seq<Job>, memsize: int, s: Sim)
    requires GoodPolicy(p) && 0 < memsize
  {
    && Images(w, s.sched.pcbs, s.mem, memsize, s.sched.time)
    && RunningIsResident(s.sched, s.mem)
    && (p.Fcfs? ==> OneProcessMemory(s.sched, s.mem))
  }

  // ---- Admission ----

  lemma {:induction false} ImagesAdmittedOk(w: seq<Job>, c: Sched, m: Mem, memsize: int)
    requires c.ready != [] && c.spi == |c.pcbs| && Images(w, c.pcbs, m, memsize, c.time)
    ensures var a := Admitted(w, c);
            && a.spi == |a.pcbs| <= |w|
            && var m' := ImagesAdmitted(w, m, c.spi, a.spi);
               && Images(w, a.pcbs, m', memsize, c.time) && m'.free == m.free
               && (forall i :: Resident(m'.procs, i) <==> Resident(m.procs, i))
    decreases |w| - c.spi
  {
    if c.spi < |w| && w[c.spi].start <= c.time {
      var c', m' := AdmitOne(w, c), Added(m, w[c.spi].memory, w[c.spi].pid);
      AddedValid(m, w[c.spi].memory, w[c.spi].pid, memsize);
      assert forall i :: Resident(m'.procs, i) <==> Resident(m.procs, i);
      ImagesAdmittedOk(w, c', m', memsize);
    }
  }

  // ---- Dispatch ----

  lemma ImageLoadedOk(w: seq<Job>, bs: seq<Pcb>, m: Mem, memsize: int, t: int, i: nat)
    requires GoodJobs(w, memsize) && Images(w, bs, m, memsize, t) && i < |bs| && 0 <= t
    requires bs[i].cpu < Need(bs[i].jobTime)
    ensures var r := ImageLoaded(m, i, t, memsize);
            && Images(w, bs, r, memsize, t + 1) && Resident(r.procs, i)
            && (forall j :: Resident(r.procs, j) && j != i ==> Resident(m.procs, j))
  {
    var r := ImageLoaded(m, i, t, memsize);
    assert ImageOf(w[i], m.procs[i]);
    if m.procs[i].InDisk() {
      assert CanSwapIn(m, i, memsize);
      forall j | 0 <= j < |bs| ensures ImageOf(w[j], r.procs[j]) {
        assert ImageOf(w[j], m.procs[j]);
      }
      assert forall j :: Resident(r.procs, j) && j != i ==> Resident(m.procs, j) && r.procs[j] == m.procs[j];
    }
  }

  /** A memory with only image `i` in it, brought into an empty one. */
  lemma LoadedIntoEmpty(m: Mem, i: nat, t: int, memsize: int)
    requires 0 < memsize && CanSwapIn(m, i, memsize) && !SomeResident(m.procs)
    ensures var r := ImageLoaded(m, i, t, memsize);
            ResidentCount(r.procs) == 1 && |r.free| <= 1 && Evictions(m, i, memsize) == [] && r.procs[i].start == memsize
  {
    EmptyIsOneHole(m, memsize);
    ResidentCountZero(m.procs);
    SumUpdate(m.procs, i, ImageLoaded(m, i, t, memsize).procs[i], ResidentWeight);
  }

  /** What holds between dispatch and time step. */
  ghost predicate MidStepInv(p: Policy, w: seq<Job>, memsize: int, b: Sim)
    requires GoodPolicy(p) && 0 < memsize
  {
    && Images(w, b.sched.pcbs, b.mem, memsize, b.sched.time + 1)
    && RunningIsResident(b.sched, b.mem)
    && (p.Fcfs? ==> OneProcessMemory(b.sched, b.mem))
  }

  lemma DispatchOk(p: Policy, w: seq<Job>, memsize: int, s: Sim)
    requires GoodPolicy(p) && GoodJobs(w, memsize) && Inv(p, w, s.sched) && SimInv(p, w, memsize, s)
    ensures MidStepInv(p, w, memsize, Dispatch(w, memsize, s))
    ensures Dispatch(w, memsize, s).sched == Picked(Admitted(w, s.sched))
  {
    var a := Admitted(w, s.sched);
    ImagesAdmittedOk(w, s.sched, s.mem, memsize);
    var m := ImagesAdmitted(w, s.mem, s.sched.spi, a.spi);
    if CanDispatch(a) {
      HeadWaits(p, w, s.sched);
      ImageLoadedOk(w, a.pcbs, m, memsize, a.time, Head(a));
      ImagesOfLoaded(w, a, ImageLoaded(m, Head(a), a.time, memsize), memsize);
      if p.Fcfs? { FcfsLoads(w, a.pcbs, m, memsize, a.time, Head(a)); }
    }
  }

  lemma FcfsLoads(w: seq<Job>, bs: seq<Pcb>, m: Mem, memsize: int, t: int, i: nat)
    requires GoodJobs(w, memsize) && Images(w, bs, m, memsize, t) && i < |bs| && !SomeResident(m.procs)
    ensures |ImageLoaded(m, i, t, memsize).free| <= 1
  {
    assert !Resident(m.procs, i);
    assert ImageOf(w[i], m.procs[i]);
    LoadedIntoEmpty(m, i, t, memsize);
  }

  lemma ImagesOfLoaded(w: seq<Job>, a: Sched, m: Mem, memsize: int)
    requires CanDispatch(a) && Images(w, a.pcbs, m, memsize, a.time + 1)
    ensures Images(w, Loaded(a).pcbs, m, memsize, a.time + 1)
  {
  }

  /** The process about to be dispatched has a control block, and work left. */
  lemma HeadWaits(p: Policy, w: seq<Job>, c: Sched)
    requires GoodPolicy(p) && Inv(p, w, c) && CanDispatch(Admitted(w, c))
    ensures var a := Admitted(w, c);
            && 0 <= a.time && Head(a) < |a.pcbs| <= |w|
            && a.pcbs[Head(a)].cpu < Need(a.pcbs[Head(a)].jobTime)
            && a.pcbs[Head(a)].pid == w[Head(a)].pid
  {
    var a := Admitted(w, c);
    assert Inv(p, w, a) by { AdmittedInv(p, w, c); }
    assert WaitingOk(p, a.pcbs, Head(a), FirstWaiting(a.ready));
    assert RecordOk(p, w[Head(a)], a.pcbs[Head(a)], TimesDispatched(a.trace, Head(a)));
  }

  // ---- The time step ----

  lemma RanImages(p: Policy, w: seq<Job>, memsize: int, b: Sim)
    requires Fits(p, b.sched) && 0 < memsize && MidStepInv(p, w, memsize, b)
    ensures SimInv(p, w, memsize, Tick(p, b))
  {
    if b.sched.running.Some? {
      var i := b.sched.running.value;
      if Ends(b.sched) {
        SwappedOutValid(b.mem, i, memsize);
        var r := SwappedOut(b.mem, i);
        assert forall j :: Resident(r.procs, j) ==> Resident(b.mem.procs, j) && j != i && r.procs[j] == b.mem.procs[j];
        if p.Fcfs? { EmptyIsOneHole(r, memsize); }
      }
    }
  }

  lemma SimNextInv(p: Policy, w: seq<Job>, memsize: int, s: Sim)
    requires GoodPolicy(p) && GoodJobs(w, memsize) && Inv(p, w, s.sched) && SimInv(p, w, memsize, s)
    ensures SimInv(p, w, memsize, SimNext(p, w, memsize, s))
  {
    if !Over(w, s.sched) {
      DispatchOk(p, w, memsize, s);
      RanImages(p, w, memsize, Dispatch(w, memsize, s));
    }
  }

  // ---- Every run ----

  lemma OneMoreSimInv(p: Policy, w: seq<Job>, memsize: int, n: nat)
    requires GoodPolicy(p) && GoodJobs(w, memsize) && SimInv(p, w, memsize, SimAfter(p, w, memsize, n))
    ensures SimInv(p, w, memsize, SimAfter(p, w, memsize, n + 1))
  {
    RunInv(p, w, n);
    SimNextInv(p, w, memsize, SimAfter(p, w, memsize, n));
  }

  /** In every state of every run the free segments and the resident images tile the memory, the
      running process is resident, resident images were brought in at different times, and under
      FCFS nothing but the running process is resident. */
  lemma SimRunInv(p: Policy, w: seq<Job>, memsize: int, n: nat)
    requires GoodPolicy(p) && GoodJobs(w, memsize)
    ensures SimInv(p, w, memsize, SimAfter(p, w, memsize, n))
  {
    InitialValid(memsize);
    for k := 0 to n
      invariant SimInv(p, w, memsize, SimAfter(p, w, memsize, k))
    {
      OneMoreSimInv(p, w, memsize, k);
    }
  }

  /** Image `i` is larger than `j`, or as large and longer in memory. */
  ghost predicate Sooner(ps: seq<ProcMem>, i: int, j: int)
    requires 0 <= i < |ps| && 0 <= j < |ps|
  {
    ps[i].size > ps[j].size || (ps[i].size == ps[j].size && ps[i].swapIn < ps[j].swapIn)
  }

  /** `ev` is an initial stretch of the resident images by size, then by time in memory. */
  ghost predicate StrictPrefix(ps: seq<ProcMem>, ev: seq<nat>) {
    && (forall x :: 0 <= x < |ev| ==> Resident(ps, ev[x]))
    && (forall x, y :: 0 <= x < y < |ev| ==> Sooner(ps, ev[x], ev[y]))
    && (forall x, j :: 0 <= x < |ev| && Resident(ps, j) && j !in ev ==> Sooner(ps, ev[x], j))
  }

  /** `r` is `m` after the shortest such stretch that makes room for image `i` has been evicted
      and the image has been put at the top of the highest gap. */
  ghost predicate MakesRoom(m: Mem, i: nat, t: int, memsize: int, r: Mem)
    requires CanSwapIn(m, i, memsize)
  {
    var ev, n := Evictions(m, i, memsize), m.procs[i].size;
    && StrictPrefix(m.procs, ev) && NoGapBefore(m.procs, ev, n, memsize)
    && Resident(r.procs, i) && r.procs == Without(m.procs, ev)[i := m.procs[i].(start := r.procs[i].start, swapIn := t)]
    && Gap(m.procs, ev, n, memsize, r.procs[i].start - n)
    && (forall a :: Gap(m.procs, ev, n, memsize, a) ==> a <= r.procs[i].start - n)
  }

  /** Where swap-in times differ, the position in the list decides nothing. */
  lemma TimesDecide(ps: seq<ProcMem>, ev: seq<nat>)
    requires EvictionPrefix(ps, ev)
    requires forall i, j :: Resident(ps, i) && Resident(ps, j) && i != j ==> ps[i].swapIn != ps[j].swapIn
    ensures StrictPrefix(ps, ev)
  {
    forall x, y | 0 <= x < y < |ev| ensures Sooner(ps, ev[x], ev[y]) {
      assert Before(ps, ev[x], ev[y]);
    }
    forall x, j | 0 <= x < |ev| && Resident(ps, j) && j !in ev ensures Sooner(ps, ev[x], j) {
      assert Before(ps, ev[x], j) && ev[x] in ev;
    }
  }

  lemma LoadingMakesRoom(w: seq<Job>, bs: seq<Pcb>, m: Mem, memsize: int, t: int, i: nat)
    requires Images(w, bs, m, memsize, t) && CanSwapIn(m, i, memsize)
    ensures MakesRoom(m, i, t, memsize, ImageLoaded(m, i, t, memsize))
  {
    SwapInEvictsShortestPrefix(m, i, t, memsize);
    TimesDecide(m.procs, Evictions(m, i, memsize));
  }

  /** In every run, whatever is dispatched: a resident process leaves memory as it is, and one on
      disk evicts exactly the shortest stretch of the residents that makes room, the larger first
      and among equally large ones the one that was brought in earlier; the position in the list
      never decides. */
  lemma EvictionOrder(p: Policy, w: seq<Job>, memsize: int, n: nat)
    requires GoodPolicy(p) && GoodJobs(w, memsize) && CanDispatch(Admitted(w, After(p, w, n)))
    ensures var s, a := SimAfter(p, w, memsize, n), Admitted(w, After(p, w, n));
            && a.spi <= |w|
            && var m, r, i := ImagesAdmitted(w, s.mem, s.sched.spi, a.spi), Dispatch(w, memsize, s).mem, Head(a);
               && i < |m.procs|
               && if Resident(m.procs, i) then r == m
                  else CanSwapIn(m, i, memsize) && MakesRoom(m, i, a.time, memsize, r)
  {
    var s, a := SimAfter(p, w, memsize, n), Admitted(w, After(p, w, n));
    SimRunInv(p, w, memsize, n);
    assert s.sched.spi == |s.sched.pcbs| && Head(a) < |a.pcbs| by {
      RunInv(p, w, n);
      HeadWaits(p, w, s.sched);
    }
    ImagesAdmittedOk(w, s.sched, s.mem, memsize);
    var m := ImagesAdmitted(w, s.mem, s.sched.spi, a.spi);
    assert ImageOf(w[Head(a)], m.procs[Head(a)]);
    if !Resident(m.procs, Head(a)) {
      LoadingMakesRoom(w, a.pcbs, m, memsize, a.time, Head(a));
    }
  }

  /** When a run is over nothing is resident and the free list is the initial segment again. */
  lemma MemoryIsEmptyAtTheEnd(p: Policy, w: seq<Job>, memsize: int, n: nat)
    requires GoodPolicy(p) && GoodJobs(w, memsize) && Over(w, After(p, w, n))
    ensures var s := SimAfter(p, w, memsize, n);
            !SomeResident(s.mem.procs) && s.mem.free == [Segment(memsize, memsize)]
  {
    var s := SimAfter(p, w, memsize, n);
    SimRunInv(p, w, memsize, n);
    assert forall i :: 0 <= i < |w| ==> s.sched.pcbs[i].cpu == Need(w[i].time) && s.sched.pcbs[i].jobTime == w[i].time by {
      RunInv(p, w, n);
      OverMeansDone(p, w, s.sched);
      forall i | 0 <= i < |w| ensures s.sched.pcbs[i].jobTime == w[i].time {
        assert RecordOk(p, w[i], s.sched.pcbs[i], TimesDispatched(s.sched.trace, i));
      }
    }
    EmptyIsOneHole(s.mem, memsize);
  }

  // ---- FCFS ----

  lemma AtMostOneResident(m: Mem, i: nat)
    requires forall j :: Resident(m.procs, j) ==> j == i
    ensures ResidentCount(m.procs) <= 1
  {
    if i < |m.procs| {
      var x := m.procs[i].Out();
      SumUpdate(m.procs, i, x, ResidentWeight);
      var qs := m.procs[i := x];
      forall k | 0 <= k < |qs| ensures ResidentWeight(qs[k]) == 0 {
        if k != i { assert !Resident(m.procs, k); }
      }
      SumZero(qs, ResidentWeight);
    } else {
      assert !SomeResident(m.procs);
      ResidentCountZero(m.procs);
    }
  }

  /** FCFS never evicts: memory is empty whenever it dispatches, so the image goes to the top and
      leaves at most one hole. */
  lemma FcfsNeverEvicts(w: seq<Job>, memsize: int, n: nat)
    requires GoodJobs(w, memsize) && CanDispatch(Admitted(w, After(Fcfs, w, n)))
    ensures var s, a := SimAfter(Fcfs, w, memsize, n), Admitted(w, After(Fcfs, w, n));
            && a.spi <= |w|
            && var m := ImagesAdmitted(w, s.mem, s.sched.spi, a.spi);
               var r := ImageLoaded(m, Head(a), a.time, memsize);
               && CanSwapIn(m, Head(a), memsize) && Evictions(m, Head(a), memsize) == []
               && ResidentCount(r.procs) == 1 && |r.free| <= 1
  {
    var s, a := SimAfter(Fcfs, w, memsize, n), Admitted(w, After(Fcfs, w, n));
    SimRunInv(Fcfs, w, memsize, n);
    assert s.sched.spi == |s.sched.pcbs| && Head(a) < |a.pcbs| by {
      RunInv(Fcfs, w, n);
      HeadWaits(Fcfs, w, s.sched);
    }
    ImagesAdmittedOk(w, s.sched, s.mem, memsize);
    var m := ImagesAdmitted(w, s.mem, s.sched.spi, a.spi);
    assert !SomeResident(m.procs);
    assert !Resident(m.procs, Head(a));
    assert ImageOf(w[Head(a)], m.procs[Head(a)]);
    LoadedIntoEmpty(m, Head(a), a.time, memsize);
  }

  /** In every FCFS state at most one process is resident, the running one, and there is at most
      one hole. */
  lemma FcfsHoldsOneProcess(w: seq<Job>, memsize: int, n: nat)
    requires GoodJobs(w, memsize)
    ensures var s := SimAfter(Fcfs, w, memsize, n);
            && ResidentCount(s.mem.procs) <= 1 && |s.mem.free| <= 1
            && forall i :: Resident(s.mem.procs, i) <==> s.sched.running == Some(i)
  {
    var s := SimAfter(Fcfs, w, memsize, n);
    SimRunInv(Fcfs, w, memsize, n);
    AtMostOneResident(s.mem, if s.sched.running.Some? then s.sched.running.value else 0);
  }

  // ---- The printed lines ----

  lemma OneMoreLines(p: Policy, w: seq<Job>, memsize: int, n: nat)
    requires GoodPolicy(p) && GoodJobs(w, memsize)
    requires var s := SimAfter(p, w, memsize, n); Lines(p, w, memsize, s.lines, s.sched.trace)
    ensures var s := SimAfter(p, w, memsize, n + 1); Lines(p, w, memsize, s.lines, s.sched.trace)
  {
    var s := SimAfter(p, w, memsize, n);
    LinesGrow(p, w, memsize, s);
    if !Over(w, s.sched) && CanDispatch(Admitted(w, s.sched)) {
      DispatchReports(p, w, memsize, n);
    }
  }

  lemma LinesGrow(p: Policy, w: seq<Job>, memsize: int, s: Sim)
    requires Fits(p, s.sched) && 0 < memsize
    ensures var r, a := SimNext(p, w, memsize, s), Admitted(w, s.sched);
            if !Over(w, s.sched) && CanDispatch(a) then
              && r.lines == s.lines + [StatusLine(a.time, At(a.pcbs, Head(a)).pid, Dispatch(w, memsize, s).mem, memsize)]
              && r.sched.trace == s.sched.trace + [Dispatched(a.time, Head(a), FirstWaiting(a.ready))]
            else r.lines == s.lines && r.sched.trace == s.sched.trace
  {
  }

  lemma DispatchedMemory(p: Policy, w: seq<Job>, memsize: int, n: nat)
    requires GoodPolicy(p) && GoodJobs(w, memsize) && CanDispatch(Admitted(w, After(p, w, n)))
    ensures var s, a := SimAfter(p, w, memsize, n), Admitted(w, After(p, w, n));
            var b := Dispatch(w, memsize, s);
            && Valid(b.mem, memsize) && Resident(b.mem.procs, Head(a))
            && Head(a) < |a.pcbs| <= |w| && a.pcbs[Head(a)].pid == w[Head(a)].pid
  {
    var s := SimAfter(p, w, memsize, n);
    SimRunInv(p, w, memsize, n);
    RunInv(p, w, n);
    DispatchOk(p, w, memsize, s);
    HeadWaits(p, w, s.sched);
  }

  /** The line printed at a dispatch describes the memory just after the process was loaded, and
      the clock shows the number of the iteration. */
  lemma DispatchReports(p: Policy, w: seq<Job>, memsize: int, n: nat)
    requires GoodPolicy(p) && GoodJobs(w, memsize) && CanDispatch(Admitted(w, After(p, w, n)))
    ensures var s, a := SimAfter(p, w, memsize, n), Admitted(w, After(p, w, n));
            var l := StatusLine(a.time, At(a.pcbs, Head(a)).pid, Dispatch(w, memsize, s).mem, memsize);
            Reports(p, w, memsize, l, Dispatched(a.time, Head(a), FirstWaiting(a.ready)))
  {
    var s, a := SimAfter(p, w, memsize, n), Admitted(w, After(p, w, n));
    var b := Dispatch(w, memsize, s);
    var l := StatusLine(a.time, At(a.pcbs, Head(a)).pid, b.mem, memsize);
    DispatchedMemory(p, w, memsize, n);
    assert a.time == n by { RunEnds(p, w, n); }
    DescribedLineOk(l, b.mem, memsize);
  }

  /** Every dispatch prints one line, with its time and process, that describes the memory just
      after that dispatch; it has at least one process in memory, at most one hole more than
      processes, and a usage of 1 to 100 per cent. */
  lemma EveryLineOk(p: Policy, w: seq<Job>, memsize: int, n: nat)
    requires GoodPolicy(p) && GoodJobs(w, memsize)
    ensures var s := SimAfter(p, w, memsize, n); Lines(p, w, memsize, s.lines, s.sched.trace)
  {
    for k := 0 to n
      invariant var s := SimAfter(p, w, memsize, k); Lines(p, w, memsize, s.lines, s.sched.trace)
    {
      OneMoreLines(p, w, memsize, k);
    }
  }

  /** The number of lines of a finished run is the sum of what the jobs need, whatever the memory,
      the start times and the order of the jobs. */
  lemma LineCount(p: Policy, w: seq<Job>, memsize: int, n: nat)
    requires GoodPolicy(p) && GoodJobs(w, memsize) && Over(w, After(p, w, n))
    ensures |SimAfter(p, w, memsize, n).lines| == Sum(w, DispatchesOf(p))
  {
    EveryLineOk(p, w, memsize, n);
    RunInv(p, w, n);
    RunLength(p, w, After(p, w, n));
  }

  /** Larger quanta never make a run print more lines, and no run prints fewer than one line for
      each job. */
  lemma LargerQuantaPrintLess(p: Policy, q: Policy, w: seq<Job>, memsize: int, n: nat)
    requires GoodPolicy(p) && GoodPolicy(q) && LargerQuanta(p, q) && GoodJobs(w, memsize) && FinishTime(w) <= n
    ensures |w| <= |SimAfter(q, w, memsize, n).lines| <= |SimAfter(p, w, memsize, n).lines|
  {
    RunEnds(p, w, n);
    RunEnds(q, w, n);
    LineCount(p, w, memsize, n);
    LineCount(q, w, memsize, n);
    LargerQuantaSwitchLess(p, q, w);
  }

  lemma FcfsDispatchMemory(w: seq<Job>, memsize: int, n: nat)
    requires GoodJobs(w, memsize) && CanDispatch(Admitted(w, After(Fcfs, w, n)))
    ensures var m := Dispatch(w, memsize, SimAfter(Fcfs, w, memsize, n)).mem;
            ResidentCount(m.procs) == 1 && |m.free| <= 1
  {
    FcfsNeverEvicts(w, memsize, n);
  }

  lemma OneMoreFcfsLine(w: seq<Job>, memsize: int, n: nat)
    requires GoodJobs(w, memsize)
    requires OneProcessLines(SimAfter(Fcfs, w, memsize, n).lines)
    ensures OneProcessLines(SimAfter(Fcfs, w, memsize, n + 1).lines)
  {
    var s := SimAfter(Fcfs, w, memsize, n);
    LinesGrow(Fcfs, w, memsize, s);
    if CanDispatch(Admitted(w, s.sched)) {
      FcfsDispatchMemory(w, memsize, n);
    }
  }

  ghost predicate OneProcessLines(lines: seq<Line>) {
    forall k :: 0 <= k < |lines| ==> lines[k].processes == 1 && lines[k].holes <= 1
  }

  /** FCFS prints one line for every job, in file order, each with one process in memory and at
      most one hole. */
  lemma FcfsLines(w: seq<Job>, memsize: int, n: nat)
    requires GoodJobs(w, memsize)
    ensures var s := SimAfter(Fcfs, w, memsize, n);
            && OneProcessLines(s.lines)
            && (forall k :: 0 <= k < |s.lines| ==> k < |w| && s.lines[k].pid == w[k].pid)
            && (Over(w, s.sched) ==> |s.lines| == |w|)
  {
    for k := 0 to n
      invariant OneProcessLines(SimAfter(Fcfs, w, memsize, k).lines)
    {
      OneMoreFcfsLine(w, memsize, k);
    }
    var s := SimAfter(Fcfs, w, memsize, n);
    EveryLineOk(Fcfs, w, memsize, n);
    FcfsDispatchesInFileOrder(w, n);
    assert s.sched.spi <= |w| by { RunInv(Fcfs, w, n); }
    forall k | 0 <= k < |s.lines| ensures k < |w| && s.lines[k].pid == w[k].pid {
      assert Reports(Fcfs, w, memsize, s.lines[k], s.sched.trace[k]);
      assert Slots(s.sched.trace)[k] == s.sched.trace[k].slot == k;
    }
  }

  // ---- Short jobs: the whole simulation is that of FCFS ----

  lemma DispatchWidened(w: seq<Job>, memsize: int, f: Sim, levels: nat)
    requires |f.sched.ready| == 1 && 0 < levels && 0 < memsize
    ensures var x, y := Dispatch(w, memsize, f), Dispatch(w, memsize, f.(sched := Widened(f.sched, levels)));
            && y.mem == x.mem && y.lines == x.lines
            && y.sched.pcbs == x.sched.pcbs && y.sched.running == x.sched.running
  {
    AdmittedWidened(w, f.sched, levels);
    PickedWidened(Admitted(w, f.sched), levels);
  }

  lemma SimNextWidened(p: Policy, w: seq<Job>, memsize: int, n: nat)
    requires GoodPolicy(p) && p.Mlfq? && ShortJobs(w, p.quanta[0]) && 0 < memsize
    requires var f, s := SimAfter(Fcfs, w, memsize, n), SimAfter(p, w, memsize, n);
             s == f.(sched := Widened(f.sched, Levels(p)))
    ensures var f, s := SimAfter(Fcfs, w, memsize, n + 1), SimAfter(p, w, memsize, n + 1);
            s == f.(sched := Widened(f.sched, Levels(p)))
  {
    var f, s := SimAfter(Fcfs, w, memsize, n), SimAfter(p, w, memsize, n);
    assert Over(w, s.sched) <==> Over(w, f.sched) by {
      RunInv(Fcfs, w, n);
      NextWidened(p, w, f.sched);
    }
    ShortJobsRunFcfs(p, w, n + 1);
    DispatchWidened(w, memsize, f, Levels(p));
  }

  /** If no job outlasts the first quantum, the feedback queue prints what FCFS prints and keeps
      memory as FCFS does, at every time. */
  lemma ShortJobsSimulateFcfs(p: Policy, w: seq<Job>, memsize: int, n: nat)
    requires GoodPolicy(p) && p.Mlfq? && ShortJobs(w, p.quanta[0]) && 0 < memsize
    ensures var f, s := SimAfter(Fcfs, w, memsize, n), SimAfter(p, w, memsize, n);
            s == f.(sched := Widened(f.sched, Levels(p)))
  {
    assert Cpu.Initial(p) == Widened(Cpu.Initial(Fcfs), Levels(p));
    for k := 0 to n
      invariant var f, s := SimAfter(Fcfs, w, memsize, k), SimAfter(p, w, memsize, k);
                s == f.(sched := Widened(f.sched, Levels(p)))
    {
      SimNextWidened(p, w, memsize, k);
    }
  }
}
