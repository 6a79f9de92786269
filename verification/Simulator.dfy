/** The simulator in the form the program has it: an object whose clock, linked queues and
    control blocks are changed in place, driven by the two runners. */
module Simulator {
  import opened Sums
  import opened Memory
  import opened MemoryManagement
  import opened Cpu
  import opened CpuTheorems
  import opened Simulation
  import opened Residence
  import opened PcbQueue

  class Simulator {
    var time: int
    var spi: nat
    var pcbs: seq<Pcb>
    var lines: seq<Line>
    ghost var trace: seq<Dispatched>
    const lists: Lists
    const memory: MemoryManager

    ghost function Schedule(): Sched
      reads this, lists
    {
      Sched(time, spi, lists.Current(), lists.waiting, lists.ended, pcbs, trace)
    }

    ghost function View(): Sim
      reads this, lists, memory
    {
      Sim(Schedule(), memory.View(), lines)
    }

    constructor (levels: nat, memsize: int)
      requires 0 < levels
      ensures fresh(memory) && fresh(lists) && (forall i :: 0 <= i < |lists.all| ==> fresh(lists.all[i]))
      ensures lists.Valid() && lists.home == map[]
      ensures forall p | Levels(p) == levels :: View() == Sim(Cpu.Initial(p), Memory.Initial(memsize), [])
    {
      time, spi, pcbs, lines, trace := 0, 0, [], [], [];
      lists := new Lists(levels);
      memory := new MemoryManager(memsize);
      new;
      forall p | Levels(p) == levels ensures Schedule() == Cpu.Initial(p) {
        assert lists.waiting == Cpu.Initial(p).ready;
      }
    }

    /** The next job is admitted: its image on disk, its block at the end of the first queue. */
    method AdmitNext(w: seq<Job>)
      requires lists.Valid() && lists.waiting != [] && spi < |w|
      modifies this`spi, this`pcbs, lists, lists.all, lists.home.Keys, memory
      ensures lists.Valid() && lists.running == old(lists.running) && fresh(lists.home.Keys - old(lists.home.Keys))
      ensures Schedule() == AdmitOne(w, old(Schedule()))
      ensures memory.View() == Added(old(memory.View()), w[old(spi)].memory, w[old(spi)].pid)
    {
      memory.AddProcess(w[spi].memory, w[spi].pid);
      pcbs := pcbs + [Pcb(w[spi].pid, Ready, 0, w[spi].time, 0, 0)];
      lists.Admit(spi);
      spi := spi + 1;
    }

    method CheckScheduledProcesses(w: seq<Job>)
      requires lists.Valid() && lists.waiting != [] && spi <= |w|
      modifies this`spi, this`pcbs, lists, lists.all, lists.home.Keys, memory
      ensures lists.Valid() && lists.running == old(lists.running) && fresh(lists.home.Keys - old(lists.home.Keys))
      ensures Schedule() == Admitted(w, old(Schedule()))
      ensures old(spi) <= spi <= |w|
      ensures memory.View() == ImagesAdmitted(w, old(memory.View()), old(spi), spi)
    {
      ghost var end := Admitted(w, Schedule()).spi;
      AdmittedBound(w, Schedule());
      while spi < |w| && w[spi].start <= time
        invariant lists.Valid() && lists.running == old(lists.running) && fresh(lists.home.Keys - old(lists.home.Keys))
        invariant lists.waiting != [] && old(spi) <= spi <= |w|
        invariant Admitted(w, Schedule()) == Admitted(w, old(Schedule()))
        invariant ImagesAdmitted(w, memory.View(), spi, end) == ImagesAdmitted(w, old(memory.View()), old(spi), end)
        decreases |w| - spi
      {
        AdmittedBound(w, AdmitOne(w, Schedule()));
        AdmitNext(w);
      }
    }

    /** Brings the process just taken from its queue into memory and cuts the link of its block. */
    method LoadPcb(memsize: int)
      requires lists.AllLinked() && lists.Holding() && lists.running != null && lists.running.slot < |pcbs|
      requires Valid(memory.View(), memsize) && lists.running.slot < |memory.procs|
      requires 0 < memory.procs[lists.running.slot].size <= memsize
      modifies this`pcbs, lists.running`next, memory
      ensures lists.Valid()
      ensures memory.View() == ImageLoaded(old(memory.View()), lists.running.slot, time, memsize)
      ensures var i := lists.running.slot; pcbs == old(pcbs)[i := old(pcbs)[i].(state := Running, burst := 0)]
    {
      var i := lists.running.slot;
      if memory.procs[i].InDisk() {
        memory.SwapInImage(i, time, memsize);
      }
      lists.Cut();
      pcbs := pcbs[i := pcbs[i].(state := Running, burst := 0)];
    }

    method PrintStatus(i: nat, memsize: int)
      requires i < |pcbs| && 0 < memsize
      modifies this`lines
      ensures lines == old(lines) + [StatusLine(time, pcbs[i].pid, memory.View(), memsize)]
    {
      var size := memory.SizeResident();
      var usage := 100 * size;
      usage := usage / memsize + (if usage % memsize != 0 then 1 else 0);
      var processes := memory.CountResident();
      var holes := memory.HoleCount();
      lines := lines + [Line(time, pcbs[i].pid, processes, holes, usage)];
    }

    method RunPcb(i: nat)
      requires i < |pcbs|
      modifies this`pcbs
      ensures pcbs == old(pcbs)[i := Ticked(old(pcbs)[i])]
    {
      pcbs := pcbs[i := pcbs[i].(burst := pcbs[i].burst + 1, cpu := pcbs[i].cpu + 1)];
    }

    /** The running process leaves the processor for good. */
    method TerminateRunning()
      requires lists.Valid() && lists.running != null
      requires lists.running.slot < |pcbs| && lists.running.slot < |memory.procs|
      modifies this`pcbs, lists, lists.all, lists.home.Keys, memory
      ensures lists.Valid() && lists.home.Keys == old(lists.home.Keys)
      ensures lists.running == null && lists.waiting == old(lists.waiting)
      ensures var i := old(lists.running.slot);
              && lists.ended == old(lists.ended) + [i]
              && pcbs == old(pcbs)[i := old(pcbs)[i].(state := Terminated)]
              && memory.View() == ImageFreed(old(memory.View()), i)
    {
      var i := lists.running.slot;
      if !memory.procs[i].InDisk() {
        memory.SwapOutImage(i);
      }
      lists.Cut();
      pcbs := pcbs[i := pcbs[i].(state := Terminated)];
      lists.Leave(|lists.all| - 1);
    }

    /** The running process goes to the end of the next lower queue. */
    method LowerRunning(p: Policy)
      requires lists.Valid() && lists.running != null
      requires lists.running.slot < |pcbs| && 0 < Levels(p) == |lists.waiting|
      modifies this`pcbs, lists, lists.all, lists.home.Keys
      ensures lists.Valid() && lists.home.Keys == old(lists.home.Keys)
      ensures lists.running == null && lists.ended == old(lists.ended)
      ensures var i := old(lists.running.slot);
              var k := Lowered(p, old(pcbs)[i].level);
              && pcbs == old(pcbs)[i := old(pcbs)[i].(state := Ready, burst := 0, level := k)]
              && lists.waiting == old(lists.waiting)[k := old(lists.waiting)[k] + [i]]
    {
      var i := lists.running.slot;
      var k := if pcbs[i].level + 1 > Levels(p) - 1 then Levels(p) - 1 else pcbs[i].level + 1;
      pcbs := pcbs[i := pcbs[i].(state := Ready, burst := 0, level := k)];
      lists.Leave(k);
    }

    /** Loads and reports the process just taken from level `k`. */
    method LoadAndReport(k: nat, memsize: int)
      requires lists.AllLinked() && lists.Holding() && lists.running != null && lists.running.slot < |pcbs|
      requires Valid(memory.View(), memsize) && lists.running.slot < |memory.procs|
      requires 0 < memory.procs[lists.running.slot].size <= memsize
      modifies this`pcbs, this`lines, this`trace, lists.running`next, memory
      ensures lists.Valid()
      ensures var i := lists.running.slot;
              && memory.View() == ImageLoaded(old(memory.View()), i, time, memsize)
              && pcbs == old(pcbs)[i := old(pcbs)[i].(state := Running, burst := 0)]
              && trace == old(trace) + [Dispatched(time, i, k)]
              && lines == old(lines) + [StatusLine(time, old(pcbs)[i].pid, memory.View(), memsize)]
    {
      LoadPcb(memsize);
      PrintStatus(lists.running.slot, memsize);
      trace := trace + [Dispatched(time, lists.running.slot, k)];
    }

    /** The process that is first in line can be brought into memory. */
    ghost predicate CanServe(memsize: int)
      reads this, lists, memory
    {
      && 0 < memsize && lists.running == null
      && (CanDispatch(Schedule()) ==>
            && Head(Schedule()) < |pcbs| && Head(Schedule()) < |memory.procs| && Valid(memory.View(), memsize)
            && 0 < memory.procs[Head(Schedule())].size <= memsize)
    }

    method ServeFcfs(memsize: int)
      requires lists.Valid() && |lists.waiting| == 1 && CanServe(memsize)
      modifies this`pcbs, this`lines, this`trace, lists, lists.all, lists.home.Keys, memory
      ensures lists.Valid() && lists.home.Keys == old(lists.home.Keys)
      ensures View() == Served(old(Schedule()), old(memory.View()), old(lines), memsize)
      ensures lists.running == null ==> !CanDispatch(old(Schedule())) && lists.waiting == old(lists.waiting)
    {
      assert FirstWaiting(lists.waiting) == if lists.waiting[0] == [] then 1 else 0;
      lists.PopFront(0);
      if lists.running != null {
        LoadAndReport(0, memsize);
      }
    }

    /** The part of an FCFS iteration up to the dispatch; says whether the run is over. */
    method DispatchFcfs(w: seq<Job>, memsize: int) returns (over: bool)
      requires lists.Valid() && |lists.waiting| == 1 && 0 < memsize && Loadable(w, memsize, View())
      modifies this`spi, this`pcbs, this`lines, this`trace, lists, lists.all, lists.home.Keys, memory
      ensures lists.Valid() && fresh(lists.home.Keys - old(lists.home.Keys))
      ensures over <==> Over(w, old(Schedule()))
      ensures over ==> lines == old(lines)
      ensures !over ==> View() == Dispatch(w, memsize, old(View()))
    {
      over := false;
      CheckScheduledProcesses(w);
      if lists.running == null {
        ServeFcfs(memsize);
        var empty := lists.IsEmpty(0);
        over := lists.running == null && empty && spi >= |w|;
      }
    }

    /** Takes a process from the first queue that has one, trying them in order of priority. */
    method PopFirst() returns (k: nat)
      requires lists.Valid() && lists.running == null
      modifies lists, lists.all
      ensures lists.AllLinked() && lists.Holding() && lists.home.Keys == old(lists.home.Keys) && lists.ended == old(lists.ended)
      ensures k == FirstWaiting(old(lists.waiting))
      ensures var q := old(lists.waiting);
              if k == |q| then lists.running == null && lists.waiting == q
              else lists.running != null && lists.running.slot == q[k][0] && lists.waiting == q[k := q[k][1..]]
    {
      k := 0;
      ghost var q := lists.waiting;
      while k < |lists.all| - 1 && lists.running == null
        invariant lists.AllLinked() && lists.Holding() && lists.home.Keys == old(lists.home.Keys) && lists.ended == old(lists.ended)
        invariant 0 <= k <= |lists.waiting| == |q|
        invariant if lists.running == null then lists.waiting == q && k <= FirstWaiting(q)
                  else k < |q| && k == FirstWaiting(q) && lists.running.slot == q[k][0] && lists.waiting == q[k := q[k][1..]]
        decreases lists.running == null, |lists.all| - k
      {
        lists.PopFront(k);
        if lists.running == null {
          k := k + 1;
        }
      }
    }

    method ServeMulti(memsize: int)
      requires lists.Valid() && CanServe(memsize)
      modifies this`pcbs, this`lines, this`trace, lists, lists.all, lists.home.Keys, memory
      ensures lists.Valid() && lists.home.Keys == old(lists.home.Keys)
      ensures View() == Served(old(Schedule()), old(memory.View()), old(lines), memsize)
      ensures lists.running == null ==> !CanDispatch(old(Schedule())) && lists.waiting == old(lists.waiting)
    {
      var k := PopFirst();
      if lists.running != null {
        LoadAndReport(k, memsize);
      }
    }

    /** The part of an MLFQ iteration up to the dispatch; says whether the run is over. */
    method DispatchMulti(w: seq<Job>, memsize: int) returns (over: bool)
      requires lists.Valid() && lists.waiting != [] && 0 < memsize && Loadable(w, memsize, View())
      modifies this`spi, this`pcbs, this`lines, this`trace, lists, lists.all, lists.home.Keys, memory
      ensures lists.Valid() && fresh(lists.home.Keys - old(lists.home.Keys))
      ensures over <==> Over(w, old(Schedule()))
      ensures over ==> lines == old(lines)
      ensures !over ==> View() == Dispatch(w, memsize, old(View()))
    {
      over := false;
      CheckScheduledProcesses(w);
      if lists.running == null {
        ServeMulti(memsize);
        over := lists.running == null && spi >= |w|;
      }
    }

    /** The part of an FCFS iteration that follows the dispatch. */
    method TickFcfs()
      requires lists.Valid() && |lists.waiting| == 1
      requires lists.running != null ==> lists.running.slot < |pcbs| && lists.running.slot < |memory.procs|
      modifies this`time, this`pcbs, lists, lists.all, lists.home.Keys, memory
      ensures lists.Valid() && lists.home.Keys == old(lists.home.Keys)
      ensures View() == Tick(Fcfs, old(View()))
    {
      if lists.running != null {
        RunPcb(lists.running.slot);
      }
      time := time + 1;
      if lists.running != null && pcbs[lists.running.slot].cpu >= pcbs[lists.running.slot].jobTime {
        TerminateRunning();
      }
    }

    /** The part of an MLFQ iteration that follows the dispatch. */
    method TickMulti(p: Policy)
      requires GoodPolicy(p) && p.Mlfq? && lists.Valid() && |lists.waiting| == Levels(p)
      requires lists.running != null ==> lists.running.slot < |pcbs| && lists.running.slot < |memory.procs|
      modifies this`time, this`pcbs, lists, lists.all, lists.home.Keys, memory
      ensures lists.Valid() && lists.home.Keys == old(lists.home.Keys)
      ensures View() == Tick(p, old(View()))
    {
      if lists.running != null {
        RunPcb(lists.running.slot);
      }
      time := time + 1;
      if lists.running != null {
        if pcbs[lists.running.slot].cpu >= pcbs[lists.running.slot].jobTime {
          TerminateRunning();
        } else if pcbs[lists.running.slot].burst >= Quantum(p.quanta, pcbs[lists.running.slot].level) {
          LowerRunning(p);
        }
      }
    }
  }

  lemma {:induction false} AdmittedBound(w: seq<Job>, c: Sched)
    requires c.ready != [] && c.spi <= |w|
    ensures Admitted(w, c).spi <= |w|
    decreases |w| - c.spi
  {
    if c.spi < |w| && w[c.spi].start <= c.time {
      AdmittedBound(w, AdmitOne(w, c));
    }
  }

  /** What the runners need of the state at the head of their loops. */
  ghost predicate Loadable(w: seq<Job>, memsize: int, s: Sim)
    requires s.sched.ready != []
  {
    var a := Admitted(w, s.sched);
    && s.sched.spi <= |w| && a.spi <= |w|
    && (CanDispatch(a) ==>
          var m := ImagesAdmitted(w, s.mem, s.sched.spi, a.spi);
          && Head(a) < |a.pcbs| && Head(a) < |m.procs| && Valid(m, memsize)
          && 0 < m.procs[Head(a)].size <= memsize)
  }

  lemma Reachable(p: Policy, w: seq<Job>, memsize: int, n: nat)
    requires GoodPolicy(p) && GoodJobs(w, memsize)
    ensures var s := SimAfter(p, w, memsize, n);
            var b := Dispatch(w, memsize, s);
            && Loadable(w, memsize, s)
            && (b.sched.running.Some? ==> b.sched.running.value < |b.sched.pcbs| && b.sched.running.value < |b.mem.procs|)
  {
    var s := SimAfter(p, w, memsize, n);
    var a := Admitted(w, s.sched);
    SimRunInv(p, w, memsize, n);
    RunInv(p, w, n);
    AdmittedBound(w, s.sched);
    ImagesAdmittedOk(w, s.sched, s.mem, memsize);
    DispatchOk(p, w, memsize, s);
    if CanDispatch(a) {
      HeadWaits(p, w, s.sched);
      assert ImageOf(w[Head(a)], ImagesAdmitted(w, s.mem, s.sched.spi, a.spi).procs[Head(a)]);
    }
  }

  /** The states of a run by number. */
  ghost predicate IsRun(run: nat -> Sim, p: Policy, w: seq<Job>, memsize: int)
    requires GoodPolicy(p) && 0 < memsize
  {
    forall n: nat {:trigger SimAfter(p, w, memsize, n)} :: run(n) == SimAfter(p, w, memsize, n)
  }

  /** The simulator is in state `s` at the head of its loop. */
  ghost predicate InState(sim: Simulator, s: Sim)
    reads sim, sim.memory, sim.lists, sim.lists.all, sim.lists.home.Keys
  {
    sim.lists.Valid() && sim.View() == s
  }

  /** One pass through the loop of fcfs_scheduler_runner. */
  method FcfsIteration(sim: Simulator, w: seq<Job>, memsize: int, ghost n: nat) returns (over: bool)
    requires GoodJobs(w, memsize) && sim.lists.Valid() && sim.View() == SimAfter(Fcfs, w, memsize, n)
    modifies sim, sim.memory, sim.lists, sim.lists.all, sim.lists.home.Keys
    ensures sim.lists.Valid() && fresh(sim.lists.home.Keys - old(sim.lists.home.Keys))
    ensures over <==> Over(w, After(Fcfs, w, n))
    ensures if over then sim.time == old(sim.time) && sim.lines == old(sim.lines)
            else sim.View() == SimAfter(Fcfs, w, memsize, n + 1)
  {
    Reachable(Fcfs, w, memsize, n);
    over := sim.DispatchFcfs(w, memsize);
    if !over {
      sim.TickFcfs();
    }
  }

  /** One pass through the loop of multi_scheduler_runner. */
  method MultiIteration(sim: Simulator, p: Policy, w: seq<Job>, memsize: int, ghost n: nat) returns (over: bool)
    requires GoodJobs(w, memsize) && GoodPolicy(p) && p.Mlfq?
    requires sim.lists.Valid() && sim.View() == SimAfter(p, w, memsize, n)
    modifies sim, sim.memory, sim.lists, sim.lists.all, sim.lists.home.Keys
    ensures sim.lists.Valid() && fresh(sim.lists.home.Keys - old(sim.lists.home.Keys))
    ensures over <==> Over(w, After(p, w, n))
    ensures if over then sim.time == old(sim.time) && sim.lines == old(sim.lines)
            else sim.View() == SimAfter(p, w, memsize, n + 1)
  {
    Reachable(p, w, memsize, n);
    over := sim.DispatchMulti(w, memsize);
    if !over {
      sim.TickMulti(p);
    }
  }

  /** The same pass within a run of `end` iterations. */
  method FcfsPass(sim: Simulator, w: seq<Job>, memsize: int, ghost run: nat -> Sim, ghost n: nat, ghost end: int) returns (over: bool)
    requires GoodJobs(w, memsize) && IsRun(run, Fcfs, w, memsize) && n <= end == FinishTime(w) && InState(sim, run(n))
    modifies sim, sim.memory, sim.lists, sim.lists.all, sim.lists.home.Keys
    ensures sim.lists.Valid() && fresh(sim.lists.home.Keys - old(sim.lists.home.Keys))
    ensures if over then n == end == sim.time && sim.lines == run(n).lines else n < end && InState(sim, run(n + 1))
  {
    RunEnds(Fcfs, w, n);
    assert run(n) == SimAfter(Fcfs, w, memsize, n) && run(n + 1) == SimAfter(Fcfs, w, memsize, n + 1);
    over := FcfsIteration(sim, w, memsize, n);
  }

  method MultiPass(sim: Simulator, p: Policy, w: seq<Job>, memsize: int, ghost run: nat -> Sim, ghost n: nat, ghost end: int)
    returns (over: bool)
    requires GoodJobs(w, memsize) && GoodPolicy(p) && p.Mlfq?
    requires IsRun(run, p, w, memsize) && n <= end == FinishTime(w) && InState(sim, run(n))
    modifies sim, sim.memory, sim.lists, sim.lists.all, sim.lists.home.Keys
    ensures sim.lists.Valid() && fresh(sim.lists.home.Keys - old(sim.lists.home.Keys))
    ensures if over then n == end == sim.time && sim.lines == run(n).lines else n < end && InState(sim, run(n + 1))
  {
    RunEnds(p, w, n);
    assert run(n) == SimAfter(p, w, memsize, n) && run(n + 1) == SimAfter(p, w, memsize, n + 1);
    over := MultiIteration(sim, p, w, memsize, n);
  }

  /** The loop of fcfs_scheduler_runner. */
  method FcfsLoop(sim: Simulator, w: seq<Job>, memsize: int, ghost run: nat -> Sim, ghost end: nat)
    requires GoodJobs(w, memsize) && IsRun(run, Fcfs, w, memsize) && end == FinishTime(w) && InState(sim, run(0))
    modifies sim, sim.memory, sim.lists, sim.lists.all, sim.lists.home.Keys
    ensures sim.lists.Valid() && sim.time == end && sim.lines == run(end).lines
  {
    ghost var n := 0;
    var over := false;
    while !over
      invariant sim.lists.Valid() && fresh(sim.lists.home.Keys - old(sim.lists.home.Keys))
      invariant 0 <= n <= end
      invariant if over then sim.time == end && sim.lines == run(end).lines else InState(sim, run(n))
      decreases !over, end - n
    {
      over := FcfsPass(sim, w, memsize, run, n, end);
      n := if over then n else n + 1;
    }
  }

  /** The loop of multi_scheduler_runner. */
  method MultiLoop(sim: Simulator, p: Policy, w: seq<Job>, memsize: int, ghost run: nat -> Sim, ghost end: nat)
    requires GoodJobs(w, memsize) && GoodPolicy(p) && p.Mlfq?
    requires IsRun(run, p, w, memsize) && end == FinishTime(w) && InState(sim, run(0))
    modifies sim, sim.memory, sim.lists, sim.lists.all, sim.lists.home.Keys
    ensures sim.lists.Valid() && sim.time == end && sim.lines == run(end).lines
  {
    ghost var n := 0;
    var over := false;
    while !over
      invariant sim.lists.Valid() && fresh(sim.lists.home.Keys - old(sim.lists.home.Keys))
      invariant 0 <= n <= end
      invariant if over then sim.time == end && sim.lines == run(end).lines else InState(sim, run(n))
      decreases !over, end - n
    {
      over := MultiPass(sim, p, w, memsize, run, n, end);
      n := if over then n else n + 1;
    }
  }

  /** fcfs_scheduler_runner: prints one line for every job and ends at the finish time. */
  method FcfsRunner(w: seq<Job>, memsize: int) returns (finish: int, lines: seq<Line>)
    requires GoodJobs(w, memsize)
    ensures finish == FinishTime(w) >= 0
    ensures lines == SimAfter(Fcfs, w, memsize, finish).lines
    ensures |lines| == |w| && OneProcessLines(lines)
    ensures forall k :: 0 <= k < |lines| ==> lines[k].pid == w[k].pid
    ensures Lines(Fcfs, w, memsize, lines, After(Fcfs, w, finish).trace)
  {
    var sim := new Simulator(1, memsize);
    assert sim.View() == Sim(Cpu.Initial(Fcfs), Memory.Initial(memsize), []);
    RunEnds(Fcfs, w, 0);
    assert sim.lists.home.Keys == {};
    ghost var run := (n: nat) => SimAfter(Fcfs, w, memsize, n);
    FcfsLoop(sim, w, memsize, run, FinishTime(w));
    finish, lines := sim.time, sim.lines;
    RunEnds(Fcfs, w, finish);
    FcfsLines(w, memsize, finish);
    EveryLineOk(Fcfs, w, memsize, finish);
  }

  /** multi_scheduler_runner: ends at the same time, whatever the quanta. */
  method MultiRunner(w: seq<Job>, memsize: int, quanta: seq<int>) returns (finish: int, lines: seq<Line>)
    requires GoodJobs(w, memsize) && GoodPolicy(Mlfq(quanta))
    ensures finish == FinishTime(w) >= 0
    ensures lines == SimAfter(Mlfq(quanta), w, memsize, finish).lines
    ensures Lines(Mlfq(quanta), w, memsize, lines, After(Mlfq(quanta), w, finish).trace)
    ensures LinesTell(Mlfq(quanta), w, memsize, lines, After(Mlfq(quanta), w, finish).trace)
    ensures |lines| == Sum(w, DispatchesOf(Mlfq(quanta)))
  {
    var p := Mlfq(quanta);
    assert Levels(p) == |quanta|;
    var sim := new Simulator(|quanta|, memsize);
    assert sim.View() == Sim(Cpu.Initial(p), Memory.Initial(memsize), []);
    RunEnds(p, w, 0);
    assert sim.lists.home.Keys == {};
    ghost var run := (n: nat) => SimAfter(p, w, memsize, n);
    MultiLoop(sim, p, w, memsize, run, FinishTime(w));
    finish, lines := sim.time, sim.lines;
    RunEnds(p, w, finish);
    EveryLineOk(p, w, memsize, finish);
    EveryLineTells(p, w, memsize, finish);
    LineCount(p, w, memsize, finish);
  }
}
