/** Which processes are in memory during a run, told from the schedule and the evictions alone:
    a process comes in when it is dispatched and leaves when it is evicted or terminates. */
module Residence {
  import opened Memory
  import opened MemoryTheorems
  import opened Cpu
  import opened Simulation

  // ---- The ledger ----

  /** The processes evicted in iteration `n`. */
  ghost function Evicted(p: Policy, w: seq<Job>, memsize: int, n: nat): seq<nat>
    requires GoodPolicy(p) && 0 < memsize
  {
    var s, a := SimAfter(p, w, memsize, n), Admitted(w, After(p, w, n));
    if CanDispatch(a) && a.spi <= |w| then
      var m := ImagesAdmitted(w, s.mem, s.sched.spi, a.spi);
      if CanSwapIn(m, Head(a), memsize) then Evictions(m, Head(a), memsize) else []
    else []
  }

  /** The processes in memory at the head of iteration `n`. */
  ghost function InMemory(p: Policy, w: seq<Job>, memsize: int, n: nat): set<nat>
    requires GoodPolicy(p) && 0 < memsize
    decreases n, 0
  {
    if n == 0 then {}
    else if Over(w, After(p, w, n - 1)) then InMemory(p, w, memsize, n - 1)
    else AtDispatch(p, w, memsize, n - 1) - set i | i in After(p, w, n).done
  }

  /** The processes in memory between the dispatch and the time step of iteration `n`. */
  ghost function AtDispatch(p: Policy, w: seq<Job>, memsize: int, n: nat): set<nat>
    requires GoodPolicy(p) && 0 < memsize
    decreases n, 1
  {
    var a := Admitted(w, After(p, w, n));
    (InMemory(p, w, memsize, n) - set i | i in Evicted(p, w, memsize, n)) + if CanDispatch(a) then {Head(a)} else {}
  }

  ghost function Residents(ps: seq<ProcMem>): set<nat> {
    set i: nat | i < |ps| && !ps[i].InDisk()
  }

  // ---- The dispatch ----

  lemma {:induction false} WithoutAt(ps: seq<ProcMem>, ev: seq<nat>, j: nat)
    requires j < |ps|
    ensures Without(ps, ev)[j] == if j in ev then ps[j].Out() else ps[j]
    decreases |ev|
  {
    if ev != [] {
      assert ev == [ev[0]] + ev[1..];
      WithoutAt(if ev[0] < |ps| then ps[ev[0] := ps[ev[0]].Out()] else ps, ev[1..], j);
    }
  }

  lemma {:induction false} AdmittedImages(w: seq<Job>, m: Mem, i: nat, n: nat)
    requires n <= |w|
    ensures m.procs <= ImagesAdmitted(w, m, i, n).procs
    decreases n - i
  {
    if i < n { AdmittedImages(w, Added(m, w[i].memory, w[i].pid), i + 1, n); }
  }

  /** What a dispatch does to image `j`, given the memory `m` after admission and the images `ev`
      that it evicts. */
  lemma RoomMadeAt(m: Mem, i: nat, t: int, memsize: int, r: Mem, j: nat)
    requires CanSwapIn(m, i, memsize) && MakesRoom(m, i, t, memsize, r) && j < |m.procs| && j != i
    ensures |r.procs| == |m.procs|
    ensures r.procs[j] == if j in Evictions(m, i, memsize) then m.procs[j].Out() else m.procs[j]
  {
    WithoutAt(m.procs, Evictions(m, i, memsize), j);
  }

  /** In every run: a process that is in memory at the head of an iteration and is not evicted in it
      is where it was after the dispatch; one that is evicted is on disk, and no other comes in but
      the one that is dispatched. */
  lemma DispatchKeeps(p: Policy, w: seq<Job>, memsize: int, n: nat, j: nat)
    requires GoodPolicy(p) && GoodJobs(w, memsize)
    ensures var s, a := SimAfter(p, w, memsize, n), Admitted(w, After(p, w, n));
            var r := Dispatch(w, memsize, s).mem;
            && |s.mem.procs| <= |r.procs|
            && (CanDispatch(a) ==> Resident(r.procs, Head(a)))
            && (j < |r.procs| && !(CanDispatch(a) && j == Head(a)) ==>
                  if Resident(s.mem.procs, j) && j !in Evicted(p, w, memsize, n) then r.procs[j] == s.mem.procs[j]
                  else r.procs[j].InDisk())
  {
    var s, a := SimAfter(p, w, memsize, n), Admitted(w, After(p, w, n));
    SimRunInv(p, w, memsize, n);
    assert s.sched.spi == |s.sched.pcbs| by { RunInv(p, w, n); }
    ImagesAdmittedOk(w, s.sched, s.mem, memsize);
    AdmittedImages(w, s.mem, s.sched.spi, a.spi);
    var m := ImagesAdmitted(w, s.mem, s.sched.spi, a.spi);
    assert j < |m.procs| ==> (Resident(m.procs, j) <==> Resident(s.mem.procs, j));
    if CanDispatch(a) {
      EvictionOrder(p, w, memsize, n);
      if CanSwapIn(m, Head(a), memsize) {
        if j < |m.procs| && j != Head(a) {
          RoomMadeAt(m, Head(a), a.time, memsize, Dispatch(w, memsize, s).mem, j);
        }
      }
    }
  }

  // ---- The time step ----

  lemma RunningEnds(p: Policy, b: Sched)
    requires Fits(p, b)
    ensures Ran(p, b).done == if Ends(b) then b.done + [b.running.value] else b.done
  {
  }

  lemma NoneResidentIsDone(p: Policy, w: seq<Job>, memsize: int, b: Sim, j: nat)
    requires GoodPolicy(p) && 0 < memsize && Inv(p, w, b.sched) && MidStepInv(p, w, memsize, b) && Resident(b.mem.procs, j)
    ensures j !in b.sched.done
  {
    assert b.sched.pcbs[j].cpu < Need(b.sched.pcbs[j].jobTime);
  }

  /** The time step takes out of memory the process that ends, and leaves every other image as it
      is; in particular a process whose quantum is used up stays. */
  lemma TickKeeps(p: Policy, w: seq<Job>, memsize: int, b: Sim, j: nat)
    requires GoodPolicy(p) && 0 < memsize && Fits(p, b.sched) && Inv(p, w, b.sched) && MidStepInv(p, w, memsize, b)
    ensures |Tick(p, b).mem.procs| == |b.mem.procs|
    ensures j < |b.mem.procs| ==>
              Tick(p, b).mem.procs[j] == if Resident(b.mem.procs, j) && j in Ran(p, b.sched).done then b.mem.procs[j].Out()
                                         else b.mem.procs[j]
  {
    RunningEnds(p, b.sched);
    if Resident(b.mem.procs, j) { NoneResidentIsDone(p, w, memsize, b, j); }
  }

  /** In every run: what is in memory after a dispatch stays there, the same record, through the
      time step, unless the process has terminated; and nothing else comes in. */
  lemma StepKeeps(p: Policy, w: seq<Job>, memsize: int, n: nat, j: nat)
    requires GoodPolicy(p) && GoodJobs(w, memsize) && !Over(w, After(p, w, n))
    ensures var b, r := Dispatch(w, memsize, SimAfter(p, w, memsize, n)).mem, SimAfter(p, w, memsize, n + 1).mem;
            && |r.procs| == |b.procs|
            && (j < |r.procs| ==>
                  if Resident(b.procs, j) && j !in After(p, w, n + 1).done then r.procs[j] == b.procs[j]
                  else r.procs[j].InDisk())
  {
    var s := SimAfter(p, w, memsize, n);
    SimRunInv(p, w, memsize, n);
    RunInv(p, w, n);
    DispatchOk(p, w, memsize, s);
    var b := Dispatch(w, memsize, s);
    assert Inv(p, w, b.sched) by {
      AdmittedInv(p, w, s.sched);
      PickedInv(p, w, Admitted(w, s.sched));
    }
    TickKeeps(p, w, memsize, b, j);
  }

  // ---- The ledger is right ----

  lemma LedgerAtDispatch(p: Policy, w: seq<Job>, memsize: int, n: nat)
    requires GoodPolicy(p) && GoodJobs(w, memsize)
    requires InMemory(p, w, memsize, n) == Residents(SimAfter(p, w, memsize, n).mem.procs)
    ensures AtDispatch(p, w, memsize, n) == Residents(Dispatch(w, memsize, SimAfter(p, w, memsize, n)).mem.procs)
  {
    var s, a := SimAfter(p, w, memsize, n), Admitted(w, After(p, w, n));
    var r := Dispatch(w, memsize, s).mem;
    forall j: nat ensures j in AtDispatch(p, w, memsize, n) <==> j in Residents(r.procs) {
      DispatchKeeps(p, w, memsize, n, j);
    }
  }

  ghost predicate LedgerOk(p: Policy, w: seq<Job>, memsize: int, n: nat)
    requires GoodPolicy(p) && 0 < memsize
  {
    InMemory(p, w, memsize, n) == Residents(SimAfter(p, w, memsize, n).mem.procs)
  }

  lemma OneMoreLedger(p: Policy, w: seq<Job>, memsize: int, n: nat)
    requires GoodPolicy(p) && GoodJobs(w, memsize) && LedgerOk(p, w, memsize, n)
    ensures LedgerOk(p, w, memsize, n + 1)
  {
    if !Over(w, After(p, w, n)) {
      LedgerAtDispatch(p, w, memsize, n);
      var r := SimAfter(p, w, memsize, n + 1).mem;
      forall j: nat ensures j in InMemory(p, w, memsize, n + 1) <==> j in Residents(r.procs) {
        StepKeeps(p, w, memsize, n, j);
      }
    }
  }

  lemma RunLedger(p: Policy, w: seq<Job>, memsize: int, n: nat)
    requires GoodPolicy(p) && GoodJobs(w, memsize)
    ensures LedgerOk(p, w, memsize, n)
  {
    for k := 0 to n
      invariant LedgerOk(p, w, memsize, k)
    {
      OneMoreLedger(p, w, memsize, k);
    }
  }

  /** In every run the processes in memory, at the head of every iteration and after every
      dispatch, are those of the ledger. */
  lemma LedgerIsRight(p: Policy, w: seq<Job>, memsize: int, n: nat)
    requires GoodPolicy(p) && GoodJobs(w, memsize)
    ensures InMemory(p, w, memsize, n) == Residents(SimAfter(p, w, memsize, n).mem.procs)
    ensures AtDispatch(p, w, memsize, n) == Residents(Dispatch(w, memsize, SimAfter(p, w, memsize, n)).mem.procs)
  {
    RunLedger(p, w, memsize, n);
    LedgerAtDispatch(p, w, memsize, n);
  }

  // ---- What a line counts ----

  /** The memory that the first `n` jobs take up, as far as they are in `inside`. */
  function Held(w: seq<Job>, inside: set<nat>, n: nat): int
    requires n <= |w|
  {
    if n == 0 then 0 else Held(w, inside, n - 1) + if n - 1 in inside then w[n - 1].memory else 0
  }

  lemma {:induction false} CountResidents(ps: seq<ProcMem>)
    ensures ResidentCount(ps) == |Residents(ps)|
    decreases |ps|
  {
    if ps == [] {
      assert Residents(ps) == {};
    } else {
      var n := |ps| - 1;
      CountResidents(ps[..n]);
      assert Residents(ps) == Residents(ps[..n]) + if ps[n].InDisk() then {} else {n};
    }
  }

  lemma {:induction false} SizeResidents(w: seq<Job>, ps: seq<ProcMem>, inside: set<nat>, n: nat)
    requires n <= |ps| && |ps| <= |w| && inside == Residents(ps)
    requires forall i :: 0 <= i < |ps| ==> ps[i].size == w[i].memory
    ensures ResidentSize(ps[..n]) == Held(w, inside, n)
    decreases n
  {
    if n > 0 {
      SizeResidents(w, ps, inside, n - 1);
      assert ps[..n][..n - 1] == ps[..n - 1];
    }
  }

  lemma {:induction false} NothingBeyond(w: seq<Job>, inside: set<nat>, k: nat, n: nat)
    requires k <= n <= |w| && forall i :: i in inside ==> i < k
    ensures Held(w, inside, n) == Held(w, inside, k)
    decreases n
  {
    if k < n { NothingBeyond(w, inside, k, n - 1); }
  }

  /** A line counts the processes of the ledger at its dispatch, and its usage is that of their
      memory. */
  ghost predicate Tells(p: Policy, w: seq<Job>, memsize: int, l: Line, d: Dispatched)
    requires GoodPolicy(p) && 0 < memsize
  {
    && 0 <= d.time && l.time == d.time
    && var inside := AtDispatch(p, w, memsize, d.time);
       && d.slot in inside && l.processes == |inside|
       && l.usage == UsagePercent(Held(w, inside, |w|), memsize)
  }

  lemma DispatchTells(p: Policy, w: seq<Job>, memsize: int, n: nat)
    requires GoodPolicy(p) && GoodJobs(w, memsize)
    ensures var m := Dispatch(w, memsize, SimAfter(p, w, memsize, n)).mem;
            && ResidentCount(m.procs) == |AtDispatch(p, w, memsize, n)|
            && ResidentSize(m.procs) == Held(w, AtDispatch(p, w, memsize, n), |w|)
  {
    var s := SimAfter(p, w, memsize, n);
    var ps := Dispatch(w, memsize, s).mem.procs;
    assert |ps| <= |w| && forall i :: 0 <= i < |ps| ==> ps[i].size == w[i].memory by {
      SimRunInv(p, w, memsize, n);
      RunInv(p, w, n);
      DispatchOk(p, w, memsize, s);
      DispatchedSizes(p, w, memsize, Dispatch(w, memsize, s));
    }
    LedgerIsRight(p, w, memsize, n);
    CountResidents(ps);
    SizeResidents(w, ps, Residents(ps), |ps|);
    assert ps[..|ps|] == ps;
    NothingBeyond(w, Residents(ps), |ps|, |w|);
  }

  lemma DispatchedSizes(p: Policy, w: seq<Job>, memsize: int, b: Sim)
    requires GoodPolicy(p) && 0 < memsize && MidStepInv(p, w, memsize, b)
    ensures |b.mem.procs| <= |w| && forall i :: 0 <= i < |b.mem.procs| ==> b.mem.procs[i].size == w[i].memory
  {
    forall i | 0 <= i < |b.mem.procs| ensures b.mem.procs[i].size == w[i].memory {
      assert ImageOf(w[i], b.mem.procs[i]);
    }
  }

  ghost predicate LinesTell(p: Policy, w: seq<Job>, memsize: int, lines: seq<Line>, trace: seq<Dispatched>)
    requires GoodPolicy(p) && 0 < memsize
  {
    |lines| == |trace| && forall k :: 0 <= k < |lines| ==> Tells(p, w, memsize, lines[k], trace[k])
  }

  lemma ReportTells(p: Policy, w: seq<Job>, memsize: int, l: Line, d: Dispatched)
    requires GoodPolicy(p) && GoodJobs(w, memsize) && Reports(p, w, memsize, l, d)
    ensures Tells(p, w, memsize, l, d)
  {
    DispatchTells(p, w, memsize, d.time);
    LedgerIsRight(p, w, memsize, d.time);
  }

  /** In every run each line counts exactly the processes that have come in and have neither been
      evicted nor terminated since, the dispatched one among them. */
  lemma EveryLineTells(p: Policy, w: seq<Job>, memsize: int, n: nat)
    requires GoodPolicy(p) && GoodJobs(w, memsize)
    ensures LinesTell(p, w, memsize, SimAfter(p, w, memsize, n).lines, After(p, w, n).trace)
  {
    EveryLineOk(p, w, memsize, n);
    var s := SimAfter(p, w, memsize, n);
    forall k | 0 <= k < |s.lines| ensures Tells(p, w, memsize, s.lines[k], s.sched.trace[k]) {
      assert Reports(p, w, memsize, s.lines[k], s.sched.trace[k]);
      ReportTells(p, w, memsize, s.lines[k], s.sched.trace[k]);
    }
  }
}
