/** Main memory and the processes in it (project1/memory-management.c), as values: first-fit
    allocation from the top of a hole, release, and the eviction that makes room. */
module Memory {
  import opened FreeList
  import opened Sums

  /** The start address of a process image that is not in main memory. */
  const IN_DISK := -1

  datatype ProcMem = ProcMem(start: int, size: int, swapIn: int, pid: int) {
    predicate InDisk() { start == IN_DISK }

    function Seg(): Segment { Segment(start, size) }

    /** The image after it has been swapped out. */
    function Out(): ProcMem { this.(start := IN_DISK, swapIn := 0) }
  }

  datatype Mem = Mem(free: seq<Segment>, procs: seq<ProcMem>)

  predicate Resident(ps: seq<ProcMem>, i: int) {
    0 <= i < |ps| && !ps[i].InDisk()
  }

  function ResidentWeight(p: ProcMem): int { if p.InDisk() then 0 else 1 }
  function ResidentBytes(p: ProcMem): int { if p.InDisk() then 0 else p.size }
  function SegmentBytes(s: Segment): int { s.size }

  /** get_process_memories_list_not_in_disk_count and ..._size. */
  function ResidentCount(ps: seq<ProcMem>): int { Sum(ps, ResidentWeight) }
  function ResidentSize(ps: seq<ProcMem>): int { Sum(ps, ResidentBytes) }
  function FreeSize(fs: seq<Segment>): int { Sum(fs, SegmentBytes) }

  // ---- The invariant of main memory ----

  ghost predicate Used(ps: seq<ProcMem>, a: int) {
    exists i :: Resident(ps, i) && ps[i].Seg().Has(a)
  }

  /** The resident images are non-empty, within memory and pairwise apart. */
  ghost predicate Disjoint(ps: seq<ProcMem>, memsize: int) {
    && (forall i :: Resident(ps, i) ==> 0 < ps[i].size && 0 <= ps[i].Seg().End() && ps[i].start <= memsize)
    && (forall i, j :: Resident(ps, i) && Resident(ps, j) && i != j ==> ps[i].Seg().Apart(ps[j].Seg()))
  }

  /** The free list is the canonical form of what the resident images leave of [0, memsize). */
  ghost predicate Valid(m: Mem, memsize: int) {
    && Canonical(m.free)
    && Disjoint(m.procs, memsize)
    && (forall a :: Covers(m.free, a) <==> 0 <= a < memsize && !Used(m.procs, a))
  }

  function Initial(memsize: int): Mem {
    Mem([Segment(memsize, memsize)], [])
  }

  // ---- The operations ----

  /** A new image, on disk, at the end of the list of process memories. */
  function Added(m: Mem, size: int, pid: int): Mem {
    m.(procs := m.procs + [ProcMem(IN_DISK, size, 0, pid)])
  }

  /** Image `i` out of memory, its addresses given back. */
  function SwappedOut(m: Mem, i: nat): Mem
    requires i < |m.procs|
  {
    Mem(Released(m.free, m.procs[i].Seg()), m.procs[i := m.procs[i].Out()])
  }

  /** Image `i` at the top of hole `k`. */
  function PlacedAt(m: Mem, i: nat, k: nat, t: int): Mem
    requires i < |m.procs| && k < |m.free|
  {
    Mem(Taken(m.free, k, m.procs[i].size), m.procs[i := m.procs[i].(start := m.free[k].start, swapIn := t)])
  }

  /** The image chosen for eviction among the first `n`, scanning from the left; -1 if none is resident. */
  function Best(ps: seq<ProcMem>, n: nat): (v: int)
    requires n <= |ps|
    ensures v == -1 || (v < n && Resident(ps, v))
    ensures v == -1 <==> forall i :: 0 <= i < n ==> !Resident(ps, i)
  {
    if n == 0 then -1
    else
      var v := Best(ps, n - 1);
      if ps[n - 1].InDisk() then v
      else if v == -1 || ps[n - 1].size > ps[v].size
              || (ps[n - 1].size == ps[v].size && ps[n - 1].swapIn <= ps[v].swapIn) then n - 1
      else v
  }

  ghost predicate SomeResident(ps: seq<ProcMem>) {
    exists i :: Resident(ps, i)
  }

  function Victim(ps: seq<ProcMem>): (v: nat)
    requires SomeResident(ps)
    ensures Resident(ps, v)
  {
    Best(ps, |ps|)
  }

  /** Image `i` is on disk and fits into a memory of `memsize` addresses. */
  ghost predicate CanSwapIn(m: Mem, i: nat, memsize: int) {
    && Valid(m, memsize)
    && i < |m.procs| && m.procs[i].InDisk()
    && 0 < m.procs[i].size <= memsize
  }

  /** Swap-in: first fit if some hole fits, otherwise evict and try again. */
  function SwapIn(m: Mem, i: nat, t: int, memsize: int): (r: Mem)
    requires CanSwapIn(m, i, memsize)
    ensures Valid(r, memsize)
    ensures |r.procs| == |m.procs| && Resident(r.procs, i)
    ensures r.procs[i].size == m.procs[i].size && r.procs[i].swapIn == t
    ensures forall j :: Resident(r.procs, j) && j != i ==> r.procs[j] == m.procs[j]
    ensures forall j :: 0 <= j < |r.procs| ==> r.procs[j].size == m.procs[j].size && r.procs[j].pid == m.procs[j].pid
    decreases ResidentCount(m.procs)
  {
    var k := FirstFit(m.free, m.procs[i].size);
    if k < |m.free| then
      PlacedAtValid(m, i, k, t, memsize);
      PlacedAt(m, i, k, t)
    else
      EvictionProgress(m, i, memsize);
      SwapIn(SwappedOut(m, Victim(m.procs)), i, t, memsize)
  }

  /** The images that a swap-in evicts, in order. */
  function Evictions(m: Mem, i: nat, memsize: int): seq<nat>
    requires CanSwapIn(m, i, memsize)
    decreases ResidentCount(m.procs)
  {
    if FirstFit(m.free, m.procs[i].size) < |m.free| then []
    else
      EvictionProgress(m, i, memsize);
      [Victim(m.procs)] + Evictions(SwappedOut(m, Victim(m.procs)), i, memsize)
  }

  // ---- Every operation keeps the invariant ----

  lemma InitialValid(memsize: int)
    requires 0 < memsize
    ensures Valid(Initial(memsize), memsize)
  {
    var fs := [Segment(memsize, memsize)];
    forall a ensures Covers(fs, a) <==> 0 <= a < memsize {
      if 0 <= a < memsize { assert fs[0].Has(a); }
    }
  }

  lemma AddedValid(m: Mem, size: int, pid: int, memsize: int)
    requires Valid(m, memsize)
    ensures Valid(Added(m, size, pid), memsize)
  {
    var ps := Added(m, size, pid).procs;
    assert forall i :: Resident(ps, i) <==> Resident(m.procs, i);
    forall a ensures Used(ps, a) <==> Used(m.procs, a) {
      if Used(m.procs, a) {
        var i :| Resident(m.procs, i) && m.procs[i].Seg().Has(a);
        assert Resident(ps, i) && ps[i].Seg().Has(a);
      }
    }
  }

  /** Two non-empty segments without a common address are apart. */
  lemma NoCommonAddress(s: Segment, t: Segment)
    requires 0 < s.size && 0 < t.size
    requires forall a :: s.Has(a) ==> !t.Has(a)
    ensures s.Apart(t)
  {
    if !s.Apart(t) {
      var a := if s.End() <= t.End() then t.End() else s.End();
      assert s.Has(a);
    }
  }

  lemma ResidentApartFromFree(m: Mem, i: nat, k: nat, memsize: int)
    requires Valid(m, memsize) && Resident(m.procs, i) && k < |m.free|
    ensures m.procs[i].Seg().Apart(m.free[k])
  {
    forall a | m.procs[i].Seg().Has(a) ensures !m.free[k].Has(a) {
      assert Used(m.procs, a);
      assert !Covers(m.free, a);
    }
    NoCommonAddress(m.procs[i].Seg(), m.free[k]);
  }

  lemma SwappedOutUsed(ps: seq<ProcMem>, i: nat, a: int, memsize: int)
    requires Disjoint(ps, memsize) && Resident(ps, i)
    ensures Used(ps[i := ps[i].Out()], a) <==> Used(ps, a) && !ps[i].Seg().Has(a)
  {
    var qs := ps[i := ps[i].Out()];
    if Used(qs, a) {
      var j :| Resident(qs, j) && qs[j].Seg().Has(a);
      assert Resident(ps, j) && ps[j].Seg().Apart(ps[i].Seg());
    }
    if Used(ps, a) && !ps[i].Seg().Has(a) {
      var j :| Resident(ps, j) && ps[j].Seg().Has(a);
      assert Resident(qs, j);
    }
  }

  lemma SwappedOutDisjoint(ps: seq<ProcMem>, i: nat, memsize: int)
    requires Disjoint(ps, memsize) && Resident(ps, i)
    ensures Disjoint(ps[i := ps[i].Out()], memsize)
  {
    var qs := ps[i := ps[i].Out()];
    assert forall j :: Resident(qs, j) ==> Resident(ps, j) && qs[j] == ps[j];
  }

  lemma SwappedOutValid(m: Mem, i: nat, memsize: int)
    requires Valid(m, memsize) && Resident(m.procs, i)
    ensures Valid(SwappedOut(m, i), memsize)
    ensures ResidentCount(SwappedOut(m, i).procs) == ResidentCount(m.procs) - 1
    ensures ResidentSize(SwappedOut(m, i).procs) == ResidentSize(m.procs) - m.procs[i].size
  {
    forall k | 0 <= k < |m.free| ensures m.procs[i].Seg().Apart(m.free[k]) {
      ResidentApartFromFree(m, i, k, memsize);
    }
    ReleasedCanonical(m.free, m.procs[i].Seg());
    SwappedOutDisjoint(m.procs, i, memsize);
    var r := SwappedOut(m, i);
    forall a ensures Covers(r.free, a) <==> 0 <= a < memsize && !Used(r.procs, a) {
      SwappedOutUsed(m.procs, i, a, memsize);
      if m.procs[i].Seg().Has(a) { assert Used(m.procs, a); }
    }
    SumUpdate(m.procs, i, m.procs[i].Out(), ResidentWeight);
    SumUpdate(m.procs, i, m.procs[i].Out(), ResidentBytes);
  }

  lemma PlacedAtUsed(ps: seq<ProcMem>, i: nat, p: ProcMem, a: int)
    requires i < |ps| && ps[i].InDisk() && !p.InDisk()
    ensures Used(ps[i := p], a) <==> Used(ps, a) || p.Seg().Has(a)
  {
    var qs := ps[i := p];
    if Used(qs, a) {
      var j :| Resident(qs, j) && qs[j].Seg().Has(a);
      if j != i { assert Resident(ps, j) && ps[j].Seg().Has(a); }
    }
    if Used(ps, a) {
      var j :| Resident(ps, j) && ps[j].Seg().Has(a);
      assert Resident(qs, j) && qs[j].Seg().Has(a);
    }
    if p.Seg().Has(a) { assert Resident(qs, i); }
  }

  lemma HoleInMemory(m: Mem, k: nat, memsize: int)
    requires Valid(m, memsize) && k < |m.free|
    ensures 0 <= m.free[k].End() && m.free[k].start <= memsize
  {
    assert m.free[k].Has(m.free[k].End()) && m.free[k].Has(m.free[k].start - 1);
    assert Covers(m.free, m.free[k].End()) && Covers(m.free, m.free[k].start - 1);
  }

  lemma PlacedAtValid(m: Mem, i: nat, k: nat, t: int, memsize: int)
    requires Valid(m, memsize) && i < |m.procs| && m.procs[i].InDisk()
    requires k < |m.free| && 0 < m.procs[i].size <= m.free[k].size
    ensures Valid(PlacedAt(m, i, k, t), memsize)
    ensures Resident(PlacedAt(m, i, k, t).procs, i)
  {
    var r := PlacedAt(m, i, k, t);
    var p := r.procs[i];
    HoleInMemory(m, k, memsize);
    TakenCanonical(m.free, k, p.size);
    assert r.procs == m.procs[i := p];
    forall a ensures Covers(r.free, a) <==> 0 <= a < memsize && !Used(r.procs, a) {
      PlacedAtUsed(m.procs, i, p, a);
    }
    forall j | Resident(r.procs, j) && j != i ensures r.procs[j].Seg().Apart(p.Seg()) {
      assert Resident(m.procs, j);
      ResidentApartFromFree(m, j, k, memsize);
    }
    assert forall j :: Resident(r.procs, j) && j != i ==> Resident(m.procs, j) && r.procs[j] == m.procs[j];
  }

  // ---- An empty memory is one hole, so a swap-in always finds a victim or a hole ----

  /** With nothing resident, the free list is the single initial segment. */
  lemma EmptyIsOneHole(m: Mem, memsize: int)
    requires Valid(m, memsize) && 0 < memsize && !SomeResident(m.procs)
    ensures m.free == [Segment(memsize, memsize)]
  {
    InitialValid(memsize);
    forall a ensures Covers(m.free, a) <==> Covers([Segment(memsize, memsize)], a) {
      assert !Used(m.procs, a) && !Used([], a);
      assert Covers(Initial(memsize).free, a) <==> 0 <= a < memsize && !Used(Initial(memsize).procs, a);
    }
    CanonicalUnique(m.free, [Segment(memsize, memsize)]);
  }

  lemma ResidentCountZero(ps: seq<ProcMem>)
    ensures 0 <= ResidentCount(ps)
    ensures ResidentCount(ps) == 0 <==> !SomeResident(ps)
  {
    SumNonnegative(ps, ResidentWeight);
    SumZero(ps, ResidentWeight);
    if SomeResident(ps) {
      var i :| Resident(ps, i);
      assert ResidentWeight(ps[i]) == 1;
    }
    if !SomeResident(ps) {
      forall k | 0 <= k < |ps| ensures ResidentWeight(ps[k]) == 0 {
        assert !Resident(ps, k);
      }
    }
  }

  /** When no hole fits a request that memory could hold, some image is resident; evicting it
      leaves the request as it was and one image fewer. */
  lemma EvictionProgress(m: Mem, i: nat, memsize: int)
    requires CanSwapIn(m, i, memsize) && FirstFit(m.free, m.procs[i].size) == |m.free|
    ensures SomeResident(m.procs)
    ensures CanSwapIn(SwappedOut(m, Victim(m.procs)), i, memsize)
    ensures 0 <= ResidentCount(SwappedOut(m, Victim(m.procs)).procs) < ResidentCount(m.procs)
  {
    if !SomeResident(m.procs) {
      EmptyIsOneHole(m, memsize);
    }
    var v := Victim(m.procs);
    SwappedOutValid(m, v, memsize);
    ResidentCountZero(SwappedOut(m, v).procs);
  }
}
