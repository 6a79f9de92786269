/** What holds of every main memory that satisfies the invariant, and what a swap-in does to it. */
module MemoryTheorems {
  import opened FreeList
  import opened Sums
  import opened Memory

  // ---- Accounting ----

  lemma {:induction false} InsertedSize(fs: seq<Segment>, s: Segment)
    ensures FreeSize(Inserted(fs, s)) == FreeSize(fs) + s.size
    decreases |fs|
  {
    if fs == [] {
      assert [s] == [] + [s];
      SumAppend([], s, SegmentBytes);
    } else if s.start >= fs[0].start {
      SumAppend([], s, SegmentBytes);
      SumConcat([s], fs, SegmentBytes);
    } else {
      InsertedSize(fs[1..], s);
      SumConcat([fs[0]], Inserted(fs[1..], s), SegmentBytes);
      SumConcat([fs[0]], fs[1..], SegmentBytes);
      assert fs == [fs[0]] + fs[1..];
    }
  }

  lemma {:induction false} ConsolidatedSize(fs: seq<Segment>)
    ensures FreeSize(Consolidated(fs)) == FreeSize(fs)
    decreases |fs|
  {
    if |fs| >= 2 {
      if fs[0].End() == fs[1].start {
        var s := Merged(fs[0], fs[1]);
        ConsolidatedSize([s] + fs[2..]);
        SumConcat([s], fs[2..], SegmentBytes);
        SumConcat([fs[0], fs[1]], fs[2..], SegmentBytes);
        SumAppend([fs[0]], fs[1], SegmentBytes);
        assert [fs[0], fs[1]] == [fs[0]] + [fs[1]];
        assert fs == [fs[0], fs[1]] + fs[2..];
      } else {
        ConsolidatedSize(fs[1..]);
        SumConcat([fs[0]], Consolidated(fs[1..]), SegmentBytes);
        SumConcat([fs[0]], fs[1..], SegmentBytes);
        assert fs == [fs[0]] + fs[1..];
      }
    }
  }

  lemma {:induction false} CanonicalIsConsolidated(fs: seq<Segment>)
    requires Canonical(fs)
    ensures Consolidated(fs) == fs
    decreases |fs|
  {
    if |fs| >= 2 {
      CanonicalIsConsolidated(fs[1..]);
      assert fs == [fs[0]] + fs[1..];
    }
  }

  lemma ConsolidatedCons(s: Segment, fs: seq<Segment>)
    requires Canonical(fs) && (fs == [] || s.End() != fs[0].start)
    ensures Consolidated([s] + fs) == [s] + fs
  {
    assert ([s] + fs)[1..] == fs;
    CanonicalIsConsolidated(fs);
  }

  lemma ConsedLength(s: Segment, fs: seq<Segment>)
    requires Canonical(fs)
    ensures |Consolidated([s] + fs)| >= |fs|
  {
    if fs != [] && s.End() == fs[0].start {
      var t := Merged(s, fs[0]);
      assert ([s] + fs)[2..] == fs[1..];
      assert t.End() == fs[0].End();
      ConsolidatedCons(t, fs[1..]);
    } else {
      ConsolidatedCons(s, fs);
    }
  }

  /** Giving one segment back can join two holes into one, but no more. */
  lemma {:induction false} ReleasedLength(fs: seq<Segment>, s: Segment)
    requires Canonical(fs)
    ensures |Released(fs, s)| >= |fs| - 1
    decreases |fs|
  {
    if fs != [] {
      if s.start >= fs[0].start {
        ConsedLength(s, fs);
      } else {
        var r := Inserted(fs[1..], s);
        assert Inserted(fs, s) == [fs[0]] + r && ([fs[0]] + r)[1..] == r;
        if fs[0].End() == r[0].start {
          assert r[0] == s && r == [s] + fs[1..];
          assert ([fs[0]] + r)[2..] == fs[1..];
          ConsedLength(Merged(fs[0], s), fs[1..]);
        } else {
          ReleasedLength(fs[1..], s);
        }
      }
    }
  }

  /** Free and resident sizes add up to the memory, and holes outnumber resident images by at
      most one. */
  lemma {:induction false} Accounting(m: Mem, memsize: int)
    requires Valid(m, memsize) && 0 < memsize
    ensures FreeSize(m.free) + ResidentSize(m.procs) == memsize
    ensures |m.free| <= ResidentCount(m.procs) + 1
    decreases ResidentCount(m.procs)
  {
    ResidentCountZero(m.procs);
    if SomeResident(m.procs) {
      var v := Victim(m.procs);
      SwappedOutValid(m, v, memsize);
      ResidentCountZero(SwappedOut(m, v).procs);
      Accounting(SwappedOut(m, v), memsize);
      InsertedSize(m.free, m.procs[v].Seg());
      ConsolidatedSize(Inserted(m.free, m.procs[v].Seg()));
      ReleasedLength(m.free, m.procs[v].Seg());
    } else {
      EmptyIsOneHole(m, memsize);
      SumAppend([], Segment(memsize, memsize), SegmentBytes);
      assert [Segment(memsize, memsize)] == [] + [Segment(memsize, memsize)];
      SumZero(m.procs, ResidentBytes);
      forall k | 0 <= k < |m.procs| ensures ResidentBytes(m.procs[k]) == 0 {
        assert !Resident(m.procs, k);
      }
    }
  }

  /** There is no hole exactly when the resident images fill the memory. */
  lemma NoHoleIffFull(m: Mem, memsize: int)
    requires Valid(m, memsize) && 0 < memsize
    ensures m.free == [] <==> ResidentSize(m.procs) == memsize
  {
    Accounting(m, memsize);
    SumZero(m.free, SegmentBytes);
    if m.free != [] { assert SegmentBytes(m.free[0]) > 0; }
  }

  /** Every address of [0, memsize) lies in exactly one segment, free or resident, and no
      segment reaches outside. */
  lemma Tiling(m: Mem, a: int, memsize: int)
    requires Valid(m, memsize)
    ensures 0 <= a < memsize <==> Covers(m.free, a) || Used(m.procs, a)
    ensures !(Covers(m.free, a) && Used(m.procs, a))
    ensures forall i, j | Resident(m.procs, i) && Resident(m.procs, j) ::
              m.procs[i].Seg().Has(a) && m.procs[j].Seg().Has(a) ==> i == j
    ensures forall i, j :: 0 <= i < |m.free| && 0 <= j < |m.free| && m.free[i].Has(a) && m.free[j].Has(a) ==> i == j
    ensures forall i :: Resident(m.procs, i) ==> 0 < m.procs[i].start != IN_DISK
  {
    forall i, j | Resident(m.procs, i) && Resident(m.procs, j)
      ensures m.procs[i].Seg().Has(a) && m.procs[j].Seg().Has(a) ==> i == j
    {
      assert i != j ==> m.procs[i].Seg().Apart(m.procs[j].Seg());
    }
  }

  /** The top addresses of the maximal runs of free addresses. */
  ghost predicate RunTop(fs: seq<Segment>, a: int) {
    Covers(fs, a) && !Covers(fs, a + 1)
  }

  /** The holes of a canonical list are exactly the maximal runs of free addresses, each once. */
  lemma HolesAreMaximalRuns(fs: seq<Segment>, a: int)
    requires Canonical(fs)
    ensures RunTop(fs, a) <==> exists k :: 0 <= k < |fs| && fs[k].start - 1 == a
    ensures forall i, j :: 0 <= i < j < |fs| ==> fs[i].start != fs[j].start
  {
    if RunTop(fs, a) {
      var k :| 0 <= k < |fs| && fs[k].Has(a);
      assert !fs[k].Has(a + 1);
      assert fs[k].start - 1 == a;
    }
    if k :| 0 <= k < |fs| && fs[k].start - 1 == a {
      assert fs[k].Has(a);
    }
  }

  // ---- What a swap-in does ----

  /** Eviction order: larger first, then longer resident, then later in the list. */
  ghost predicate Before(ps: seq<ProcMem>, i: int, j: int)
    requires 0 <= i < |ps| && 0 <= j < |ps|
  {
    || ps[i].size > ps[j].size
    || (ps[i].size == ps[j].size && ps[i].swapIn < ps[j].swapIn)
    || (ps[i].size == ps[j].size && ps[i].swapIn == ps[j].swapIn && i > j)
  }

  /** The first of the resident images in eviction order. */
  ghost predicate IsVictim(ps: seq<ProcMem>, v: int) {
    Resident(ps, v) && forall j :: Resident(ps, j) && j != v ==> Before(ps, v, j)
  }

  lemma {:induction false} BestIsFirst(ps: seq<ProcMem>, n: nat)
    requires n <= |ps|
    ensures Best(ps, n) != -1 ==>
              forall j :: 0 <= j < n && Resident(ps, j) && j != Best(ps, n) ==> Before(ps, Best(ps, n), j)
    decreases n
  {
    if n > 0 {
      BestIsFirst(ps, n - 1);
      var v := Best(ps, n - 1);
      assert ps[n - 1].InDisk() <==> !Resident(ps, n - 1);
    }
  }

  lemma VictimIsFirst(ps: seq<ProcMem>)
    requires SomeResident(ps)
    ensures IsVictim(ps, Victim(ps))
  {
    BestIsFirst(ps, |ps|);
  }

  /** The interval [a, a + n) lies in memory and no resident image outside `out` touches it. */
  ghost predicate Gap(ps: seq<ProcMem>, out: seq<nat>, n: int, memsize: int, a: int) {
    && 0 <= a && a + n <= memsize
    && (forall j :: Resident(ps, j) && j !in out ==> Segment(a + n, n).Apart(ps[j].Seg()))
  }

  lemma GapIsFree(m: Mem, n: int, memsize: int, a: int)
    requires Valid(m, memsize) && 0 < n
    ensures Gap(m.procs, [], n, memsize, a) <==> forall b :: a <= b < a + n ==> Covers(m.free, b)
  {
    if Gap(m.procs, [], n, memsize, a) {
      forall b | a <= b < a + n ensures Covers(m.free, b) {
        assert Segment(a + n, n).Has(b);
        forall j | Resident(m.procs, j) ensures !m.procs[j].Seg().Has(b) {
          assert Segment(a + n, n).Apart(m.procs[j].Seg());
        }
      }
    }
    if forall b :: a <= b < a + n ==> Covers(m.free, b) {
      assert Covers(m.free, a) && Covers(m.free, a + n - 1);
      forall j | Resident(m.procs, j) ensures Segment(a + n, n).Apart(m.procs[j].Seg()) {
        forall b | Segment(a + n, n).Has(b) ensures !m.procs[j].Seg().Has(b) {
          assert m.procs[j].Seg().Has(b) ==> Used(m.procs, b);
        }
        NoCommonAddress(Segment(a + n, n), m.procs[j].Seg());
      }
    }
  }

  /** First fit succeeds exactly when some interval of `n` addresses is free, and then its top
      is the top of the highest such interval. */
  lemma FirstFitIsHighestGap(m: Mem, n: int, memsize: int)
    requires Valid(m, memsize) && 0 < n
    ensures FirstFit(m.free, n) < |m.free| <==> exists a :: Gap(m.procs, [], n, memsize, a)
    ensures FirstFit(m.free, n) < |m.free| ==>
              var s := m.free[FirstFit(m.free, n)].start;
              Gap(m.procs, [], n, memsize, s - n) && forall a :: Gap(m.procs, [], n, memsize, a) ==> a <= s - n
  {
    var k := FirstFit(m.free, n);
    if k < |m.free| {
      var s := m.free[k].start;
      forall b | s - n <= b < s ensures Covers(m.free, b) {
        assert m.free[k].Has(b);
      }
      GapIsFree(m, n, memsize, s - n);
    }
    forall a | Gap(m.procs, [], n, memsize, a)
      ensures k < |m.free| && a <= m.free[k].start - n
    {
      GapIsFree(m, n, memsize, a);
      var h := IntervalInOneSegment(m.free, a, a + n);
      assert h >= k;
      if h > k { assert m.free[h].start < m.free[k].End(); }
    }
  }

  lemma GapAfterEviction(ps: seq<ProcMem>, v: nat, out: seq<nat>, n: int, memsize: int, a: int)
    requires Resident(ps, v)
    ensures Gap(ps[v := ps[v].Out()], out, n, memsize, a) <==> Gap(ps, [v] + out, n, memsize, a)
  {
    var qs := ps[v := ps[v].Out()];
    assert forall j :: Resident(qs, j) <==> Resident(ps, j) && j != v;
    assert forall j :: j in [v] + out <==> j == v || j in out;
  }

  /** The list with the images named in `ev` swapped out. */
  function Without(ps: seq<ProcMem>, ev: seq<nat>): (qs: seq<ProcMem>)
    ensures |qs| == |ps|
    decreases |ev|
  {
    if ev == [] then ps
    else if ev[0] < |ps| then Without(ps[ev[0] := ps[ev[0]].Out()], ev[1..])
    else Without(ps, ev[1..])
  }

  /** `ev` is an initial stretch of the resident images in eviction order. */
  ghost predicate EvictionPrefix(ps: seq<ProcMem>, ev: seq<nat>) {
    && (forall x :: 0 <= x < |ev| ==> Resident(ps, ev[x]))
    && (forall x, y :: 0 <= x < y < |ev| ==> Before(ps, ev[x], ev[y]))
    && (forall x, j :: 0 <= x < |ev| && Resident(ps, j) && j !in ev ==> Before(ps, ev[x], j))
  }

  lemma EvictionPrefixCons(ps: seq<ProcMem>, v: nat, ev: seq<nat>)
    requires IsVictim(ps, v) && EvictionPrefix(ps[v := ps[v].Out()], ev)
    ensures EvictionPrefix(ps, [v] + ev)
  {
    var qs := ps[v := ps[v].Out()];
    var r := [v] + ev;
    assert forall j :: Resident(qs, j) <==> Resident(ps, j) && j != v;
    forall x | 0 <= x < |r| ensures Resident(ps, r[x]) {
      if x > 0 { assert Resident(qs, ev[x - 1]); }
    }
    forall x, y | 0 <= x < y < |r| ensures Before(ps, r[x], r[y]) {
      assert Resident(qs, ev[y - 1]);
      if x > 0 { assert Resident(qs, ev[x - 1]) && Before(qs, ev[x - 1], ev[y - 1]); }
    }
    forall x, j | 0 <= x < |r| && Resident(ps, j) && j !in r ensures Before(ps, r[x], j) {
      assert v in r && j !in ev;
      assert Resident(qs, j);
      if x > 0 { assert Resident(qs, ev[x - 1]) && Before(qs, ev[x - 1], j); }
    }
  }

  /** No shorter stretch of `ev` leaves a gap of `n` addresses. */
  ghost predicate NoGapBefore(ps: seq<ProcMem>, ev: seq<nat>, n: int, memsize: int) {
    forall x, a :: 0 <= x < |ev| ==> !Gap(ps, ev[..x], n, memsize, a)
  }

  lemma NoGapBeforeCons(ps: seq<ProcMem>, v: nat, ev: seq<nat>, n: int, memsize: int)
    requires Resident(ps, v) && NoGapBefore(ps[v := ps[v].Out()], ev, n, memsize)
    requires forall a :: !Gap(ps, [], n, memsize, a)
    ensures NoGapBefore(ps, [v] + ev, n, memsize)
  {
    var r := [v] + ev;
    forall x, a | 0 <= x < |r| ensures !Gap(ps, r[..x], n, memsize, a) {
      if x == 0 {
        assert r[..x] == [];
      } else {
        assert r[..x] == [v] + ev[..x - 1];
        GapAfterEviction(ps, v, ev[..x - 1], n, memsize, a);
        assert !Gap(ps[v := ps[v].Out()], ev[..x - 1], n, memsize, a);
      }
    }
  }

  /** A swap-in evicts the shortest stretch of the resident images, in eviction order, that
      leaves room for the request, and puts the image at the top of the highest gap. */
  lemma {:induction false} SwapInEvictsShortestPrefix(m: Mem, i: nat, t: int, memsize: int)
    requires CanSwapIn(m, i, memsize)
    ensures
      var ev, r, n := Evictions(m, i, memsize), SwapIn(m, i, t, memsize), m.procs[i].size;
      && EvictionPrefix(m.procs, ev)
      && NoGapBefore(m.procs, ev, n, memsize)
      && r.procs == Without(m.procs, ev)[i := m.procs[i].(start := r.procs[i].start, swapIn := t)]
      && Gap(m.procs, ev, n, memsize, r.procs[i].start - n)
      && (forall a :: Gap(m.procs, ev, n, memsize, a) ==> a <= r.procs[i].start - n)
    decreases ResidentCount(m.procs)
  {
    var n := m.procs[i].size;
    FirstFitIsHighestGap(m, n, memsize);
    if FirstFit(m.free, n) == |m.free| {
      EvictionProgress(m, i, memsize);
      var v := Victim(m.procs);
      var m' := SwappedOut(m, v);
      SwapInEvictsShortestPrefix(m', i, t, memsize);
      VictimIsFirst(m.procs);
      var ev := Evictions(m', i, memsize);
      EvictionPrefixCons(m.procs, v, ev);
      NoGapBeforeCons(m.procs, v, ev, n, memsize);
      forall a ensures Gap(m.procs, [v] + ev, n, memsize, a) <==> Gap(m'.procs, ev, n, memsize, a) {
        GapAfterEviction(m.procs, v, ev, n, memsize, a);
      }
      assert ([v] + ev)[1..] == ev;
    }
  }

  /** memusage, as print_simulation_status computes it. */
  function UsagePercent(used: int, memsize: int): int
    requires 0 < memsize
  {
    100 * used / memsize + (if 100 * used % memsize != 0 then 1 else 0)
  }

  /** For a memory with something resident, the printed usage is the least percentage whose
      share of the memory holds the resident images, and lies between 1 and 100. */
  lemma UsageIsCeiling(m: Mem, memsize: int)
    requires Valid(m, memsize) && 0 < memsize && SomeResident(m.procs)
    ensures var u := UsagePercent(ResidentSize(m.procs), memsize);
            1 <= u <= 100 && (u - 1) * memsize < 100 * ResidentSize(m.procs) <= u * memsize
  {
    var used := ResidentSize(m.procs);
    Accounting(m, memsize);
    SumNonnegative(m.free, SegmentBytes);
    var i :| Resident(m.procs, i);
    SumMember(m.procs, i, ResidentBytes);
    CeilingPercent(used, memsize);
  }

  lemma CeilingPercent(used: int, memsize: int)
    requires 0 < used <= memsize
    ensures var u := UsagePercent(used, memsize);
            1 <= u <= 100 && (u - 1) * memsize < 100 * used <= u * memsize
  {
    var u, q, r := UsagePercent(used, memsize), 100 * used / memsize, 100 * used % memsize;
    assert 100 * used == q * memsize + r && 0 <= r < memsize;
    assert (u - 1) * memsize < 100 * used <= u * memsize by {
      if r == 0 { assert u == q && (u - 1) * memsize == q * memsize - memsize; }
      else { assert u == q + 1 && u * memsize == q * memsize + memsize; }
    }
    PositiveFactor(u, memsize);
    PositiveFactor(101 - u, memsize);
    assert (101 - u) * memsize == 101 * memsize - u * memsize;
    assert (u - 1) * memsize == u * memsize - memsize;
  }

  lemma PositiveFactor(x: int, y: int)
    requires 0 < x * y && 0 < y
    ensures 0 < x
  {
  }
}
