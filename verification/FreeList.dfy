/** The free list of the memory manager (project1/memory-management.c).

    A segment is named by the address just above it: a segment of size `n` with start
    address `s` holds the addresses `s - n`, ..., `s - 1`.  The list is kept by
    descending start address, and adjacent segments are merged. */
module FreeList {

  datatype Segment = Segment(start: int, size: int) {
    function End(): int { start - size }

    predicate Has(a: int) { start - size <= a < start }

    ghost predicate Apart(that: Segment) { start <= that.End() || that.start <= End() }
  }

  /** The addresses that a list of segments covers. */
  ghost predicate Covers(fs: seq<Segment>, a: int) {
    exists k :: 0 <= k < |fs| && fs[k].Has(a)
  }

  /** Non-empty segments by descending address, none overlapping; neighbours may touch. */
  ghost predicate Descending(fs: seq<Segment>) {
    && (forall i :: 0 <= i < |fs| ==> 0 < fs[i].size)
    && (forall i, j :: 0 <= i < j < |fs| ==> fs[j].start <= fs[i].End())
  }

  /** As Descending, and no two segments touch. */
  ghost predicate Canonical(fs: seq<Segment>) {
    && (forall i :: 0 <= i < |fs| ==> 0 < fs[i].size)
    && (forall i, j :: 0 <= i < j < |fs| ==> fs[j].start < fs[i].End())
  }

  // ---- The list operations as functions ----

  /** The list with `s` before the first segment whose start does not exceed its own. */
  function Inserted(fs: seq<Segment>, s: Segment): seq<Segment> {
    if fs == [] then [s]
    else if s.start >= fs[0].start then [s] + fs
    else [fs[0]] + Inserted(fs[1..], s)
  }

  /** Two touching segments as one. */
  function Merged(s: Segment, t: Segment): Segment {
    Segment(s.start, s.size + t.size)
  }

  function Consolidated(fs: seq<Segment>): seq<Segment>
    decreases |fs|
  {
    if |fs| <= 1 then fs
    else if fs[0].End() == fs[1].start then Consolidated([Merged(fs[0], fs[1])] + fs[2..])
    else [fs[0]] + Consolidated(fs[1..])
  }

  /** The free list after a segment has been given back. */
  function Released(fs: seq<Segment>, s: Segment): seq<Segment> {
    Consolidated(Inserted(fs, s))
  }

  /** The index of the first segment of at least `n` addresses, or the length of the list. */
  function FirstFit(fs: seq<Segment>, n: int): (k: nat)
    ensures k <= |fs|
    ensures forall j :: 0 <= j < k ==> fs[j].size < n
    ensures k < |fs| ==> n <= fs[k].size
  {
    if fs == [] then 0 else if n <= fs[0].size then 0 else 1 + FirstFit(fs[1..], n)
  }

  /** The list after the top `n` addresses of segment `k` have been taken. */
  function Taken(fs: seq<Segment>, k: nat, n: int): seq<Segment>
    requires k < |fs|
  {
    if fs[k].size == n then fs[..k] + fs[k + 1..]
    else fs[k := Segment(fs[k].start - n, fs[k].size - n)]
  }

  // ---- A canonical list is determined by the addresses it covers ----

  lemma CoversHead(fs: seq<Segment>, a: int)
    requires fs != []
    ensures Covers(fs, a) <==> fs[0].Has(a) || Covers(fs[1..], a)
  {
    if Covers(fs, a) {
      var k :| 0 <= k < |fs| && fs[k].Has(a);
      if k > 0 { assert fs[1..][k - 1].Has(a); }
    }
    if Covers(fs[1..], a) {
      var k :| 0 <= k < |fs[1..]| && fs[1..][k].Has(a);
      assert fs[k + 1].Has(a);
    }
  }

  lemma CoversCons(s: Segment, fs: seq<Segment>, a: int)
    ensures Covers([s] + fs, a) <==> s.Has(a) || Covers(fs, a)
  {
    assert ([s] + fs)[1..] == fs;
    CoversHead([s] + fs, a);
  }

  /** Every covered address lies below the first segment's start. */
  lemma CoveredBelowHead(fs: seq<Segment>, a: int)
    requires Descending(fs) && Covers(fs, a)
    ensures a < fs[0].start
  {
  }

  /** The address just under a segment of a canonical list is free of the list. */
  lemma JustBelow(fs: seq<Segment>, k: nat)
    requires Canonical(fs) && k < |fs|
    ensures !Covers(fs, fs[k].End() - 1)
  {
  }

  lemma SameHead(f: seq<Segment>, g: seq<Segment>)
    requires Canonical(f) && Canonical(g) && f != [] && g != []
    requires forall a :: Covers(f, a) <==> Covers(g, a)
    ensures f[0].start <= g[0].start
    ensures f[0].start == g[0].start ==> g[0].End() <= f[0].End()
  {
    HeadCovered(f);
    CoveredBelowHead(g, f[0].start - 1);
    JustBelow(f, 0);
    if f[0].start == g[0].start && f[0].End() < g[0].End() {
      assert f[0].Has(g[0].End() - 1);
      assert Covers(f, g[0].End() - 1);
      JustBelow(g, 0);
    }
  }

  lemma HeadCovered(fs: seq<Segment>)
    requires Canonical(fs)
    ensures fs != [] ==> Covers(fs, fs[0].start - 1)
  {
    if fs != [] { assert fs[0].Has(fs[0].start - 1); }
  }

  /** Two canonical lists that cover the same addresses are the same list. */
  lemma {:induction false} CanonicalUnique(f: seq<Segment>, g: seq<Segment>)
    requires Canonical(f) && Canonical(g)
    requires forall a :: Covers(f, a) <==> Covers(g, a)
    ensures f == g
    decreases |f|
  {
    if f == [] {
      HeadCovered(g);
    } else {
      HeadCovered(f);
      SameHead(f, g);
      SameHead(g, f);
      assert f[0] == g[0];
      forall a ensures Covers(f[1..], a) <==> Covers(g[1..], a) {
        CoversHead(f, a);
        CoversHead(g, a);
      }
      CanonicalUnique(f[1..], g[1..]);
    }
  }

  // ---- What giving a segment back does to the covered addresses ----

  lemma {:induction false} InsertedCovers(fs: seq<Segment>, s: Segment, a: int)
    ensures Covers(Inserted(fs, s), a) <==> s.Has(a) || Covers(fs, a)
    decreases |fs|
  {
    if fs == [] {
      CoversCons(s, fs, a);
      assert [s] == [s] + fs;
    } else if s.start >= fs[0].start {
      CoversCons(s, fs, a);
    } else {
      InsertedCovers(fs[1..], s, a);
      CoversHead(fs, a);
      CoversCons(fs[0], Inserted(fs[1..], s), a);
    }
  }

  lemma {:induction false} InsertedMembers(fs: seq<Segment>, s: Segment, t: Segment)
    ensures t in Inserted(fs, s) <==> t == s || t in fs
    decreases |fs|
  {
    if fs != [] && s.start < fs[0].start {
      InsertedMembers(fs[1..], s, t);
      assert fs == [fs[0]] + fs[1..];
    }
  }

  lemma {:induction false} InsertedDescending(fs: seq<Segment>, s: Segment)
    requires Descending(fs) && 0 < s.size
    requires forall k :: 0 <= k < |fs| ==> s.Apart(fs[k])
    ensures Descending(Inserted(fs, s))
    decreases |fs|
  {
    if fs != [] {
      if s.start >= fs[0].start {
        assert s.Apart(fs[0]);
        var r := [s] + fs;
        forall i, j | 0 <= i < j < |r| ensures r[j].start <= r[i].End() {
          if i == 0 && j > 1 { assert fs[j - 1].start <= fs[0].End(); }
        }
      } else {
        InsertedDescending(fs[1..], s);
        var r := Inserted(fs[1..], s);
        assert s.Apart(fs[0]);
        forall j | 0 <= j < |r| ensures r[j].start <= fs[0].End() {
          InsertedMembers(fs[1..], s, r[j]);
        }
      }
    }
  }

  lemma MergedStep(fs: seq<Segment>)
    requires Descending(fs) && |fs| >= 2 && fs[0].End() == fs[1].start
    ensures Descending([Merged(fs[0], fs[1])] + fs[2..])
    ensures forall a :: Covers([Merged(fs[0], fs[1])] + fs[2..], a) <==> Covers(fs, a)
  {
    forall a ensures Covers([Merged(fs[0], fs[1])] + fs[2..], a) <==> Covers(fs, a) {
      CoversCons(Merged(fs[0], fs[1]), fs[2..], a);
      CoversHead(fs, a);
      CoversHead(fs[1..], a);
      assert fs[1..][1..] == fs[2..];
    }
  }

  /** Merging touching neighbours yields a canonical list with the same addresses. */
  lemma {:induction false} ConsolidatedCanonical(fs: seq<Segment>)
    requires Descending(fs)
    ensures Canonical(Consolidated(fs))
    ensures forall a :: Covers(Consolidated(fs), a) <==> Covers(fs, a)
    ensures fs != [] ==> Consolidated(fs) != [] && Consolidated(fs)[0].start == fs[0].start
    decreases |fs|
  {
    if |fs| >= 2 {
      if fs[0].End() == fs[1].start {
        MergedStep(fs);
        ConsolidatedCanonical([Merged(fs[0], fs[1])] + fs[2..]);
      } else {
        ConsolidatedCanonical(fs[1..]);
        forall a ensures Covers(Consolidated(fs), a) <==> Covers(fs, a) {
          CoversHead(fs, a);
          CoversCons(fs[0], Consolidated(fs[1..]), a);
        }
      }
    }
  }

  /** Giving back a segment that no free segment overlaps keeps the list canonical and adds
      exactly its addresses. */
  lemma ReleasedCanonical(fs: seq<Segment>, s: Segment)
    requires Canonical(fs) && 0 < s.size
    requires forall k :: 0 <= k < |fs| ==> s.Apart(fs[k])
    ensures Canonical(Released(fs, s))
    ensures forall a :: Covers(Released(fs, s), a) <==> s.Has(a) || Covers(fs, a)
  {
    InsertedDescending(fs, s);
    ConsolidatedCanonical(Inserted(fs, s));
    forall a ensures Covers(Released(fs, s), a) <==> s.Has(a) || Covers(fs, a) {
      InsertedCovers(fs, s, a);
    }
  }

  lemma WholeTaken(fs: seq<Segment>, k: nat, a: int)
    requires k < |fs|
    requires forall i :: 0 <= i < |fs| && i != k ==> fs[i].Apart(fs[k])
    ensures Covers(fs[..k] + fs[k + 1..], a) <==> Covers(fs, a) && !fs[k].Has(a)
  {
    var r := fs[..k] + fs[k + 1..];
    if Covers(r, a) {
      var j :| 0 <= j < |r| && r[j].Has(a);
      var i := if j >= k then j + 1 else j;
      assert fs[i].Has(a);
      assert fs[i].Apart(fs[k]);
    }
    if Covers(fs, a) && !fs[k].Has(a) {
      var i :| 0 <= i < |fs| && fs[i].Has(a);
      var j := if i > k then i - 1 else i;
      assert r[j].Has(a);
    }
  }

  lemma PartTaken(fs: seq<Segment>, k: nat, n: int, a: int)
    requires Canonical(fs) && k < |fs| && 0 < n < fs[k].size
    ensures Covers(fs[k := Segment(fs[k].start - n, fs[k].size - n)], a)
       <==> Covers(fs, a) && !Segment(fs[k].start, n).Has(a)
  {
    var r := fs[k := Segment(fs[k].start - n, fs[k].size - n)];
    if Covers(r, a) {
      var j :| 0 <= j < |r| && r[j].Has(a);
      assert fs[j].Has(a);
    }
    if Covers(fs, a) && !Segment(fs[k].start, n).Has(a) {
      var i :| 0 <= i < |fs| && fs[i].Has(a);
      assert r[i].Has(a);
    }
  }

  /** Taking the top of a segment keeps the list canonical and removes exactly those addresses. */
  lemma TakenCanonical(fs: seq<Segment>, k: nat, n: int)
    requires Canonical(fs) && k < |fs| && 0 < n <= fs[k].size
    ensures Canonical(Taken(fs, k, n))
    ensures forall a :: Covers(Taken(fs, k, n), a) <==> Covers(fs, a) && !Segment(fs[k].start, n).Has(a)
  {
    forall a ensures Covers(Taken(fs, k, n), a) <==> Covers(fs, a) && !Segment(fs[k].start, n).Has(a) {
      if fs[k].size == n { WholeTaken(fs, k, a); } else { PartTaken(fs, k, n, a); }
    }
  }

  // ---- Free intervals ----

  /** An interval whose addresses are all covered by a canonical list lies in one segment. */
  lemma {:induction false} IntervalInOneSegment(fs: seq<Segment>, lo: int, hi: int) returns (k: nat)
    requires Canonical(fs) && lo < hi
    requires forall a :: lo <= a < hi ==> Covers(fs, a)
    ensures k < |fs| && fs[k].End() <= lo && hi <= fs[k].start
    decreases hi - lo
  {
    assert Covers(fs, hi - 1);
    if lo + 1 == hi {
      k :| 0 <= k < |fs| && fs[k].Has(lo);
    } else {
      k := IntervalInOneSegment(fs, lo + 1, hi);
      if lo < fs[k].End() {
        assert Covers(fs, lo);
        JustBelow(fs, k);
      }
    }
  }
}
