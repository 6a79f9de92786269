/** Sums of a measure over the elements of a sequence. */
module Sums {

  function Sum<T>(s: seq<T>, f: T -> int): int {
    if s == [] then 0 else Sum(s[..|s| - 1], f) + f(s[|s| - 1])
  }

  lemma SumAppend<T>(s: seq<T>, x: T, f: T -> int)
    ensures Sum(s + [x], f) == Sum(s, f) + f(x)
  {
    assert (s + [x])[..|s|] == s;
  }

  lemma {:induction false} SumConcat<T>(s: seq<T>, r: seq<T>, f: T -> int)
    ensures Sum(s + r, f) == Sum(s, f) + Sum(r, f)
    decreases |r|
  {
    if r == [] {
      assert s + r == s;
    } else {
      SumConcat(s, r[..|r| - 1], f);
      assert s + r == (s + r[..|r| - 1]) + [r[|r| - 1]];
      SumAppend(s + r[..|r| - 1], r[|r| - 1], f);
    }
  }

  lemma {:induction false} SumUpdate<T>(s: seq<T>, i: nat, x: T, f: T -> int)
    requires i < |s|
    ensures Sum(s[i := x], f) == Sum(s, f) - f(s[i]) + f(x)
    decreases |s|
  {
    var n := |s| - 1;
    if i == n {
      assert s[i := x][..n] == s[..n];
    } else {
      assert s[i := x][..n] == s[..n][i := x];
      SumUpdate(s[..n], i, x, f);
    }
  }

  lemma {:induction false} SumMember<T>(s: seq<T>, i: nat, f: T -> int)
    requires i < |s| && forall k :: 0 <= k < |s| ==> 0 <= f(s[k])
    ensures f(s[i]) <= Sum(s, f)
    ensures forall j :: 0 <= j < |s| && j != i ==> f(s[i]) + f(s[j]) <= Sum(s, f)
    decreases |s|
  {
    var n := |s| - 1;
    SumNonnegative(s[..n], f);
    if i < n { SumMember(s[..n], i, f); }
    forall j | 0 <= j < |s| && j != i ensures f(s[i]) + f(s[j]) <= Sum(s, f) {
      if j < n { SumMember(s[..n], j, f); }
    }
  }

  lemma {:induction false} SumNonnegative<T>(s: seq<T>, f: T -> int)
    requires forall k :: 0 <= k < |s| ==> 0 <= f(s[k])
    ensures 0 <= Sum(s, f)
    decreases |s|
  {
    if s != [] { SumNonnegative(s[..|s| - 1], f); }
  }

  /** A sum of terms that are nowhere negative vanishes only when every term does. */
  lemma {:induction false} SumZero<T>(s: seq<T>, f: T -> int)
    requires forall k :: 0 <= k < |s| ==> 0 <= f(s[k])
    ensures Sum(s, f) == 0 <==> forall k :: 0 <= k < |s| ==> f(s[k]) == 0
    decreases |s|
  {
    if s != [] {
      var n := |s| - 1;
      SumNonnegative(s[..n], f);
      SumZero(s[..n], f);
      assert forall k :: 0 <= k < n ==> s[..n][k] == s[k];
    }
  }
}
