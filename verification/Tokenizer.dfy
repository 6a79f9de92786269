/** The shell's tokenizer, strsplit (workshop/my-shell.c). */
module Tokenizer {
  import opened Options

  const NUL := '\0'
  const INITIAL_CAPACITY := 1
  const GROW_FACTOR := 2

  /** The length of the delimiter-free stretch at the front of `s`. */
  function Run(s: string, d: char): (n: nat)
    ensures n <= |s| && d !in s[..n] && (n < |s| ==> s[n] == d)
  {
    if s == [] || s[0] == d then 0
    else
      var n := 1 + Run(s[1..], d);
      assert s[..n] == [s[0]] + s[1..][..n - 1];
      n
  }

  /** The maximal delimiter-free stretches of `s`, in order. */
  function Tokens(s: string, d: char): seq<string>
    decreases |s|
  {
    if s == [] then []
    else if s[0] == d then Tokens(s[1..], d)
    else [s[..Run(s, d)]] + Tokens(s[Run(s, d)..], d)
  }

  // ---- The program ----

  /** A larger array with the same front part. */
  method Grow<T(0)>(a: array<T>, length: nat) returns (r: array<T>)
    requires a.Length <= length
    ensures fresh(r) && r.Length == length && r[..a.Length] == a[..]
  {
    r := new T[length];
    for i := 0 to a.Length
      invariant r[..i] == a[..i]
    {
      r[i] := a[i];
    }
  }

  /** The token s[i..j] in a buffer of its own, ended by a null byte. */
  method Copy(s: string, i: nat, j: nat) returns (token: array<char>)
    requires i <= j <= |s|
    ensures fresh(token) && token[..] == s[i..j] + [NUL]
  {
    var n := j - i;
    token := new char[n + 1];
    for k := 0 to n
      invariant token[..k] == s[i..i + k]
    {
      token[k] := s[i + k];
    }
    token[n] := NUL;
  }

  /** The end of the token that starts at `i`. */
  method TokenEnd(s: string, d: char, i: nat) returns (j: nat)
    requires i <= |s|
    ensures i <= j <= |s| && j == i + Run(s[i..], d)
  {
    j := i;
    while j < |s|
      invariant i <= j <= |s| && d !in s[i..j]
    {
      if s[j] == d {
        break;
      }
      j := j + 1;
    }
    RunIs(s[i..], d, j - i);
  }

  lemma RunIs(s: string, d: char, n: nat)
    requires n <= |s| && d !in s[..n] && (n < |s| ==> s[n] == d)
    ensures Run(s, d) == n
  {
  }

  /** Stores a token at position `len`, in a larger array if the tokens so far fill this one. */
  method Store(a: array<Option<string>>, len: nat, max: nat, token: string)
    returns (r: array<Option<string>>, max': nat)
    requires a.Length == max + 1 && len <= max && 0 < max
    modifies a
    ensures r == a || fresh(r)
    ensures r.Length == max' + 1 && len + 1 <= max' && (max' == max || max' == GROW_FACTOR * len)
    ensures r[len] == Some(token) && forall k :: 0 <= k < len ==> r[k] == old(a[k])
  {
    r, max' := a, max;
    if len >= max {
      max' := max * GROW_FACTOR;
      r := Grow(a, max' + 1);
      forall k | 0 <= k < len ensures r[k] == a[k] {
        assert r[..a.Length][k] == a[..][k];
      }
    }
    r[len] := Some(token);
  }

  /** strsplit: the tokens, each with its null byte, in an array that ends with a null pointer. */
  method StrSplit(s: string, d: char) returns (a: array<Option<string>>, len: nat)
    ensures fresh(a) && len < a.Length && len == |Tokens(s, d)|
    ensures forall k :: 0 <= k < len ==> a[k] == Some(Tokens(s, d)[k] + [NUL])
    ensures a[len] == None
    ensures a.Length <= GROW_FACTOR * len + INITIAL_CAPACITY + 1
  {
    ghost var all := Tokens(s, d);
    var max: nat := INITIAL_CAPACITY;
    len := 0;
    a := new Option<string>[max + 1];
    var i := 0;
    while i < |s|
      invariant fresh(a) && 0 <= i <= |s| && len <= max && 0 < max && a.Length == max + 1
      invariant max <= GROW_FACTOR * len || max == INITIAL_CAPACITY
      invariant len <= |all| && all[len..] == Tokens(s[i..], d)
      invariant forall k :: 0 <= k < len ==> a[k] == Some(all[k] + [NUL])
      decreases |s| - i
    {
      if s[i] == d {
        assert s[i..][1..] == s[i + 1..];
        i := i + 1;
        continue;
      }
      var j := TokenEnd(s, d, i);
      NextToken(s, d, i, j, all, len);
      var token := Copy(s, i, j);
      i := j;
      a, max := Store(a, len, max, token[..]);
      len := len + 1;
    }
    assert len == |all|;
    a[len] := None;
  }

  lemma NextToken(s: string, d: char, i: nat, j: nat, all: seq<string>, len: nat)
    requires i < |s| && s[i] != d && j == i + Run(s[i..], d) && len <= |all| && all[len..] == Tokens(s[i..], d)
    ensures i < j <= |s| && len < |all| && all[len] == s[i..j] && all[len + 1..] == Tokens(s[j..], d)
  {
    assert s[i..][..j - i] == s[i..j] && s[i..][j - i..] == s[j..];
    assert all[len..][0] == s[i..j] && all[len..][1..] == all[len + 1..];
  }

  // ---- What the tokens are ----

  ghost predicate IsToken(t: string, d: char) { t != [] && d !in t }

  /** Every token is a non-empty, delimiter-free string. */
  lemma {:induction false} TokensClean(s: string, d: char)
    ensures forall k :: 0 <= k < |Tokens(s, d)| ==> IsToken(Tokens(s, d)[k], d)
    decreases |s|
  {
    if s != [] {
      if s[0] == d {
        TokensClean(s[1..], d);
      } else {
        assert 0 < Run(s, d);
        TokensClean(s[Run(s, d)..], d);
      }
    }
  }

  /** `n` delimiters. */
  function Gap(d: char, n: nat): string { seq(n, _ => d) }

  /** The tokens with delimiters before, between and after them. */
  function Woven(ts: seq<string>, gaps: seq<nat>, d: char): string
    requires |gaps| == |ts| + 1
  {
    if ts == [] then Gap(d, gaps[0]) else Gap(d, gaps[0]) + ts[0] + Woven(ts[1..], gaps[1..], d)
  }

  /** Between two tokens there is at least one delimiter. */
  ghost predicate Separated(ts: seq<string>, gaps: seq<nat>) {
    |gaps| == |ts| + 1 && forall i :: 0 < i < |ts| ==> 0 < gaps[i]
  }

  lemma {:induction false} SkipGap(d: char, n: nat, s: string)
    ensures Tokens(Gap(d, n) + s, d) == Tokens(s, d)
    decreases n
  {
    if n == 0 {
      assert Gap(d, n) + s == s;
    } else {
      assert (Gap(d, n) + s)[1..] == Gap(d, n - 1) + s;
      SkipGap(d, n - 1, s);
    }
  }

  lemma TakeToken(t: string, s: string, d: char)
    requires IsToken(t, d) && (s == [] || s[0] == d)
    ensures Tokens(t + s, d) == [t] + Tokens(s, d)
  {
    assert (t + s)[..|t|] == t && (t + s)[|t|..] == s;
    RunIs(t + s, d, |t|);
  }

  /** Splitting undoes every way of joining tokens with delimiters. */
  lemma {:induction false} SplitOfJoin(ts: seq<string>, gaps: seq<nat>, d: char)
    requires Separated(ts, gaps) && forall k :: 0 <= k < |ts| ==> IsToken(ts[k], d)
    ensures Tokens(Woven(ts, gaps, d), d) == ts
    decreases |ts|
  {
    if ts == [] {
      assert Gap(d, gaps[0]) + [] == Gap(d, gaps[0]);
      SkipGap(d, gaps[0], []);
    } else {
      var rest := Woven(ts[1..], gaps[1..], d);
      SplitOfJoin(ts[1..], gaps[1..], d);
      assert rest == [] || rest[0] == d by {
        assert gaps[1..][0] == gaps[1];
        if |ts| > 1 { assert 0 < gaps[1]; }
      }
      TakeToken(ts[0], rest, d);
      assert Woven(ts, gaps, d) == Gap(d, gaps[0]) + (ts[0] + rest);
      SkipGap(d, gaps[0], ts[0] + rest);
    }
  }

  /** Every string is its tokens joined with delimiters. */
  lemma {:induction false} JoinOfSplit(s: string, d: char) returns (gaps: seq<nat>)
    ensures Separated(Tokens(s, d), gaps) && Woven(Tokens(s, d), gaps, d) == s
    ensures s != [] && s[0] == d ==> 0 < gaps[0]
    decreases |s|
  {
    if s == [] {
      gaps := [0];
    } else if s[0] == d {
      var g := JoinOfSplit(s[1..], d);
      gaps := [g[0] + 1] + g[1..];
      WiderGap(Tokens(s, d), g, d);
      assert s == [d] + s[1..];
    } else {
      var g := JoinOfSplit(s[Run(s, d)..], d);
      gaps := [0] + g;
      JoinToken(s, d, g);
    }
  }

  lemma ConsToken(t: string, ts: seq<string>, g: seq<nat>, d: char)
    requires Separated(ts, g) && (ts != [] ==> 0 < g[0])
    ensures Separated([t] + ts, [0] + g) && Woven([t] + ts, [0] + g, d) == t + Woven(ts, g, d)
  {
    assert ([t] + ts)[1..] == ts && ([0] + g)[1..] == g;
    assert Gap(d, 0) + t == t;
  }

  lemma JoinToken(s: string, d: char, g: seq<nat>)
    requires s != [] && s[0] != d
    requires var r := s[Run(s, d)..];
             Separated(Tokens(r, d), g) && Woven(Tokens(r, d), g, d) == r && (r != [] ==> 0 < g[0])
    ensures Separated(Tokens(s, d), [0] + g) && Woven(Tokens(s, d), [0] + g, d) == s
  {
    var n := Run(s, d);
    ConsToken(s[..n], Tokens(s[n..], d), g, d);
    assert s[..n] + s[n..] == s;
  }

  lemma WiderGap(ts: seq<string>, gaps: seq<nat>, d: char)
    requires |gaps| == |ts| + 1
    ensures Woven(ts, [gaps[0] + 1] + gaps[1..], d) == [d] + Woven(ts, gaps, d)
  {
    assert Gap(d, gaps[0] + 1) == [d] + Gap(d, gaps[0]);
    assert ([gaps[0] + 1] + gaps[1..])[1..] == gaps[1..];
  }

  // ---- Nothing but delimiters is lost ----

  function Concat(ts: seq<string>): string { if ts == [] then "" else ts[0] + Concat(ts[1..]) }

  function Without(s: string, d: char): string {
    if s == [] then "" else (if s[0] == d then "" else [s[0]]) + Without(s[1..], d)
  }

  lemma {:induction false} WithoutToken(t: string, s: string, d: char)
    requires d !in t
    ensures Without(t + s, d) == t + Without(s, d)
    decreases |t|
  {
    if t == [] {
      assert t + s == s;
    } else {
      assert (t + s)[1..] == t[1..] + s;
      WithoutToken(t[1..], s, d);
    }
  }

  /** The tokens one after the other are the string without its delimiters. */
  lemma {:induction false} NothingLost(s: string, d: char)
    ensures Concat(Tokens(s, d)) == Without(s, d)
    decreases |s|
  {
    if s != [] {
      if s[0] == d {
        NothingLost(s[1..], d);
      } else {
        var n := Run(s, d);
        NothingLost(s[n..], d);
        WithoutToken(s[..n], s[n..], d);
        assert s[..n] + s[n..] == s;
        assert Tokens(s, d)[1..] == Tokens(s[n..], d);
      }
    }
  }
}
