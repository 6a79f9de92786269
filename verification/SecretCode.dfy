/** Secret codes and the feedback on a guess (project2/secret-code.c), for codes of any length. */
module SecretCode {

  const LENGTH := 4
  const COLOURS := {'A', 'B', 'C', 'D', 'E', 'F'}
  const NUL := '\0'

  /** The number of places, from `i` on, at which guess and code agree. */
  function PositionsFrom(g: seq<char>, a: seq<char>, i: nat): nat
    requires |g| == |a| && i <= |g|
    decreases |g| - i
  {
    if i == |g| then 0 else (if g[i] == a[i] then 1 else 0) + PositionsFrom(g, a, i + 1)
  }

  function Positions(g: seq<char>, a: seq<char>): nat
    requires |g| == |a|
  {
    PositionsFrom(g, a, 0)
  }

  /** How many letters guess and code have in common, counted with multiplicity. */
  function Common(g: seq<char>, a: seq<char>): nat {
    |multiset(g) * multiset(a)|
  }

  // ---- The letters left over by the first pass ----

  /** The letters of `s` at the unmarked places from `i` on. */
  function Rest(s: seq<char>, mask: seq<bool>, i: nat): multiset<char>
    requires |s| == |mask| && i <= |s|
    decreases |s| - i
  {
    if i == |s| then multiset{}
    else if mask[i] then Rest(s, mask, i + 1)
    else multiset{s[i]} + Rest(s, mask, i + 1)
  }

  /** The letters of `s` at the marked places from `i` on. */
  function Marked(s: seq<char>, mask: seq<bool>, i: nat): multiset<char>
    requires |s| == |mask| && i <= |s|
    decreases |s| - i
  {
    if i == |s| then multiset{}
    else if mask[i] then multiset{s[i]} + Marked(s, mask, i + 1)
    else Marked(s, mask, i + 1)
  }

  ghost predicate Agreement(g: seq<char>, a: seq<char>, mask: seq<bool>) {
    |g| == |a| == |mask| && forall i :: 0 <= i < |g| ==> (mask[i] <==> g[i] == a[i])
  }

  lemma {:induction false} SplitLetters(s: seq<char>, mask: seq<bool>, i: nat)
    requires |s| == |mask| && i <= |s|
    ensures multiset(s[i..]) == Rest(s, mask, i) + Marked(s, mask, i)
    decreases |s| - i
  {
    if i < |s| {
      SplitLetters(s, mask, i + 1);
      assert s[i..] == [s[i]] + s[i + 1..];
    }
  }

  lemma {:induction false} MarkedAgree(g: seq<char>, a: seq<char>, mask: seq<bool>, i: nat)
    requires Agreement(g, a, mask) && i <= |g|
    ensures Marked(g, mask, i) == Marked(a, mask, i) && |Marked(g, mask, i)| == PositionsFrom(g, a, i)
    decreases |g| - i
  {
    if i < |g| { MarkedAgree(g, a, mask, i + 1); }
  }

  /** Letters that agree in place contribute one each to the common letters. */
  lemma CommonSplits(g: seq<char>, a: seq<char>, mask: seq<bool>)
    requires Agreement(g, a, mask)
    ensures Common(g, a) == Positions(g, a) + |Rest(g, mask, 0) * Rest(a, mask, 0)|
  {
    SplitLetters(g, mask, 0);
    SplitLetters(a, mask, 0);
    MarkedAgree(g, a, mask, 0);
    assert g[0..] == g && a[0..] == a;
    var z := Marked(g, mask, 0);
    assert multiset(g) * multiset(a) == Rest(g, mask, 0) * Rest(a, mask, 0) + z;
  }

  // ---- The second pass takes letters one by one ----

  lemma {:induction false} RestUnchanged(s: seq<char>, mask: seq<bool>, i: nat, j: nat)
    requires |s| == |mask| && i < j <= |s|
    ensures Rest(s, mask[i := true], j) == Rest(s, mask, j)
    decreases |s| - j
  {
    if j < |s| { RestUnchanged(s, mask, i, j + 1); }
  }

  /** Marking a place takes its letter away. */
  lemma {:induction false} RestMember(s: seq<char>, mask: seq<bool>, i: nat, j: nat)
    requires |s| == |mask| && j <= i < |s| && !mask[i]
    ensures Rest(s, mask, j) == Rest(s, mask[i := true], j) + multiset{s[i]}
    decreases i - j
  {
    if j < i {
      RestMember(s, mask, i, j + 1);
    } else {
      RestUnchanged(s, mask, i, i + 1);
    }
  }

  lemma {:induction false} NoneLeft(s: seq<char>, mask: seq<bool>, c: char, j: nat)
    requires |s| == |mask| && j <= |s| && forall i :: 0 <= i < |s| && !mask[i] ==> s[i] != c
    ensures c !in Rest(s, mask, j)
    decreases |s| - j
  {
    if j < |s| { NoneLeft(s, mask, c, j + 1); }
  }

  lemma TakeOne(c: char, x: multiset<char>, y: multiset<char>)
    ensures |(multiset{c} + x) * (y + multiset{c})| == 1 + |x * y|
    ensures c !in y ==> |(multiset{c} + x) * y| == |x * y|
  {
    assert (multiset{c} + x) * (y + multiset{c}) == multiset{c} + x * y;
    if c !in y { assert (multiset{c} + x) * y == x * y; }
  }

  /** get_secret_code_guess_feedback: places that agree, then letters matched greedily.  Together
      they count the letters in common. */
  method Feedback(actual: seq<char>, guess: seq<char>) returns (correct: bool, positions: nat, colours: nat)
    requires |actual| == |guess|
    ensures positions == Positions(guess, actual)
    ensures positions + colours == Common(guess, actual)
    ensures correct <==> guess == actual
  {
    var n := |actual|;
    var visited := new bool[n](_ => false);
    positions := 0;
    for i := 0 to n
      invariant positions + PositionsFrom(guess, actual, i) == Positions(guess, actual)
      invariant forall k :: 0 <= k < i ==> (visited[k] <==> guess[k] == actual[k])
      invariant forall k :: i <= k < n ==> !visited[k]
    {
      if guess[i] == actual[i] {
        positions := positions + 1;
        visited[i] := true;
      }
    }
    ghost var mask := visited[..];
    CommonSplits(guess, actual, mask);
    colours := CountColours(actual, guess, visited);
    correct := positions == n;
    EqualIffAllPositions(guess, actual);
  }

  /** The first place of the code with letter `c` that neither pass has matched. */
  method FindLetter(actual: seq<char>, visited: array<bool>, visited2: array<bool>, c: char) returns (j: nat)
    requires |actual| == visited.Length == visited2.Length
    ensures j <= |actual|
    ensures j < |actual| ==> !visited[j] && !visited2[j] && actual[j] == c
    ensures forall k :: 0 <= k < j ==> visited[k] || visited2[k] || actual[k] != c
  {
    j := 0;
    while j < |actual| && (visited[j] || visited2[j] || c != actual[j])
      invariant 0 <= j <= |actual|
      invariant forall k :: 0 <= k < j ==> visited[k] || visited2[k] || actual[k] != c
    {
      j := j + 1;
    }
  }

  /** Taking the place found for letter `i` of the guess, or none, loses no common letter. */
  lemma ColourStep(g: seq<char>, mask: seq<bool>, i: nat, a: seq<char>, taken: seq<bool>, j: nat)
    requires |g| == |mask| && i < |g| && !mask[i] && |a| == |taken| && j <= |a|
    requires j < |a| ==> !taken[j] && a[j] == g[i]
    requires j == |a| ==> forall k :: 0 <= k < |a| ==> taken[k] || a[k] != g[i]
    ensures |Rest(g, mask, i) * Rest(a, taken, 0)| ==
              if j < |a| then 1 + |Rest(g, mask, i + 1) * Rest(a, taken[j := true], 0)|
              else |Rest(g, mask, i + 1) * Rest(a, taken, 0)|
  {
    if j < |a| {
      RestMember(a, taken, j, 0);
      TakeOne(g[i], Rest(g, mask, i + 1), Rest(a, taken[j := true], 0));
    } else {
      NoneLeft(a, taken, g[i], 0);
      TakeOne(g[i], Rest(g, mask, i + 1), Rest(a, taken, 0));
    }
  }

  /** The second pass of the feedback: for each unmatched place of the guess, the first place of
      the code with that letter that is still unmatched. */
  method CountColours(actual: seq<char>, guess: seq<char>, visited: array<bool>) returns (colours: nat)
    requires |actual| == |guess| == visited.Length
    ensures colours == |Rest(guess, visited[..], 0) * Rest(actual, visited[..], 0)|
  {
    ghost var mask, taken := visited[..], visited[..];
    var visited2 := new bool[|actual|](_ => false);
    colours := 0;
    for i := 0 to |actual|
      invariant visited[..] == mask && |taken| == |actual|
      invariant forall k :: 0 <= k < |actual| ==> (taken[k] <==> visited[k] || visited2[k])
      invariant colours + |Rest(guess, mask, i) * Rest(actual, taken, 0)| == |Rest(guess, mask, 0) * Rest(actual, mask, 0)|
    {
      if !visited[i] {
        var j := FindLetter(actual, visited, visited2, guess[i]);
        ColourStep(guess, mask, i, actual, taken, j);
        if j < |actual| {
          colours := colours + 1;
          visited2[j] := true;
          taken := taken[j := true];
        }
      }
    }
  }

  // ---- What the feedback says ----

  lemma {:induction false} AllPositions(g: seq<char>, a: seq<char>, i: nat)
    requires |g| == |a| && i <= |g|
    ensures PositionsFrom(g, a, i) <= |g| - i
    ensures PositionsFrom(g, a, i) == |g| - i <==> g[i..] == a[i..]
    decreases |g| - i
  {
    if i < |g| {
      AllPositions(g, a, i + 1);
      assert g[i..] == [g[i]] + g[i + 1..] && a[i..] == [a[i]] + a[i + 1..];
    }
  }

  /** All places agree exactly when the guess is the code. */
  lemma EqualIffAllPositions(g: seq<char>, a: seq<char>)
    requires |g| == |a|
    ensures Positions(g, a) <= |g|
    ensures Positions(g, a) == |g| <==> g == a
  {
    AllPositions(g, a, 0);
    assert g[0..] == g && a[0..] == a;
  }

  /** The places from `i` on at which guess and code agree. */
  ghost function Agreeing(g: seq<char>, a: seq<char>, i: nat): set<int>
    requires |g| == |a|
  {
    set k | i <= k < |g| && g[k] == a[k]
  }

  lemma {:induction false} PositionsAreAgreeing(g: seq<char>, a: seq<char>, i: nat)
    requires |g| == |a| && i <= |g|
    ensures PositionsFrom(g, a, i) == |Agreeing(g, a, i)|
    decreases |g| - i
  {
    if i == |g| {
      assert Agreeing(g, a, i) == {};
    } else {
      PositionsAreAgreeing(g, a, i + 1);
      assert Agreeing(g, a, i) == Agreeing(g, a, i + 1) + if g[i] == a[i] then {i as int} else {};
    }
  }

  lemma {:induction false} PositionsSymmetric(g: seq<char>, a: seq<char>, i: nat)
    requires |g| == |a| && i <= |g|
    ensures PositionsFrom(g, a, i) == PositionsFrom(a, g, i)
    decreases |g| - i
  {
    if i < |g| { PositionsSymmetric(g, a, i + 1); }
  }

  /** Guess and code may change places. */
  lemma FeedbackSymmetric(g: seq<char>, a: seq<char>)
    requires |g| == |a|
    ensures Positions(g, a) == Positions(a, g) && Common(g, a) == Common(a, g)
  {
    PositionsSymmetric(g, a, 0);
    assert multiset(g) * multiset(a) == multiset(a) * multiset(g);
  }

  lemma {:induction false} RestSize(g: seq<char>, a: seq<char>, mask: seq<bool>, i: nat)
    requires Agreement(g, a, mask) && i <= |g|
    ensures |Rest(g, mask, i)| == |Rest(a, mask, i)| == |g| - i - PositionsFrom(g, a, i)
    decreases |g| - i
  {
    if i < |g| { RestSize(g, a, mask, i + 1); }
  }

  lemma OneLetterLeft(s: seq<char>, mask: seq<bool>, i: nat)
    requires |s| == |mask| && i < |s| && !mask[i] && |Rest(s, mask, 0)| == 1
    ensures Rest(s, mask, 0) == multiset{s[i]}
  {
    RestMember(s, mask, i, 0);
    assert |Rest(s, mask[i := true], 0)| == 0;
  }

  /** No feedback says that all places but one agree and the last letter is merely misplaced. */
  lemma AllButOne(g: seq<char>, a: seq<char>)
    requires |g| == |a| && Positions(g, a) == |g| - 1
    ensures Common(g, a) == Positions(g, a)
  {
    var mask := seq(|g|, i requires 0 <= i < |g| => g[i] == a[i]);
    CommonSplits(g, a, mask);
    RestSize(g, a, mask, 0);
    EqualIffAllPositions(g, a);
    var i :| 0 <= i < |g| && g[i] != a[i];
    OneLetterLeft(g, mask, i);
    OneLetterLeft(a, mask, i);
    assert multiset{g[i]} * multiset{a[i]} == multiset{};
  }

  /** Places and letters together never exceed the length of the code. */
  lemma CommonBounds(g: seq<char>, a: seq<char>)
    requires |g| == |a|
    ensures Positions(g, a) <= Common(g, a) <= |g|
    ensures Common(g, a) == |g| <==> multiset(g) == multiset(a)
  {
    CommonSplits(g, a, seq(|g|, i requires 0 <= i < |g| => g[i] == a[i]));
    var m := multiset(g) * multiset(a);
    assert multiset(g) == m + (multiset(g) - m);
    assert multiset(a) == m + (multiset(a) - m);
    assert |multiset(g)| == |g| && |multiset(a)| == |a|;
    if Common(g, a) == |g| {
      assert |multiset(g) - m| == 0 && |multiset(a) - m| == 0;
      assert multiset(g) == m == multiset(a);
    }
    if multiset(g) == multiset(a) { assert m == multiset(g); }
  }

  // ---- Valid codes ----

  /** A message that is exactly a code of the colours, ended by a null byte. */
  predicate IsCode(s: seq<char>) {
    |s| > LENGTH && (forall i :: 0 <= i < LENGTH ==> 'A' <= s[i] <= 'F') && s[LENGTH] == NUL
  }

  lemma SixColours(c: char)
    ensures c in COLOURS <==> 'A' <= c <= 'F'
  {
    if 'A' <= c <= 'F' {
      var n := c as int - 'A' as int;
      assert n == 0 || n == 1 || n == 2 || n == 3 || n == 4 || n == 5;
    }
  }

  /** is_valid_secret_code, on a string that is long enough or ends earlier with a null byte. */
  method IsValid(s: seq<char>) returns (valid: bool)
    requires |s| > LENGTH || NUL in s
    ensures valid <==> IsCode(s)
  {
    var i := 0;
    while i < LENGTH && s[i] in COLOURS
      invariant 0 <= i <= LENGTH && i <= |s|
      invariant forall k :: 0 <= k < i ==> 'A' <= s[k] <= 'F'
      invariant i < |s|
    {
      SixColours(s[i]);
      i := i + 1;
    }
    SixColours(s[i]);
    valid := i == LENGTH && s[LENGTH] == NUL;
  }
}
