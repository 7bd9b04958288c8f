/** Substring search: the naive loop, the border table, and the search that uses it. */
module Kmp {

  ghost predicate Matches(src: string, pat: string, i: int) {
    0 <= i && i + |pat| <= |src| && src[i..i + |pat|] == pat
  }

  /** `r` is the first match at or after `k`, or -1 when there is none. */
  ghost predicate FirstMatch(src: string, pat: string, k: int, r: int) {
    if r == -1 then forall i :: k <= i ==> !Matches(src, pat, i)
    else k <= r && Matches(src, pat, r) && forall i :: k <= i < r ==> !Matches(src, pat, i)
  }

  /** The first `b` characters of `pat[..n]` are also its last. */
  ghost predicate Border(pat: string, n: int, b: int) {
    0 <= b < n <= |pat| && pat[..b] == pat[n - b..n]
  }

  /** `v` is the length of the longest proper border of the first `n` characters; -1 for none at all. */
  ghost predicate Longest(pat: string, n: int, v: int) {
    if n == 0 then v == -1 else Border(pat, n, v) && forall b :: Border(pat, n, b) ==> b <= v
  }

  // ---------------------------------------------------------------- borders

  /** A border without its last character is a border of the shorter prefix. */
  lemma BorderShrinks(pat: string, n: int, b: int)
    requires Border(pat, n + 1, b) && b >= 1
    ensures pat[b - 1] == pat[n] && (n == 0 || Border(pat, n, b - 1))
  {
    var l, r := pat[..b], pat[n + 1 - b..n + 1];
    assert l[b - 1] == r[b - 1];
    assert l[..b - 1] == pat[..b - 1] && r[..b - 1] == pat[n - (b - 1)..n];
  }

  lemma BorderGrows(pat: string, n: int, b: int)
    requires 0 <= n < |pat| && Border(pat, n, b) && pat[b] == pat[n]
    ensures Border(pat, n + 1, b + 1)
  {
    assert pat[..b + 1] == pat[..b] + [pat[b]];
    assert pat[n - b..n + 1] == pat[n - b..n] + [pat[n]];
  }

  /** Of two borders the shorter is a border of the longer. */
  lemma BorderNested(pat: string, n: int, long: int, short: int)
    requires Border(pat, n, long) && Border(pat, n, short) && short < long
    ensures Border(pat, long, short)
  {
    var l, r := pat[..long], pat[n - long..n];
    assert l[long - short..] == pat[long - short..long] && r[long - short..] == pat[n - short..n];
  }

  // ---------------------------------------------------------------- the border table

  ghost predicate NextBorder(pat: string, i: int, b: int) {
    b >= 1 && Border(pat, i + 1, b)
  }

  /** No border of the next prefix comes from a longer border than `j`. */
  ghost predicate Candidate(pat: string, i: int, j: int) {
    && (j == -1 || (i > 0 && Border(pat, i, j)))
    && forall b :: NextBorder(pat, i, b) ==> b - 1 <= j
  }

  lemma TakeCandidate(pat: string, i: int, j: int)
    requires 0 <= i < |pat| && -1 <= j < i && Candidate(pat, i, j) && (j == -1 || pat[i] == pat[j])
    ensures Longest(pat, i + 1, j + 1) && Candidate(pat, i + 1, j + 1)
  {
    if j >= 0 { BorderGrows(pat, i, j); }
    var n := i + 1;
    forall b | Border(pat, n, b) ensures b <= n - i + j { assert b >= 1 ==> NextBorder(pat, i, b); }
    forall b | NextBorder(pat, n, b) ensures b - 1 <= j + 1 { BorderShrinks(pat, n, b); }
  }

  lemma DropCandidate(pat: string, i: int, j: int, v: int)
    requires 0 <= j < i < |pat| && Candidate(pat, i, j) && pat[i] != pat[j] && Longest(pat, j, v)
    ensures -1 <= v < j && Candidate(pat, i, v)
  {
    forall b | NextBorder(pat, i, b) ensures b - 1 <= v {
      BorderShrinks(pat, i, b);
      BorderNested(pat, i, j, b - 1);
    }
    if v >= 0 {
      assert pat[..j][j - v..] == pat[j - v..j] && pat[i - j..i][j - v..] == pat[i - v..i];
    }
  }

  /** Fills `next[0..|pat|]` with the longest proper borders of all prefixes. */
  method NextKmp(pat: string, next: array<int>)
    requires next.Length > |pat|
    modifies next
    ensures forall n :: 0 <= n <= |pat| ==> Longest(pat, n, next[n])
  {
    var i, j := 0, -1;
    next[0] := -1;
    assert Candidate(pat, 0, -1);
    while i < |pat|
      invariant 0 <= i <= |pat| && -1 <= j <= i && (j < i)
      invariant i < |pat| ==> Candidate(pat, i, j)
      invariant forall n :: 0 <= n <= i ==> Longest(pat, n, next[n])
      decreases |pat| - i, j + 1
    {
      if j == -1 || pat[i] == pat[j] {
        TakeCandidate(pat, i, j);
        i, j := i + 1, j + 1;
        next[i] := j;
      } else {
        DropCandidate(pat, i, j, next[j]);
        j := next[j];
      }
    }
  }

  // ---------------------------------------------------------------- searching

  /** The naive search: the first match. */
  method Find(src: string, pat: string) returns (r: int)
    ensures FirstMatch(src, pat, 0, r)
  {
    var i := 0;
    while i <= |src| - |pat|
      invariant 0 <= i && forall k :: 0 <= k < i ==> !Matches(src, pat, k)
    {
      var j := 0;
      while j < |pat|
        invariant 0 <= j <= |pat| && src[i..i + j] == pat[..j]
      {
        if src[i + j] != pat[j] { break; }
        assert src[i..i + j + 1] == src[i..i + j] + [src[i + j]];
        assert pat[..j + 1] == pat[..j] + [pat[j]];
        j := j + 1;
      }
      if j == |pat| { return i; }
      assert src[i..i + |pat|][j] != pat[j];
      i := i + 1;
    }
    r := -1;
  }

  /** Aligned with `posP` characters matched before `posS`, and no match starts earlier. */
  ghost predicate Aligned(src: string, pat: string, k: int, posS: int, posP: int) {
    && -1 <= posP <= |pat| && posS - posP >= k >= 0 && posS <= |src|
    && (posP >= 0 ==> src[posS - posP..posS] == pat[..posP])
    && forall i :: k <= i < posS - posP ==> !Matches(src, pat, i)
  }

  lemma Extend(src: string, pat: string, k: int, posS: int, posP: int)
    requires Aligned(src, pat, k, posS, posP) && posP < |pat| && posS < |src| && (posP == -1 || pat[posP] == src[posS])
    ensures Aligned(src, pat, k, posS + 1, posP + 1)
  {
    if posP >= 0 {
      assert src[posS - posP..posS + 1] == src[posS - posP..posS] + [src[posS]];
      assert pat[..posP + 1] == pat[..posP] + [pat[posP]];
    }
  }

  lemma MatchedAt(src: string, pat: string, i: int, j: int)
    ensures Matches(src, pat, i) && 0 <= j < |pat| ==> src[i + j] == pat[j]
  {
    if Matches(src, pat, i) && 0 <= j < |pat| { assert src[i..i + |pat|][j] == src[i + j]; }
  }

  /** A match that begins inside the part matched so far shows a border of that part. */
  lemma Overlap(src: string, pat: string, posS: int, posP: int, i: int)
    requires 0 <= posP <= posS <= |src| && posP < |pat| && src[posS - posP..posS] == pat[..posP]
    requires posS - posP < i < posS
    ensures Matches(src, pat, i) ==> Border(pat, posP, posS - i)
  {
    if Matches(src, pat, i) {
      var a, b := posS - posP, posS - i;
      assert src[i..i + |pat|][..b] == src[i..posS];
      assert src[a..posS][i - a..] == src[i..posS];
      assert pat[..posP][i - a..] == pat[posP - b..posP];
    }
  }

  /** A match between the old and the new alignment would be a longer border. */
  lemma Shift(src: string, pat: string, k: int, posS: int, posP: int, v: int)
    requires Aligned(src, pat, k, posS, posP) && 0 <= posP < |pat| && posS < |src| && pat[posP] != src[posS]
    requires Longest(pat, posP, v)
    ensures -1 <= v < posP && Aligned(src, pat, k, posS, v)
  {
    var a := posS - posP;
    forall i | k <= i < posS - v ensures !Matches(src, pat, i) {
      MatchedAt(src, pat, i, posS - i);
      if a < i < posS { Overlap(src, pat, posS, posP, i); }
    }
    if v >= 0 {
      assert src[posS - v..posS] == src[a..posS][posP - v..] == pat[..posP][posP - v..] == pat[posP - v..posP];
    }
  }

  /** With the border table, the same position as the naive search from `k`. */
  method FindKmp(src: string, pat: string, next: array<int>, k: nat) returns (r: int)
    requires next.Length >= |pat| && forall n :: 0 <= n < |pat| ==> Longest(pat, n, next[n])
    ensures pat == [] ==> r == k
    ensures pat != [] ==> FirstMatch(src, pat, k, r)
  {
    var posP, posS := 0, k;
    if pat != [] && k <= |src| { assert src[k..k] == pat[..0]; }
    while posP < |pat| && posS < |src|
      invariant k <= |src| ==> Aligned(src, pat, k, posS, posP)
      invariant k > |src| || pat == [] ==> posP == 0 && posS == k
      decreases |src| - posS, posP + 1
    {
      if posP == -1 || pat[posP] == src[posS] {
        Extend(src, pat, k, posS, posP);
        posP, posS := posP + 1, posS + 1;
      } else {
        Shift(src, pat, k, posS, posP, next[posP]);
        posP := next[posP];
      }
    }
    if posP < |pat| { r := -1; } else { r := posS - |pat|; }
  }

  lemma OneFirst(src: string, pat: string, k: int, r: int, t: int)
    requires FirstMatch(src, pat, k, r) && FirstMatch(src, pat, k, t) && k >= 0
    ensures r == t
  {
  }

  /** Building the table and searching with it agrees with the naive search on every text and pattern. */
  method BothFind(src: string, pat: string) returns (naive: int, fast: int)
    ensures naive == fast
  {
    naive := Find(src, pat);
    var next := new int[|pat| + 1];
    NextKmp(pat, next);
    fast := FindKmp(src, pat, next, 0);
    if pat != [] { OneFirst(src, pat, 0, naive, fast); } else { assert Matches(src, pat, 0); }
  }
}
