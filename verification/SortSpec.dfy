/** Permutations, sorted ranges and the split that the mid-pivot sorts make. */
module SortSpec {
  import opened Common

  /** `p` rearranges the positions below `n` and moves none outside `lo..hi`. */
  ghost predicate Rearranges(p: seq<nat>, n: nat, lo: int, hi: int) {
    && |p| == n && multiset(p) == multiset(Numbers(n))
    && (forall i :: 0 <= i < n ==> p[i] < n)
    && (forall i :: 0 <= i < n && lo <= i <= hi ==> lo <= p[i] <= hi)
    && (forall i :: 0 <= i < n && !(lo <= i <= hi) ==> p[i] == i)
  }

  /** Position `i` of the result holds what was at position `p[i]`. */
  function Apply<T>(s: seq<T>, p: seq<nat>): (t: seq<T>)
    requires forall i :: 0 <= i < |p| ==> p[i] < |s|
    ensures |t| == |p|
  {
    seq(|p|, i requires 0 <= i < |p| => s[p[i]])
  }

  ghost predicate SortedRange(s: seq<int>, lo: int, hi: int) {
    forall i, j :: lo <= i < j <= hi && 0 <= i && j < |s| ==> s[i] <= s[j]
  }

  lemma Stand(n: nat, lo: int, hi: int)
    ensures Rearranges(Numbers(n), n, lo, hi)
  {
  }

  lemma ApplyNumbers<T>(s: seq<T>)
    ensures Apply(s, Numbers(|s|)) == s
  {
  }

  function Swapped<T>(s: seq<T>, i: nat, j: nat): (t: seq<T>)
    requires i < |s| && j < |s|
    ensures |t| == |s|
  {
    s[i := s[j]][j := s[i]]
  }

  lemma SwapRearranges(p: seq<nat>, n: nat, lo: int, hi: int, i: nat, j: nat)
    requires Rearranges(p, n, lo, hi) && lo <= i <= hi && lo <= j <= hi && i < n && j < n
    ensures Rearranges(Swapped(p, i, j), n, lo, hi)
  {
    SwapMultiset(p, i, j);
  }

  lemma SwapMultiset<T>(p: seq<T>, i: nat, j: nat)
    requires i < |p| && j < |p|
    ensures multiset(Swapped(p, i, j)) == multiset(p)
  {
  }

  lemma SwapApply<T>(s: seq<T>, p: seq<nat>, i: nat, j: nat)
    requires |s| == |p| && i < |s| && j < |s| && forall k :: 0 <= k < |p| ==> p[k] < |s|
    ensures Swapped(Apply(s, p), i, j) == Apply(s, Swapped(p, i, j))
  {
  }

  ghost predicate Below(p: seq<nat>, n: nat) {
    forall i :: 0 <= i < |p| ==> p[i] < n
  }

  /** `q` without position `k`. */
  function Drop<T>(q: seq<T>, k: nat): (r: seq<T>)
    requires k < |q|
    ensures |r| == |q| - 1
  {
    q[..k] + q[k + 1..]
  }

  lemma Without<T>(q: seq<T>, k: nat)
    requires k < |q|
    ensures multiset(q) == multiset(Drop(q, k)) + multiset{q[k]}
  {
    assert q == q[..k] + [q[k]] + q[k + 1..];
  }

  lemma DropBoth<T>(p: seq<T>, j: nat, q: seq<T>, k: nat)
    requires j < |p| && k < |q| && p[j] == q[k] && multiset(p) == multiset(q)
    ensures multiset(Drop(p, j)) == multiset(Drop(q, k))
  {
    hide Drop;
    Without(p, j);
    Without(q, k);
    Cancel(multiset(Drop(p, j)), multiset(Drop(q, k)), multiset{p[j]});
  }

  lemma Cancel<T>(x: multiset<T>, y: multiset<T>, c: multiset<T>)
    requires x + c == y + c
    ensures x == y
  {
    assert x == (x + c) - c;
    assert y == (y + c) - c;
  }

  /** Which elements `p` picks from `s` depends only on the multiset of positions. */
  lemma {:induction false} ApplyMultiset<T>(s: seq<T>, p: seq<nat>, q: seq<nat>)
    requires multiset(p) == multiset(q) && Below(p, |s|) && Below(q, |s|)
    ensures multiset(Apply(s, p)) == multiset(Apply(s, q))
    decreases |p|
  {
    hide Apply, Below;
    assert |p| == |multiset(p)| == |multiset(q)| == |q|;
    if |p| > 0 {
      assert p[0] in multiset(q);
      var k :| 0 <= k < |q| && q[k] == p[0];
      DropBoth(p, 0, q, k);
      Picked(s, p, 0);
      Picked(s, q, k);
      ApplyMultiset(s, Drop(p, 0), Drop(q, k));
    } else {
      assert p == q;
    }
  }

  lemma Picked<T>(s: seq<T>, q: seq<nat>, k: nat)
    requires k < |q| && Below(q, |s|)
    ensures Below(Drop(q, k), |s|)
    ensures multiset(Apply(s, q)) == multiset(Apply(s, Drop(q, k))) + multiset{s[q[k]]}
  {
    assert Drop(Apply(s, q), k) == Apply(s, Drop(q, k));
    Without(Apply(s, q), k);
  }

  /** A rearrangement keeps the elements with their multiplicities. */
  lemma SameElements<T>(s: seq<T>, p: seq<nat>, lo: int, hi: int)
    requires Rearranges(p, |s|, lo, hi)
    ensures multiset(Apply(s, p)) == multiset(s)
  {
    forall i | i in multiset(p) ensures i < |s| { assert i in Numbers(|s|); }
    ApplyMultiset(s, p, Numbers(|s|));
    ApplyNumbers(s);
  }

  lemma Compose<T>(s: seq<T>, p: seq<nat>, q: seq<nat>, lo: int, hi: int)
    requires Rearranges(p, |s|, lo, hi) && Rearranges(q, |s|, lo, hi)
    ensures Rearranges(Apply(p, q), |s|, lo, hi)
    ensures Apply(Apply(s, p), q) == Apply(s, Apply(p, q))
  {
    SameElements(p, q, lo, hi);
  }

  lemma Widen(p: seq<nat>, n: nat, a: int, b: int, lo: int, hi: int)
    requires Rearranges(p, n, a, b) && lo <= a && b <= hi
    ensures Rearranges(p, n, lo, hi)
  {
    forall i | 0 <= i < n && lo <= i <= hi ensures lo <= p[i] <= hi { }
  }

  /** What the partition loop leaves: nothing left of `e` is above the pivot, nothing right of it below. */
  ghost predicate Parted(s: seq<int>, m: int, e: int, n: int, pivot: int) {
    && 0 <= m < e <= n < |s|
    && (forall k :: m <= k < e ==> s[k] <= pivot)
    && (forall k :: e < k <= n ==> s[k] >= pivot)
    && (s[e] < pivot ==> e < n)
  }

  /** Both ranges are strictly smaller, and sorting one after the other sorts the whole, shared index or not. */
  lemma SortParts(s: seq<int>, m: int, e: int, n: int, pivot: int, t: seq<int>, p: seq<nat>, u: seq<int>, q: seq<nat>)
    requires Parted(s, m, e, n, pivot)
    requires var b := if s[e] < pivot then e + 1 else e;
      Rearranges(p, |s|, m, b - 1) && t == Apply(s, p) && SortedRange(t, m, b - 1)
    requires Rearranges(q, |s|, e, n) && u == Apply(t, q) && SortedRange(u, e, n)
    ensures SortedRange(u, m, n)
  {
    forall i, j | m <= i < j <= n ensures u[i] <= u[j] {
      if i < e {
        assert u[i] == t[i] == s[p[i]];
        if j < e {
          assert u[j] == t[j];
        } else {
          assert u[j] == t[q[j]] && e <= q[j];
          RightOf(s, m, e, n, pivot, t, p, i, q[j]);
        }
      }
    }
  }

  lemma RightOf(s: seq<int>, m: int, e: int, n: int, pivot: int, t: seq<int>, p: seq<nat>, i: int, j: int)
    requires Parted(s, m, e, n, pivot)
    requires var b := if s[e] < pivot then e + 1 else e;
      Rearranges(p, |s|, m, b - 1) && t == Apply(s, p) && SortedRange(t, m, b - 1)
    requires m <= i < e <= j <= n
    ensures t[i] <= t[j]
  {
    var b := if s[e] < pivot then e + 1 else e;
    assert t[i] == s[p[i]] <= pivot;
    if j >= b { assert t[j] == s[j] >= pivot; }
  }

  /** Two sorted rearrangements of one array are the same array. */
  lemma SortsAgree(s: seq<int>, p: seq<nat>, q: seq<nat>, lo: int, hi: int)
    requires lo < hi ==> 0 <= lo && hi < |s|
    requires Rearranges(p, |s|, lo, hi) && Rearranges(q, |s|, lo, hi)
    requires SortedRange(Apply(s, p), lo, hi) && SortedRange(Apply(s, q), lo, hi)
    ensures Apply(s, p) == Apply(s, q)
  {
    var t, u := Apply(s, p), Apply(s, q);
    if lo < hi {
      SameElements(s, p, lo, hi);
      SameElements(s, q, lo, hi);
      MiddleAgrees(t, u, lo, hi + 1);
      SortedSlice(t, lo, hi);
      SortedSlice(u, lo, hi);
      hide SortedRange, Apply;
      SortedUnique(t[lo..hi + 1], u[lo..hi + 1]);
      forall i | 0 <= i < |s| ensures t[i] == u[i] {
        if lo <= i <= hi { assert t[i] == t[lo..hi + 1][i - lo] && u[i] == u[lo..hi + 1][i - lo]; }
      }
    } else {
      forall i | 0 <= i < |s| ensures p[i] == i && q[i] == i { }
    }
  }

  lemma SortedSlice(t: seq<int>, lo: int, hi: int)
    requires 0 <= lo < hi < |t| && SortedRange(t, lo, hi)
    ensures SortedRange(t[lo..hi + 1], 0, |t[lo..hi + 1]| - 1)
  {
  }

  lemma MiddleAgrees(t: seq<int>, u: seq<int>, a: nat, b: nat)
    requires a <= b <= |t| == |u| && multiset(t) == multiset(u)
    requires forall i :: 0 <= i < |t| && !(a <= i < b) ==> t[i] == u[i]
    ensures multiset(t[a..b]) == multiset(u[a..b])
  {
    var x := t[..a] + t[b..];
    assert u[..a] + u[b..] == x;
    Middle(t, a, b);
    Middle(u, a, b);
    Cancel(multiset(t[a..b]), multiset(u[a..b]), multiset(x));
  }

  lemma Middle(t: seq<int>, a: nat, b: nat)
    requires a <= b <= |t|
    ensures multiset(t) == multiset(t[a..b]) + multiset(t[..a] + t[b..])
  {
    assert t == t[..a] + t[a..b] + t[b..];
  }

  lemma {:induction false} SortedUnique(t: seq<int>, u: seq<int>)
    requires multiset(t) == multiset(u) && SortedRange(t, 0, |t| - 1) && SortedRange(u, 0, |u| - 1)
    ensures t == u
    decreases |t|
  {
    hide SortedRange, Drop;
    assert |t| == |multiset(t)| == |multiset(u)| == |u|;
    if |t| > 0 {
      Least(t, u);
      Least(u, t);
      DropBoth(t, 0, u, 0);
      Rest(t);
      Rest(u);
      SortedUnique(Drop(t, 0), Drop(u, 0));
    }
  }

  lemma Rest(t: seq<int>)
    requires |t| > 0 && SortedRange(t, 0, |t| - 1)
    ensures t == [t[0]] + Drop(t, 0) && |Drop(t, 0)| == |t| - 1 && SortedRange(Drop(t, 0), 0, |t| - 2)
  {
    assert Drop(t, 0) == t[1..];
  }

  lemma Least(t: seq<int>, u: seq<int>)
    requires multiset(t) == multiset(u) && SortedRange(t, 0, |t| - 1) && |t| > 0 && |u| > 0
    ensures t[0] <= u[0]
  {
    assert u[0] in multiset(u);
    var k :| 0 <= k < |t| && t[k] == u[0];
  }
}
