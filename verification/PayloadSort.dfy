/** The mid-pivot sort on keys with two payload arrays, and binary search over the sorted keys. */
module PayloadSort {
  import opened Common
  import opened SortSpec
  import opened MidPivotSort

  /** All three arrays are distinct and of one length. */
  ghost predicate Columns<V, W>(a: array<int>, v: array<V>, w: array<W>) {
    a.Length == v.Length == w.Length && (a as object) != v && (a as object) != w && (v as object) != w
  }

  ghost predicate Rearranged<V, W>(p: seq<nat>, lo: int, hi: int, s: seq<int>, x: seq<V>, y: seq<W>,
                                   s': seq<int>, x': seq<V>, y': seq<W>) {
    |s| == |x| == |y| && Rearranges(p, |s|, lo, hi) && s' == Apply(s, p) && x' == Apply(x, p) && y' == Apply(y, p)
  }

  lemma Untouched<V, W>(s: seq<int>, x: seq<V>, y: seq<W>, lo: int, hi: int)
    requires |s| == |x| == |y|
    ensures Rearranged(Numbers(|s|), lo, hi, s, x, y, s, x, y)
  {
    Stand(|s|, lo, hi);
    ApplyNumbers(s);
    ApplyNumbers(x);
    ApplyNumbers(y);
  }

  lemma SwapAll<V, W>(p: seq<nat>, lo: int, hi: int, s: seq<int>, x: seq<V>, y: seq<W>, s': seq<int>, x': seq<V>,
                      y': seq<W>, i: nat, j: nat)
    requires Rearranged(p, lo, hi, s, x, y, s', x', y') && lo <= i <= hi && lo <= j <= hi && i < |s| && j < |s|
    ensures |p| == |s'| == |x'| == |y'| == |s|
    ensures Rearranged(Swapped(p, i, j), lo, hi, s, x, y, Swapped(s', i, j), Swapped(x', i, j), Swapped(y', i, j))
  {
    hide Rearranges, Swapped;
    InRange(p, |s|, lo, hi);
    SwapRearranges(p, |s|, lo, hi, i, j);
    InRange(Swapped(p, i, j), |s|, lo, hi);
    SwapApply(s, p, i, j);
    SwapApply(x, p, i, j);
    SwapApply(y, p, i, j);
  }

  lemma InRange(p: seq<nat>, n: nat, lo: int, hi: int)
    requires Rearranges(p, n, lo, hi)
    ensures |p| == n && forall k :: 0 <= k < |p| ==> p[k] < n
  {
  }

  lemma ComposeAll<V, W>(p: seq<nat>, q: seq<nat>, lo: int, hi: int, a: int, b: int, s: seq<int>, x: seq<V>, y: seq<W>,
                         s1: seq<int>, x1: seq<V>, y1: seq<W>, s2: seq<int>, x2: seq<V>, y2: seq<W>)
    requires Rearranged(p, lo, hi, s, x, y, s1, x1, y1) && Rearranged(q, a, b, s1, x1, y1, s2, x2, y2) && lo <= a
    requires b <= hi
    ensures |p| == |q| == |s| && Below(q, |p|) && Rearranged(Apply(p, q), lo, hi, s, x, y, s2, x2, y2)
  {
    hide Apply;
    Widen(q, |s|, a, b, lo, hi);
    Compose(s, p, q, lo, hi);
    Compose(x, p, q, lo, hi);
    Compose(y, p, q, lo, hi);
  }

  /** Swaps two rows in all three arrays. */
  method SwapRows<V, W>(a: array<int>, v: array<V>, w: array<W>, i: int, j: int)
    requires Columns(a, v, w) && 0 <= i < a.Length && 0 <= j < a.Length
    modifies a, v, w
    ensures a[..] == Swapped(old(a[..]), i, j) && v[..] == Swapped(old(v[..]), i, j)
    ensures w[..] == Swapped(old(w[..]), i, j)
  {
    a[i], a[j] := a[j], a[i];
    v[i], v[j] := v[j], v[i];
    w[i], w[j] := w[j], w[i];
  }

  method PartitionRows<V, W>(a: array<int>, v: array<V>, w: array<W>, m: int, n: int)
    returns (b: int, e: int, ghost pivot: int, ghost p: seq<nat>)
    requires Columns(a, v, w) && 0 <= m && m + 1 < n < a.Length
    modifies a, v, w
    ensures Rearranged(p, m, n, old(a[..]), old(v[..]), old(w[..]), a[..], v[..], w[..])
    ensures Parted(a[..], m, e, n, pivot) && b == if a[e] < pivot then e + 1 else e
  {
    hide Rearranged, Swapped, Parted;
    var tMid := a[(m + n) / 2];
    pivot := tMid;
    b, e := m, n;
    ghost var s, x, y := a[..], v[..], w[..];
    p := Numbers(a.Length);
    Untouched(s, x, y, m, n);
    while b < e
      invariant m <= b <= e <= n
      invariant Rearranged(p, m, n, s, x, y, a[..], v[..], w[..])
      invariant if b < e then Parting(a[..], m, b, e, n, pivot) else Parted(a[..], m, e, n, pivot)
      decreases e - b
    {
      ghost var b0, e0 := b, e;
      b := ScanUp(a, b, e, tMid);
      e := ScanDown(a, b, e, tMid);
      SwapParts(a[..], m, b0, e0, n, pivot, b, e);
      if b < e {
        SwapAll(p, m, n, s, x, y, a[..], v[..], w[..], b, e);
        SwapRows(a, v, w, b, e);
        p := Swapped(p, b, e);
        b := b + 1;
        if b < e { e := e - 1; }
        PartingDone(a[..], m, b, e, n, pivot);
      }
    }
    if a[b] < tMid { b := b + 1; }
  }

  /** Sorts the keys of `lo..hi` and moves both payloads by the very same rearrangement. */
  method RecursionSortRows<V, W>(a: array<int>, v: array<V>, w: array<W>, lo: int, hi: int) returns (ghost p: seq<nat>)
    requires Columns(a, v, w) && (lo < hi ==> 0 <= lo && hi < a.Length)
    modifies a, v, w
    ensures Rearranged(p, lo, hi, old(a[..]), old(v[..]), old(w[..]), a[..], v[..], w[..])
    ensures SortedRange(a[..], lo, hi)
    decreases hi - lo
  {
    hide Rearranged, SortedRange, Parted, Numbers, Swapped;
    ghost var s, x, y := a[..], v[..], w[..];
    Untouched(s, x, y, lo, hi);
    p := Numbers(a.Length);
    if lo >= hi {
      Idle(s, lo, hi);
      return;
    }
    if lo + 1 == hi {
      if a[lo] > a[hi] {
        SwapAll(p, lo, hi, s, x, y, s, x, y, lo, hi);
        SwapRows(a, v, w, lo, hi);
        p := Swapped(p, lo, hi);
        SwapSorts(s, lo);
      } else {
        PairSorted(s, lo);
      }
      return;
    }
    var b, e, pivot, p1 := PartitionRows(a, v, w, lo, hi);
    p := SortBoth(a, v, w, lo, hi, b, e, pivot, p1, s, x, y);
  }

  lemma PairSorted(s: seq<int>, lo: nat)
    requires lo + 1 < |s| && s[lo] <= s[lo + 1]
    ensures SortedRange(s, lo, lo + 1)
  {
  }

  lemma SwapSorts(s: seq<int>, lo: nat)
    requires lo + 1 < |s| && s[lo] > s[lo + 1]
    ensures SortedRange(Swapped(s, lo, lo + 1), lo, lo + 1)
  {
  }

  /** The two recursive calls after a split. */
  method SortBoth<V, W>(a: array<int>, v: array<V>, w: array<W>, lo: int, hi: int, b: int, e: int, ghost pivot: int,
                        ghost p1: seq<nat>, ghost s: seq<int>, ghost x: seq<V>, ghost y: seq<W>)
    returns (ghost p: seq<nat>)
    requires Columns(a, v, w) && lo + 1 < hi
    requires Rearranged(p1, lo, hi, s, x, y, a[..], v[..], w[..])
    requires Parted(a[..], lo, e, hi, pivot) && b == if a[e] < pivot then e + 1 else e
    modifies a, v, w
    ensures Rearranged(p, lo, hi, s, x, y, a[..], v[..], w[..])
    ensures SortedRange(a[..], lo, hi)
    decreases hi - lo, 0
  {
    hide Rearranged, SortedRange, Parted, Numbers;
    PartedBounds(a[..], lo, e, hi, pivot);
    ghost var s1, x1, y1 := a[..], v[..], w[..];
    ghost var p2, p3 := Numbers(a.Length), Numbers(a.Length);
    Untouched(s1, x1, y1, lo, b - 1);
    if b - 1 > lo { p2 := RecursionSortRows(a, v, w, lo, b - 1); } else { Idle(s1, lo, b - 1); }
    ghost var s2, x2, y2 := a[..], v[..], w[..];
    Untouched(s2, x2, y2, e, hi);
    if e < hi { p3 := RecursionSortRows(a, v, w, e, hi); } else { Idle(s2, e, hi); }
    SortPartsRows(s1, x1, y1, s2, x2, y2, a[..], v[..], w[..], lo, e, hi, pivot, p2, p3);
    ComposeAll(p1, p2, lo, hi, lo, b - 1, s, x, y, s1, x1, y1, s2, x2, y2);
    ComposeAll(Apply(p1, p2), p3, lo, hi, e, hi, s, x, y, s2, x2, y2, a[..], v[..], w[..]);
    p := Apply(Apply(p1, p2), p3);
  }

  lemma SortPartsRows<V, W>(s1: seq<int>, x1: seq<V>, y1: seq<W>, s2: seq<int>, x2: seq<V>, y2: seq<W>,
                            s3: seq<int>, x3: seq<V>, y3: seq<W>, lo: int, e: int, hi: int, pivot: int,
                            p2: seq<nat>, p3: seq<nat>)
    requires Parted(s1, lo, e, hi, pivot)
    requires var b := if s1[e] < pivot then e + 1 else e;
      Rearranged(p2, lo, b - 1, s1, x1, y1, s2, x2, y2) && SortedRange(s2, lo, b - 1)
    requires Rearranged(p3, e, hi, s2, x2, y2, s3, x3, y3) && SortedRange(s3, e, hi)
    ensures SortedRange(s3, lo, hi)
  {
    SortParts(s1, lo, e, hi, pivot, s2, p2, s3, p3);
  }

  /** An index it reports holds the key; in a sorted range it reports -1 only when the key is absent. */
  method BinarySearch(a: array<int>, lo: int, hi: int, key: int) returns (r: int)
    requires lo <= hi ==> 0 <= lo && hi < a.Length
    ensures r == -1 && SortedRange(a[..], lo, hi) ==> forall i :: lo <= i <= hi ==> a[i] != key
    ensures r != -1 ==> lo <= r <= hi && a[r] == key
  {
    if lo > hi { return -1; }
    var b, e := lo, hi;
    while b <= e
      invariant lo <= b && e <= hi
      invariant SortedRange(a[..], lo, hi) ==> forall i :: lo <= i <= hi && !(b <= i <= e) ==> a[i] != key
      decreases e - b
    {
      var mid := (b + e) / 2;
      assert SortedRange(a[..], lo, hi) ==> forall i, j :: lo <= i < j <= hi ==> a[..][i] <= a[..][j];
      if a[mid] < key {
        b := mid + 1;
      } else if a[mid] > key {
        e := mid - 1;
      } else {
        return mid;
      }
    }
    r := -1;
  }
}
