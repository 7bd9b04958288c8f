/** The split around the middle element, and the recursive sort built on it. */
module MidPivotSort {
  import opened Common
  import opened SortSpec

  /** The state of the partition loop between two iterations: either untouched or already split. */
  ghost predicate Parting(s: seq<int>, m: int, b: int, e: int, n: int, pivot: int) {
    && 0 <= m <= b <= e <= n < |s| && m + 1 < n
    && (forall k :: m <= k < b ==> s[k] <= pivot)
    && (forall k :: e < k <= n ==> s[k] >= pivot)
    && ((b == m && e == n && s[(m + n) / 2] == pivot) || (m < b && (e < n || s[e] >= pivot)))
  }

  /** Where a scan from the left stops: at the first element not below the pivot. */
  function Up(s: seq<int>, b: int, e: int, pivot: int): (i: int)
    requires 0 <= b <= e < |s|
    ensures b <= i <= e && (i < e ==> s[i] >= pivot) && forall k :: b <= k < i ==> s[k] < pivot
    decreases e - b
  {
    if b < e && s[b] < pivot then Up(s, b + 1, e, pivot) else b
  }

  /** Where a scan from the right stops: at the first element not above the pivot. */
  function Down(s: seq<int>, b: int, e: int, pivot: int): (i: int)
    requires 0 <= b <= e < |s|
    ensures b <= i <= e && (b < i ==> s[i] <= pivot) && forall k :: i < k <= e ==> s[k] > pivot
    decreases e - b
  {
    if b < e && s[e] > pivot then Down(s, b, e - 1, pivot) else e
  }

  method ScanUp(a: array<int>, b: int, e: int, pivot: int) returns (i: int)
    requires 0 <= b <= e < a.Length
    ensures i == Up(a[..], b, e, pivot)
  {
    i := b;
    while i < e && a[i] < pivot
      invariant b <= i <= e && Up(a[..], i, e, pivot) == Up(a[..], b, e, pivot)
    {
      i := i + 1;
    }
  }

  method ScanDown(a: array<int>, b: int, e: int, pivot: int) returns (i: int)
    requires 0 <= b <= e < a.Length
    ensures i == Down(a[..], b, e, pivot)
  {
    i := e;
    while b < i && a[i] > pivot
      invariant b <= i <= e && Down(a[..], b, i, pivot) == Down(a[..], b, e, pivot)
    {
      i := i - 1;
    }
  }

  /** The array after the split, and the index where the scans met. */
  datatype Met = Met(s: seq<int>, at: int)

  function Meet(s: seq<int>, b: int, e: int, pivot: int): (r: Met)
    requires 0 <= b <= e < |s|
    ensures |r.s| == |s| && b <= r.at <= e
    decreases e - b
  {
    if b == e then Met(s, b)
    else
      var i := Up(s, b, e, pivot);
      var j := Down(s, i, e, pivot);
      if i == j then Met(s, i) else Meet(Swapped(s, i, j), i + 1, if i + 1 < j then j - 1 else j, pivot)
  }

  /** One pass of the partition loop: where the two scans stop, swap and step over. */
  lemma SwapParts(s: seq<int>, m: int, b: int, e: int, n: int, pivot: int, i: int, j: int)
    requires Parting(s, m, b, e, n, pivot) && b < e
    requires b <= i <= e && (i < e ==> s[i] >= pivot) && forall k :: b <= k < i ==> s[k] < pivot
    requires i <= j <= e && (i < j ==> s[j] <= pivot) && forall k :: j < k <= e ==> s[k] > pivot
    ensures i == j ==> Parted(s, m, j, n, pivot)
    ensures i < j ==> Parting(Swapped(s, i, j), m, i + 1, if i + 1 < j then j - 1 else j, n, pivot)
    // Three elements: one pass is enough, and the element met at is not below the pivot.
    ensures b == m && e == n == m + 2 && i == j ==> s[j] >= pivot
    ensures b == m && e == n == m + 2 && i < j ==> j - 1 <= i + 1 && Swapped(s, i, j)[i + 1] >= pivot
  {
    if b == m {
      var mid := (m + n) / 2;
      assert m < mid < n;
      assert i <= mid <= j;
    }
  }

  /** `t` is `s` rearranged by `p` within `lo..hi`. */
  ghost predicate Moved(p: seq<nat>, lo: int, hi: int, s: seq<int>, t: seq<int>) {
    Rearranges(p, |s|, lo, hi) && t == Apply(s, p)
  }

  lemma Unmoved(lo: int, hi: int, s: seq<int>)
    ensures Moved(Numbers(|s|), lo, hi, s, s)
  {
    ApplyNumbers(s);
  }

  lemma MoveSwapped(p: seq<nat>, lo: int, hi: int, s: seq<int>, t: seq<int>, i: nat, j: nat)
    requires Moved(p, lo, hi, s, t) && lo <= i <= hi && lo <= j <= hi && i < |s| && j < |s|
    ensures |p| == |t| == |s| && Moved(Swapped(p, i, j), lo, hi, s, Swapped(t, i, j))
  {
    SwapApply(s, p, i, j);
    SwapRearranges(p, |s|, lo, hi, i, j);
  }

  method Swap(a: array<int>, i: int, j: int)
    requires 0 <= i < a.Length && 0 <= j < a.Length
    modifies a
    ensures a[..] == Swapped(old(a[..]), i, j)
  {
    a[i], a[j] := a[j], a[i];
  }

  /** The split leaves both parts strictly smaller, by the time the scans meet. */
  lemma {:induction false} MeetParts(s: seq<int>, m: int, b: int, e: int, n: int, pivot: int)
    requires Parting(s, m, b, e, n, pivot) && (b < e || m < b)
    ensures (var r := Meet(s, b, e, pivot);
      Parted(r.s, m, r.at, n, pivot) && (b == m && n == m + 2 ==> r.s[r.at] >= pivot))
    decreases e - b
  {
    hide Swapped, Parted, Up, Down, Meet;
    MeetOnce(s, b, e, pivot);
    if b == e {
      PartingDone(s, m, b, e, n, pivot);
    } else {
      var i := Up(s, b, e, pivot);
      var j := Down(s, i, e, pivot);
      SwapParts(s, m, b, e, n, pivot, i, j);
      if i < j {
        var t, last := Swapped(s, i, j), if i + 1 < j then j - 1 else j;
        MeetOnce(t, i + 1, last, pivot);
        MeetParts(t, m, i + 1, last, n, pivot);
      }
    }
  }

  lemma {:induction false} MeetMoves(t: seq<int>, p: seq<nat>, s: seq<int>, m: int, b: int, e: int, n: int, pivot: int)
    returns (q: seq<nat>)
    requires Moved(p, m, n, t, s) && 0 <= m <= b <= e <= n < |s| == |t|
    ensures Moved(q, m, n, t, Meet(s, b, e, pivot).s)
    decreases e - b
  {
    hide Moved, Swapped;
    q := p;
    if b < e {
      var i := Up(s, b, e, pivot);
      var j := Down(s, i, e, pivot);
      if i < j {
        MoveSwapped(p, m, n, t, s, i, j);
        q := MeetMoves(t, Swapped(p, i, j), Swapped(s, i, j), m, i + 1, if i + 1 < j then j - 1 else j, n, pivot);
      }
    }
  }

  /** What the split of `m..n` around its middle element leaves. */
  lemma MeetSplits(s: seq<int>, m: int, n: int) returns (p: seq<nat>)
    requires 0 <= m && m + 1 < n < |s|
    ensures (var r, pivot := Meet(s, m, n, s[(m + n) / 2]), s[(m + n) / 2];
      Rearranges(p, |s|, m, n) && r.s == Apply(s, p) && Parted(r.s, m, r.at, n, pivot) &&
      (n == m + 2 ==> r.s[r.at] >= pivot))
  {
    hide Rearranges, Apply, Parted;
    Unmoved(m, n, s);
    p := MeetMoves(s, Numbers(|s|), s, m, m, n, n, s[(m + n) / 2]);
    MeetParts(s, m, m, n, n, s[(m + n) / 2]);
  }

  /** One pass of the loop. */
  lemma MeetOnce(s: seq<int>, b: int, e: int, pivot: int)
    requires 0 <= b <= e < |s|
    ensures b == e ==> Meet(s, b, e, pivot) == Met(s, b)
    ensures (var i := Up(s, b, e, pivot);
      var j := Down(s, i, e, pivot);
      (b < e && i == j ==> Meet(s, b, e, pivot) == Met(s, i) == Meet(s, i, j, pivot)) &&
      (b < e && i < j ==> Meet(s, b, e, pivot) == Meet(Swapped(s, i, j), i + 1, if i + 1 < j then j - 1 else j, pivot)))
  {
    hide Swapped, Up, Down;
  }

  /** Splits `m..n` around its middle element; `b` and `e` are where the two scans end. */
  method Partition(a: array<int>, m: int, n: int) returns (b: int, e: int, ghost pivot: int, ghost p: seq<nat>)
    requires 0 <= m && m + 1 < n < a.Length
    modifies a
    ensures pivot == old(a[(m + n) / 2]) && Met(a[..], e) == Meet(old(a[..]), m, n, pivot)
    ensures Rearranges(p, a.Length, m, n) && a[..] == Apply(old(a[..]), p)
    ensures Parted(a[..], m, e, n, pivot) && b == if a[e] < pivot then e + 1 else e
  {
    hide Rearranges, Apply, Swapped, Parted, Up, Down, Meet;
    var tMid := a[(m + n) / 2];
    pivot := tMid;
    b, e := m, n;
    ghost var s := a[..];
    p := MeetSplits(s, m, n);
    while b < e
      invariant m <= b <= e <= n && Meet(a[..], b, e, pivot) == Meet(s, m, n, pivot)
      decreases e - b
    {
      MeetOnce(a[..], b, e, tMid);
      b := ScanUp(a, b, e, tMid);
      e := ScanDown(a, b, e, tMid);
      if b < e {
        Swap(a, b, e);
        b := b + 1;
        if b < e { e := e - 1; }
      }
    }
    MeetOnce(a[..], b, e, tMid);
    if a[b] < tMid { b := b + 1; }
  }

  lemma PartingDone(s: seq<int>, m: int, b: int, e: int, n: int, pivot: int)
    requires Parting(s, m, b, e, n, pivot) && m < b
    ensures b == e ==> Parted(s, m, e, n, pivot)
  {
  }

  /** A range of at most one element is sorted as it stands. */
  lemma Idle(s: seq<int>, lo: int, hi: int)
    requires hi <= lo
    ensures Rearranges(Numbers(|s|), |s|, lo, hi) && Apply(s, Numbers(|s|)) == s && SortedRange(s, lo, hi)
  {
    ApplyNumbers(s);
  }

  lemma PartedBounds(s: seq<int>, m: int, e: int, n: int, pivot: int)
    requires Parted(s, m, e, n, pivot)
    ensures 0 <= m < e <= n < |s| && (s[e] < pivot ==> e < n)
  {
  }

  /** Two neighbours in order. */
  function Ordered(s: seq<int>, lo: nat): seq<int>
    requires lo + 1 < |s|
  {
    if s[lo] > s[lo + 1] then Swapped(s, lo, lo + 1) else s
  }

  lemma OrderedPair(s: seq<int>, lo: nat) returns (p: seq<nat>)
    requires lo + 1 < |s|
    ensures Rearranges(p, |s|, lo, lo + 1) && Ordered(s, lo) == Apply(s, p) && SortedRange(Ordered(s, lo), lo, lo + 1)
  {
    hide Rearranges, Apply, Numbers;
    Unmoved(lo, lo + 1, s);
    MoveSwapped(Numbers(|s|), lo, lo + 1, s, s, lo, lo + 1);
    p := if s[lo] > s[lo + 1] then Swapped(Numbers(|s|), lo, lo + 1) else Numbers(|s|);
  }

  method OrderPair(a: array<int>, lo: int, hi: int) returns (ghost p: seq<nat>)
    requires 0 <= lo && lo + 1 == hi < a.Length
    modifies a
    ensures a[..] == Ordered(old(a[..]), lo)
    ensures Rearranges(p, a.Length, lo, hi) && a[..] == Apply(old(a[..]), p)
    ensures SortedRange(a[..], lo, hi)
  {
    hide Rearranges, Apply, SortedRange, Swapped;
    p := OrderedPair(a[..], lo);
    if a[lo] > a[hi] { Swap(a, lo, hi); }
  }

  /** Sorts `lo..hi` in place by a rearrangement of that range alone. */
  method RecursionSort(a: array<int>, lo: int, hi: int) returns (ghost p: seq<nat>)
    requires lo < hi ==> 0 <= lo && hi < a.Length
    modifies a
    ensures Rearranges(p, a.Length, lo, hi) && a[..] == Apply(old(a[..]), p)
    ensures SortedRange(a[..], lo, hi)
    decreases hi - lo
  {
    hide Rearranges, SortedRange, Apply, Parted, Numbers;
    if lo >= hi {
      Idle(a[..], lo, hi);
      return Numbers(a.Length);
    }
    if lo + 1 == hi {
      p := OrderPair(a, lo, hi);
      return;
    }
    ghost var s := a[..];
    var b, e, pivot, p1 := Partition(a, lo, hi);
    PartedBounds(a[..], lo, e, hi, pivot);
    ghost var p2, p3 := Numbers(a.Length), Numbers(a.Length);
    if b - 1 > lo { p2 := RecursionSort(a, lo, b - 1); } else { Idle(a[..], lo, b - 1); }
    if e < hi { p3 := RecursionSort(a, e, hi); } else { Idle(a[..], e, hi); }
    p := Joined(s, p1, p2, p3, lo, e, b, hi, pivot);
  }

  /** The three rearrangements in a row are one, and it sorts. */
  lemma Joined(s: seq<int>, p1: seq<nat>, p2: seq<nat>, p3: seq<nat>, lo: int, e: int, b: int, hi: int, pivot: int)
    returns (p: seq<nat>)
    requires Rearranges(p1, |s|, lo, hi) && Parted(Apply(s, p1), lo, e, hi, pivot)
    requires b == if Apply(s, p1)[e] < pivot then e + 1 else e
    requires Rearranges(p2, |s|, lo, b - 1) && SortedRange(Apply(Apply(s, p1), p2), lo, b - 1)
    requires Rearranges(p3, |s|, e, hi) && SortedRange(Apply(Apply(Apply(s, p1), p2), p3), e, hi)
    ensures Rearranges(p, |s|, lo, hi) && Apply(s, p) == Apply(Apply(Apply(s, p1), p2), p3)
    ensures SortedRange(Apply(s, p), lo, hi)
  {
    var t := Apply(s, p1);
    SortParts(t, lo, e, hi, pivot, Apply(t, p2), p2, Apply(Apply(t, p2), p3), p3);
    Widen(p2, |s|, lo, b - 1, lo, hi);
    Widen(p3, |s|, e, hi, lo, hi);
    Compose(s, p1, p2, lo, hi);
    Compose(s, Apply(p1, p2), p3, lo, hi);
    p := Apply(Apply(p1, p2), p3);
  }
}
