/** The mid-pivot sort with an explicit stack of pending ranges instead of recursion. */
module StackSort {
  import opened Common
  import opened SortSpec
  import opened MidPivotSort

  datatype Range = Range(lo: int, hi: int)

  /** The pending ranges, top of the stack last: each holds at least two elements, and they lie
      from right to left, sharing at most end points. */
  ghost predicate Chain(stack: seq<Range>, lo: int, hi: int) {
    && (forall k :: 0 <= k < |stack| ==> lo <= stack[k].lo < stack[k].hi <= hi)
    && (forall k, l :: 0 <= k < l < |stack| ==> stack[l].hi <= stack[k].lo)
  }

  /** Range `k` is still to be sorted and holds both `i` and `j`; an end point shared with the range
      above belongs to that one alone. */
  ghost predicate Covers(stack: seq<Range>, k: int, i: int, j: int) {
    && 0 <= k < |stack| && stack[k].lo <= i && j <= stack[k].hi
    && (k + 1 < |stack| ==> stack[k + 1].hi < i)
  }

  ghost predicate Together(stack: seq<Range>, i: int, j: int) {
    exists k :: Covers(stack, k, i, j)
  }

  /** Any two elements are in order already or will meet in a pending range. */
  ghost predicate Waits(t: seq<int>, stack: seq<Range>, lo: int, hi: int) {
    forall i, j :: 0 <= lo <= i < j <= hi < |t| ==> t[i] <= t[j] || Together(stack, i, j)
  }

  ghost function Span(stack: seq<Range>): int {
    if stack == [] then 0 else Span(stack[..|stack| - 1]) + stack[|stack| - 1].hi - stack[|stack| - 1].lo
  }

  /** The lengths of the pending ranges sum to at most the length of the whole. */
  lemma {:induction false} PendingSpan(stack: seq<Range>, lo: int, hi: int)
    requires Chain(stack, lo, hi) && lo <= hi
    ensures |stack| <= Span(stack) <= hi - lo
  {
    if stack != [] {
      var top := stack[|stack| - 1];
      PendingSpan(stack[..|stack| - 1], top.hi, hi);
    }
  }

  lemma {:induction false} SpanCat(a: seq<Range>, b: seq<Range>)
    ensures Span(a + b) == Span(a) + Span(b)
  {
    if b == [] {
      assert a + b == a;
    } else {
      SpanCat(a, b[..|b| - 1]);
      assert (a + b)[..|a + b| - 1] == a + b[..|b| - 1];
    }
  }

  /** Nothing in the top range is above anything to its right or below anything to its left. */
  lemma TopApart(t: seq<int>, stack: seq<Range>, lo: int, hi: int, i: int, j: int)
    requires stack != [] && Chain(stack, lo, hi) && Waits(t, stack, lo, hi)
    requires 0 <= lo <= i < j <= hi < |t|
    requires var top := stack[|stack| - 1]; i < top.lo || (i <= top.hi < j)
    ensures t[i] <= t[j]
  {
    var n := |stack| - 1;
    forall k ensures !Covers(stack, k, i, j) {
      if 0 <= k < n { assert stack[n].hi <= stack[k].lo; assert k + 1 < n ==> stack[n].hi <= stack[k + 1].lo; }
    }
  }

  lemma ReplaceChain(stack: seq<Range>, lo: int, hi: int, more: seq<Range>)
    requires stack != [] && Chain(stack, lo, hi)
    requires Chain(more, stack[|stack| - 1].lo, stack[|stack| - 1].hi)
    ensures Chain(stack[..|stack| - 1] + more, lo, hi)
  {
  }

  lemma CoversRest(stack: seq<Range>, lo: int, hi: int, more: seq<Range>, k: int, i: int, j: int)
    requires stack != [] && Chain(stack, lo, hi)
    requires Chain(more, stack[|stack| - 1].lo, stack[|stack| - 1].hi)
    requires Covers(stack, k, i, j) && stack[|stack| - 1].hi < i < j
    ensures Covers(stack[..|stack| - 1] + more, k, i, j)
  {
  }

  lemma CoversMore(rest: seq<Range>, more: seq<Range>, k: int, i: int, j: int)
    requires Covers(more, k, i, j)
    ensures Covers(rest + more, |rest| + k, i, j)
  {
  }

  /** The top range was rearranged and `more` is what is left pending of it. */
  ghost predicate Processed(t: seq<int>, top: Range, u: seq<int>, q: seq<nat>, more: seq<Range>) {
    Rearranges(q, |t|, top.lo, top.hi) && u == Apply(t, q) && Chain(more, top.lo, top.hi) &&
    Waits(u, more, top.lo, top.hi)
  }

  lemma ReplacePair(t: seq<int>, stack: seq<Range>, lo: int, hi: int, u: seq<int>, q: seq<nat>, more: seq<Range>,
                    i: int, j: int)
    requires stack != [] && Chain(stack, lo, hi) && Waits(t, stack, lo, hi) && 0 <= lo <= i < j <= hi < |t|
    requires Processed(t, stack[|stack| - 1], u, q, more)
    ensures u[i] <= u[j] || Together(stack[..|stack| - 1] + more, i, j)
  {
    hide Chain, Covers;
    var n := |stack| - 1;
    TopBounds(stack, lo, hi);
    if i < stack[n].lo || (i <= stack[n].hi < j) {
      assert u[i] == t[q[i]] && u[j] == t[q[j]];
      TopApart(t, stack, lo, hi, q[i], q[j]);
    } else if i > stack[n].hi {
      assert u[i] == t[i] && u[j] == t[j];
      if u[i] > u[j] {
        var k :| Covers(stack, k, i, j);
        CoversRest(stack, lo, hi, more, k, i, j);
      }
    } else if u[i] > u[j] {
      var k :| Covers(more, k, i, j);
      CoversMore(stack[..n], more, k, i, j);
    }
  }

  lemma TopBounds(stack: seq<Range>, lo: int, hi: int)
    requires stack != [] && Chain(stack, lo, hi)
    ensures lo <= stack[|stack| - 1].lo < stack[|stack| - 1].hi <= hi
  {
  }

  /** Replacing the top range by what its processing leaves pending keeps the invariant. */
  lemma Replace(t: seq<int>, stack: seq<Range>, lo: int, hi: int, u: seq<int>, q: seq<nat>, more: seq<Range>)
    requires stack != [] && Chain(stack, lo, hi) && Waits(t, stack, lo, hi) && 0 <= lo && hi < |t|
    requires Processed(t, stack[|stack| - 1], u, q, more)
    ensures |u| == |t| && Chain(stack[..|stack| - 1] + more, lo, hi) && Waits(u, stack[..|stack| - 1] + more, lo, hi)
  {
    ReplaceChain(stack, lo, hi, more);
    forall i, j | lo <= i < j <= hi
      ensures u[i] <= u[j] || Together(stack[..|stack| - 1] + more, i, j)
    {
      ReplacePair(t, stack, lo, hi, u, q, more, i, j);
    }
  }

  /** The ranges left pending by a split, the right one pushed first. */
  function Pushed(m: int, b: int, e: int, n: int): seq<Range> {
    (if e < n then [Range(e, n)] else []) + (if b - 1 > m then [Range(m, b - 1)] else [])
  }

  lemma SplitPends(u: seq<int>, m: int, e: int, n: int, pivot: int, b: int)
    requires Parted(u, m, e, n, pivot) && b == if u[e] < pivot then e + 1 else e
    ensures Chain(Pushed(m, b, e, n), m, n) && Waits(u, Pushed(m, b, e, n), m, n)
  {
    var more := Pushed(m, b, e, n);
    forall i, j | m <= i < j <= n ensures u[i] <= u[j] || Together(more, i, j) {
      if j <= b - 1 { assert Covers(more, |more| - 1, i, j); }
      else if e <= i && !(i == e && b == e + 1) { assert Covers(more, 0, i, j); }
    }
  }

  /** Both ranges are strictly shorter than the one they came from, together no longer than it, and of a range
      of three elements at most one is left. */
  lemma SplitShrinks(m: int, b: int, e: int, n: int)
    requires m < e <= n && e <= b <= e + 1 && (b == e + 1 ==> e < n)
    ensures forall r :: r in Pushed(m, b, e, n) ==> 0 < r.hi - r.lo < n - m
    ensures Span(Pushed(m, b, e, n)) <= n - m
    ensures 2 * Span(Pushed(m, b, e, n)) - |Pushed(m, b, e, n)| < 2 * (n - m) - 1
    ensures n == m + 2 && b == e ==> |Pushed(m, b, e, n)| <= 1
  {
    var right, left := if e < n then [Range(e, n)] else [], if b - 1 > m then [Range(m, b - 1)] else [];
    SpanCat(right, left);
    assert Span(right) == n - e && (left != [] ==> Span(left) == b - 1 - m);
  }

  lemma SortedPends(u: seq<int>, m: int, n: int)
    requires SortedRange(u, m, n)
    ensures Chain([], m, n) && Waits(u, [], m, n)
  {
  }

  lemma NothingPends(u: seq<int>, lo: int, hi: int)
    requires Waits(u, [], lo, hi) && (lo < hi ==> 0 <= lo && hi < |u|)
    ensures SortedRange(u, lo, hi)
  {
    forall i, j | lo <= i < j <= hi && 0 <= i && j < |u| ensures u[i] <= u[j] {
      assert forall k :: !Covers([], k, i, j);
    }
  }

  // ---------------------------------------------------------------- the run of the loop

  /** The array and the pending ranges between two turns. */
  datatype Config = Config(s: seq<int>, stack: seq<Range>)

  ghost predicate InBounds(c: Config) {
    forall k :: 0 <= k < |c.stack| && c.stack[k].lo < c.stack[k].hi ==> 0 <= c.stack[k].lo && c.stack[k].hi < |c.s|
  }

  /** The array after the top range was processed, and the ranges this leaves pending. */
  function Processing(s: seq<int>, top: Range): (c: Config)
    requires top.lo < top.hi ==> 0 <= top.lo && top.hi < |s|
    ensures |c.s| == |s|
  {
    if top.lo >= top.hi then Config(s, [])
    else if top.lo + 1 == top.hi then Config(Ordered(s, top.lo), [])
    else
      var pivot := s[(top.lo + top.hi) / 2];
      var r := Meet(s, top.lo, top.hi, pivot);
      Config(r.s, Pushed(top.lo, if r.s[r.at] < pivot then r.at + 1 else r.at, r.at, top.hi))
  }

  lemma {:induction false} Processes(s: seq<int>, top: Range) returns (q: seq<nat>)
    requires 0 <= top.lo < top.hi < |s|
    ensures (var c := Processing(s, top);
      Processed(s, top, c.s, q, c.stack) && 2 * Span(c.stack) - |c.stack| < 2 * (top.hi - top.lo) - 1 &&
      Load(c.stack) <= Weight(top))
  {
    hide Rearranges, SortedRange, Apply, Parted, Chain, Waits, Span, Pushed, Meet, Load;
    if top.lo + 1 == top.hi {
      q := OrderedPair(s, top.lo);
      SortedPends(Ordered(s, top.lo), top.lo, top.hi);
      NoSpan();
    } else {
      q := MeetSplits(s, top.lo, top.hi);
      var pivot := s[(top.lo + top.hi) / 2];
      var r := Meet(s, top.lo, top.hi, pivot);
      PartedBounds(r.s, top.lo, r.at, top.hi, pivot);
      var b := if r.s[r.at] < pivot then r.at + 1 else r.at;
      SplitPends(r.s, top.lo, r.at, top.hi, pivot, b);
      SplitShrinks(top.lo, b, r.at, top.hi);
      SplitLoad(top.lo, b, r.at, top.hi);
    }
  }

  lemma NoSpan()
    ensures Span([]) == 0 && Load([]) == 0
  {
  }

  /** The most ranges that can ever be pending while this one is worked off. */
  function Weight(r: Range): nat {
    if r.hi - r.lo <= 2 then 1 else r.hi - r.lo - 1
  }

  ghost function Load(stack: seq<Range>): nat {
    if stack == [] then 0 else Load(stack[..|stack| - 1]) + Weight(stack[|stack| - 1])
  }

  lemma {:induction false} LoadCat(a: seq<Range>, b: seq<Range>)
    ensures Load(a + b) == Load(a) + Load(b)
  {
    if b == [] {
      assert a + b == a;
    } else {
      LoadCat(a, b[..|b| - 1]);
      assert (a + b)[..|a + b| - 1] == a + b[..|b| - 1];
    }
  }

  lemma {:induction false} LoadCounts(stack: seq<Range>)
    ensures |stack| <= Load(stack)
  {
    if stack != [] { LoadCounts(stack[..|stack| - 1]); }
  }

  /** A split never raises the load. */
  lemma SplitLoad(m: int, b: int, e: int, n: int)
    requires m + 1 < n && m < e <= n && e <= b <= e + 1 && (b == e + 1 ==> e < n) && (n == m + 2 ==> b == e)
    ensures Load(Pushed(m, b, e, n)) <= Weight(Range(m, n))
  {
    hide Load;
    var right, left := if e < n then [Range(e, n)] else [], if b - 1 > m then [Range(m, b - 1)] else [];
    LoadCat(right, left);
    OneLoad(Range(e, n));
    OneLoad(Range(m, b - 1));
    NoSpan();
  }

  lemma OneLoad(r: Range)
    ensures Load([r]) == Weight(r)
  {
    assert [r][..0] == [];
  }

  function Next(c: Config): Config
    requires InBounds(c)
  {
    if c.stack == [] then c
    else
      var n := |c.stack| - 1;
      var d := Processing(c.s, c.stack[n]);
      Config(d.s, c.stack[..n] + d.stack)
  }

  /** Everything that holds between two turns when there is something to sort. */
  ghost predicate Turning(s: seq<int>, c: Config, p: seq<nat>, lo: int, hi: int) {
    && 0 <= lo < hi < |s| == |c.s| && Rearranges(p, |s|, lo, hi) && c.s == Apply(s, p)
    && Chain(c.stack, lo, hi) && Waits(c.s, c.stack, lo, hi) && Load(c.stack) <= Weight(Range(lo, hi))
  }

  lemma Begins(s: seq<int>, lo: int, hi: int)
    requires 0 <= lo < hi < |s|
    ensures Turning(s, Config(s, [Range(lo, hi)]), Numbers(|s|), lo, hi)
  {
    ApplyNumbers(s);
    OneLoad(Range(lo, hi));
    forall i, j | lo <= i < j <= hi ensures Together([Range(lo, hi)], i, j) {
      assert Covers([Range(lo, hi)], 0, i, j);
    }
  }

  lemma TurningBounds(s: seq<int>, c: Config, p: seq<nat>, lo: int, hi: int)
    requires Turning(s, c, p, lo, hi)
    ensures InBounds(c) && forall k :: 0 <= k < |c.stack| ==> lo <= c.stack[k].lo < c.stack[k].hi <= hi
    ensures |c.stack| <= Span(c.stack) && |c.stack| <= Weight(Range(lo, hi))
  {
    PendingSpan(c.stack, lo, hi);
    LoadCounts(c.stack);
  }

  /** One turn keeps the invariant and uses up work. */
  lemma Turned(s: seq<int>, c: Config, p: seq<nat>, lo: int, hi: int) returns (p': seq<nat>)
    requires Turning(s, c, p, lo, hi) && c.stack != []
    ensures InBounds(c) && Turning(s, Next(c), p', lo, hi)
    ensures 0 <= 2 * Span(Next(c).stack) - |Next(c).stack| < 2 * Span(c.stack) - |c.stack|
  {
    hide Chain, Waits, Processing, Load;
    var n := |c.stack| - 1;
    TurningBounds(s, c, p, lo, hi);
    var top := c.stack[n];
    var q := Processes(c.s, top);
    var d := Processing(c.s, top);
    Widen(q, |s|, top.lo, top.hi, lo, hi);
    Compose(s, p, q, lo, hi);
    Replace(c.s, c.stack, lo, hi, d.s, q, d.stack);
    SpanCat(c.stack[..n], d.stack);
    LoadCat(c.stack[..n], d.stack);
    Last(c.stack);
    p' := Apply(p, q);
    PendingSpan(Next(c).stack, lo, hi);
  }

  lemma Last(stack: seq<Range>)
    requires stack != []
    ensures (var n := |stack| - 1;
      Load(stack) == Load(stack[..n]) + Weight(stack[n]) && Span(stack) == Span(stack[..n]) + stack[n].hi - stack[n].lo)
  {
  }

  lemma Ends(s: seq<int>, c: Config, p: seq<nat>, lo: int, hi: int)
    requires Turning(s, c, p, lo, hi) && c.stack == []
    ensures Rearranges(p, |s|, lo, hi) && c.s == Apply(s, p) && SortedRange(c.s, lo, hi)
  {
    NothingPends(c.s, lo, hi);
  }
}
