/** The stack sort on its fixed buffer of slots: when it sorts, and on which inputs the buffer is too small. */
module StackBuffer {
  import opened Common
  import opened SortSpec
  import opened MidPivotSort
  import opened StackSort

  const STACK_SLOTS := 1024

  // ---------------------------------------------------------------- the stack buffer

  /** Whether `k` turns from `c` on ever leave more ranges than the buffer has room for. */
  ghost predicate Overruns(c: Config, k: nat)
    requires InBounds(c)
    decreases k
  {
    2 * |c.stack| > STACK_SLOTS || (k > 0 && InBounds(Next(c)) && Overruns(Next(c), k - 1))
  }

  ghost predicate MayOverrun(c: Config)
    requires InBounds(c)
  {
    exists k: nat :: Overruns(c, k)
  }

  lemma OverrunNow(c: Config)
    requires InBounds(c) && 2 * |c.stack| > STACK_SLOTS
    ensures MayOverrun(c)
  {
    assert Overruns(c, 0);
  }

  /** A turn that fits decides nothing yet. */
  lemma OverrunTurn(c: Config)
    requires InBounds(c) && InBounds(Next(c)) && 2 * |c.stack| <= STACK_SLOTS
    ensures MayOverrun(c) <==> MayOverrun(Next(c))
  {
    hide Next, InBounds;
    if MayOverrun(c) {
      var k: nat :| Overruns(c, k);
      assert Overruns(Next(c), k - 1);
    }
    if MayOverrun(Next(c)) {
      var k: nat :| Overruns(Next(c), k);
      assert Overruns(c, k + 1);
    }
  }

  lemma EmptyNever(c: Config)
    requires c.stack == []
    ensures !MayOverrun(c)
  {
    forall k: nat ensures !Overruns(c, k) { EmptyFits(c, k); }
  }

  /** Some turn of sorting `lo..hi` pushes beyond the end of the buffer. */
  ghost predicate Overflows(s: seq<int>, lo: int, hi: int)
    requires lo < hi ==> 0 <= lo && hi < |s|
  {
    MayOverrun(Config(s, [Range(lo, hi)]))
  }

  lemma {:induction false} NoOverrun(s: seq<int>, c: Config, p: seq<nat>, lo: int, hi: int, k: nat)
    requires Turning(s, c, p, lo, hi) && hi - lo + 1 <= 514 && InBounds(c)
    ensures !Overruns(c, k)
    decreases k
  {
    hide Turning, Next, InBounds;
    TurningBounds(s, c, p, lo, hi);
    if k > 0 {
      if c.stack == [] {
        Stays(c);
        NoOverrun(s, c, p, lo, hi, k - 1);
      } else {
        var p' := Turned(s, c, p, lo, hi);
        TurningBounds(s, Next(c), p', lo, hi);
        NoOverrun(s, Next(c), p', lo, hi, k - 1);
      }
    }
  }

  lemma Stays(c: Config)
    requires InBounds(c) && c.stack == []
    ensures Next(c) == c
  {
  }

  /** Ranges of up to 514 elements fit into the buffer. */
  lemma Fits(s: seq<int>, lo: int, hi: int)
    requires lo < hi ==> 0 <= lo && hi < |s|
    requires hi - lo + 1 <= 514
    ensures !Overflows(s, lo, hi)
  {
    hide Overruns;
    var c := Config(s, [Range(lo, hi)]);
    forall k: nat ensures !Overruns(c, k) {
      if lo < hi {
        Begins(s, lo, hi);
        NoOverrun(s, c, Numbers(|s|), lo, hi, k);
      } else {
        Trivial(s, lo, hi, k);
      }
    }
  }

  lemma IdleTurn(s: seq<int>, lo: int, hi: int)
    requires lo >= hi
    ensures Next(Config(s, [Range(lo, hi)])) == Config(s, [])
  {
  }

  lemma Trivial(s: seq<int>, lo: int, hi: int, k: nat)
    requires lo >= hi
    ensures !Overruns(Config(s, [Range(lo, hi)]), k)
  {
    IdleTurn(s, lo, hi);
    EmptyFits(Config(s, []), if k == 0 then 0 else k - 1);
  }

  lemma {:induction false} EmptyFits(c: Config, k: nat)
    requires c.stack == []
    ensures !Overruns(c, k)
    decreases k
  {
    if k > 0 { EmptyFits(c, k - 1); }
  }

  // ---------------------------------------------------------------- inputs that fill the buffer

  /** The numbers below `n`, arranged so that every split leaves the two largest to the right and the rest to the
      left. */
  function Filling(n: nat): (s: seq<int>)
    ensures |s| == n && forall i :: 0 <= i < n ==> 0 <= s[i] < n
  {
    if n <= 2 then seq(n, i => i) else Swapped(Filling(n - 1) + [n - 1], (n - 1) / 2, n - 1)
  }

  lemma {:induction false} UpStops(s: seq<int>, b: int, e: int, pivot: int, i: int)
    requires 0 <= b <= i <= e < |s| && (forall k :: b <= k < i ==> s[k] < pivot) && (i == e || s[i] >= pivot)
    ensures Up(s, b, e, pivot) == i
    decreases i - b
  {
    if b < i { UpStops(s, b + 1, e, pivot, i); }
  }

  /** A range that begins with the filling input of `k + 1` elements. */
  lemma FillingMeets(s: seq<int>, k: nat)
    requires 3 <= k < |s| && s[..k + 1] == Filling(k + 1)
    ensures s[k / 2] == k
    ensures (var r := Meet(s, 0, k, k);
      r.at == k - 1 && r.s[..k] == Filling(k) && r.s[k - 1] < k)
  {
    hide Filling, Up, Down, Meet;
    FillingStep(k);
    var f := Filling(k);
    var t := Swapped(s, k / 2, k);
    assert forall i :: 0 <= i <= k ==> s[i] == s[..k + 1][i];
    assert s[k / 2] == k && s[k] == f[k / 2];
    assert t[..k] == f;
    assert forall i :: 0 <= i < k ==> t[i] == t[..k][i];
    UpStops(s, 0, k, k, k / 2);
    DownStays(s, k / 2, k, k);
    MeetOnce(s, 0, k, k);
    var b := k / 2 + 1;
    UpStops(t, b, k - 1, k, k - 1);
    MeetOnce(t, b, k - 1, k);
  }

  lemma FillingStep(k: nat)
    requires k >= 2
    ensures Filling(k + 1) == Swapped(Filling(k) + [k], k / 2, k)
    ensures Filling(k + 1)[k / 2] == k && Filling(k + 1)[k] == Filling(k)[k / 2]
    ensures forall i :: 0 <= i < k && i != k / 2 ==> Filling(k + 1)[i] == Filling(k)[i]
  {
  }

  lemma DownStays(s: seq<int>, b: int, e: int, pivot: int)
    requires 0 <= b <= e < |s| && s[e] <= pivot
    ensures Down(s, b, e, pivot) == e
  {
  }

  /** One turn leaves one range more, and the next smaller filling input on top. */
  lemma FillingTurn(c: Config, k: nat)
    requires 3 <= k < |c.s| && c.s[..k + 1] == Filling(k + 1) && c.stack != [] && c.stack[|c.stack| - 1] == Range(0, k)
    requires InBounds(c)
    ensures (var d := Next(c);
      InBounds(d) && |d.s| == |c.s| && d.s[..k] == Filling(k) &&
      |d.stack| == |c.stack| + 1 && d.stack[|d.stack| - 1] == Range(0, k - 1))
  {
    hide Filling, Meet;
    FillingMeets(c.s, k);
  }

  lemma {:induction false} FillingOverruns(c: Config, k: nat)
    requires InBounds(c) && k < |c.s| && c.s[..k + 1] == Filling(k + 1) && c.stack != []
    requires c.stack[|c.stack| - 1] == Range(0, k)
    requires 2 * (|c.stack| + k - 2) > STACK_SLOTS && k >= 2
    ensures Overruns(c, k)
    decreases k
  {
    hide Filling, Next, InBounds;
    if 2 * |c.stack| <= STACK_SLOTS {
      FillingTurn(c, k);
      FillingOverruns(Next(c), k - 1);
    }
  }

  /** The filling input of 515 elements or more runs over the end of the buffer. */
  lemma FillingOverflows(n: nat)
    requires n >= 515
    ensures Overflows(Filling(n), 0, n - 1)
  {
    hide Filling;
    var s := Filling(n);
    assert s[..n] == s;
    FillingOverruns(Config(s, [Range(0, n - 1)]), n - 1);
  }

  ghost predicate SomeOverflow(n: nat) {
    exists s: seq<int> :: |s| == n && Overflows(s, 0, n - 1)
  }

  /** The buffer is too small for some input of `n` elements if and only if there are 515 of them or more. */
  lemma OverflowExactly(n: nat)
    ensures SomeOverflow(n) <==> n >= 515
  {
    hide Filling, Overflows;
    if n >= 515 {
      FillingOverflows(n);
      assert |Filling(n)| == n;
    } else {
      forall s: seq<int> | |s| == n ensures !Overflows(s, 0, n - 1) { Fits(s, 0, n - 1); }
    }
  }

  // ---------------------------------------------------------------- the loop on the buffer

  /** The first `2 * |stack|` slots hold the ranges of the stack. */
  ghost predicate Holds(slots: seq<int>, stack: seq<Range>) {
    && |slots| == STACK_SLOTS && 2 * |stack| <= STACK_SLOTS
    && forall k :: 0 <= k < |stack| ==> slots[2 * k] == stack[k].lo && slots[2 * k + 1] == stack[k].hi
  }

  lemma HoldsNothing(slots: seq<int>)
    requires |slots| == STACK_SLOTS
    ensures Holds(slots, [])
  {
  }

  lemma Room(slots: seq<int>, stack: seq<Range>)
    requires Holds(slots, stack)
    ensures 2 * |stack| <= STACK_SLOTS
  {
  }

  lemma Popped(slots: seq<int>, stack: seq<Range>)
    requires Holds(slots, stack) && stack != []
    ensures Holds(slots, stack[..|stack| - 1])
  {
  }

  /** The two slots on top, end before begin. */
  method TopRange(stackBuf: array<int>, stackPos: int, ghost stack: seq<Range>) returns (top: Range)
    requires Holds(stackBuf[..], stack) && stackPos == 2 * |stack| && stack != []
    ensures top == stack[|stack| - 1]
  {
    var lEnd := stackBuf[stackPos - 1];
    var lBegin := stackBuf[stackPos - 2];
    ghost var n := |stack| - 1;
    assert stackBuf[..][2 * n] == stack[n].lo && stackBuf[..][2 * n + 1] == stack[n].hi;
    top := Range(lBegin, lEnd);
  }

  /** Pushes two slots, unless this would be past the end of the buffer. */
  method PushRange(stackBuf: array<int>, stackPos: int, r: Range, ghost stack: seq<Range>)
    returns (pos: int, overflow: bool)
    requires Holds(stackBuf[..], stack) && stackPos == 2 * |stack|
    modifies stackBuf
    ensures overflow <==> 2 * (|stack| + 1) > STACK_SLOTS
    ensures !overflow ==> Holds(stackBuf[..], stack + [r]) && pos == stackPos + 2
  {
    if stackPos + 2 > STACK_SLOTS { return stackPos, true; }
    stackBuf[stackPos] := r.lo;
    stackBuf[stackPos + 1] := r.hi;
    return stackPos + 2, false;
  }

  /** One turn's work on the array: orders two elements, or splits a longer range. */
  method Process(a: array<int>, top: Range) returns (b: int, e: int, split: bool)
    requires top.lo < top.hi ==> 0 <= top.lo && top.hi < a.Length
    modifies a
    ensures Config(a[..], if split then Pushed(top.lo, b, e, top.hi) else []) == Processing(old(a[..]), top)
  {
    hide Rearranges, SortedRange, Apply, Parted, Pushed, Ordered, Meet;
    b, e, split := 0, 0, false;
    if top.lo >= top.hi { return; }
    if top.lo + 1 == top.hi {
      ghost var p := OrderPair(a, top.lo, top.hi);
      return;
    }
    ghost var pivot, p;
    b, e, pivot, p := Partition(a, top.lo, top.hi);
    split := true;
  }

  /** Pushes what a split leaves, the right part first. */
  method PushParts(stackBuf: array<int>, stackPos: int, m: int, b: int, e: int, n: int, ghost stack: seq<Range>)
    returns (pos: int, overflow: bool)
    requires Holds(stackBuf[..], stack) && stackPos == 2 * |stack|
    modifies stackBuf
    ensures overflow <==> 2 * (|stack| + |Pushed(m, b, e, n)|) > STACK_SLOTS
    ensures !overflow ==> Holds(stackBuf[..], stack + Pushed(m, b, e, n)) && pos == 2 * (|stack| + |Pushed(m, b, e, n)|)
  {
    hide Holds;
    Room(stackBuf[..], stack);
    pos, overflow := stackPos, false;
    ghost var grown := stack;
    if e < n {
      pos, overflow := PushRange(stackBuf, pos, Range(e, n), grown);
      if overflow { return; }
      grown := grown + [Range(e, n)];
    }
    if b - 1 > m {
      pos, overflow := PushRange(stackBuf, pos, Range(m, b - 1), grown);
      if overflow { return; }
      grown := grown + [Range(m, b - 1)];
    }
    assert grown == stack + Pushed(m, b, e, n);
  }

  /** Sorts like the recursive form, unless it runs over the end of its 1024 slots, which it does exactly on the
      inputs that overflow, and never with fewer than 515 elements. */
  method UnrecursionSort(a: array<int>, lo: int, hi: int) returns (overflow: bool, ghost p: seq<nat>)
    requires lo < hi ==> 0 <= lo && hi < a.Length
    modifies a
    ensures overflow <==> Overflows(old(a[..]), lo, hi)
    ensures overflow ==> hi - lo + 1 >= 515
    ensures !overflow ==> Rearranges(p, a.Length, lo, hi) && a[..] == Apply(old(a[..]), p) && SortedRange(a[..], lo, hi)
  {
    hide Rearranges, SortedRange, Apply, Turning, Span, Processing, Overruns, MayOverrun, Holds, Pushed;
    ghost var s := a[..];
    if hi - lo + 1 < 515 { Fits(s, lo, hi); }
    ghost var start := Config(s, [Range(lo, hi)]);
    var stackBuf := new int[STACK_SLOTS];
    HoldsNothing(stackBuf[..]);
    var stackPos;
    stackPos, overflow := PushRange(stackBuf, 0, Range(lo, hi), []);
    ghost var stack := [Range(lo, hi)];
    assert [] + [Range(lo, hi)] == stack;
    p := Numbers(a.Length);
    if lo < hi { Begins(s, lo, hi); } else { Idle(s, lo, hi); }
    while stackPos != 0
      invariant !overflow && Holds(stackBuf[..], stack) && stackPos == 2 * |stack|
      invariant lo < hi ==> Turning(s, Config(a[..], stack), p, lo, hi)
      invariant lo >= hi ==> a[..] == s && p == Numbers(a.Length) && (stack == [] || stack == [Range(lo, hi)])
      invariant InBounds(Config(a[..], stack)) && (Overflows(s, lo, hi) <==> MayOverrun(Config(a[..], stack)))
      decreases if lo < hi then 2 * Span(stack) - |stack| else |stack|
    {
      ghost var c := Config(a[..], stack);
      ghost var n := |stack| - 1;
      var top := TopRange(stackBuf, stackPos, stack);
      stackPos := stackPos - 2;
      Popped(stackBuf[..], stack);
      Room(stackBuf[..], stack);
      if lo < hi {
        TurningBounds(s, c, p, lo, hi);
        p := Turned(s, c, p, lo, hi);
        TurningBounds(s, Next(c), p, lo, hi);
      } else {
        IdleTurn(s, lo, hi);
      }
      OverrunTurn(c);
      var b, e, split := Process(a, top);
      stack := stack[..n];
      assert Next(c) == Config(a[..], stack + if split then Pushed(top.lo, b, e, top.hi) else []);
      if split {
        stackPos, overflow := PushParts(stackBuf, stackPos, top.lo, b, e, top.hi, stack);
        stack := stack + Pushed(top.lo, b, e, top.hi);
        if overflow {
          OverrunNow(Config(a[..], stack));
          return;
        }
      } else {
        assert stack + [] == stack;
      }
    }
    EmptyNever(Config(a[..], stack));
    if lo < hi { Ends(s, Config(a[..], stack), p, lo, hi); }
  }

  /** Both forms turn the same input into the same array, whenever the stack form does not overflow. */
  method SortBothWays(s: seq<int>, lo: int, hi: int) returns (overflow: bool, recursive: seq<int>, stacked: seq<int>)
    requires lo < hi ==> 0 <= lo && hi < |s|
    ensures SortedRange(recursive, lo, hi) && multiset(recursive) == multiset(s)
    ensures overflow <==> Overflows(s, lo, hi)
    ensures hi - lo + 1 <= 514 ==> !overflow
    ensures !overflow ==> recursive == stacked
  {
    hide Rearranges, SortedRange, Apply, Overflows;
    var a := new int[|s|](i requires 0 <= i < |s| => s[i]);
    var b := new int[|s|](i requires 0 <= i < |s| => s[i]);
    assert a[..] == s && b[..] == s;
    ghost var p := RecursionSort(a, lo, hi);
    ghost var q;
    overflow, q := UnrecursionSort(b, lo, hi);
    SameElements(s, p, lo, hi);
    if !overflow { SortsAgree(s, p, q, lo, hi); }
    recursive, stacked := a[..], b[..];
  }
}
