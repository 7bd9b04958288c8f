/** The share every server gets: a whole block of picks gives each server its weight over the common divisor,
    exactly when the first server is not heavier than all others. */
module LbFairness {
  import opened LbSpec

  function Min(x: int, y: int): int { if x < y then x else y }

  /** The weights from `k` on, each capped at `top`, summed. */
  ghost function SumMin(ws: seq<int>, top: int, k: nat): int
    decreases |ws| - k
  {
    if k >= |ws| then 0 else Min(ws[k], top) + SumMin(ws, top, k + 1)
  }

  ghost function Sum(ws: seq<int>, k: nat): int
    decreases |ws| - k
  {
    if k >= |ws| then 0 else ws[k] + Sum(ws, k + 1)
  }

  /** All weights are positive multiples of `g`. */
  ghost predicate Weighed(ws: seq<int>, g: int) {
    |ws| >= 2 && Divides(g, ws) && forall i :: 0 <= i < |ws| ==> ws[i] > 0
  }

  // ---------------------------------------------------------------- multiples

  /** Between a multiple and the next lower one there is no other. */
  lemma Gap(w: int, top: int, g: int)
    requires g >= 1 && w % g == 0 && top % g == 0 && w < top
    ensures w <= top - g
  {
    Euclid(w, g);
    Euclid(top, g);
    var a, b := w / g, top / g;
    if a >= b { TimesLe(b, a, g); }
    TimesLe(a, b - 1, g);
    assert (b - 1) * g == b * g - g;
  }

  lemma OneLess(top: int, g: int)
    requires g >= 1 && top % g == 0
    ensures (top - g) % g == 0 && top / g == (top - g) / g + 1
  {
    Euclid(top, g);
    var q := top / g;
    assert top - g == (q - 1) * g;
    ModZero(q - 1, g);
  }

  // ---------------------------------------------------------------- how often a server is in a block

  /** How often `x` occurs in `s`. */
  ghost function Times(s: seq<int>, x: int): nat {
    if s == [] then 0 else (if s[0] == x then 1 else 0) + Times(s[1..], x)
  }

  lemma {:induction false} TimesCat(a: seq<int>, b: seq<int>, x: int)
    ensures Times(a + b, x) == Times(a, x) + Times(b, x)
  {
    if a == [] {
      assert a + b == b;
    } else {
      TimesCat(a[1..], b, x);
      assert (a + b)[1..] == a[1..] + b;
    }
  }

  lemma {:induction false} LevelCount(ws: seq<int>, cw: int, k: nat, i: int)
    requires 0 <= i < |ws|
    ensures Times(Level(ws, cw, k), i) == if k <= i && ws[i] >= cw then 1 else 0
    decreases |ws| - k
  {
    hide Level, Times;
    if k < |ws| {
      LevelCount(ws, cw, k + 1, i);
      LevelStep(ws, cw, k);
      OneTime(k, i);
      TimesCat([k], Level(ws, cw, k + 1), i);
    } else {
      LevelNone(ws, cw, k, i);
    }
  }

  lemma OneTime(k: int, x: int)
    ensures Times([k], x) == if k == x then 1 else 0
  {
  }

  lemma LevelNone(ws: seq<int>, cw: int, k: nat, x: int)
    requires k >= |ws|
    ensures Times(Level(ws, cw, k), x) == 0
  {
  }

  /** Server `i` is in as many levels as its weight, capped at the top, holds the divisor. */
  lemma {:induction false} BlockCount(ws: seq<int>, g: int, top: int, i: int)
    requires Weighed(ws, g) && 0 <= i < |ws| && top >= 0 && top % g == 0
    ensures Times(Block(ws, g, top), i) == Min(ws[i], top) / g
    decreases top
  {
    if top > 0 {
      Multiple(top, g);
      BlockCount(ws, g, top - g, i);
      LevelCount(ws, top, 0, i);
      if ws[i] < top { Gap(ws[i], top, g); } else { OneLess(top, g); }
      TimesCat(Level(ws, top, 0), Block(ws, g, top - g), i);
    }
  }

  lemma {:induction false} LevelSum(ws: seq<int>, g: int, top: int, k: nat)
    requires Weighed(ws, g) && top % g == 0
    ensures g * |Level(ws, top, k)| == SumMin(ws, top, k) - SumMin(ws, top - g, k)
    decreases |ws| - k
  {
    if k < |ws| {
      LevelSum(ws, g, top, k + 1);
      LevelStep(ws, top, k);
      var rest := |Level(ws, top, k + 1)|;
      if ws[k] < top {
        Gap(ws[k], top, g);
      } else {
        assert |Level(ws, top, k)| == rest + 1;
        assert g * (rest + 1) == g * rest + g;
      }
    }
  }

  lemma {:induction false} SumMinZero(ws: seq<int>, k: nat)
    requires forall i :: 0 <= i < |ws| ==> ws[i] > 0
    ensures SumMin(ws, 0, k) == 0
    decreases |ws| - k
  {
    if k < |ws| { SumMinZero(ws, k + 1); }
  }

  /** A block is as long as the capped weights over the divisor. */
  lemma {:induction false} BlockLength(ws: seq<int>, g: int, top: int)
    requires Weighed(ws, g) && top >= 0 && top % g == 0
    ensures g * |Block(ws, g, top)| == SumMin(ws, top, 0)
    decreases top
  {
    if top > 0 {
      Multiple(top, g);
      BlockLength(ws, g, top - g);
      LevelSum(ws, g, top, 0);
      Distribute(g, |Level(ws, top, 0)|, |Block(ws, g, top - g)|);
    } else {
      SumMinZero(ws, 0);
    }
  }

  lemma Distribute(g: int, a: int, b: int)
    ensures g * (a + b) == g * a + g * b
  {
  }

  lemma {:induction false} CappedSum(ws: seq<int>, k: nat)
    ensures k >= 1 ==> SumMin(ws, Max(ws), k) == Sum(ws, k)
    ensures k == 0 && |ws| > 0 ==> SumMin(ws, Max(ws), 0) == Sum(ws, 0) - ws[0] + Min(ws[0], Max(ws))
    decreases |ws| - k
  {
    if k < |ws| { CappedSum(ws, k + 1); }
  }

  // ---------------------------------------------------------------- the theorem

  /** The state between blocks; the weight is 0 before the first block. */
  ghost predicate Between(ws: seq<int>, g: int, st: Scheduler) {
    |ws| > 0 && st.iter == |ws| - 1 && (st.cw == 0 || st.cw == g)
  }

  lemma MaxWeighed(ws: seq<int>, g: int)
    requires Weighed(ws, g)
    ensures 0 < g <= Max(ws) && Max(ws) % g == 0
  {
    assert ws[1] <= Max(ws);
    var a := Heaviest(ws);
    Multiple(ws[a], g);
  }

  lemma BetweenReady(ws: seq<int>, g: int, st: Scheduler)
    requires Weighed(ws, g) && Between(ws, g, st)
    ensures Ready(ws, g, st.iter, st.cw) && PassOver(ws, st) && Lower(ws, g, st.cw) == Max(ws) > 0
  {
    MaxWeighed(ws, g);
  }

  /** From between two blocks, one block of picks gives each server its capped share and comes back. */
  lemma BlockShares(ws: seq<int>, g: int, st: Scheduler)
    requires Weighed(ws, g) && Between(ws, g, st) && Ready(ws, g, st.iter, st.cw) && Max(ws) > 0
    ensures (var m := |Block(ws, g, Max(ws))|;
      var r := Picks(ws, g, st, m);
      r.servers == Block(ws, g, Max(ws)) && r.state == Scheduler(|ws| - 1, g) &&
      g * m == SumMin(ws, Max(ws), 0) && forall i :: 0 <= i < |ws| ==> Times(r.servers, i) == Min(ws[i], Max(ws)) / g)
  {
    hide Picks, Block, Level, Times, Max;
    MaxWeighed(ws, g);
    BetweenReady(ws, g, st);
    BlockRun(ws, g, st, Max(ws));
    BlockLength(ws, g, Max(ws));
    forall i | 0 <= i < |ws| ensures Times(Block(ws, g, Max(ws)), i) == Min(ws[i], Max(ws)) / g {
      BlockCount(ws, g, Max(ws), i);
    }
    var r := Picks(ws, g, st, |Block(ws, g, Max(ws))|);
    AtEnd(ws, g, r.state);
  }

  /** A pass at a weight that all servers carry ends with the last one. */
  lemma AtEnd(ws: seq<int>, g: int, st: Scheduler)
    requires Weighed(ws, g) && PassOver(ws, st) && st.cw <= g
    ensures st.iter == |ws| - 1
  {
    Multiple(ws[|ws| - 1], g);
    if st.iter < |ws| - 1 { LevelNonEmpty(ws, st.cw, st.iter + 1, |ws| - 1); }
  }

  /** The promise of weighted round robin for one block of `m` picks. */
  ghost predicate Fair(ws: seq<int>, g: int, st: Scheduler, m: nat)
    requires Weighed(ws, g) && Ready(ws, g, st.iter, st.cw) && Max(ws) > 0
  {
    var r := Picks(ws, g, st, m);
    r.state == Scheduler(|ws| - 1, g) && forall i :: 0 <= i < |ws| ==> Times(r.servers, i) == ws[i] / g
  }

  /** All weights are positive multiples of `g`, and there may be one server only. */
  ghost predicate Positive(ws: seq<int>, g: int) {
    |ws| >= 1 && Divides(g, ws) && forall i :: 0 <= i < |ws| ==> ws[i] > 0
  }

  /** The promise is kept: servers are handed out at all, and in their shares. */
  ghost predicate Kept(ws: seq<int>, g: int, st: Scheduler, m: nat) {
    Weighed(ws, g) && Ready(ws, g, st.iter, st.cw) && Max(ws) > 0 && Fair(ws, g, st, m)
  }

  /** With `m` picks, as many as the weights hold the divisor, the promise is kept if and only if the first
      server is not heavier than every other. A single server always is, and is never handed out. */
  lemma FairExactly(ws: seq<int>, g: int, st: Scheduler, m: nat)
    requires Positive(ws, g) && Between(ws, g, st) && g * m == Sum(ws, 0)
    ensures Kept(ws, g, st, m) <==> ws[0] <= Max(ws)
    ensures |ws| == 1 ==> Ending(ws, g, 0, 0) && Scan(ws, g, 0, 0) == Picked(-1, 0)
  {
    if |ws| >= 2 { FairAmongMany(ws, g, st, m); }
  }

  lemma FairAmongMany(ws: seq<int>, g: int, st: Scheduler, m: nat)
    requires Weighed(ws, g) && Between(ws, g, st) && g * m == Sum(ws, 0)
    ensures Ready(ws, g, st.iter, st.cw) && Max(ws) > 0
    ensures Fair(ws, g, st, m) <==> ws[0] <= Max(ws)
  {
    hide Picks, Block, Max;
    BetweenReady(ws, g, st);
    BlockShares(ws, g, st);
    CappedSum(ws, 0);
    MaxCovers(ws);
    var n := |Block(ws, g, Max(ws))|;
    if ws[0] <= Max(ws) {
      SameFactor(g, m, n);
    } else {
      Unfair(ws, g, st, m, n);
    }
  }

  lemma MaxCovers(ws: seq<int>)
    ensures forall i :: 1 <= i < |ws| ==> ws[i] <= Max(ws)
  {
  }

  lemma SameFactor(g: int, m: int, n: int)
    requires g >= 1 && g * m == g * n
    ensures m == n
  {
    if m < n { TimesLe(m + 1, n, g); } else if n < m { TimesLe(n + 1, m, g); }
  }

  /** A first server heavier than all others gets too little: the block is shorter than the promise counts. */
  lemma Unfair(ws: seq<int>, g: int, st: Scheduler, m: nat, n: nat)
    requires Weighed(ws, g) && Between(ws, g, st) && Ready(ws, g, st.iter, st.cw) && 0 < Max(ws) < ws[0]
    requires g * m == Sum(ws, 0) && n == |Block(ws, g, Max(ws))|
    ensures !Fair(ws, g, st, m)
  {
    hide Picks, Block, Level, Max;
    MaxWeighed(ws, g);
    BlockShares(ws, g, st);
    CappedSum(ws, 0);
    assert m > n by { if m <= n { TimesLe(m, n, g); } }
    PicksCat(ws, g, st, n, m - n);
    var again := Scheduler(|ws| - 1, g);
    BetweenReady(ws, g, again);
    Again(ws, g, again, m - n);
    var all, one, two := Picks(ws, g, st, m), Picks(ws, g, st, n), Picks(ws, g, again, m - n);
    if m - n > 1 {
      var a := two.servers[1];
      TimesCat(one.servers, two.servers, a);
      TimesMember(two.servers, 1);
    }
  }

  lemma {:induction false} TimesMember(s: seq<int>, i: nat)
    requires i < |s|
    ensures Times(s, s[i]) >= 1
  {
    if i > 0 { TimesMember(s[1..], i - 1); }
  }

  /** The next block starts with the first server and then one as heavy as the heaviest of the others. */
  lemma Again(ws: seq<int>, g: int, st: Scheduler, k: nat)
    requires Weighed(ws, g) && st == Scheduler(|ws| - 1, g) && k >= 1 && Max(ws) < ws[0]
    requires Ready(ws, g, st.iter, st.cw) && Max(ws) > 0 && PassOver(ws, st) && Lower(ws, g, st.cw) == Max(ws)
    ensures (var r := Picks(ws, g, st, k);
      (k == 1 ==> r.state.iter == 0) && (k > 1 ==> 1 <= r.servers[1] < |ws| && ws[r.servers[1]] <= Max(ws)))
  {
    hide Scan;
    var top := Max(ws);
    ScanWraps(ws, g, st.iter, st.cw);
    ScanReady(ws, g, st.iter, st.cw);
    LevelStep(ws, top, 0);
    if k > 1 {
      var a := Heaviest(ws);
      LevelNonEmpty(ws, top, 1, a);
      ScanInLevel(ws, g, 0, top);
      ScanReady(ws, g, 0, top);
      assert Picks(ws, g, Scheduler(0, top), k - 1).servers[0] == Level(ws, top, 1)[0];
    }
  }

  /** The first picks, at weight 0, are the servers after the first, once each. */
  lemma WarmUp(ws: seq<int>, g: int)
    requires Weighed(ws, g)
    ensures Ready(ws, g, 0, 0) && Max(ws) > 0
    ensures (var r := Picks(ws, g, Scheduler(0, 0), |ws| - 1);
      r.servers == seq(|ws| - 1, i => i + 1) && r.state == Scheduler(|ws| - 1, 0) && Between(ws, g, r.state))
  {
    hide Picks;
    MaxWeighed(ws, g);
    LevelAll(ws, 1);
    PassRun(ws, g, Scheduler(0, 0));
    var r := Picks(ws, g, Scheduler(0, 0), |ws| - 1);
    AtEnd(ws, g, r.state);
  }

  lemma {:induction false} LevelAll(ws: seq<int>, k: nat)
    requires k <= |ws| && forall i :: 0 <= i < |ws| ==> ws[i] >= 0
    ensures Level(ws, 0, k) == seq(|ws| - k, i => i + k)
    decreases |ws| - k
  {
    if k < |ws| {
      LevelAll(ws, k + 1);
      assert seq(|ws| - k, i => i + k) == [k] + seq(|ws| - k - 1, i => i + (k + 1));
    }
  }

  // ---------------------------------------------------------------- weights of zero

  ghost function Repeated(s: seq<int>, n: nat): seq<int> { if n == 0 then [] else s + Repeated(s, n - 1) }

  /** With a divisor of 0 the weight never falls: every pass hands out the heaviest servers only. */
  lemma {:induction false} HeaviestOnly(ws: seq<int>, st: Scheduler, n: nat)
    requires Ready(ws, 0, st.iter, st.cw) && Max(ws) > 0 && PassOver(ws, st) && (st.cw == 0 || st.cw == Max(ws))
    ensures (var top := Level(ws, Max(ws), 0);
      Picks(ws, 0, st, |Repeated(top, n)|).servers == Repeated(top, n))
    decreases n
  {
    hide Picks, Level, Max;
    if n > 0 {
      var top := Level(ws, Max(ws), 0);
      NextPass(ws, 0, st);
      var one := Picks(ws, 0, st, |top|);
      HeaviestOnly(ws, one.state, n - 1);
      PicksCat(ws, 0, st, |top|, |Repeated(top, n - 1)|);
    } else {
      NoPicks(ws, 0, st);
    }
  }

  lemma NoPicks(ws: seq<int>, g: int, st: Scheduler)
    requires Ready(ws, g, st.iter, st.cw) && Max(ws) > 0
    ensures Picks(ws, g, st, 0) == Run([], st)
  {
  }
}
