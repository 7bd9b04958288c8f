/** What the weighted round robin hands out: levels of falling weight, and blocks of levels. */
module LbSpec {

  /** The largest weight from position `k` on, not below zero. The source starts at position 1. */
  function MaxFrom(ws: seq<int>, k: nat): (m: int)
    ensures m >= 0
    ensures forall i :: k <= i < |ws| ==> ws[i] <= m
    ensures m == 0 || exists i :: k <= i < |ws| && ws[i] == m
    decreases |ws| - k
  {
    if k >= |ws| then 0
    else
      var rest := MaxFrom(ws, k + 1);
      if ws[k] > rest then ws[k] else rest
  }

  function Max(ws: seq<int>): int { MaxFrom(ws, 1) }

  ghost predicate Divides(g: int, ws: seq<int>) {
    g >= 1 && forall i :: 0 <= i < |ws| ==> ws[i] % g == 0
  }

  /** `g` is the greatest common divisor of the weights. */
  ghost predicate IsGcd(g: int, ws: seq<int>) {
    Divides(g, ws) && forall d :: Divides(d, ws) ==> d <= g
  }

  /** Some server after `j` carries the weight `cw`. */
  ghost predicate Hit(ws: seq<int>, j: int, cw: int) {
    exists k :: j < k < |ws| && k >= 0 && ws[k] >= cw
  }

  /** The weight for the next pass. */
  function Lower(ws: seq<int>, g: int, cw: int): int {
    if cw - g <= 0 then Max(ws) else cw - g
  }

  ghost predicate Ready(ws: seq<int>, g: int, j: int, cw: int) {
    |ws| > 0 && g >= 0 && 0 <= j < |ws| && 0 <= cw <= Max(ws)
  }

  /** A scan after `j` ends: with a negative step the weight only rises, so somebody has to carry it now or once
      raised. */
  ghost predicate Ending(ws: seq<int>, g: int, j: int, cw: int) {
    && 0 <= j < |ws| && cw >= 0
    && if g >= 0 then cw <= Max(ws) else Hit(ws, j, cw) || exists k :: 0 <= k < |ws| && ws[k] >= cw - g
  }

  datatype Picked = Picked(server: int, cw: int)

  /** Which server the scan after `j` stops at, and at which weight; -1 when no server past the first has any weight. */
  ghost function Scan(ws: seq<int>, g: int, j: int, cw: int): Picked
    requires Ending(ws, g, j, cw)
    decreases if Hit(ws, j, cw) then 0 else 1, |ws| - j
  {
    var k := if j + 1 == |ws| then 0 else j + 1;
    var cw' := if k == 0 then Lower(ws, g, cw) else cw;
    if k == 0 && cw' == 0 then Picked(-1, 0)
    else if ws[k] >= cw' then Picked(k, cw')
    else
      assert k == 0 ==> Hit(ws, 0, cw');
      Scan(ws, g, k, cw')
  }

  // ---------------------------------------------------------------- levels

  /** The servers from `k` on that carry the weight `cw`, in order. */
  ghost function Level(ws: seq<int>, cw: int, k: nat): (s: seq<int>)
    ensures forall i :: 0 <= i < |s| ==> k <= s[i] < |ws|
    decreases |ws| - k
  {
    if k >= |ws| then [] else (if ws[k] >= cw then [k] else []) + Level(ws, cw, k + 1)
  }

  lemma LevelStep(ws: seq<int>, cw: int, k: nat)
    requires k < |ws|
    ensures Level(ws, cw, k) == (if ws[k] >= cw then [k] else []) + Level(ws, cw, k + 1)
    ensures ws[k] >= cw ==> Level(ws, cw, k) != [] && Level(ws, cw, k)[0] == k
    ensures ws[k] >= cw ==> Level(ws, cw, k)[1..] == Level(ws, cw, k + 1)
    ensures ws[k] < cw ==> Level(ws, cw, k) == Level(ws, cw, k + 1)
  {
  }

  lemma ScanStep(ws: seq<int>, g: int, j: int, cw: int)
    requires Ready(ws, g, j, cw) && j + 1 < |ws|
    ensures Scan(ws, g, j, cw) == if ws[j + 1] >= cw then Picked(j + 1, cw) else Scan(ws, g, j + 1, cw)
  {
  }

  lemma ScanTurn(ws: seq<int>, g: int, j: int, cw: int)
    requires Ready(ws, g, j, cw) && j + 1 == |ws| && Max(ws) > 0
    ensures 0 < Lower(ws, g, cw) <= Max(ws)
    ensures (var cw' := Lower(ws, g, cw);
      Scan(ws, g, j, cw) == if ws[0] >= cw' then Picked(0, cw') else Scan(ws, g, 0, cw'))
  {
  }

  /** While the pass goes on, the scan stops at the next server of the level. */
  lemma {:induction false} ScanInLevel(ws: seq<int>, g: int, j: int, cw: int)
    requires Ready(ws, g, j, cw) && Level(ws, cw, j + 1) != []
    ensures Scan(ws, g, j, cw) == Picked(Level(ws, cw, j + 1)[0], cw)
    ensures Level(ws, cw, Level(ws, cw, j + 1)[0] + 1) == Level(ws, cw, j + 1)[1..]
    decreases |ws| - j
  {
    hide Scan, Level;
    LevelEnd(ws, cw, j + 1);
    LevelStep(ws, cw, j + 1);
    ScanStep(ws, g, j, cw);
    if ws[j + 1] < cw { ScanInLevel(ws, g, j + 1, cw); }
  }

  lemma LevelEnd(ws: seq<int>, cw: int, k: nat)
    ensures Level(ws, cw, k) != [] ==> k < |ws|
  {
  }

  lemma {:induction false} LevelNonEmpty(ws: seq<int>, cw: int, k: nat, i: int)
    requires k <= i < |ws| && ws[i] >= cw
    ensures Level(ws, cw, k) != []
    decreases |ws| - k
  {
    if k < i { LevelNonEmpty(ws, cw, k + 1, i); }
  }

  /** When the pass is over, the next one begins at the lowered weight. */
  lemma {:induction false} ScanWraps(ws: seq<int>, g: int, j: int, cw: int)
    requires Ready(ws, g, j, cw) && Level(ws, cw, j + 1) == [] && Max(ws) > 0
    ensures Level(ws, Lower(ws, g, cw), 0) != []
    ensures Scan(ws, g, j, cw) == Picked(Level(ws, Lower(ws, g, cw), 0)[0], Lower(ws, g, cw))
    ensures Level(ws, Lower(ws, g, cw), Level(ws, Lower(ws, g, cw), 0)[0] + 1) == Level(ws, Lower(ws, g, cw), 0)[1..]
    decreases |ws| - j
  {
    hide Scan, Level, MaxFrom;
    var cw' := Lower(ws, g, cw);
    if j + 1 == |ws| {
      ScanTurn(ws, g, j, cw);
      var a := Heaviest(ws);
      LevelNonEmpty(ws, cw', 0, a);
      LevelStep(ws, cw', 0);
      if ws[0] < cw' { ScanInLevel(ws, g, 0, cw'); }
    } else {
      LevelStep(ws, cw, j + 1);
      ScanStep(ws, g, j, cw);
      ScanWraps(ws, g, j + 1, cw);
    }
  }

  lemma Heaviest(ws: seq<int>) returns (a: int)
    requires Max(ws) > 0
    ensures 1 <= a < |ws| && ws[a] == Max(ws)
  {
    a :| 1 <= a < |ws| && ws[a] == Max(ws);
  }

  // ---------------------------------------------------------------- runs

  datatype Scheduler = Scheduler(iter: int, cw: int)

  datatype Run = Run(servers: seq<int>, state: Scheduler)

  lemma {:induction false} ScanReady(ws: seq<int>, g: int, j: int, cw: int)
    requires Ready(ws, g, j, cw)
    ensures (var p := Scan(ws, g, j, cw);
      if Max(ws) > 0 then 0 <= p.server < |ws| && Ready(ws, g, p.server, p.cw) && ws[p.server] >= p.cw
      else p.cw == 0 && -1 <= p.server < |ws|)
  {
    if Max(ws) > 0 {
      if Level(ws, cw, j + 1) != [] {
        ScanInLevel(ws, g, j, cw);
        LevelCarries(ws, cw, j + 1, 0);
      } else {
        ScanWraps(ws, g, j, cw);
        LevelCarries(ws, Lower(ws, g, cw), 0, 0);
      }
    } else {
      ScanIdle(ws, g, j);
    }
  }

  lemma {:induction false} ScanIdle(ws: seq<int>, g: int, j: int)
    requires Ready(ws, g, j, 0) && Max(ws) == 0
    ensures Scan(ws, g, j, 0).cw == 0 && -1 <= Scan(ws, g, j, 0).server < |ws|
    decreases |ws| - j
  {
    if j + 1 < |ws| && ws[j + 1] < 0 { ScanIdle(ws, g, j + 1); }
  }

  /** Without any weights the servers after the first are handed out in turn, and then nobody. */
  lemma NoWeights(ws: seq<int>, g: int, j: int)
    requires 0 <= j < |ws| && g >= 0 && forall i :: 0 <= i < |ws| ==> ws[i] == 0
    ensures Ending(ws, g, j, 0) && Scan(ws, g, j, 0) == Picked(if j + 1 < |ws| then j + 1 else -1, 0)
  {
    hide MaxFrom;
    assert Max(ws) == 0;
  }

  lemma {:induction false} LevelCarries(ws: seq<int>, cw: int, k: nat, i: nat)
    requires i < |Level(ws, cw, k)|
    ensures ws[Level(ws, cw, k)[i]] >= cw
    decreases |ws| - k
  {
    if ws[k] < cw { LevelCarries(ws, cw, k + 1, i); } else if i > 0 { LevelCarries(ws, cw, k + 1, i - 1); }
  }

  /** The next `m` servers handed out, and the state they leave. */
  ghost function Picks(ws: seq<int>, g: int, st: Scheduler, m: nat): (r: Run)
    requires Ready(ws, g, st.iter, st.cw) && Max(ws) > 0
    ensures |r.servers| == m && Ready(ws, g, r.state.iter, r.state.cw)
    decreases m
  {
    if m == 0 then Run([], st)
    else
      ScanReady(ws, g, st.iter, st.cw);
      var p := Scan(ws, g, st.iter, st.cw);
      var rest := Picks(ws, g, Scheduler(p.server, p.cw), m - 1);
      Run([p.server] + rest.servers, rest.state)
  }

  lemma {:induction false} PicksCat(ws: seq<int>, g: int, st: Scheduler, m: nat, n: nat)
    requires Ready(ws, g, st.iter, st.cw) && Max(ws) > 0
    ensures (var one := Picks(ws, g, st, m);
      var two := Picks(ws, g, one.state, n);
      Picks(ws, g, st, m + n) == Run(one.servers + two.servers, two.state))
    decreases m
  {
    if m > 0 {
      ScanReady(ws, g, st.iter, st.cw);
      var p := Scan(ws, g, st.iter, st.cw);
      PicksCat(ws, g, Scheduler(p.server, p.cw), m - 1, n);
    }
  }

  /** Nobody after the last server handed out carries the weight. */
  ghost predicate PassOver(ws: seq<int>, st: Scheduler) {
    0 <= st.iter < |ws| && Level(ws, st.cw, st.iter + 1) == []
  }

  /** The rest of a pass hands out the rest of its level. */
  lemma {:induction false} PassRun(ws: seq<int>, g: int, st: Scheduler)
    requires Ready(ws, g, st.iter, st.cw) && Max(ws) > 0
    ensures (var level := Level(ws, st.cw, st.iter + 1);
      var r := Picks(ws, g, st, |level|);
      r.servers == level && r.state.cw == st.cw && PassOver(ws, r.state))
    decreases |ws| - st.iter
  {
    hide Scan, Level, Max;
    var level := Level(ws, st.cw, st.iter + 1);
    if level != [] {
      var next := Scheduler(level[0], st.cw);
      ScanInLevel(ws, g, st.iter, st.cw);
      ScanReady(ws, g, st.iter, st.cw);
      PassRun(ws, g, next);
      assert [level[0]] + level[1..] == level;
    }
  }

  /** After a pass, the next hands out the whole level of the lowered weight. */
  lemma NextPass(ws: seq<int>, g: int, st: Scheduler)
    requires Ready(ws, g, st.iter, st.cw) && Max(ws) > 0 && PassOver(ws, st)
    ensures (var cw := Lower(ws, g, st.cw);
      var level := Level(ws, cw, 0);
      var r := Picks(ws, g, st, |level|);
      r.servers == level && r.state.cw == cw && PassOver(ws, r.state))
  {
    hide Scan, Lower, Level, Max;
    ScanWraps(ws, g, st.iter, st.cw);
    ScanReady(ws, g, st.iter, st.cw);
    var cw := Lower(ws, g, st.cw);
    var level := Level(ws, cw, 0);
    PassRun(ws, g, Scheduler(level[0], cw));
  }

  // ---------------------------------------------------------------- blocks

  /** The levels `top`, `top - g`, ..., down to `g`, one after the other. */
  ghost function Block(ws: seq<int>, g: int, top: int): seq<int>
    requires g >= 1
    decreases top
  {
    if top <= 0 then [] else Level(ws, top, 0) + Block(ws, g, top - g)
  }

  lemma {:induction false} BlockRun(ws: seq<int>, g: int, st: Scheduler, top: int)
    requires Ready(ws, g, st.iter, st.cw) && PassOver(ws, st) && g >= 1
    requires 0 < top <= Max(ws) && top % g == 0 && Lower(ws, g, st.cw) == top
    ensures (var r := Picks(ws, g, st, |Block(ws, g, top)|);
      r.servers == Block(ws, g, top) && r.state.cw == g && PassOver(ws, r.state))
    decreases top
  {
    hide Scan;
    NextPass(ws, g, st);
    var level := Level(ws, top, 0);
    var one := Picks(ws, g, st, |level|);
    Multiple(top, g);
    if top > g {
      BlockRun(ws, g, one.state, top - g);
      PicksCat(ws, g, st, |level|, |Block(ws, g, top - g)|);
    } else {
      assert Block(ws, g, 0) == [];
      assert Block(ws, g, top) == level;
    }
  }

  lemma Multiple(x: int, g: int)
    requires g >= 1 && x > 0 && x % g == 0
    ensures x >= g && (x - g) % g == 0
  {
    var q := x / g;
    assert x == q * g;
    assert x - g == (q - 1) * g;
    ModZero(q - 1, g);
  }

  lemma ModZero(q: int, g: int)
    requires g >= 1
    ensures (q * g) % g == 0 && (q * g) / g == q
  {
    var x := q * g;
    var d, r := x / g, x % g;
    Euclid(x, g);
    assert (q - d) * g == r;
    if q - d >= 1 { TimesLe(1, q - d, g); } else if q - d <= -1 { TimesLe(q - d, -1, g); }
  }

  lemma Euclid(x: int, g: int)
    requires g >= 1
    ensures x == (x / g) * g + x % g && 0 <= x % g < g
  {
  }

  lemma TimesLe(a: int, b: int, c: int)
    requires a <= b && c >= 0
    ensures a * c <= b * c
  {
  }
}
