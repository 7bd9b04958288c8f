/** The load-balancing scheduler: round robin and weighted round robin over a list of servers. */
module LbScheduler {
  import opened Common
  import opened LbSpec
  import opened LbFairness

  /** The smallest weight up to position `n`. */
  function MinTo(ws: seq<int>, n: nat): (m: int)
    requires 0 < n <= |ws|
    ensures (forall i :: 0 <= i < n ==> m <= ws[i]) && exists i :: 0 <= i < n && ws[i] == m
  {
    if n == 1 then ws[0] else if MinTo(ws, n - 1) > ws[n - 1] then ws[n - 1] else MinTo(ws, n - 1)
  }

  /** The first common divisor met going down from `m`. */
  ghost function DivisorBelow(ws: seq<int>, m: int): int
    decreases m
  {
    if m < 1 || Divides(m, ws) then m else DivisorBelow(ws, m - 1)
  }

  ghost function Gcd(ws: seq<int>): int
    requires |ws| > 0
  {
    DivisorBelow(ws, MinTo(ws, |ws|))
  }

  lemma {:induction false} DivisorGreatest(ws: seq<int>, m: int)
    requires m >= 1
    ensures Divides(DivisorBelow(ws, m), ws) && DivisorBelow(ws, m) <= m
    ensures forall d :: Divides(d, ws) && d <= m ==> d <= DivisorBelow(ws, m)
    decreases m
  {
    if m == 1 { assert Divides(1, ws); } else if !Divides(m, ws) { DivisorGreatest(ws, m - 1); }
  }

  /** For positive weights this is their greatest common divisor. */
  lemma GcdIsGcd(ws: seq<int>)
    requires |ws| > 0 && forall i :: 0 <= i < |ws| ==> ws[i] > 0
    ensures IsGcd(Gcd(ws), ws)
  {
    var m := MinTo(ws, |ws|);
    var i :| 0 <= i < |ws| && ws[i] == m;
    DivisorGreatest(ws, m);
    forall d | Divides(d, ws) ensures d <= m { Multiple(ws[i], d); }
  }

  /** `i` comes after `from` and before `to` going round. */
  predicate Passed(from: int, i: int, to: int) {
    if from < to then from < i < to else from < i || i < to
  }

  class QLBScheduler {
    var weights: seq<int>
    var serverIter: int
    var currentWeight: int

    ghost predicate Valid()
      reads this
    {
      && 0 <= serverIter < |weights| && currentWeight >= 0
      && (Gcd(weights) >= 0 ==> currentWeight <= Max(weights))
    }

    constructor (weights: seq<int>)
      requires |weights| > 0
      ensures Valid() && this.weights == weights && serverIter == 0 && currentWeight == 0
    {
      this.weights, serverIter, currentWeight := weights, 0, 0;
    }

    /** The first server after the current one with any weight, going round; -1 exactly when there is none. */
    method GetServerRR() returns (r: int)
      requires |weights| > 0 && 0 <= serverIter < |weights|
      modifies this`serverIter
      ensures r == -1 <==> forall i :: 0 <= i < |weights| ==> weights[i] <= 0
      ensures r == -1 ==> serverIter == old(serverIter)
      ensures r != -1 ==> 0 <= r < |weights| && weights[r] > 0 && serverIter == r
      ensures r != -1 ==> forall i :: 0 <= i < |weights| && Passed(old(serverIter), i, r) ==> weights[i] <= 0
    {
      hide Round;
      var n := |weights|;
      var j := Round(serverIter, n);
      while weights[j] <= 0 && j != serverIter
        invariant 0 <= j < n
        invariant forall i :: 0 <= i < n && Passed(serverIter, i, j) ==> weights[i] <= 0
        decreases if j > serverIter then n - j + serverIter else serverIter - j
      {
        j := Round(j, n);
      }
      if weights[j] > 0 {
        serverIter := j;
        assert weights[j] > 0;
        return j;
      }
      r := -1;
    }

    method MaxWeight() returns (weight: int)
      ensures weight == Max(weights)
    {
      weight := 0;
      var i := 1;
      while i < |weights|
        invariant 1 <= i && weight >= 0
        invariant MaxFrom(weights, 1) == if weight > MaxFrom(weights, i) then weight else MaxFrom(weights, i)
      {
        if weight < weights[i] { weight := weights[i]; }
        i := i + 1;
      }
    }

    method MinWeight() returns (weight: int)
      requires |weights| > 0
      ensures weight == MinTo(weights, |weights|)
    {
      weight := weights[0];
      var i := 1;
      while i < |weights|
        invariant 1 <= i <= |weights| && weight == MinTo(weights, i)
      {
        if weight > weights[i] { weight := weights[i]; }
        i := i + 1;
      }
    }

    method FindGcd() returns (min: int)
      requires |weights| > 0
      ensures min == Gcd(weights)
    {
      min := MinWeight();
      while min >= 1
        invariant DivisorBelow(weights, min) == Gcd(weights)
        decreases min
      {
        var flag := true;
        var i := 0;
        while i < |weights|
          invariant 0 <= i <= |weights|
          invariant flag <==> forall k :: 0 <= k < i ==> weights[k] % min == 0
        {
          if weights[i] % min != 0 {
            flag := false;
            break;
          }
          i := i + 1;
        }
        if flag { return; }
        min := min - 1;
      }
    }

    /** One pick of the weighted round robin, whenever the scan for it ends at all. */
    method GetServerWRR() returns (r: int)
      requires Valid() && Ending(weights, Gcd(weights), serverIter, currentWeight)
      modifies this`serverIter, this`currentWeight
      ensures Valid()
      ensures Picked(r, currentWeight) == old(Scan(weights, Gcd(weights), serverIter, currentWeight))
      ensures serverIter == if r == -1 then old(serverIter) else r
    {
      hide Scan, Max, Gcd, Round;
      var n := |weights|;
      var j := serverIter;
      ghost var g := Gcd(weights);
      while true
        invariant Ending(weights, g, j, currentWeight)
        invariant Scan(weights, g, j, currentWeight) == old(Scan(weights, g, serverIter, currentWeight))
        invariant serverIter == old(serverIter)
        decreases if Hit(weights, j, currentWeight) then 0 else 1, n - j
      {
        ScanOnce(weights, g, j, currentWeight);
        j := Round(j, n);
        if j == 0 {
          var d := FindGcd();
          currentWeight := currentWeight - d;
          if currentWeight <= 0 {
            currentWeight := MaxWeight();
            if currentWeight == 0 { return -1; }
          }
        }
        if weights[j] >= currentWeight {
          serverIter := j;
          return j;
        }
      }
    }
  }

  /** Successive calls hand out the run of picks that the fairness results speak of. */
  method PickMany(scheduler: QLBScheduler, m: nat) returns (servers: seq<int>)
    requires scheduler.Valid() && Gcd(scheduler.weights) >= 0 && Max(scheduler.weights) > 0
    modifies scheduler`serverIter, scheduler`currentWeight
    ensures scheduler.Valid()
    ensures (Run(servers, Scheduler(scheduler.serverIter, scheduler.currentWeight)) ==
      old(Picks(scheduler.weights, Gcd(scheduler.weights),
                Scheduler(scheduler.serverIter, scheduler.currentWeight), m)))
  {
    hide Scan, Gcd, Max;
    ghost var ws, g := scheduler.weights, Gcd(scheduler.weights);
    ghost var start := Scheduler(scheduler.serverIter, scheduler.currentWeight);
    servers := [];
    while |servers| < m
      invariant |servers| <= m && scheduler.Valid()
      invariant Run(servers, Scheduler(scheduler.serverIter, scheduler.currentWeight)) == Picks(ws, g, start, |servers|)
    {
      ghost var st := Scheduler(scheduler.serverIter, scheduler.currentWeight);
      PicksCat(ws, g, start, |servers|, 1);
      ScanReady(ws, g, st.iter, st.cw);
      var r := scheduler.GetServerWRR();
      PickOne(ws, g, st);
      servers := servers + [r];
    }
  }

  lemma PickOne(ws: seq<int>, g: int, st: Scheduler)
    requires Ready(ws, g, st.iter, st.cw) && Max(ws) > 0
    ensures (var p := Scan(ws, g, st.iter, st.cw); Picks(ws, g, st, 1) == Run([p.server], Scheduler(p.server, p.cw)))
  {
    ScanReady(ws, g, st.iter, st.cw);
  }

  // ---------------------------------------------------------------- calls that end

  /** The scan cut off after `steps` servers. */
  ghost function ScanFor(ws: seq<int>, g: int, j: int, cw: int, steps: nat): Option<Picked>
    requires 0 <= j < |ws|
    decreases steps
  {
    if steps == 0 then None
    else
      var k := if j + 1 == |ws| then 0 else j + 1;
      var cw' := if k == 0 then Lower(ws, g, cw) else cw;
      if k == 0 && cw' == 0 then Some(Picked(-1, 0))
      else if ws[k] >= cw' then Some(Picked(k, cw'))
      else ScanFor(ws, g, k, cw', steps - 1)
  }

  /** A scan that can end does, with the pick of `Scan`. */
  lemma {:induction false} ScanEnds(ws: seq<int>, g: int, j: int, cw: int) returns (steps: nat)
    requires Ending(ws, g, j, cw)
    ensures ScanFor(ws, g, j, cw, steps) == Some(Scan(ws, g, j, cw))
    decreases if Hit(ws, j, cw) then 0 else 1, |ws| - j
  {
    hide Scan;
    ScanOnce(ws, g, j, cw);
    var k := if j + 1 == |ws| then 0 else j + 1;
    var cw' := if k == 0 then Lower(ws, g, cw) else cw;
    steps := 0;
    if !(k == 0 && cw' == 0) && ws[k] < cw' { steps := ScanEnds(ws, g, k, cw'); }
    steps := steps + 1;
  }

  /** With a negative step, a scan that nobody stops on this pass or the next goes on for ever. */
  lemma {:induction false} ScanGoesOn(ws: seq<int>, g: int, j: int, cw: int, steps: nat)
    requires g < 0 && 0 <= j < |ws| && cw >= 0 && !Ending(ws, g, j, cw)
    ensures ScanFor(ws, g, j, cw, steps) == None
    decreases steps
  {
    if steps > 0 {
      var k := if j + 1 == |ws| then 0 else j + 1;
      var cw' := if k == 0 then Lower(ws, g, cw) else cw;
      assert !Hit(ws, j, cw);
      assert ws[k] < cw';
      assert !Ending(ws, g, k, cw') by { if k == 0 { assert forall i :: 0 <= i < |ws| ==> ws[i] < cw - g; } }
      ScanGoesOn(ws, g, k, cw', steps - 1);
    }
  }

  /** The weight when the scan was cut off. */
  ghost function WeightAfter(ws: seq<int>, g: int, j: int, cw: int, steps: nat): int
    requires 0 <= j < |ws|
    decreases steps
  {
    if steps == 0 then cw
    else
      var k := if j + 1 == |ws| then 0 else j + 1;
      WeightAfter(ws, g, k, if k == 0 then Lower(ws, g, cw) else cw, steps - 1)
  }

  /** Such a scan raises the weight beyond every bound. */
  lemma {:induction false} ScanClimbs(ws: seq<int>, g: int, j: int, cw: int, bound: int) returns (steps: nat)
    requires g < 0 && 0 <= j < |ws| && cw >= 0
    ensures WeightAfter(ws, g, j, cw, steps) > bound
    decreases if cw > bound then 0 else bound - cw + 1, |ws| - j
  {
    steps := 0;
    if cw <= bound {
      var k := if j + 1 == |ws| then 0 else j + 1;
      steps := ScanClimbs(ws, g, k, if k == 0 then Lower(ws, g, cw) else cw, bound);
      steps := steps + 1;
    }
  }

  const INT_MAX := 0x7fff_ffff

  ghost predicate LeavesRange(ws: seq<int>, g: int, j: int, cw: int)
    requires 0 <= j < |ws|
  {
    exists steps: nat :: ScanFor(ws, g, j, cw, steps) == None && WeightAfter(ws, g, j, cw, steps) > INT_MAX
  }

  ghost predicate Ends(ws: seq<int>, g: int, j: int, cw: int)
    requires 0 <= j < |ws|
  {
    exists steps: nat :: ScanFor(ws, g, j, cw, steps).Some?
  }

  /** A call ends if and only if no weight is negative, or some server after the current one carries the current
      weight, or some server carries it once it is raised by the smallest weight. Any other call raises the weight
      until it leaves the range of a 32-bit integer. */
  lemma EndsExactly(ws: seq<int>, j: int, cw: int)
    requires 0 <= j < |ws| && cw >= 0 && (Gcd(ws) >= 0 ==> cw <= Max(ws))
    ensures Ends(ws, Gcd(ws), j, cw) <==> Ending(ws, Gcd(ws), j, cw)
    ensures (forall i :: 0 <= i < |ws| ==> ws[i] >= 0) ==> Ending(ws, Gcd(ws), j, cw)
    ensures MinTo(ws, |ws|) < 0 ==> Gcd(ws) == MinTo(ws, |ws|)
    ensures !Ending(ws, Gcd(ws), j, cw) ==> LeavesRange(ws, Gcd(ws), j, cw)
  {
    hide ScanFor, Ending, Max;
    var g := Gcd(ws);
    if Ending(ws, g, j, cw) {
      var steps := ScanEnds(ws, g, j, cw);
    } else {
      Reaches(ws, j, cw);
      forall steps: nat ensures ScanFor(ws, g, j, cw, steps) == None { ScanGoesOn(ws, g, j, cw, steps); }
      var high := ScanClimbs(ws, g, j, cw, INT_MAX);
    }
    if forall i :: 0 <= i < |ws| ==> ws[i] >= 0 { GcdNonNegative(ws); Reaches(ws, j, cw); }
  }

  /** A single server is never handed out, and the state stays as it is; with a negative weight the first call does not
      end. */
  lemma SingleServer(w: int)
    ensures w >= 0 ==> Ending([w], Gcd([w]), 0, 0) && Scan([w], Gcd([w]), 0, 0) == Picked(-1, 0)
    ensures w < 0 ==> !Ends([w], Gcd([w]), 0, 0) && LeavesRange([w], Gcd([w]), 0, 0)
  {
    EndsExactly([w], 0, 0);
    if w < 0 { assert !Hit([w], 0, 0) && MinTo([w], 1) == w; } else { assert MaxFrom([w], 1) == 0; }
  }

  /** Two servers of negative weights: the first call does not end either. */
  lemma NegativeWeights()
    ensures !Ends([-2, -1], Gcd([-2, -1]), 0, 0) && LeavesRange([-2, -1], Gcd([-2, -1]), 0, 0)
  {
    var ws := [-2, -1];
    EndsExactly(ws, 0, 0);
    assert MinTo(ws, 1) == -2 && MinTo(ws, 2) == -2;
    assert ws[0] == -2 && ws[1] == -1 && !Hit(ws, 0, 0);
  }

  /** Weight 0 marks a dead server. With one among them, every server after the first is handed out once, dead ones
      included, and from then on the heaviest only. */
  lemma DeadServer(ws: seq<int>, d: int, n: nat)
    requires 0 <= d < |ws| && ws[d] == 0 && (forall i :: 0 <= i < |ws| ==> ws[i] >= 0) && Max(ws) > 0
    ensures Gcd(ws) == 0 && Ready(ws, 0, 0, 0)
    ensures (var later := Repeated(Level(ws, Max(ws), 0), n);
      Picks(ws, 0, Scheduler(0, 0), |ws| - 1 + |later|).servers == seq(|ws| - 1, i => i + 1) + later)
  {
    hide Picks, Level, Max;
    var later := Repeated(Level(ws, Max(ws), 0), n);
    LevelAll(ws, 1);
    PassRun(ws, 0, Scheduler(0, 0));
    var one := Picks(ws, 0, Scheduler(0, 0), |ws| - 1);
    HeaviestOnly(ws, one.state, n);
    PicksCat(ws, 0, Scheduler(0, 0), |ws| - 1, |later|);
  }

  lemma Reaches(ws: seq<int>, j: int, cw: int)
    requires 0 <= j < |ws| && cw >= 0 && (Gcd(ws) >= 0 ==> cw <= Max(ws))
    ensures Gcd(ws) >= 0 ==> Ending(ws, Gcd(ws), j, cw)
  {
  }

  lemma GcdNonNegative(ws: seq<int>)
    requires |ws| > 0 && forall i :: 0 <= i < |ws| ==> ws[i] >= 0
    ensures Gcd(ws) >= 0
  {
    var m := MinTo(ws, |ws|);
    if m >= 1 { DivisorGreatest(ws, m); }
  }

  /** One unfolding of the scan, with its termination. */
  lemma ScanOnce(ws: seq<int>, g: int, j: int, cw: int)
    requires Ending(ws, g, j, cw)
    ensures (var k := if j + 1 == |ws| then 0 else j + 1;
      var cw' := if k == 0 then Lower(ws, g, cw) else cw;
      0 <= cw' && (g >= 0 ==> cw' <= Max(ws)) &&
      (k == 0 && cw' == 0 ==> Scan(ws, g, j, cw) == Picked(-1, 0)) &&
      (!(k == 0 && cw' == 0) && ws[k] >= cw' ==> Scan(ws, g, j, cw) == Picked(k, cw')) &&
      (!(k == 0 && cw' == 0) && ws[k] < cw' ==>
        Ending(ws, g, k, cw') && Scan(ws, g, j, cw) == Scan(ws, g, k, cw') &&
        (if k == 0 then !Hit(ws, j, cw) && Hit(ws, k, cw') else Hit(ws, j, cw) ==> Hit(ws, k, cw'))))
  {
    var k := if j + 1 == |ws| then 0 else j + 1;
    var cw' := if k == 0 then Lower(ws, g, cw) else cw;
    if k == 0 && cw' > 0 && ws[0] < cw' {
      if g >= 0 {
        var a := Heaviest(ws);
        assert Hit(ws, 0, cw');
      } else {
        var a :| 0 <= a < |ws| && ws[a] >= cw - g;
        assert Hit(ws, 0, cw');
      }
    }
    assert k != 0 && ws[k] < cw ==> (Hit(ws, j, cw) ==> Hit(ws, k, cw));
  }

  function Round(j: int, n: int): (k: int)
    requires 0 <= j < n
    ensures k == if j + 1 == n then 0 else j + 1
  {
    (j + 1) % n
  }

  /** Two servers of weights 2 and 1: the first gets no more turns than the second. */
  lemma HeavyFirst()
    ensures Weighed([2, 1], 1) && Ready([2, 1], 1, 1, 1) && Max([2, 1]) == 1 && !Fair([2, 1], 1, Scheduler(1, 1), 3)
  {
    var ws := [2, 1];
    assert ws[0] == 2 && ws[1] == 1;
    assert Sum(ws, 2) == 0 && Sum(ws, 1) == 1 && Sum(ws, 0) == 3;
    assert MaxFrom(ws, 2) == 0 && MaxFrom(ws, 1) == 1;
    FairExactly(ws, 1, Scheduler(1, 1), 3);
  }
}
