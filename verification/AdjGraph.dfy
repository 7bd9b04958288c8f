/** Adjacency-list graph and its single-source shortest path search (include/common/qadjgraph.h).
    Edge lists are sequences, head first; costs are exact non-negative reals. */
module Graphs {
  import opened Common

  /** DOUBLE_COST_MAX: the search treats any total cost of at least this much as "no path". */
  const COST_MAX: real := 99999999.99

  datatype Edge<+T> = Edge(dest: nat, data: T, cost: real)

  /** Cost of the first edge to `v` in an edge list. */
  function EdgeCost<T>(es: seq<Edge<T>>, v: nat): Option<real> {
    if es == [] then None
    else if es[0].dest == v then Some(es[0].cost)
    else EdgeCost(es[1..], v)
  }

  type Adjacency<T> = seq<seq<Edge<T>>>

  function Weight<T>(g: Adjacency<T>, u: nat, v: nat): Option<real> {
    if u < |g| then EdgeCost(g[u], v) else None
  }

  function CostOr(c: Option<real>, default: real): real {
    if c.Some? then c.value else default
  }

  ghost predicate DistinctDests<T>(es: seq<Edge<T>>) {
    forall i, j :: 0 <= i < j < |es| ==> es[i].dest != es[j].dest
  }

  ghost predicate WellFormed<T>(g: Adjacency<T>) {
    forall u :: 0 <= u < |g| ==>
      DistinctDests(g[u]) && forall k :: 0 <= k < |g[u]| ==> g[u][k].dest < |g|
  }

  ghost predicate NonNegative<T>(g: Adjacency<T>) {
    forall u: nat, v: nat :: Weight(g, u, v).Some? ==> 0.0 <= Weight(g, u, v).value
  }

  lemma {:induction false} EdgeCostAt<T>(es: seq<Edge<T>>, k: nat)
    requires DistinctDests(es) && k < |es|
    ensures EdgeCost(es, es[k].dest) == Some(es[k].cost)
  {
    if k > 0 {
      assert es[1..][k - 1] == es[k] && es[0].dest != es[k].dest;
      EdgeCostAt(es[1..], k - 1);
    }
  }

  lemma {:induction false} EdgeCostWitness<T>(es: seq<Edge<T>>, v: nat) returns (k: nat)
    requires EdgeCost(es, v).Some?
    ensures k < |es| && es[k].dest == v && EdgeCost(es, v) == Some(es[k].cost)
  {
    if es[0].dest == v {
      k := 0;
    } else {
      k := EdgeCostWitness(es[1..], v);
      k := k + 1;
    }
  }

  /** A non-empty vertex list whose consecutive vertices are joined by edges. */
  ghost predicate IsPath<T>(g: Adjacency<T>, p: seq<nat>) {
    p != [] && forall i :: 0 <= i < |p| - 1 ==> Weight(g, p[i], p[i + 1]).Some?
  }

  ghost function Cost<T>(g: Adjacency<T>, p: seq<nat>): real
    requires IsPath(g, p)
  {
    if |p| == 1 then 0.0
    else Cost(g, p[..|p| - 1]) + Weight(g, p[|p| - 2], p[|p| - 1]).value
  }

  ghost predicate PathBetween<T>(g: Adjacency<T>, p: seq<nat>, s: nat, t: nat) {
    IsPath(g, p) && p[0] == s && p[|p| - 1] == t
  }

  /** `p` is a path from `s` to `t` and no path from `s` to `t` costs less. */
  ghost predicate Shortest<T>(g: Adjacency<T>, p: seq<nat>, s: nat, t: nat) {
    PathBetween(g, p, s, t) &&
    forall q :: PathBetween(g, q, s, t) ==> Cost(g, p) <= Cost(g, q)
  }

  /** Some path from `s` to `t` is cheap enough for the search to see it. */
  ghost predicate Reachable<T>(g: Adjacency<T>, s: nat, t: nat) {
    exists q :: PathBetween(g, q, s, t) && Cost(g, q) < 99999999.99
  }

  // ---- The search state: which vertices are done, tentative distances, predecessors

  datatype Search = Search(done: seq<bool>, dist: seq<real>, prev: seq<nat>)

  ghost function Unfinished(done: seq<bool>): set<nat> {
    set v: nat | v < |done| && !done[v]
  }

  ghost predicate Shaped<T>(g: Adjacency<T>, x: Search, s: nat) {
    s < |g| && |x.done| == |x.dist| == |x.prev| == |g| && x.done[s]
  }

  /** Distance of a finished vertex; the source's own slot may hold the cost of a self edge. */
  ghost function Dist<T>(g: Adjacency<T>, x: Search, s: nat, v: nat): real
    requires Shaped(g, x, s) && v < |g|
  {
    if v == s then 0.0 else x.dist[v]
  }

  /** `v`'s recorded distance is realised by an edge from its recorded, finished predecessor. */
  ghost predicate Backed<T>(g: Adjacency<T>, x: Search, s: nat, v: nat)
    requires Shaped(g, x, s) && v < |g|
  {
    var u := x.prev[v];
    u < |g| && x.done[u] && Weight(g, u, v).Some? &&
    x.dist[v] == Dist(g, x, s, u) + Weight(g, u, v).value
  }

  /** Tentative distances never exceed what one more edge out of a finished vertex offers. */
  ghost predicate Relaxed<T>(g: Adjacency<T>, x: Search, s: nat, u: nat)
    requires Shaped(g, x, s) && u < |g|
  {
    forall v :: 0 <= v < |g| && !x.done[v] && Weight(g, u, v).Some? ==>
      x.dist[v] <= Dist(g, x, s, u) + Weight(g, u, v).value
  }

  /** Finished vertices know a true lower bound. */
  ghost predicate Optimal<T>(g: Adjacency<T>, x: Search, s: nat, v: nat)
    requires Shaped(g, x, s) && v < |g|
  {
    forall q :: PathBetween(g, q, s, v) ==> Dist(g, x, s, v) <= Cost(g, q)
  }

  ghost predicate Inv<T>(g: Adjacency<T>, x: Search, s: nat) {
    Shaped(g, x, s) &&
    (forall v {:trigger Backed(g, x, s, v)} ::
      0 <= v < |g| && v != s && (x.done[v] || x.dist[v] < COST_MAX) ==> Backed(g, x, s, v)) &&
    (forall v {:trigger Optimal(g, x, s, v)} ::
      0 <= v < |g| && x.done[v] ==> Optimal(g, x, s, v) && Dist(g, x, s, v) < COST_MAX)
  }

  ghost predicate AllRelaxed<T>(g: Adjacency<T>, x: Search, s: nat)
    requires Shaped(g, x, s)
  {
    forall u :: 0 <= u < |g| && x.done[u] ==> Relaxed(g, x, s, u)
  }

  lemma CostNonNegative<T>(g: Adjacency<T>, p: seq<nat>)
    requires NonNegative(g) && IsPath(g, p)
    ensures 0.0 <= Cost(g, p)
    decreases |p|
  {
    if |p| > 1 { CostNonNegative(g, p[..|p| - 1]); }
  }

  /** A path that ends outside the finished set must leave it over an edge that was relaxed. */
  lemma {:induction false} FrontierBound<T>(g: Adjacency<T>, x: Search, s: nat, p: seq<nat>, bound: real)
    requires Inv(g, x, s) && AllRelaxed(g, x, s) && NonNegative(g) && WellFormed(g)
    requires forall v :: 0 <= v < |g| && !x.done[v] ==> bound <= x.dist[v]
    requires IsPath(g, p) && p[0] == s && p[|p| - 1] < |g| && !x.done[p[|p| - 1]]
    ensures bound <= Cost(g, p)
    decreases |p|
  {
    var n := |p|;
    assert n > 1;
    var q := p[..n - 1];
    var u, v := p[n - 2], p[n - 1];
    assert Weight(g, u, v).Some?;
    assert IsPath(g, q);
    if x.done[u] {
      assert Relaxed(g, x, s, u);
      assert PathBetween(g, q, s, u);
      assert Optimal(g, x, s, u);
    } else {
      FrontierBound(g, x, s, q, bound);
    }
  }

  /** `rank` grows along every predecessor link, so following links ends at the source. */
  ghost predicate Ranked(prev: seq<nat>, s: nat, rank: seq<nat>) {
    s < |prev| == |rank| &&
    forall v {:trigger prev[v]} ::
      0 <= v < |prev| && v != s ==> prev[v] < |prev| && rank[prev[v]] < rank[v]
  }

  /** A predecessor is finished; finished vertices are numbered up to `count`, each above its predecessor. */
  ghost predicate RankedAt(x: Search, s: nat, rank: seq<nat>, count: nat, v: nat)
    requires |rank| == |x.done| == |x.prev| && v < |rank|
  {
    x.prev[v] < |x.done| && x.done[x.prev[v]] &&
    (x.done[v] ==> rank[v] <= count && (v != s ==> rank[x.prev[v]] < rank[v]))
  }

  ghost predicate RankedSoFar(x: Search, s: nat, rank: seq<nat>, count: nat) {
    |rank| == |x.done| == |x.prev| &&
    forall v {:trigger RankedAt(x, s, rank, count, v)} :: 0 <= v < |rank| ==> RankedAt(x, s, rank, count, v)
  }

  lemma FinishKeepsRanked<T>(g: Adjacency<T>, x: Search, s: nat, u: nat, y: Search, rank: seq<nat>, count: nat)
    requires Shaped(g, x, s) && Shaped(g, y, s) && u < |g| && !x.done[u] && RelaxedFrom(g, x, u, y)
    requires RankedSoFar(x, s, rank, count)
    ensures RankedSoFar(y, s, rank[u := count + 1], count + 1)
  {
    var rank', count' := rank[u := count + 1], count + 1;
    forall v | 0 <= v < |rank| ensures RankedAt(y, s, rank', count', v) {
      assert RankedAt(x, s, rank, count, v);
      assert RankedAt(x, s, rank, count, x.prev[v]);
    }
  }

  /** Ranking every unfinished vertex above the finished ones orders all predecessor links. */
  lemma RankAll(x: Search, s: nat, rank: seq<nat>, count: nat) returns (r: seq<nat>)
    requires RankedSoFar(x, s, rank, count) && s < |rank|
    ensures Ranked(x.prev, s, r)
  {
    r := seq(|rank|, v requires 0 <= v < |rank| => if x.done[v] then rank[v] else count + 1);
    forall v | 0 <= v < |rank| && v != s ensures x.prev[v] < |rank| && r[x.prev[v]] < r[v] {
      assert RankedAt(x, s, rank, count, v);
      assert RankedAt(x, s, rank, count, x.prev[v]);
    }
  }

  /** The vertices on the predecessor links from `s` to `v`. */
  ghost function Walk(prev: seq<nat>, s: nat, rank: seq<nat>, v: nat): seq<nat>
    requires Ranked(prev, s, rank) && v < |prev|
    decreases rank[v]
  {
    if v == s then [s] else Walk(prev, s, rank, prev[v]) + [v]
  }

  lemma AppendPath<T>(g: Adjacency<T>, p: seq<nat>, v: nat)
    requires IsPath(g, p) && Weight(g, p[|p| - 1], v).Some?
    ensures IsPath(g, p + [v])
    ensures Cost(g, p + [v]) == Cost(g, p) + Weight(g, p[|p| - 1], v).value
  {
    assert (p + [v])[..|p|] == p;
  }

  /** The walk back from a finished vertex is a path of exactly the recorded cost. */
  lemma {:induction false} WalkIsPath<T>(g: Adjacency<T>, x: Search, s: nat, rank: seq<nat>, v: nat)
    requires Inv(g, x, s) && Ranked(x.prev, s, rank) && v < |g| && x.done[v]
    ensures PathBetween(g, Walk(x.prev, s, rank, v), s, v)
    ensures Cost(g, Walk(x.prev, s, rank, v)) == Dist(g, x, s, v)
    decreases rank[v]
  {
    if v != s {
      assert Backed(g, x, s, v);
      WalkIsPath(g, x, s, rank, x.prev[v]);
      AppendPath(g, Walk(x.prev, s, rank, x.prev[v]), v);
    }
  }

  /** Every single edge costs less than the sentinel. */
  ghost predicate SmallCosts<T>(g: Adjacency<T>) {
    forall u: nat, v: nat :: Weight(g, u, v).Some? ==> Weight(g, u, v).value < 99999999.99
  }

  /** Vertices still at the sentinel keep the source as their nominal predecessor. */
  ghost predicate Untouched<T>(g: Adjacency<T>, x: Search, s: nat)
    requires Shaped(g, x, s)
  {
    forall v :: 0 <= v < |g| ==> x.dist[v] <= COST_MAX && (x.dist[v] == COST_MAX ==> x.prev[v] == s)
  }

  /** The state after finishing `u` and offering each of its edges to the unfinished vertices. */
  ghost predicate RelaxedFrom<T>(g: Adjacency<T>, x: Search, u: nat, y: Search)
    requires |x.done| == |x.dist| == |x.prev| == |g| && u < |g|
  {
    |y.dist| == |y.prev| == |g| && y.done == x.done[u := true] &&
    forall v :: 0 <= v < |g| ==>
      var w := Weight(g, u, v);
      if !y.done[v] && w.Some? && x.dist[v] > w.value + x.dist[u]
      then y.dist[v] == w.value + x.dist[u] && y.prev[v] == u
      else y.dist[v] == x.dist[v] && y.prev[v] == x.prev[v]
  }

  lemma FinishOptimal<T>(g: Adjacency<T>, x: Search, s: nat, u: nat)
    requires Inv(g, x, s) && AllRelaxed(g, x, s) && NonNegative(g) && WellFormed(g)
    requires u < |g| && !x.done[u]
    requires forall v :: 0 <= v < |g| && !x.done[v] ==> x.dist[u] <= x.dist[v]
    ensures forall q :: PathBetween(g, q, s, u) ==> x.dist[u] <= Cost(g, q)
  {
    forall q | PathBetween(g, q, s, u) ensures x.dist[u] <= Cost(g, q) {
      FrontierBound(g, x, s, q, x.dist[u]);
    }
  }

  lemma FinishKeepsBacked<T>(g: Adjacency<T>, x: Search, s: nat, u: nat, y: Search, v: nat)
    requires Shaped(g, x, s) && Shaped(g, y, s) && u < |g| && !x.done[u] && RelaxedFrom(g, x, u, y)
    requires v < |g| && v != s
    requires y.dist[v] == x.dist[v] && y.prev[v] == x.prev[v] ==> Backed(g, x, s, v)
    ensures Backed(g, y, s, v)
  {
  }

  lemma FinishKeepsOptimal<T>(g: Adjacency<T>, x: Search, s: nat, u: nat, y: Search, v: nat)
    requires Shaped(g, x, s) && Shaped(g, y, s) && u < |g| && !x.done[u] && RelaxedFrom(g, x, u, y)
    requires v < |g| && y.done[v] && Optimal(g, x, s, v)
    ensures Optimal(g, y, s, v)
  {
    assert Dist(g, y, s, v) == Dist(g, x, s, v);
  }

  lemma FinishKeepsRelaxed<T>(g: Adjacency<T>, x: Search, s: nat, u: nat, y: Search, w: nat)
    requires Shaped(g, x, s) && Shaped(g, y, s) && u < |g| && !x.done[u] && RelaxedFrom(g, x, u, y)
    requires w < |g| && y.done[w] && (w != u ==> Relaxed(g, x, s, w))
    ensures Relaxed(g, y, s, w)
  {
    assert Dist(g, y, s, w) == Dist(g, x, s, w);
  }

  /** Finishing a nearest unfinished vertex keeps the search invariant. */
  lemma FinishKeepsInv<T>(g: Adjacency<T>, x: Search, s: nat, u: nat, y: Search)
    requires Inv(g, x, s) && AllRelaxed(g, x, s) && NonNegative(g) && WellFormed(g)
    requires u < |g| && !x.done[u] && x.dist[u] < COST_MAX && RelaxedFrom(g, x, u, y)
    requires forall v :: 0 <= v < |g| && !x.done[v] ==> x.dist[u] <= x.dist[v]
    ensures Inv(g, y, s) && AllRelaxed(g, y, s)
  {
    assert Optimal(g, x, s, u) by { FinishOptimal(g, x, s, u); }
    assert Shaped(g, y, s);
    forall v | 0 <= v < |g| && v != s && (y.done[v] || y.dist[v] < COST_MAX)
      ensures Backed(g, y, s, v)
    {
      FinishKeepsBacked(g, x, s, u, y, v);
    }
    forall v | 0 <= v < |g| && y.done[v]
      ensures Optimal(g, y, s, v) && Dist(g, y, s, v) < COST_MAX
    {
      assert Optimal(g, x, s, v) && Dist(g, x, s, v) < COST_MAX;
      FinishKeepsOptimal(g, x, s, u, y, v);
    }
    forall w | 0 <= w < |g| && y.done[w] ensures Relaxed(g, y, s, w) {
      FinishKeepsRelaxed(g, x, s, u, y, w);
    }
  }

  lemma FinishKeepsUntouched<T>(g: Adjacency<T>, x: Search, s: nat, u: nat, y: Search)
    requires Shaped(g, x, s) && Shaped(g, y, s) && u < |g| && RelaxedFrom(g, x, u, y) && Untouched(g, x, s)
    ensures Untouched(g, y, s)
  {
  }

  /** The state set up from the source's own edges satisfies the invariant. */
  lemma InitialInv<T>(g: Adjacency<T>, x: Search, s: nat)
    requires WellFormed(g) && NonNegative(g) && s < |g|
    requires x.done == seq(|g|, _ => false)[s := true] && x.prev == seq(|g|, _ => s) && |x.dist| == |g|
    requires forall v :: 0 <= v < |g| ==>
               x.dist[v] == CostOr(Weight(g, s, v), if v == s then 0.0 else COST_MAX)
    ensures Inv(g, x, s) && AllRelaxed(g, x, s)
    ensures SmallCosts(g) ==> Untouched(g, x, s)
  {
    forall q | PathBetween(g, q, s, s) ensures 0.0 <= Cost(g, q) { CostNonNegative(g, q); }
    assert Optimal(g, x, s, s);
  }

  lemma DirectEdge<T>(g: Adjacency<T>, s: nat, t: nat)
    ensures SmallCosts(g) && IsPath(g, [s, t]) ==> Reachable(g, s, t)
  {
    if SmallCosts(g) && IsPath(g, [s, t]) {
      assert [s, t][..1] == [s];
      assert Weight(g, [s, t][0], [s, t][0 + 1]).Some?;
      assert PathBetween(g, [s, t], s, t) && Cost(g, [s, t]) == Weight(g, s, t).value;
    }
  }

  /** When no unfinished vertex is within reach, finished means reachable, and the walk back is the answer. */
  lemma SearchDone<T>(g: Adjacency<T>, x: Search, s: nat, rank: seq<nat>, t: nat)
    requires WellFormed(g) && NonNegative(g) && Inv(g, x, s) && AllRelaxed(g, x, s)
    requires Ranked(x.prev, s, rank) && t < |g|
    requires forall v :: 0 <= v < |g| && !x.done[v] ==> COST_MAX <= x.dist[v]
    ensures x.done[t] <==> Reachable(g, s, t)
    ensures Reachable(g, s, t) ==> Shortest(g, Walk(x.prev, s, rank, t), s, t)
    ensures SmallCosts(g) && Untouched(g, x, s) && !Reachable(g, s, t) ==>
              Walk(x.prev, s, rank, t) == [s, t] && !IsPath(g, [s, t])
  {
    if x.done[t] {
      WalkIsPath(g, x, s, rank, t);
      assert Optimal(g, x, s, t);
    } else {
      forall q | PathBetween(g, q, s, t) ensures COST_MAX <= Cost(g, q) {
        FrontierBound(g, x, s, q, COST_MAX);
      }
      if SmallCosts(g) && Untouched(g, x, s) {
        assert x.prev[t] == s;
        assert Walk(x.prev, s, rank, t) == [s] + [t];
        DirectEdge(g, s, t);
      }
    }
  }

  class AdjGraph<T> {
    var nodeTable: Adjacency<T>
    var numEdges: nat

    ghost predicate Valid()
      reads this
    {
      WellFormed(nodeTable)
    }

    constructor (vertexNum: nat)
      ensures Valid() && |nodeTable| == vertexNum && numEdges == 0
      ensures forall u: nat, v: nat :: Weight(nodeTable, u, v) == None
    {
      nodeTable := seq(vertexNum, _ => []);
      numEdges := 0;
    }

    /** Adds the edge unless it exists or an end is out of range; nothing else changes. */
    method InsertEdge(vertex1: int, vertex2: int, data: T, cost: real) returns (ok: bool)
      requires Valid()
      modifies this
      ensures Valid() && |nodeTable| == old(|nodeTable|)
      ensures ok <==> 0 <= vertex1 < |nodeTable| && 0 <= vertex2 < |nodeTable| &&
                      old(Weight(nodeTable, vertex1, vertex2)) == None
      ensures ok ==> nodeTable == old(nodeTable)[vertex1 := [Edge(vertex2, data, cost)] + old(nodeTable)[vertex1]]
      ensures forall u: nat, v: nat ::
                Weight(nodeTable, u, v) == (if ok && u == vertex1 && v == vertex2 then Some(cost)
                                            else old(Weight(nodeTable, u, v)))
      ensures numEdges == old(numEdges) + (if ok then 1 else 0)
      ensures !ok ==> nodeTable == old(nodeTable)
    {
      if !(0 <= vertex1 < |nodeTable| && 0 <= vertex2 < |nodeTable|) { return false; }
      var list := nodeTable[vertex1];
      var k := 0;
      while k < |list| && list[k].dest != vertex2
        invariant k <= |list|
        invariant EdgeCost(list, vertex2) == EdgeCost(list[k..], vertex2)
        invariant forall j :: 0 <= j < k ==> list[j].dest != vertex2
      {
        assert list[k..][1..] == list[k + 1..];
        k := k + 1;
      }
      if k < |list| {
        assert list[k..][0] == list[k];
        return false;
      }
      assert list[k..] == [];
      var e := Edge(vertex2, data, cost);
      assert ([e] + list)[1..] == list;
      nodeTable := nodeTable[vertex1 := [e] + list];
      numEdges := numEdges + 1;
      ok := true;
    }

    /** Copies the costs of a vertex's edges into the distance table. */
    method GetVertexEdgeCost(vertex: nat, distanceArray: seq<real>) returns (r: seq<real>)
      requires Valid() && vertex < |nodeTable| == |distanceArray|
      ensures |r| == |distanceArray|
      ensures forall v :: 0 <= v < |r| ==> r[v] == CostOr(Weight(nodeTable, vertex, v), distanceArray[v])
    {
      var list := nodeTable[vertex];
      r := distanceArray;
      var k := 0;
      while k < |list|
        invariant k <= |list| && |r| == |distanceArray|
        invariant forall j :: 0 <= j < k ==> r[list[j].dest] == list[j].cost
        invariant forall v ::
            0 <= v < |r| && (forall j :: 0 <= j < k ==> list[j].dest != v) ==> r[v] == distanceArray[v]
      {
        r := r[list[k].dest := list[k].cost];
        k := k + 1;
      }
      forall v | 0 <= v < |r|
        ensures r[v] == CostOr(Weight(nodeTable, vertex, v), distanceArray[v])
      {
        if EdgeCost(list, v).Some? {
          var j := EdgeCostWitness(list, v);
        } else {
          forall j | 0 <= j < |list| ensures list[j].dest != v { EdgeCostAt(list, j); }
        }
      }
    }

    /** The nearest unfinished vertex, or the sentinel when none is within reach. */
    method Nearest(boolArray: seq<bool>, distanceArray: seq<real>, sourceVertex: nat)
      returns (minimumCost: real, vertexFrom: nat)
      requires sourceVertex < |boolArray| == |distanceArray|
      ensures vertexFrom < |boolArray| && minimumCost <= COST_MAX
      ensures forall v :: 0 <= v < |boolArray| && !boolArray[v] ==> minimumCost <= distanceArray[v]
      ensures minimumCost < COST_MAX ==> !boolArray[vertexFrom] && distanceArray[vertexFrom] == minimumCost
    {
      minimumCost, vertexFrom := COST_MAX, sourceVertex;
      for i := 0 to |boolArray|
        invariant vertexFrom < |boolArray| && minimumCost <= COST_MAX
        invariant forall v :: 0 <= v < i && !boolArray[v] ==> minimumCost <= distanceArray[v]
        invariant minimumCost < COST_MAX ==> !boolArray[vertexFrom] && distanceArray[vertexFrom] == minimumCost
      {
        if !boolArray[i] && minimumCost > distanceArray[i] {
          minimumCost, vertexFrom := distanceArray[i], i;
        }
      }
    }

    /** Marks `vertexFrom` finished and walks its edge list. */
    method Relax(x: Search, vertexFrom: nat) returns (y: Search)
      requires Valid() && |x.done| == |x.dist| == |x.prev| == |nodeTable| && vertexFrom < |nodeTable|
      ensures RelaxedFrom(nodeTable, x, vertexFrom, y)
    {
      var list := nodeTable[vertexFrom];
      y := x.(done := x.done[vertexFrom := true]);
      var k := 0;
      while k < |list|
        invariant k <= |list| && y.done == x.done[vertexFrom := true]
        invariant |y.dist| == |y.prev| == |nodeTable|
        invariant y.dist[vertexFrom] == x.dist[vertexFrom]
        invariant forall v :: 0 <= v < |nodeTable| && (forall j :: 0 <= j < k ==> list[j].dest != v) ==>
          y.dist[v] == x.dist[v] && y.prev[v] == x.prev[v]
        invariant forall j :: 0 <= j < k ==> var v := list[j].dest;
          if !y.done[v] && x.dist[v] > list[j].cost + x.dist[vertexFrom]
          then y.dist[v] == list[j].cost + x.dist[vertexFrom] && y.prev[v] == vertexFrom
          else y.dist[v] == x.dist[v] && y.prev[v] == x.prev[v]
      {
        var edgeCost, vertexTo := list[k].cost, list[k].dest;
        if !y.done[vertexTo] && y.dist[vertexTo] > edgeCost + y.dist[vertexFrom] {
          y := y.(dist := y.dist[vertexTo := edgeCost + y.dist[vertexFrom]],
                  prev := y.prev[vertexTo := vertexFrom]);
        }
        k := k + 1;
      }
      forall v | 0 <= v < |nodeTable|
        ensures var w := Weight(nodeTable, vertexFrom, v);
                if !y.done[v] && w.Some? && x.dist[v] > w.value + x.dist[vertexFrom]
                then y.dist[v] == w.value + x.dist[vertexFrom] && y.prev[v] == vertexFrom
                else y.dist[v] == x.dist[v] && y.prev[v] == x.prev[v]
      {
        if EdgeCost(list, v).Some? {
          var j := EdgeCostWitness(list, v);
        } else {
          forall j | 0 <= j < |list| ensures list[j].dest != v { EdgeCostAt(list, j); }
        }
      }
    }

    method DijkstraPrint(sourceVertex: nat, destVertex: nat, prevVertexArray: seq<nat>, ghost rank: seq<nat>,
                         shortestPath: seq<nat>) returns (r: seq<nat>)
      requires Ranked(prevVertexArray, sourceVertex, rank) && destVertex < |prevVertexArray|
      ensures r == shortestPath + Walk(prevVertexArray, sourceVertex, rank, destVertex)
      decreases rank[destVertex]
    {
      r := shortestPath;
      if destVertex != sourceVertex {
        r := DijkstraPrint(sourceVertex, prevVertexArray[destVertex], prevVertexArray, rank, r);
      }
      r := r + [destVertex];
    }

    /** A cheapest path whenever one costs less than the sentinel. Otherwise, as long as single edges are
        below the sentinel, the answer is the two end points, which are then not joined by any edge:
        the result is never empty and is a path exactly when the target is reachable. */
    method Dijkstra(sourceVertex: nat, destVertex: nat) returns (shortestPath: seq<nat>)
      requires Valid() && NonNegative(nodeTable)
      requires sourceVertex < |nodeTable| && destVertex < |nodeTable|
      ensures Reachable(nodeTable, sourceVertex, destVertex) ==>
                Shortest(nodeTable, shortestPath, sourceVertex, destVertex)
      ensures SmallCosts(nodeTable) && !Reachable(nodeTable, sourceVertex, destVertex) ==>
                shortestPath == [sourceVertex, destVertex]
      ensures SmallCosts(nodeTable) ==>
                (IsPath(nodeTable, shortestPath) <==> Reachable(nodeTable, sourceVertex, destVertex))
    {
      var n := |nodeTable|;
      var distanceArray := seq(n, _ => COST_MAX)[sourceVertex := 0.0];
      distanceArray := GetVertexEdgeCost(sourceVertex, distanceArray);
      var x := Search(seq(n, _ => false)[sourceVertex := true], distanceArray, seq(n, _ => sourceVertex));
      InitialInv(nodeTable, x, sourceVertex);
      ghost var rank, count := seq(n, _ => 0), 0;
      while true
        invariant Inv(nodeTable, x, sourceVertex) && AllRelaxed(nodeTable, x, sourceVertex)
        invariant SmallCosts(nodeTable) ==> Untouched(nodeTable, x, sourceVertex)
        invariant RankedSoFar(x, sourceVertex, rank, count)
        decreases Unfinished(x.done)
      {
        var minimumCost, vertexFrom := Nearest(x.done, x.dist, sourceVertex);
        if minimumCost == COST_MAX { break; }
        var y := Relax(x, vertexFrom);
        FinishKeepsInv(nodeTable, x, sourceVertex, vertexFrom, y);
        if SmallCosts(nodeTable) { FinishKeepsUntouched(nodeTable, x, sourceVertex, vertexFrom, y); }
        FinishKeepsRanked(nodeTable, x, sourceVertex, vertexFrom, y, rank, count);
        rank, count := rank[vertexFrom := count + 1], count + 1;
        assert vertexFrom in Unfinished(x.done) - Unfinished(y.done);
        x := y;
      }
      rank := RankAll(x, sourceVertex, rank, count);
      shortestPath := DijkstraPrint(sourceVertex, destVertex, x.prev, rank, []);
      assert shortestPath == Walk(x.prev, sourceVertex, rank, destVertex);
      SearchDone(nodeTable, x, sourceVertex, rank, destVertex);
    }
  }
}
