/** What the node store says about the tree as a whole: paths, height and search order. */
module RedBlackShape {
  import opened RedBlackStore

  datatype Tree = Leaf | Node(red: bool, key: int, left: Tree, right: Tree)

  ghost function TreeOf<N>(h: Store<N>, n: N): Tree
    requires Structure(h) && n in h.cells
    decreases h.cells[n].keys
  {
    if n == h.leaf then Leaf
    else
      assert Linked(h, n);
      var c := h.cells[n];
      assert c.left != h.leaf ==> h.cells[c.left].keys < c.keys by { if c.left != h.leaf { Distinct(h, n, c.left); } }
      assert c.right != h.leaf ==> h.cells[c.right].keys < c.keys by {
        if c.right != h.leaf { Distinct(h, n, c.right); }
      }
      assert c.key in c.keys by { assert Keyed(h, n); }
      Node(c.red, c.key, TreeOf(h, c.left), TreeOf(h, c.right))
  }

  function Keys(t: Tree): set<int> {
    match t case Leaf => {} case Node(_, k, l, r) => Keys(l) + {k} + Keys(r)
  }

  function Size(t: Tree): nat {
    match t case Leaf => 0 case Node(_, _, l, r) => Size(l) + 1 + Size(r)
  }

  function Height(t: Tree): nat {
    match t case Leaf => 0
    case Node(_, _, l, r) => 1 + if Height(l) < Height(r) then Height(r) else Height(l)
  }

  /** Every key on the left is smaller, every key on the right larger, at every node. */
  ghost predicate SearchOrder(t: Tree) {
    match t
    case Leaf => true
    case Node(_, k, l, r) =>
      (forall x :: x in Keys(l) ==> x < k) && (forall x :: x in Keys(r) ==> k < x) && SearchOrder(l) && SearchOrder(r)
  }

  predicate IsRed(t: Tree) { t.Node? && t.red }

  predicate NoRedPair(t: Tree) {
    match t
    case Leaf => true
    case Node(red, _, l, r) => (red ==> !IsRed(l) && !IsRed(r)) && NoRedPair(l) && NoRedPair(r)
  }

  /** The black counts of all paths from the root of `t` to a leaf, leaf included. */
  ghost function BlackCounts(t: Tree): set<nat> {
    match t
    case Leaf => {1}
    case Node(red, _, l, r) =>
      set b | b in BlackCounts(l) + BlackCounts(r) :: b + if red then 0 else 1
  }

  /** `t` is a red-black tree with these keys, this root colour and this black count on every path. */
  ghost predicate Matches(t: Tree, keys: set<int>, red: bool, count: nat) {
    Keys(t) == keys && Size(t) == |keys| && SearchOrder(t) && NoRedPair(t) &&
    IsRed(t) == red && BlackCounts(t) == {count}
  }

  lemma JoinTrees(red: bool, k: int, l: Tree, lk: set<int>, lred: bool, r: Tree, rk: set<int>, rred: bool, b: nat)
    requires Matches(l, lk, lred, b) && Matches(r, rk, rred, b) && (red ==> !lred && !rred)
    requires (forall x :: x in lk ==> x < k) && (forall x :: x in rk ==> k < x)
    ensures Matches(Node(red, k, l, r), lk + {k} + rk, red, b + if red then 0 else 1)
  {
    hide BlackCounts, Keys, Size, SearchOrder, NoRedPair;
    KeyCount(lk, k, rk);
    JoinCounts(red, k, l, r, b);
    JoinKeys(red, k, l, r);
    JoinShape(red, k, l, r);
  }

  lemma JoinKeys(red: bool, k: int, l: Tree, r: Tree)
    ensures Keys(Node(red, k, l, r)) == Keys(l) + {k} + Keys(r) && Size(Node(red, k, l, r)) == Size(l) + 1 + Size(r)
  {
  }

  lemma JoinShape(red: bool, k: int, l: Tree, r: Tree)
    requires SearchOrder(l) && NoRedPair(l) && SearchOrder(r) && NoRedPair(r) && (red ==> !IsRed(l) && !IsRed(r))
    requires (forall x :: x in Keys(l) ==> x < k) && (forall x :: x in Keys(r) ==> k < x)
    ensures SearchOrder(Node(red, k, l, r)) && NoRedPair(Node(red, k, l, r))
  {
    hide Keys;
  }

  lemma KeyCount(lk: set<int>, k: int, rk: set<int>)
    requires (forall x :: x in lk ==> x < k) && (forall x :: x in rk ==> k < x)
    ensures |lk + {k} + rk| == |lk| + 1 + |rk|
  {
    var low := lk + {k};
    forall x | x in low ensures x !in rk { }
    assert low !! rk;
    assert |low + rk| == |low| + |rk|;
  }

  lemma JoinCounts(red: bool, k: int, l: Tree, r: Tree, b: nat)
    requires BlackCounts(l) == {b} && BlackCounts(r) == {b}
    ensures BlackCounts(Node(red, k, l, r)) == {b + if red then 0 else 1}
  {
    assert BlackCounts(l) + BlackCounts(r) == {b};
  }

  /** The tree read off a red-black store has all the red-black properties. */
  lemma {:induction false} StoreTree<N>(h: Store<N>, n: N)
    requires RedBlack(h) && n in h.cells
    ensures Matches(TreeOf(h, n), h.cells[n].keys, h.cells[n].red, Count(h.cells[n]))
    decreases h.cells[n].keys
  {
    hide Matches, Keys, Size, SearchOrder, NoRedPair, BlackCounts;
    if n != h.leaf {
      assert Linked(h, n) && Ordered(h, n) && Keyed(h, n) && Balanced(h, n) && Calm(h, n, h.leaf);
      var c := h.cells[n];
      if c.left != h.leaf { Distinct(h, n, c.left); }
      if c.right != h.leaf { Distinct(h, n, c.right); }
      assert c.key in c.keys;
      StoreTree(h, c.left);
      StoreTree(h, c.right);
      var l, r := h.cells[c.left], h.cells[c.right];
      JoinTrees(c.red, c.key, TreeOf(h, c.left), l.keys, l.red, TreeOf(h, c.right), r.keys, r.red, c.blacks);
    } else {
      LeafMatches();
    }
  }

  lemma LeafMatches()
    ensures Matches(Leaf, {}, false, 1)
  {
  }

  function Pow2(n: nat): nat { if n == 0 then 1 else 2 * Pow2(n - 1) }

  lemma Pow2Monotone(m: nat, n: nat)
    requires m <= n
    ensures Pow2(m) <= Pow2(n)
  {
  }

  lemma {:induction false} Pow2Double(n: nat)
    ensures Pow2(2 * n) == Pow2(n) * Pow2(n)
  {
    if n > 0 { Pow2Double(n - 1); }
  }

  lemma SomePath(t: Tree)
    ensures BlackCounts(t) != {}
  {
    if t.Node? {
      SomePath(t.left);
      var b :| b in BlackCounts(t.left);
      assert b + (if t.red then 0 else 1) in BlackCounts(t);
    }
  }

  /** If all paths of a node agree, so do those of its children. */
  lemma ChildCounts(t: Tree, b: nat)
    requires t.Node? && BlackCounts(t) == {b}
    ensures var d := if t.red then 0 else 1;
      b >= d && BlackCounts(t.left) == {b - d} && BlackCounts(t.right) == {b - d}
  {
    var d := if t.red then 0 else 1;
    SomePath(t.left);
    SomePath(t.right);
    forall x | x in BlackCounts(t.left) + BlackCounts(t.right) ensures x + d == b { CountsOn(t, x); }
    hide BlackCounts;
    OneElement(BlackCounts(t.left), b - d);
    OneElement(BlackCounts(t.right), b - d);
  }

  lemma CountsOn(t: Tree, x: nat)
    requires t.Node? && x in BlackCounts(t.left) + BlackCounts(t.right)
    ensures x + (if t.red then 0 else 1) in BlackCounts(t)
  {
  }

  lemma OneElement(s: set<nat>, b: int)
    requires s != {} && forall x :: x in s ==> x == b
    ensures b >= 0 && s == {b}
  {
    var x :| x in s;
  }

  lemma LeafCount(b: nat)
    requires BlackCounts(Leaf) == {b}
    ensures b == 1
  {
    assert b in BlackCounts(Leaf);
  }

  /** With `b` black nodes on every path, the tree is at most twice as high and has at least 2^b - 1 nodes below. */
  lemma {:induction false} BlackBound(t: Tree, b: nat)
    requires NoRedPair(t) && BlackCounts(t) == {b}
    ensures b >= 1 && Pow2(b - 1) <= Size(t) + 1
    ensures Height(t) <= 2 * (b - 1) + if IsRed(t) then 1 else 0
  {
    hide BlackCounts;
    match t
    case Leaf => LeafCount(b);
    case Node(red, _, l, r) =>
      var d := if red then 0 else 1;
      ChildCounts(t, b);
      BlackBound(l, b - d);
      BlackBound(r, b - d);
      Pow2Monotone(b - 1 - d, b - 1);
  }

  /** Height is at most twice the binary logarithm of the number of nodes plus one. */
  lemma HeightBound(t: Tree, b: nat)
    requires NoRedPair(t) && BlackCounts(t) == {b} && !IsRed(t)
    ensures Pow2(Height(t)) <= (Size(t) + 1) * (Size(t) + 1)
  {
    hide Pow2, Height, Size;
    BlackBound(t, b);
    Pow2Monotone(Height(t), 2 * (b - 1));
    Pow2Double(b - 1);
    SquareMonotone(Pow2(b - 1), Size(t) + 1);
  }

  lemma SquareMonotone(p: nat, n: nat)
    requires p <= n
    ensures p * p <= n * n
  {
  }
}
