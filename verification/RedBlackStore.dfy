/** Red-black trees as linked nodes: the node store as a value, its invariants, and the steps that
    rotate, recolour and attach nodes in it. `N` stands for node references. */
module RedBlackStore {

  /** One node's fields, and two facts about its subtree: the keys stored in it, and how many black nodes
      (sentinel included) every path from it downwards meets after it. */
  datatype Cell<N> = Cell(red: bool, key: int, parent: N, left: N, right: N, keys: set<int>, blacks: nat)

  datatype Store<N> = Store(root: N, leaf: N, cells: map<N, Cell<N>>)

  /** `n` is a stored node other than the sentinel. */
  ghost predicate Inner<N>(h: Store<N>, n: N) { n in h.cells && n != h.leaf }

  ghost predicate Child<N>(h: Store<N>, n: N, c: N) {
    c in h.cells && (c != h.leaf ==> h.cells[c].parent == n)
  }

  ghost predicate Linked<N>(h: Store<N>, n: N)
    requires n in h.cells
  {
    var c := h.cells[n];
    Child(h, n, c.left) && Child(h, n, c.right) && (c.left == c.right ==> c.left == h.leaf) &&
    (c.parent == h.leaf <==> n == h.root) &&
    (c.parent != h.leaf ==> c.parent in h.cells && (h.cells[c.parent].left == n || h.cells[c.parent].right == n))
  }

  /** Smaller keys on the left, larger ones on the right. */
  ghost predicate Ordered<N>(h: Store<N>, n: N)
    requires n in h.cells
  {
    var c := h.cells[n];
    c.left in h.cells && c.right in h.cells &&
    (forall k :: k in h.cells[c.left].keys ==> k < c.key) && (forall k :: k in h.cells[c.right].keys ==> c.key < k)
  }

  ghost predicate Keyed<N>(h: Store<N>, n: N)
    requires n in h.cells
  {
    var c := h.cells[n];
    c.left in h.cells && c.right in h.cells &&
    c.keys == h.cells[c.left].keys + {c.key} + h.cells[c.right].keys
  }

  /** The sentinel is black, empty and has no children. */
  ghost predicate HasLeaf<N>(h: Store<N>) {
    h.leaf in h.cells && h.root in h.cells &&
    var c := h.cells[h.leaf];
    !c.red && c.keys == {} && c.blacks == 0 && c.left == h.leaf && c.right == h.leaf
  }

  ghost predicate Structure<N>(h: Store<N>) {
    HasLeaf(h) &&
    (forall n {:trigger Linked(h, n)} :: n in h.cells && n != h.leaf ==> Linked(h, n)) &&
    (forall n {:trigger Ordered(h, n)} :: n in h.cells && n != h.leaf ==> Ordered(h, n)) &&
    (forall n {:trigger Keyed(h, n)} :: n in h.cells && n != h.leaf ==> Keyed(h, n))
  }

  /** Parent and child are different nodes and not each other's children. */
  lemma Distinct<N>(h: Store<N>, x: N, y: N)
    requires Structure(h) && Inner(h, x) && Inner(h, y) && (y == h.cells[x].left || y == h.cells[x].right)
    ensures x != y && h.cells[y].parent == x && h.cells[x].parent != y
    ensures h.cells[y].keys < h.cells[x].keys
    ensures h.cells[x].key !in h.cells[y].keys && h.cells[y].key in h.cells[y].keys
  {
    assert Ordered(h, x) && Ordered(h, y) && Linked(h, x) && Linked(h, y) && Keyed(h, x) && Keyed(h, y);
    var cx := h.cells[x];
    assert cx.key in cx.keys;
    if y == cx.left { assert cx.key !in h.cells[cx.left].keys; } else { assert cx.key !in h.cells[cx.right].keys; }
  }

  // ---- Rotations

  /** `g` is `h` with `y` lifted over its parent `x`; `b` is the subtree that changes sides. */
  ghost predicate Turned<N>(h: Store<N>, g: Store<N>, x: N, y: N, b: N) {
    Inner(h, x) && Inner(h, y) && b in h.cells && x != y && h.cells[x].parent != x && h.cells[x].parent != y &&
    g.leaf == h.leaf && g.root == (if h.root == x then y else h.root) && g.cells.Keys == h.cells.Keys &&
    var (cx, cy) := (h.cells[x], h.cells[y]);
    ((cx.right == y && cy.left == b && cx.left in h.cells &&
      g.cells[x] == cx.(right := b, parent := y, keys := h.cells[cx.left].keys + {cx.key} + h.cells[b].keys) &&
      g.cells[y] == cy.(left := x, parent := cx.parent, keys := cx.keys)) ||
     (cx.left == y && cy.right == b && cx.right in h.cells &&
      g.cells[x] == cx.(left := b, parent := y, keys := h.cells[b].keys + {cx.key} + h.cells[cx.right].keys) &&
      g.cells[y] == cy.(right := x, parent := cx.parent, keys := cx.keys))) &&
    forall n {:trigger g.cells[n]} ::
      n in h.cells && n != x && n != y ==> g.cells[n] == Beside(h.cells[n], n, x, y, b, h.leaf)
  }

  /** The fields of a node `n` that is not rotated itself, `c` being its fields before. */
  ghost function Beside<N>(c: Cell<N>, n: N, x: N, y: N, b: N, leaf: N): Cell<N> {
    c.(parent := if n == b && b != leaf then x else c.parent,
       left := if c.left == x then y else c.left,
       right := if c.right == x then y else c.right)
  }

  /** No link is shared: only the parent points to `x`, and no two of the nodes around a rotation coincide. */
  lemma BeforeTurn<N>(h: Store<N>, x: N, y: N)
    requires Structure(h) && Inner(h, x) && Inner(h, y) && (y == h.cells[x].left || y == h.cells[x].right)
    ensures var p, cy := h.cells[x].parent, h.cells[y];
      x != y && p in h.cells && p != x && p != y && h.cells[x].left in h.cells && h.cells[x].right in h.cells &&
      h.cells[x].left != h.cells[x].right && (h.root == x <==> p == h.leaf) &&
      cy.left in h.cells && cy.right in h.cells && cy.left !in {x, y} && cy.right !in {x, y} &&
      (p != h.leaf ==> (h.cells[p].left == x <==> h.cells[p].right != x)) &&
      forall n :: n in h.cells && n != p ==> h.cells[n].left != x && h.cells[n].right != x
  {
    var p := h.cells[x].parent;
    assert Linked(h, x) && Linked(h, y);
    Distinct(h, x, y);
    if p != h.leaf {
      assert Linked(h, p);
      Distinct(h, p, x);
    }
    forall n | n in h.cells && n != p ensures h.cells[n].left != x && h.cells[n].right != x {
      if n != h.leaf { assert Linked(h, n); }
    }
  }

  lemma TurnKeepsLinks<N>(h: Store<N>, g: Store<N>, x: N, y: N, b: N, n: N)
    requires Structure(h) && Turned(h, g, x, y, b) && Inner(h, n)
    ensures Linked(g, n)
  {
    assert Linked(h, n) && Linked(h, x) && Linked(h, y);
  }

  lemma TurnKeepsKeys<N>(h: Store<N>, g: Store<N>, x: N, y: N, b: N, n: N)
    requires Structure(h) && Turned(h, g, x, y, b) && Inner(h, n)
    ensures Keyed(g, n)
  {
    assert Linked(h, n) && Linked(h, x) && Linked(h, y);
    assert Keyed(h, n) && Keyed(h, x) && Keyed(h, y);
  }

  lemma TurnKeepsOrder<N>(h: Store<N>, g: Store<N>, x: N, y: N, b: N, n: N)
    requires Structure(h) && Turned(h, g, x, y, b) && Inner(h, n)
    ensures Ordered(g, n)
  {
    assert Linked(h, n) && Linked(h, x) && Linked(h, y);
    assert Ordered(h, n) && Ordered(h, x) && Ordered(h, y);
    assert Keyed(h, x) && Keyed(h, y);
    assert h.cells[y].key in h.cells[y].keys;
  }

  lemma TurnKeepsStructure<N>(h: Store<N>, g: Store<N>, x: N, y: N, b: N)
    requires Structure(h) && Turned(h, g, x, y, b)
    ensures Structure(g) && g.cells[g.root].keys == h.cells[h.root].keys
    ensures g.leaf == h.leaf && g.cells.Keys == h.cells.Keys
  {
    assert HasLeaf(g) by {
      assert Linked(h, y) && Linked(h, x);
      assert g.cells[h.leaf] == Beside(h.cells[h.leaf], h.leaf, x, y, b, h.leaf);
    }
    assert h.root != y && (h.root != x ==> g.cells[h.root] == Beside(h.cells[h.root], h.root, x, y, b, h.leaf)) by {
      assert Linked(h, y) && Linked(h, x);
    }
    forall n | n in g.cells && n != g.leaf ensures Linked(g, n) { TurnKeepsLinks(h, g, x, y, b, n); }
    forall n | n in g.cells && n != g.leaf ensures Ordered(g, n) { TurnKeepsOrder(h, g, x, y, b, n); }
    forall n | n in g.cells && n != g.leaf ensures Keyed(g, n) { TurnKeepsKeys(h, g, x, y, b, n); }
  }

  // ---- Colours

  ghost function Count<N>(c: Cell<N>): nat { c.blacks + if c.red then 0 else 1 }

  /** All paths down from `n` meet equally many black nodes. */
  ghost predicate Balanced<N>(h: Store<N>, n: N)
    requires n in h.cells
  {
    var c := h.cells[n];
    c.left in h.cells && c.right in h.cells && c.blacks == Count(h.cells[c.left]) == Count(h.cells[c.right])
  }

  /** A red node has no red child, except possibly `z`. */
  ghost predicate Calm<N>(h: Store<N>, n: N, z: N)
    requires n in h.cells
  {
    var c := h.cells[n];
    c.left in h.cells && c.right in h.cells &&
    (c.red ==> (c.left == z || !h.cells[c.left].red) && (c.right == z || !h.cells[c.right].red))
  }

  ghost predicate Colored<N>(h: Store<N>, z: N) {
    h.root in h.cells && (h.cells[h.root].red ==> h.root == z) &&
    (forall n {:trigger Balanced(h, n)} :: n in h.cells && n != h.leaf ==> Balanced(h, n)) &&
    (forall n {:trigger Calm(h, n, z)} :: n in h.cells && n != h.leaf ==> Calm(h, n, z))
  }

  /** A red-black tree: linked, ordered, black root, no red pair, equal black counts. */
  ghost predicate RedBlack<N>(h: Store<N>) { Structure(h) && Colored(h, h.leaf) }

  /** During the fix-up the red node `z` may clash with its parent, and nothing else is wrong. */
  ghost predicate Clash<N>(h: Store<N>, z: N) {
    Structure(h) && Inner(h, z) && h.cells[z].red && Colored(h, z)
  }

  lemma ParentStored<N>(h: Store<N>, z: N)
    requires Clash(h, z)
    ensures h.cells[z].parent in h.cells
  {
    assert Linked(h, z);
  }

  ghost function Painted<N>(h: Store<N>, n: N, red: bool, blacks: nat): Store<N>
    requires n in h.cells
  {
    h.(cells := h.cells[n := h.cells[n].(red := red, blacks := blacks)])
  }

  /** A red parent is an inner node with a black inner parent of its own. */
  lemma Grandparent<N>(h: Store<N>, z: N)
    requires Clash(h, z) && h.cells[z].parent in h.cells && h.cells[h.cells[z].parent].red
    ensures var p := h.cells[z].parent;
      Inner(h, p) && p != z && (z == h.cells[p].left || z == h.cells[p].right) &&
      var g := h.cells[p].parent;
      Inner(h, g) && g != p && g != z && !h.cells[g].red && (p == h.cells[g].left || p == h.cells[g].right)
  {
    var p := h.cells[z].parent;
    assert Linked(h, z) && Linked(h, p);
    Distinct(h, p, z);
    var g := h.cells[p].parent;
    Distinct(h, g, p);
    assert Calm(h, g, z);
  }

  /** The loop ends below a black parent: painting the root black makes a red-black tree. */
  lemma Settled<N>(h: Store<N>, z: N, g: Store<N>)
    requires Structure(h) && Colored(h, z) && z in h.cells && HasLeaf(h)
    requires z == h.leaf || (h.cells[z].parent in h.cells && !h.cells[h.cells[z].parent].red && Inner(h, z))
    requires g == h.(cells := h.cells[h.root := h.cells[h.root].(red := false)])
    ensures RedBlack(g) && g.cells[g.root].keys == h.cells[h.root].keys
  {
    forall n | n in g.cells && n != g.leaf
      ensures Linked(g, n) && Ordered(g, n) && Keyed(g, n) && Balanced(g, n) && Calm(g, n, g.leaf)
    {
      assert Linked(h, n) && Ordered(h, n) && Keyed(h, n) && Balanced(h, n) && Calm(h, n, z);
      if h.root != h.leaf { assert Linked(h, h.root); }
      if z != h.leaf { assert Linked(h, z); }
    }
  }

  /** Colours and black counts may differ, nothing else. */
  ghost predicate SameShape<N>(h: Store<N>, g: Store<N>) {
    g.root == h.root && g.leaf == h.leaf && g.cells.Keys == h.cells.Keys && HasLeaf(h) && HasLeaf(g) &&
    forall n {:trigger g.cells[n]} :: n in h.cells ==>
      g.cells[n] == h.cells[n].(red := g.cells[n].red, blacks := g.cells[n].blacks)
  }

  lemma RecolourKeepsStructure<N>(h: Store<N>, g: Store<N>)
    requires Structure(h) && SameShape(h, g)
    ensures Structure(g) && g.cells[g.root].keys == h.cells[h.root].keys
  {
    forall n | n in g.cells && n != g.leaf ensures Linked(g, n) && Ordered(g, n) && Keyed(g, n) {
      assert Linked(h, n) && Ordered(h, n) && Keyed(h, n);
    }
  }

  /** Red uncle: parent and uncle turn black, the grandparent red, and the clash moves two levels up. */
  ghost function Flip<N>(h: Store<N>, p: N, u: N, g: N): Store<N>
    requires p in h.cells && u in h.cells && g in h.cells
  {
    Painted(Painted(Painted(h, p, false, h.cells[p].blacks), u, false, h.cells[u].blacks),
            g, true, h.cells[g].blacks + 1)
  }

  /** Nodes whose subtree strictly contains that of `z`. */
  ghost function Above<N>(h: Store<N>, z: N): set<N>
    requires z in h.cells
  {
    set n | n in h.cells && h.cells[z].keys < h.cells[n].keys
  }

  /** `z` has a red parent `p`, grandparent `g` and uncle `u`. */
  ghost predicate Family<N>(h: Store<N>, z: N, p: N, g: N, u: N) {
    Clash(h, z) && Inner(h, p) && Inner(h, g) && u in h.cells && h.cells[z].parent == p && h.cells[p].red &&
    h.cells[p].parent == g && z != p && p != g && z != g && p != u && !h.cells[g].red &&
    (z == h.cells[p].left || z == h.cells[p].right) &&
    ((p == h.cells[g].left && u == h.cells[g].right) || (p == h.cells[g].right && u == h.cells[g].left))
  }

  lemma FamilyOf<N>(h: Store<N>, z: N, p: N, g: N, u: N)
    requires Clash(h, z) && Inner(h, p) && Inner(h, g) && h.cells[z].parent == p && h.cells[p].red
    requires h.cells[p].parent == g
    requires z != p && p != g && z != g && !h.cells[g].red && (z == h.cells[p].left || z == h.cells[p].right)
    requires (p == h.cells[g].left && u == h.cells[g].right) || (p == h.cells[g].right && u == h.cells[g].left)
    ensures Family(h, z, p, g, u) && u != g && (u != h.leaf ==> h.cells[u].parent == g)
  {
    assert Linked(h, g);
    if u != h.leaf { Distinct(h, g, u); }
  }

  lemma FlipBalances<N>(h: Store<N>, z: N, p: N, g: N, u: N, n: N)
    requires Family(h, z, p, g, u) && h.cells[u].red && u != g && Inner(h, n)
    ensures Balanced(Flip(h, p, u, g), n)
  {
    hide Ordered, Keyed, Calm;
    assert Linked(h, g) && Linked(h, n) && Balanced(h, n);
    var c := h.cells[n];
    assert n != g ==> c.left != p && c.left != u && c.right != p && c.right != u;
    assert c.left != n && c.right != n by {
      if c.left != h.leaf { Distinct(h, n, c.left); }
      if c.right != h.leaf { Distinct(h, n, c.right); }
    }
  }

  lemma FlipCalms<N>(h: Store<N>, z: N, p: N, g: N, u: N, n: N)
    requires Family(h, z, p, g, u) && h.cells[u].red && u != g && Inner(h, n)
    ensures Calm(Flip(h, p, u, g), n, g)
  {
    hide Ordered, Keyed, Balanced;
    assert Linked(h, g) && Linked(h, p) && Linked(h, n) && Calm(h, n, z);
  }

  lemma FlipClimbs<N>(h: Store<N>, z: N, p: N, g: N, u: N)
    requires Family(h, z, p, g, u)
    ensures Above(Flip(h, p, u, g), g) < Above(h, z)
  {
    hide Linked, Ordered, Keyed, Calm, Balanced;
    var f := Flip(h, p, u, g);
    Distinct(h, g, p);
    Distinct(h, p, z);
    assert forall n :: n in f.cells ==> f.cells[n].keys == h.cells[n].keys;
    assert g in Above(h, z) && g !in Above(f, g);
  }

  lemma FlipShape<N>(h: Store<N>, z: N, p: N, g: N, u: N)
    requires Family(h, z, p, g, u) && h.cells[u].red && u != g
    ensures var f := Flip(h, p, u, g);
      SameShape(h, f) && Inner(f, g) && f.cells[g].red && (f.cells[f.root].red ==> f.root == g)
  {
    hide Ordered, Keyed, Calm, Balanced;
    assert Linked(h, z);
  }

  lemma FlipMovesClash<N>(h: Store<N>, z: N, p: N, g: N, u: N)
    requires Family(h, z, p, g, u) && h.cells[u].red
    ensures var f := Flip(h, p, u, g);
      Clash(f, g) && f.cells[f.root].keys == h.cells[h.root].keys && Above(f, g) < Above(h, z)
  {
    Distinct(h, g, u);
    hide Flip, Balanced, Calm, Linked, Ordered, Keyed, Above;
    var f := Flip(h, p, u, g);
    FlipClimbs(h, z, p, g, u);
    FlipShape(h, z, p, g, u);
    RecolourKeepsStructure(h, f);
    forall n | n in f.cells && n != f.leaf ensures Balanced(f, n) { FlipBalances(h, z, p, g, u, n); }
    forall n | n in f.cells && n != f.leaf ensures Calm(f, n, g) { FlipCalms(h, z, p, g, u, n); }
  }

  /** Away from the two rotated nodes, counts carry over if the lifted node counts like the lowered one did. */
  lemma TurnBalancesBeside<N>(h: Store<N>, c: Store<N>, t: Store<N>, x: N, y: N, b: N, n: N)
    requires Structure(h) && SameShape(h, c) && Turned(c, t, x, y, b) && Inner(h, n) && n != x && n != y
    requires Balanced(h, n)
    requires forall m :: m in h.cells && m != x && m != y ==> c.cells[m] == h.cells[m]
    requires Count(c.cells[y]) == Count(h.cells[x])
    ensures Balanced(t, n)
  {
    hide Ordered, Keyed;
    assert Linked(h, n) && Linked(h, x) && Linked(h, y);
    var l, r := h.cells[n].left, h.cells[n].right;
    assert l != y && r != y;
    assert t.cells[n] == Beside(c.cells[n], n, x, y, b, c.leaf);
    assert l != x ==> t.cells[l] == Beside(c.cells[l], l, x, y, b, c.leaf);
    assert r != x ==> t.cells[r] == Beside(c.cells[r], r, x, y, b, c.leaf);
  }

  lemma InnerTurnBalances<N>(h: Store<N>, z: N, p: N, g: N, u: N, b: N, t: Store<N>, n: N)
    requires Family(h, z, p, g, u) && Turned(h, t, p, z, b) && Inner(h, n)
    ensures Balanced(t, n)
  {
    hide Ordered, Keyed, Calm;
    assert Balanced(h, n) && Balanced(h, z) && Balanced(h, p);
    if n != p && n != z {
      TurnBalancesBeside(h, h, t, p, z, b, n);
    } else {
      assert Linked(h, p) && Linked(h, z);
    }
  }

  lemma InnerTurnCalms<N>(h: Store<N>, z: N, p: N, g: N, u: N, b: N, t: Store<N>, n: N)
    requires Family(h, z, p, g, u) && Turned(h, t, p, z, b) && Inner(h, n)
    ensures Calm(t, n, p)
  {
    hide Ordered, Keyed, Balanced;
    assert Linked(h, p) && Linked(h, z) && Linked(h, n) && Calm(h, n, z) && Calm(h, z, z) && Calm(h, p, z);
  }

  lemma InnerTurnFamily<N>(h: Store<N>, z: N, p: N, g: N, u: N, b: N, t: Store<N>)
    requires Family(h, z, p, g, u) && !h.cells[u].red && Turned(h, t, p, z, b) && Clash(t, p)
    ensures Family(t, p, z, g, u) && !t.cells[u].red
    ensures z == t.cells[g].left <==> p == h.cells[g].left
    ensures z == t.cells[g].right <==> p == h.cells[g].right
    ensures p == t.cells[z].left <==> z == h.cells[p].right
    ensures p == t.cells[z].right <==> z == h.cells[p].left
  {
    assert Linked(h, g) && Linked(h, p) && Linked(h, z);
  }

  /** Inner grandchild: lifting it over its parent leaves the same clash with the roles of the two exchanged. */
  lemma InnerTurn<N>(h: Store<N>, z: N, p: N, g: N, u: N, b: N, t: Store<N>)
    requires Family(h, z, p, g, u) && !h.cells[u].red && Turned(h, t, p, z, b)
    ensures Family(t, p, z, g, u) && !t.cells[u].red
    ensures t.cells[t.root].keys == h.cells[h.root].keys
    ensures z == t.cells[g].left <==> p == h.cells[g].left
    ensures z == t.cells[g].right <==> p == h.cells[g].right
    ensures p == t.cells[z].left <==> z == h.cells[p].right
    ensures p == t.cells[z].right <==> z == h.cells[p].left
  {
    assert Linked(h, p) && Linked(h, z);
    hide Balanced, Calm, Linked, Ordered, Keyed;
    TurnKeepsStructure(h, t, p, z, b);
    forall n | n in t.cells && n != t.leaf ensures Balanced(t, n) { InnerTurnBalances(h, z, p, g, u, b, t, n); }
    forall n | n in t.cells && n != t.leaf ensures Calm(t, n, p) { InnerTurnCalms(h, z, p, g, u, b, t, n); }
    InnerTurnFamily(h, z, p, g, u, b, t);
  }

  /** `h` with the parent painted black and the grandparent red. */
  ghost function Repainted<N>(h: Store<N>, p: N, g: N): Store<N>
    requires p in h.cells && g in h.cells
  {
    Painted(Painted(h, p, false, h.cells[p].blacks), g, true, h.cells[g].blacks)
  }

  lemma RepaintKeepsStructure<N>(h: Store<N>, z: N, p: N, g: N, u: N)
    requires Family(h, z, p, g, u)
    ensures Structure(Repainted(h, p, g))
    ensures h.cells[p].left != h.cells[p].right || z == h.leaf
  {
    assert Linked(h, p);
    RecolourKeepsStructure(h, Repainted(h, p, g));
  }

  ghost predicate OuterTurned<N>(h: Store<N>, z: N, p: N, g: N, u: N, b: N, t: Store<N>) {
    Family(h, z, p, g, u) && !h.cells[u].red && b != z && Turned(Repainted(h, p, g), t, g, p, b)
  }

  lemma OuterTurnBalances<N>(h: Store<N>, z: N, p: N, g: N, u: N, b: N, t: Store<N>, n: N)
    requires OuterTurned(h, z, p, g, u, b, t) && Inner(h, n)
    ensures Balanced(t, n)
  {
    hide Ordered, Keyed, Calm;
    assert Balanced(h, n) && Balanced(h, g) && Balanced(h, p);
    if n != p && n != g {
      OuterTurnRoot(h, z, p, g, u, b, t);
      TurnBalancesBeside(h, Repainted(h, p, g), t, g, p, b, n);
    } else {
      assert Linked(h, g) && Linked(h, p);
    }
  }

  lemma OuterTurnCalms<N>(h: Store<N>, z: N, p: N, g: N, u: N, b: N, t: Store<N>, n: N)
    requires OuterTurned(h, z, p, g, u, b, t) && Inner(h, n)
    ensures Calm(t, n, t.leaf)
  {
    hide Ordered, Keyed, Balanced;
    assert Linked(h, g) && Linked(h, p) && Linked(h, n) && Calm(h, n, z) && Calm(h, p, z);
  }

  lemma OuterTurnRoot<N>(h: Store<N>, z: N, p: N, g: N, u: N, b: N, t: Store<N>)
    requires OuterTurned(h, z, p, g, u, b, t)
    ensures SameShape(h, Repainted(h, p, g)) && t.root in t.cells && !t.cells[t.root].red
  {
    assert Linked(h, z) && Linked(h, p);
  }

  /** Outer grandchild: repainting and lifting the parent over the grandparent ends all clashes. */
  lemma OuterTurn<N>(h: Store<N>, z: N, p: N, g: N, u: N, b: N, t: Store<N>)
    requires OuterTurned(h, z, p, g, u, b, t)
    ensures RedBlack(t) && t.cells[t.root].keys == h.cells[h.root].keys
  {
    hide Repainted, Turned, Balanced, Calm, Linked, Ordered, Keyed;
    var c := Repainted(h, p, g);
    OuterTurnRoot(h, z, p, g, u, b, t);
    RecolourKeepsStructure(h, c);
    TurnKeepsStructure(c, t, g, p, b);
    forall n | n in t.cells && n != t.leaf ensures Balanced(t, n) { OuterTurnBalances(h, z, p, g, u, b, t, n); }
    forall n | n in t.cells && n != t.leaf ensures Calm(t, n, t.leaf) { OuterTurnCalms(h, z, p, g, u, b, t, n); }
  }

  // ---- Descent to the insertion point

  ghost function Extend<N>(h: Store<N>, n: N, key: int): Store<N>
    requires n in h.cells
  {
    h.(cells := h.cells[n := h.cells[n].(keys := h.cells[n].keys + {key})])
  }

  /** On the way down with `key`, the nodes passed already list it; `pre` was passed last and `cur` is next. */
  ghost predicate Descending<N>(h: Store<N>, pre: N, cur: N, key: int) {
    HasLeaf(h) && pre in h.cells && cur in h.cells &&
    (forall n {:trigger Linked(h, n)} :: n in h.cells && n != h.leaf ==> Linked(h, n)) &&
    (forall n {:trigger Ordered(h, n)} :: n in h.cells && n != h.leaf ==> Ordered(h, n)) &&
    (forall n {:trigger Keyed(h, n)} :: n in h.cells && n != h.leaf && n != pre ==> Keyed(h, n)) &&
    if pre == h.leaf then cur == h.root else Passed(h, pre, cur, key)
  }

  /** `pre` lists `key` besides what is stored below it, and `cur` is its child on the side of `key`. */
  ghost predicate Passed<N>(h: Store<N>, pre: N, cur: N, key: int)
    requires pre in h.cells
  {
    var c := h.cells[pre];
    key != c.key && cur == (if key < c.key then c.left else c.right) && c.left in h.cells && c.right in h.cells &&
    c.keys == h.cells[c.left].keys + {c.key} + h.cells[c.right].keys + {key}
  }

  /** The child to go on with. */
  ghost function Next<N>(h: Store<N>, n: N, key: int): N
    requires n in h.cells
  {
    if key < h.cells[n].key then h.cells[n].left else h.cells[n].right
  }

  lemma DescendLinks<N>(h: Store<N>, pre: N, cur: N, key: int, n: N)
    requires Descending(h, pre, cur, key) && Inner(h, cur) && Inner(h, n)
    ensures Linked(Extend(h, cur, key), n)
  {
    hide Ordered, Keyed;
    assert Linked(h, n);
  }

  lemma DescendOrder<N>(h: Store<N>, pre: N, cur: N, key: int, n: N)
    requires Descending(h, pre, cur, key) && Inner(h, cur) && Inner(h, n)
    ensures Ordered(Extend(h, cur, key), n)
  {
    hide Keyed;
    assert Linked(h, n) && Ordered(h, n) && Linked(h, cur);
    if pre != h.leaf { assert Linked(h, pre); }
  }

  lemma ExtendKeepsColours<N>(h: Store<N>, cur: N, key: int)
    requires Colored(h, h.leaf) && Inner(h, cur)
    ensures Colored(Extend(h, cur, key), h.leaf)
  {
    var g := Extend(h, cur, key);
    forall n | n in g.cells && n != g.leaf ensures Balanced(g, n) && Calm(g, n, g.leaf) {
      assert Balanced(h, n) && Calm(h, n, h.leaf);
    }
  }

  lemma DescendKeys<N>(h: Store<N>, pre: N, cur: N, key: int, n: N)
    requires Descending(h, pre, cur, key) && Inner(h, cur) && Inner(h, n) && n != cur
    ensures Keyed(Extend(h, cur, key), n)
  {
    assert Linked(h, n) && Linked(h, cur);
    if pre != h.leaf { assert Linked(h, pre) && Ordered(h, pre); }
    if n != pre { assert Keyed(h, n); }
  }

  /** What the next node knows about `key`, and that the search space shrinks. */
  lemma DescendShrinks<N>(h: Store<N>, pre: N, cur: N, key: int)
    requires Descending(h, pre, cur, key) && Inner(h, cur) && key != h.cells[cur].key
    ensures var next := Next(h, cur, key);
      cur != pre && Keyed(h, cur) && next in h.cells && h.cells[cur].left != cur && h.cells[cur].right != cur &&
      h.cells[next].keys < h.cells[cur].keys &&
      (key in h.cells[cur].keys <==> key in h.cells[next].keys)
  {
    assert Linked(h, cur) && Ordered(h, cur);
    if pre != h.leaf { assert Linked(h, pre) && Ordered(h, pre); }
    assert Keyed(h, cur);
    var c := h.cells[cur];
    assert c.key in c.keys && c.key !in h.cells[c.left].keys && c.key !in h.cells[c.right].keys;
  }

  lemma DescendPassed<N>(h: Store<N>, pre: N, cur: N, key: int)
    requires Descending(h, pre, cur, key) && Inner(h, cur) && key != h.cells[cur].key
    ensures var g, next := Extend(h, cur, key), Next(h, cur, key);
      HasLeaf(g) && g.leaf == h.leaf && g.cells.Keys == h.cells.Keys && next in g.cells && Passed(g, cur, next, key)
  {
    DescendShrinks(h, pre, cur, key);
  }

  lemma DescendStep<N>(h: Store<N>, pre: N, cur: N, key: int)
    requires Descending(h, pre, cur, key) && Inner(h, cur) && key != h.cells[cur].key
    ensures Descending(Extend(h, cur, key), cur, Next(h, cur, key), key)
  {
    DescendPassed(h, pre, cur, key);
    hide Extend, Next, Passed, Linked, Ordered, Keyed, Balanced, Calm;
    var g := Extend(h, cur, key);
    forall n | n in g.cells && n != g.leaf ensures Linked(g, n) { DescendLinks(h, pre, cur, key, n); }
    forall n | n in g.cells && n != g.leaf ensures Ordered(g, n) { DescendOrder(h, pre, cur, key, n); }
    forall n | n in g.cells && n != g.leaf && n != cur ensures Keyed(g, n) { DescendKeys(h, pre, cur, key, n); }
  }

  /** `g` is `h` with the new red node `z` over the sentinel, hung below `pre` or made the root of an empty tree. */
  ghost predicate Hung<N>(h: Store<N>, g: Store<N>, pre: N, z: N, key: int) {
    pre in h.cells && z !in h.cells && g.leaf == h.leaf && g.root == (if pre == h.leaf then z else h.root) &&
    g.cells.Keys == h.cells.Keys + {z} && g.cells[z] == Cell(true, key, pre, h.leaf, h.leaf, {key}, 1) &&
    (forall n {:trigger g.cells[n]} :: n in h.cells && (n == h.leaf || n != pre) ==> g.cells[n] == h.cells[n]) &&
    (pre != h.leaf ==>
      g.cells[pre] == if key < h.cells[pre].key then h.cells[pre].(left := z) else h.cells[pre].(right := z))
  }

  lemma AttachLinks<N>(h: Store<N>, g: Store<N>, pre: N, z: N, key: int, n: N)
    requires Descending(h, pre, h.leaf, key) && Hung(h, g, pre, z, key) && Inner(g, n)
    ensures Linked(g, n)
  {
    hide Ordered, Keyed;
    if n != z { assert Linked(h, n); }
  }

  lemma AttachKeys<N>(h: Store<N>, g: Store<N>, pre: N, z: N, key: int, n: N)
    requires Descending(h, pre, h.leaf, key) && Hung(h, g, pre, z, key) && Inner(g, n)
    ensures Ordered(g, n) && Keyed(g, n)
  {
    if n != z {
      assert Linked(h, n) && Ordered(h, n);
      if n != pre { assert Keyed(h, n); }
    }
  }

  lemma AttachColours<N>(h: Store<N>, g: Store<N>, pre: N, z: N, key: int, n: N)
    requires Descending(h, pre, h.leaf, key) && Colored(h, h.leaf) && Hung(h, g, pre, z, key) && Inner(g, n)
    ensures Balanced(g, n) && Calm(g, n, z)
  {
    hide Ordered, Keyed;
    if n != z { assert Linked(h, n) && Balanced(h, n) && Calm(h, n, h.leaf); }
  }

  lemma AttachClashes<N>(h: Store<N>, g: Store<N>, pre: N, z: N, key: int)
    requires Descending(h, pre, h.leaf, key) && Colored(h, h.leaf) && Hung(h, g, pre, z, key)
    ensures Clash(g, z) && g.root in g.cells
    ensures g.cells[g.root].keys == if pre == h.leaf then {key} else h.cells[h.root].keys
  {
    forall n | n in g.cells && n != g.leaf
      ensures Linked(g, n) && Ordered(g, n) && Keyed(g, n) && Balanced(g, n) && Calm(g, n, z)
    {
      AttachLinks(h, g, pre, z, key, n);
      AttachKeys(h, g, pre, z, key, n);
      AttachColours(h, g, pre, z, key, n);
    }
  }

  /** A search goes on in the only subtree that can hold the key. */
  lemma SearchStep<N>(h: Store<N>, n: N, key: int)
    requires Structure(h) && Inner(h, n) && key != h.cells[n].key
    ensures var next := Next(h, n, key);
      next in h.cells && h.cells[next].keys < h.cells[n].keys && (key in h.cells[n].keys <==> key in h.cells[next].keys)
  {
    assert Ordered(h, n) && Keyed(h, n);
    var c := h.cells[n];
    assert c.key in c.keys && c.key !in h.cells[c.left].keys && c.key !in h.cells[c.right].keys;
  }

  lemma ExtendPresent<N>(h: Store<N>, n: N, key: int)
    requires n in h.cells && key in h.cells[n].keys
    ensures Extend(h, n, key) == h
  {
    assert h.cells[n].keys + {key} == h.cells[n].keys;
  }

  /** Extending one node's keys leaves every other node and all links alone. */
  lemma ExtendsOne<N>(h: Store<N>, n: N, key: int)
    requires n in h.cells && h.root in h.cells
    ensures var g := Extend(h, n, key);
      g.cells.Keys == h.cells.Keys && (forall m :: m in h.cells && m != n ==> g.cells[m] == h.cells[m]) &&
      g.cells[h.root].keys == if n == h.root then h.cells[h.root].keys + {key} else h.cells[h.root].keys
  {
  }
}
