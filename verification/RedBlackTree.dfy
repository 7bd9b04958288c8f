/** Red-black tree insertion and search on heap nodes with parent links and one shared sentinel leaf
    (include/common/qredblacktree.h). */
module RedBlackTree {
  import opened Common
  import opened RedBlackStore
  import opened RedBlackShape

  const MAX_TREE_SIZE := 400000

  class Node<V(0)> {
    var red: bool
    var key: int
    var value: V
    var count: int
    var parent: Node<V>
    var left: Node<V>
    var right: Node<V>
    ghost var keys: set<int>
    ghost var blacks: nat

    /** The sentinel: black and linked to itself. */
    constructor Sentinel()
      ensures !red && keys == {} && blacks == 0 && parent == this && left == this && right == this
    {
      red, key, count := false, 0, 1;
      parent, left, right := this, this, this;
      keys, blacks := {}, 0;
    }

    constructor (k: int, v: V, p: Node<V>, leaf: Node<V>)
      ensures red && key == k && value == v && parent == p && left == leaf && right == leaf
      ensures keys == {k} && blacks == 1 && count == 1
    {
      red, key, value, count := true, k, v, 1;
      parent, left, right := p, leaf, leaf;
      keys, blacks := {k}, 1;
    }

    ghost function Fields(): Cell<Node<V>>
      reads this
    {
      Cell(red, key, parent, left, right, keys, blacks)
    }
  }

  class QRedBlackTree<V(0)> {
    var root: Node<V>
    const leaf: Node<V>
    var nodeNum: nat
    ghost var nodes: set<Node<V>>
    ghost var contents: map<int, V>
    /** The node that holds each key. */
    ghost var owner: map<int, Node<V>>

    /** The node store as a value. */
    ghost function View(): Store<Node<V>>
      reads this`root, this`nodes, nodes
    {
      Store(root, leaf, map n | n in nodes :: n.Fields())
    }

    /** How often each key was inserted, as far as insertions were asked to count. */
    ghost function Counts(): map<int, int>
      reads this`owner, this`nodes, nodes
    {
      map k | k in owner && owner[k] in nodes && owner[k].key == k :: owner[k].count
    }

    twostate lemma CountsKept()
      requires owner == old(owner) && nodes == old(nodes)
      requires forall n :: n in nodes ==> n.key == old(n.key) && n.count == old(n.count)
      ensures Counts() == old(Counts())
    {
    }

    /** A red-black tree that holds exactly `contents`. */
    ghost predicate Valid()
      reads this, nodes
    {
      leaf in nodes && RedBlack(View()) && root in View().cells && View().cells[root].keys == contents.Keys &&
      nodeNum == |contents| && Stored()
    }

    /** Every node holds what `contents` says, and no two nodes hold the same key. */
    ghost predicate Stored()
      reads this, nodes
    {
      forall n {:trigger n in nodes} :: n in nodes && n != leaf ==>
        n.key in contents && contents[n.key] == n.value && n.key in owner && owner[n.key] == n
    }

    constructor ()
      ensures Valid() && contents == map[] && fresh(nodes)
    {
      var sentinel := new Node<V>.Sentinel();
      leaf, root, nodeNum := sentinel, sentinel, 0;
      nodes, contents, owner := {sentinel}, map[], map[];
    }

    /** No two of the nodes around a rotation of `x` and its child `y` coincide, and only the parent points to `x`. */
    ghost predicate Loose(x: Node<V>, y: Node<V>)
      reads this, nodes
    {
      x in nodes && y in nodes && x != leaf && y != leaf && x != y && leaf in nodes &&
      x.parent in nodes && x.parent != x && x.parent != y && x.left in nodes && x.right in nodes &&
      y.left in nodes && y.right in nodes && y.left != x && y.left != y && y.right != x && y.right != y &&
      (x.parent != leaf ==> (x.parent.left == x <==> x.parent.right != x)) &&
      (root == x <==> x.parent == leaf) &&
      forall n :: n in nodes && n != x.parent ==> n.left != x && n.right != x
    }

    /** The assignments of a left rotation. */
    method AssignLeft(x: Node<V>)
      requires x in nodes && Loose(x, x.right) && leaf.left == leaf && leaf.right == leaf
      modifies this`root, nodes`left, nodes`right, nodes`parent, nodes`keys
      ensures var y := old(x.right);
        root == (if old(root) == x then y else old(root)) &&
        x.left == old(x.left) && x.right == old(y.left) && x.parent == y && y.left == x && y.right == old(y.right) &&
        y.parent == old(x.parent) && y.keys == old(x.keys) && x.keys == old(x.left.keys) + {x.key} + old(y.left.keys)
      ensures var y := old(x.right); var b := old(y.left);
        forall n :: n in nodes && n != x && n != y ==>
          n.parent == (if n == b && b != leaf then x else old(n.parent)) &&
          n.left == (if old(n.left) == x then y else old(n.left)) &&
          n.right == (if old(n.right) == x then y else old(n.right)) && n.keys == old(n.keys)
    {
      var y := x.right;
      ghost var keys := x.left.keys + {x.key} + y.left.keys;
      x.right := y.left;
      if y.left != leaf { y.left.parent := x; }
      y.parent := x.parent;
      if x.parent == leaf {
        root := y;
      } else if x == x.parent.left {
        x.parent.left := y;
      } else {
        x.parent.right := y;
      }
      y.left := x;
      x.parent := y;
      y.keys := x.keys;
      x.keys := keys;
    }

    method RelinkLeft(x: Node<V>)
      requires x in nodes && Loose(x, x.right) && leaf.left == leaf && leaf.right == leaf
      modifies this`root, nodes`left, nodes`right, nodes`parent, nodes`keys
      ensures root == if old(root) == x then old(x.right) else old(root)
      ensures x.Fields() == old(x.Fields()).(right := old(x.right.left), parent := old(x.right),
                keys := old(x.left.keys) + {x.key} + old(x.right.left.keys))
      ensures old(x.right).Fields() == old(x.right.Fields()).(left := x, parent := old(x.parent), keys := old(x.keys))
      ensures forall n :: n in nodes && n != x && n != old(x.right) ==>
                n.Fields() == Beside(old(n.Fields()), n, x, old(x.right), old(x.right.left), leaf)
    {
      AssignLeft(x);
    }

    /** The assignments of a right rotation. */
    method AssignRight(x: Node<V>)
      requires x in nodes && Loose(x, x.left) && leaf.left == leaf && leaf.right == leaf
      modifies this`root, nodes`left, nodes`right, nodes`parent, nodes`keys
      ensures var y := old(x.left);
        root == (if old(root) == x then y else old(root)) &&
        x.right == old(x.right) && x.left == old(y.right) && x.parent == y && y.right == x && y.left == old(y.left) &&
        y.parent == old(x.parent) && y.keys == old(x.keys) && x.keys == old(y.right.keys) + {x.key} + old(x.right.keys)
      ensures var y := old(x.left); var b := old(y.right);
        forall n :: n in nodes && n != x && n != y ==>
          n.parent == (if n == b && b != leaf then x else old(n.parent)) &&
          n.left == (if old(n.left) == x then y else old(n.left)) &&
          n.right == (if old(n.right) == x then y else old(n.right)) && n.keys == old(n.keys)
    {
      var y := x.left;
      ghost var keys := y.right.keys + {x.key} + x.right.keys;
      x.left := y.right;
      if y.right != leaf { y.right.parent := x; }
      y.parent := x.parent;
      if x.parent == leaf {
        root := y;
      } else if x == x.parent.left {
        x.parent.left := y;
      } else {
        x.parent.right := y;
      }
      y.right := x;
      x.parent := y;
      y.keys := x.keys;
      x.keys := keys;
    }

    method RelinkRight(x: Node<V>)
      requires x in nodes && Loose(x, x.left) && leaf.left == leaf && leaf.right == leaf
      modifies this`root, nodes`left, nodes`right, nodes`parent, nodes`keys
      ensures root == if old(root) == x then old(x.left) else old(root)
      ensures x.Fields() == old(x.Fields()).(left := old(x.left.right), parent := old(x.left),
                keys := old(x.left.right.keys) + {x.key} + old(x.right.keys))
      ensures old(x.left).Fields() == old(x.left.Fields()).(right := x, parent := old(x.parent), keys := old(x.keys))
      ensures forall n :: n in nodes && n != x && n != old(x.left) ==>
                n.Fields() == Beside(old(n.Fields()), n, x, old(x.left), old(x.left.right), leaf)
    {
      AssignRight(x);
    }

    lemma StructureIsLoose(x: Node<V>, y: Node<V>)
      requires leaf in nodes && Structure(View()) && x in nodes && x != leaf && y != leaf
      requires (y == x.left || y == x.right)
      ensures Loose(x, y) && leaf.left == leaf && leaf.right == leaf
    {
      var h := View();
      assert y in nodes by { assert Linked(h, x); }
      BeforeTurn(h, x, y);
      assert forall n :: n in nodes ==> h.cells[n] == n.Fields();
    }

    /** Rotates `x` down to the left; keys, values and colours stay with their nodes. */
    method LeftRotate(x: Node<V>)
      requires leaf in nodes && Structure(View()) && x in nodes && x != leaf && x.right != leaf
      modifies this`root, nodes`left, nodes`right, nodes`parent, nodes`keys
      ensures Turned(old(View()), View(), x, old(x.right), old(x.right.left))
    {
      StructureIsLoose(x, x.right);
      hide Structure, Beside;
      RelinkLeft(x);
    }

    /** Rotates `x` down to the right. */
    method RightRotate(x: Node<V>)
      requires leaf in nodes && Structure(View()) && x in nodes && x != leaf && x.left != leaf
      modifies this`root, nodes`left, nodes`right, nodes`parent, nodes`keys
      ensures Turned(old(View()), View(), x, old(x.left), old(x.left.right))
    {
      StructureIsLoose(x, x.left);
      hide Structure, Beside;
      RelinkRight(x);
    }

    method Paint(n: Node<V>, red: bool, ghost blacks: nat)
      requires n in nodes
      modifies n`red, n`blacks
      ensures View() == Painted(old(View()), n, red, blacks)
      ensures n.blacks == blacks
    {
      n.red := red;
      n.blacks := blacks;
      assert forall m :: m in nodes && m != n ==> m.Fields() == old(m.Fields());
    }

    /** Parent black, grandparent red. */
    method Repaint(p: Node<V>, g: Node<V>)
      requires p in nodes && g in nodes && p != g
      modifies p`red, p`blacks, g`red, g`blacks
      ensures View() == Repainted(old(View()), p, g)
    {
      hide Painted;
      Paint(p, false, p.blacks);
      Paint(g, true, g.blacks);
    }

    /** Black uncle, `node` and its parent both on the left: repaint and rotate the grandparent. */
    method LiftLeft(node: Node<V>, ghost p: Node<V>, ghost g: Node<V>, ghost u: Node<V>)
      requires node in nodes && p in nodes && g in nodes && leaf in nodes && u in nodes
      requires Family(View(), node, p, g, u) && !u.red && node == p.left && p == g.left
      modifies this`root, nodes`left, nodes`right, nodes`parent, nodes`keys, nodes`red, nodes`blacks
      ensures RedBlack(View()) && View().cells[root].keys == old(View().cells[root].keys)
    {
      ghost var h := View();
      assert node.parent == p && node.parent.parent == g && p != g && h.cells[p].right == p.right;
      assert h.cells[u] == u.Fields();
      RepaintKeepsStructure(h, node, p, g, u);
      hide Structure, Clash, Turned, RedBlack, Repainted;
      Repaint(node.parent, node.parent.parent);
      RightRotate(node.parent.parent);
      OuterTurn(h, node, p, g, u, h.cells[p].right, View());
    }

    /** The mirror image. */
    method LiftRight(node: Node<V>, ghost p: Node<V>, ghost g: Node<V>, ghost u: Node<V>)
      requires node in nodes && p in nodes && g in nodes && leaf in nodes && u in nodes
      requires Family(View(), node, p, g, u) && !u.red && node == p.right && p == g.right
      modifies this`root, nodes`left, nodes`right, nodes`parent, nodes`keys, nodes`red, nodes`blacks
      ensures RedBlack(View()) && View().cells[root].keys == old(View().cells[root].keys)
    {
      ghost var h := View();
      assert node.parent == p && node.parent.parent == g && p != g && h.cells[p].left == p.left;
      assert h.cells[u] == u.Fields();
      RepaintKeepsStructure(h, node, p, g, u);
      hide Structure, Clash, Turned, RedBlack, Repainted;
      Repaint(node.parent, node.parent.parent);
      LeftRotate(node.parent.parent);
      OuterTurn(h, node, p, g, u, h.cells[p].left, View());
    }

    /** Black uncle, parent on the left: at most two rotations end the fix-up. */
    method SettleLeft(z: Node<V>, ghost p: Node<V>, ghost g: Node<V>, ghost u: Node<V>)
      requires z in nodes && p in nodes && g in nodes && leaf in nodes && u in nodes
      requires Family(View(), z, p, g, u) && !u.red && p == g.left
      modifies this`root, nodes`left, nodes`right, nodes`parent, nodes`keys, nodes`red, nodes`blacks
      ensures RedBlack(View()) && View().cells[root].keys == old(View().cells[root].keys)
    {
      ghost var h := View();
      assert z.parent == p && h.cells[u] == u.Fields() && h.cells[p] == p.Fields() && h.cells[g] == g.Fields();
      if z == z.parent.right {
        var node := z.parent;
        LeftRotate(node);
        hide Structure, Clash, Turned, RedBlack;
        InnerTurn(h, z, p, g, u, h.cells[z].left, View());
        LiftLeft(node, z, g, u);
      } else {
        LiftLeft(z, p, g, u);
      }
    }

    /** Black uncle, parent on the right: at most two rotations end the fix-up. */
    method SettleRight(z: Node<V>, ghost p: Node<V>, ghost g: Node<V>, ghost u: Node<V>)
      requires z in nodes && p in nodes && g in nodes && leaf in nodes && u in nodes
      requires Family(View(), z, p, g, u) && !u.red && p == g.right
      modifies this`root, nodes`left, nodes`right, nodes`parent, nodes`keys, nodes`red, nodes`blacks
      ensures RedBlack(View()) && View().cells[root].keys == old(View().cells[root].keys)
    {
      ghost var h := View();
      assert z.parent == p && h.cells[u] == u.Fields() && h.cells[p] == p.Fields() && h.cells[g] == g.Fields();
      if z == z.parent.left {
        var node := z.parent;
        RightRotate(node);
        hide Structure, Clash, Turned, RedBlack;
        InnerTurn(h, z, p, g, u, h.cells[z].right, View());
        LiftRight(node, z, g, u);
      } else {
        LiftRight(z, p, g, u);
      }
    }

    /** Red uncle: the clash moves to the grandparent. */
    method FlipColours(p: Node<V>, u: Node<V>, g: Node<V>)
      requires p in nodes && u in nodes && g in nodes && p != g && u != g && p != u
      modifies p`red, p`blacks, u`red, u`blacks, g`red, g`blacks
      ensures View() == Flip(old(View()), p, u, g)
    {
      hide Painted;
      Paint(p, false, p.blacks);
      Paint(u, false, u.blacks);
      Paint(g, true, g.blacks + 1);
    }

    /** One pass of the fix-up loop below a red parent: either the clash moves up or the tree is repaired. */
    method FixStep(node: Node<V>) returns (next: Node<V>, repaired: bool)
      requires leaf in nodes && node in nodes && node.parent in nodes && Clash(View(), node) && node.parent.red
      modifies this`root, nodes`left, nodes`right, nodes`parent, nodes`keys, nodes`red, nodes`blacks
      ensures root in nodes && View().cells[root].keys == old(View().cells[root].keys)
      ensures repaired ==> RedBlack(View())
      ensures !repaired ==> next in nodes && Clash(View(), next) && Above(View(), next) < old(Above(View(), node))
    {
      ghost var h := View();
      Grandparent(h, node);
      ghost var p := node.parent;
      ghost var g := p.parent;
      assert h.cells[p] == p.Fields() && h.cells[g] == g.Fields();
      if node.parent == node.parent.parent.left {
        var uncle := node.parent.parent.right;
        FamilyOf(h, node, p, g, uncle);
        if uncle.red {
          FlipMovesClash(h, node, p, g, uncle);
          next, repaired := uncle.parent, false;
          FlipColours(node.parent, uncle, uncle.parent);
        } else {
          SettleLeft(node, p, g, uncle);
          next, repaired := node, true;
        }
      } else {
        var uncle := node.parent.parent.left;
        FamilyOf(h, node, p, g, uncle);
        if uncle.red {
          FlipMovesClash(h, node, p, g, uncle);
          next, repaired := uncle.parent, false;
          FlipColours(node.parent, uncle, uncle.parent);
        } else {
          SettleRight(node, p, g, uncle);
          next, repaired := node, true;
        }
      }
    }

    /** Restores the red-black properties after a red node was attached, and loses no key. */
    method InsertFixup(z: Node<V>)
      requires leaf in nodes && z in nodes && Clash(View(), z)
      modifies this`root, nodes`left, nodes`right, nodes`parent, nodes`keys, nodes`red, nodes`blacks
      ensures root in nodes && RedBlack(View()) && root in View().cells
      ensures View().cells[root].keys == old(View().cells[root].keys)
    {
      var node, repaired := z, false;
      ParentStored(View(), z);
      while node.parent.red
        invariant node in nodes && node.parent in nodes && root in nodes && Clash(View(), node)
        invariant View().cells[root].keys == old(View().cells[root].keys)
        decreases Above(View(), node)
      {
        node, repaired := FixStep(node);
        if repaired { break; }
        ParentStored(View(), node);
      }
      ghost var h := View();
      Paint(root, false, root.blacks);
      Settled(h, if repaired then leaf else node, View());
    }

    /** On the way down with `key`: `pre` was passed last, `cur` is next, and only `cur`'s subtree can hold `key`. */
    ghost predicate OnTheWay(pre: Node<V>, cur: Node<V>, key: int)
      reads this, nodes
    {
      leaf in nodes && pre in nodes && cur in nodes && root in nodes && root in View().cells &&
      Descending(View(), pre, cur, key) && Colored(View(), leaf) &&
      View().cells[root].keys == (if pre == leaf then contents.Keys else contents.Keys + {key}) &&
      (key in contents <==> key in cur.keys)
    }

    lemma WayFacts(pre: Node<V>, cur: Node<V>, key: int)
      requires OnTheWay(pre, cur, key)
      ensures leaf in nodes && pre in nodes && cur in nodes && leaf.keys == {}
      ensures cur == leaf && pre == leaf ==> contents.Keys == {}
    {
      assert View().cells[leaf] == leaf.Fields();
    }

    lemma WayStore(pre: Node<V>, cur: Node<V>, key: int)
      requires OnTheWay(pre, cur, key)
      ensures var h := View();
        Descending(h, pre, cur, key) && Colored(h, leaf) && h.leaf == leaf && h.root == root && root in nodes &&
        root in h.cells && h.cells[root].keys == if pre == leaf then contents.Keys else contents.Keys + {key}
    {
    }

    lemma StartDown(key: int)
      requires Valid()
      ensures OnTheWay(leaf, root, key)
    {
      assert View().cells[root] == root.Fields();
    }

    method DescendOnce(pre: Node<V>, cur: Node<V>, key: int) returns (next: Node<V>)
      requires OnTheWay(pre, cur, key) && cur != leaf && cur.key != key
      modifies cur`keys
      ensures OnTheWay(cur, next, key) && next.keys < old(cur.keys)
      ensures key in contents ==> View() == old(View())
    {
      ghost var h := View();
      assert h.cells[cur] == cur.Fields();
      DescendShrinks(h, pre, cur, key);
      DescendStep(h, pre, cur, key);
      ExtendKeepsColours(h, cur, key);
      ExtendsOne(h, cur, key);
      if key in cur.keys { ExtendPresent(h, cur, key); }
      hide Descending, Colored, Extend;
      Mark(cur, key);
      if key < cur.key { next := cur.left; } else { next := cur.right; }
    }

    /** The descent of an insertion: the node that holds `key`, or the sentinel and the node to hang it under. */
    method FindSlot(key: int) returns (pre: Node<V>, cur: Node<V>)
      requires Valid()
      modifies nodes`keys
      ensures pre in nodes && cur in nodes && (cur == leaf <==> key !in contents)
      ensures key in contents ==> View() == old(View()) && cur.key == key
      ensures key !in contents ==> OnTheWay(pre, leaf, key)
    {
      pre, cur := leaf, root;
      StartDown(key);
      hide View, RedBlack, OnTheWay;
      while cur != leaf
        invariant OnTheWay(pre, cur, key) && (key in contents ==> View() == old(View()))
        decreases cur.keys
      {
        WayFacts(pre, cur, key);
        if cur.key == key { return; }
        var next := DescendOnce(pre, cur, key);
        pre, cur := cur, next;
      }
      WayFacts(pre, cur, key);
      LeafHasNoKey(pre, key);
    }

    lemma LeafHasNoKey(pre: Node<V>, key: int)
      requires OnTheWay(pre, leaf, key)
      ensures key !in contents
    {
      WayFacts(pre, leaf, key);
    }

    ghost method Mark(n: Node<V>, key: int)
      requires n in nodes
      modifies n`keys
      ensures View() == Extend(old(View()), n, key)
      ensures n.keys == old(n.keys) + {key}
    {
      n.keys := n.keys + {key};
      assert forall m :: m in nodes && m != n ==> m.Fields() == old(m.Fields());
    }

    /** The assignments that hang a new node under `pre`. */
    method Hang(pre: Node<V>, key: int, value: V) returns (z: Node<V>)
      requires leaf in nodes && pre in nodes
      modifies this`root, pre`left, pre`right
      ensures fresh(z) && z.key == key && z.value == value && z.count == 1
      ensures root == if pre == leaf then z else old(root)
      ensures z.Fields() == Cell(true, key, pre, leaf, leaf, {key}, 1)
      ensures forall m :: m in nodes && (m == leaf || m != pre) ==> m.Fields() == old(m.Fields())
      ensures pre != leaf && key < pre.key ==> pre.Fields() == old(pre.Fields()).(left := z)
      ensures pre != leaf && key >= pre.key ==> pre.Fields() == old(pre.Fields()).(right := z)
    {
      z := new Node<V>(key, value, pre, leaf);
      if pre == leaf {
        root := z;
      } else if key < pre.key {
        pre.left := z;
      } else {
        pre.right := z;
      }
    }

    method Attach(pre: Node<V>, key: int, value: V) returns (z: Node<V>)
      requires leaf in nodes && pre in nodes && root in nodes
      modifies this`root, this`nodes, pre`left, pre`right
      ensures fresh(z) && nodes == old(nodes) + {z} && z.key == key && z.value == value && z.count == 1
      ensures Hung(old(View()), View(), pre, z, key) && root in nodes && View().root == root && root in View().cells
    {
      z := Hang(pre, key, value);
      nodes := nodes + {z};
    }

    method Overwrite(n: Node<V>, value: V)
      requires Valid() && n in nodes && n != leaf
      modifies this`contents, n`value
      ensures Valid() && contents == old(contents)[n.key := value] && Counts() == old(Counts())
    {
      n.value := value;
      contents := contents[n.key := value];
      CountsKept();
      assert forall m :: m in nodes ==> m.Fields() == old(m.Fields());
      assert View() == old(View());
      assert contents.Keys == old(contents.Keys);
    }

    /** Hangs a new node under `pre`; it may clash with its parent. */
    method AttachNode(pre: Node<V>, key: int, value: V) returns (z: Node<V>)
      requires OnTheWay(pre, leaf, key)
      modifies this`root, this`nodes, pre`left, pre`right
      ensures fresh(z) && nodes == old(nodes) + {z} && z.key == key && z.value == value && z.count == 1
      ensures root in nodes && Clash(View(), z) && root in View().cells
      ensures View().cells[root].keys == contents.Keys + {key}
    {
      ghost var h := View();
      WayFacts(pre, leaf, key);
      WayStore(pre, leaf, key);
      hide View, Colored, Clash, Descending, Hung, OnTheWay;
      z := Attach(pre, key, value);
      AttachClashes(h, View(), pre, z, key);
    }

    /** The same, with the books brought up to date. */
    method AddNode(pre: Node<V>, key: int, value: V) returns (z: Node<V>)
      requires OnTheWay(pre, leaf, key) && Stored() && key !in contents
      modifies this`root, this`nodes, this`contents, this`owner, pre`left, pre`right
      ensures fresh(z) && nodes == old(nodes) + {z} && root in nodes && Clash(View(), z) && root in View().cells
      ensures contents == old(contents)[key := value] && View().cells[root].keys == contents.Keys && Stored()
      ensures Counts() == old(Counts())[key := 1]
    {
      hide View, Clash, OnTheWay;
      z := AttachNode(pre, key, value);
      assert forall n :: n in old(nodes) ==> n.key == old(n.key) && n.count == old(n.count);
      contents, owner := contents[key := value], owner[key := z];
    }

    /** The fix-up touches neither keys, values nor counts. */
    method Repair(z: Node<V>)
      requires leaf in nodes && z in nodes && Clash(View(), z) && Stored()
      modifies this`root, nodes`left, nodes`right, nodes`parent, nodes`keys, nodes`red, nodes`blacks
      ensures root in nodes && RedBlack(View()) && root in View().cells && Stored()
      ensures View().cells[root].keys == old(View().cells[root].keys) && Counts() == old(Counts())
    {
      hide View, RedBlack, Clash, Counts;
      InsertFixup(z);
      CountsKept();
    }

    method InsertNew(pre: Node<V>, key: int, value: V)
      requires OnTheWay(pre, leaf, key) && Stored() && key !in contents && nodeNum == |contents|
      modifies this`root, this`nodeNum, this`nodes, this`contents, this`owner, nodes
      ensures Valid() && fresh(nodes - old(nodes))
      ensures contents == old(contents)[key := value] && nodeNum == old(nodeNum) + 1
      ensures Counts() == old(Counts())[key := 1]
    {
      hide View, RedBlack, Clash, OnTheWay, Counts;
      WayFacts(pre, leaf, key);
      var z := AddNode(pre, key, value);
      Repair(z);
      nodeNum := nodeNum + 1;
    }

    /** One more insertion of a key that is there. */
    method CountUp(n: Node<V>)
      requires Valid() && n in nodes && n != leaf
      modifies n`count
      ensures Valid() && n.key in old(Counts()) && Counts() == old(Counts())[n.key := old(Counts())[n.key] + 1]
    {
      n.count := n.count + 1;
      assert forall m :: m in nodes ==> m.Fields() == old(m.Fields());
      assert View() == old(View());
    }

    /** Takes back what a descent noted on its way. */
    ghost method Unmark(saved: map<Node<V>, set<int>>)
      requires nodes == saved.Keys
      modifies nodes`keys
      ensures forall n :: n in nodes ==> n.keys == saved[n]
    {
      forall n | n in nodes { n.keys := saved[n]; }
    }

    /** A new key is added; a present key is reported with code 1 and overwritten, or else counted, only on request.
        A tree over the size limit refuses every insertion; `memoryLeft` says whether a node can be had. */
    method Insert(key: int, value: V, cover: bool, count: bool, memoryLeft: bool) returns (code: int)
      requires Valid()
      modifies this`root, this`nodeNum, this`nodes, this`contents, this`owner, nodes
      ensures Valid() && fresh(nodes - old(nodes))
      ensures old(nodeNum) > 400000 ==> code == -10 && contents == old(contents)
      ensures old(nodeNum) <= 400000 && key in old(contents) ==>
                code == 1 && contents == if cover then old(contents)[key := value] else old(contents)
      ensures old(nodeNum) <= 400000 && key !in old(contents) && memoryLeft ==>
                code == 0 && contents == old(contents)[key := value] && nodeNum == old(nodeNum) + 1
      ensures old(nodeNum) <= 400000 && key !in old(contents) && !memoryLeft ==>
                code == -1 && contents == old(contents) && nodeNum == old(nodeNum)
      ensures code == 1 && !cover && count ==> key in old(Counts())
      ensures Counts() == (if code == 0 then old(Counts())[key := 1]
        else if code == 1 && !cover && count && key in old(Counts()) then old(Counts())[key := old(Counts())[key] + 1]
        else old(Counts()))
    {
      hide View, RedBlack, OnTheWay, Counts;
      if nodeNum > MAX_TREE_SIZE { return -10; }
      ghost var saved := map n | n in nodes :: n.keys;
      var pre, cur := FindSlot(key);
      if cur != leaf {
        CountsKept();
        if cover { Overwrite(cur, value); } else if count { CountUp(cur); }
        return 1;
      }
      if !memoryLeft {
        Unmark(saved);
        SameView(saved);
        CountsKept();
        return -1;
      }
      CountsKept();
      InsertNew(pre, key, value);
      code := 0;
    }

    twostate lemma SameView(saved: map<Node<V>, set<int>>)
      requires old(Valid()) && saved == old(map n | n in nodes :: n.keys) && root == old(root) && nodes == old(nodes)
      requires contents == old(contents) && owner == old(owner) && nodeNum == old(nodeNum)
      requires forall n :: n in nodes ==> n.keys == saved[n]
      requires forall n :: n in nodes ==> n.red == old(n.red) && n.key == old(n.key) && n.value == old(n.value)
      requires forall n :: n in nodes ==> n.parent == old(n.parent) && n.left == old(n.left) && n.right == old(n.right)
      requires forall n :: n in nodes ==> n.blacks == old(n.blacks)
      ensures Valid()
    {
      assert forall n :: n in nodes ==> n.Fields() == old(n.Fields());
      assert View() == old(View());
    }

    /** Finds exactly the keys that were inserted, with their values. */
    method Search(key: int) returns (r: Option<V>)
      requires Valid()
      ensures r == if key in contents then Some(contents[key]) else None
    {
      var node := root;
      while node != leaf
        invariant node in nodes && (key in contents <==> key in node.keys)
        decreases node.keys
      {
        if key == node.key { return Some(node.value); }
        ghost var h := View();
        assert h.cells[node] == node.Fields();
        SearchStep(h, node, key);
        if key < node.key { node := node.left; } else { node := node.right; }
      }
      r := None;
    }

    /** What `Valid` means for the tree as a whole. */
    lemma ValidTree()
      requires Valid()
      ensures var t := TreeOf(View(), root);
        Keys(t) == contents.Keys && Size(t) == nodeNum && SearchOrder(t) && !IsRed(t) && NoRedPair(t) &&
        (exists b :: BlackCounts(t) == {b}) && Pow2(Height(t)) <= (nodeNum + 1) * (nodeNum + 1)
    {
      StoreTree(View(), root);
      var t, b := TreeOf(View(), root), Count(View().cells[root]);
      assert |contents.Keys| == |contents|;
      HeightBound(t, b);
    }
  }
}
