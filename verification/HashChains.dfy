/** The bucket chains of the hash table as a value: heads, chunk contents, and the order of each chain. */
module HashChains {
  import opened Common
  import opened PoolAllocator

  /** What a chunk holds: link to the next chunk, key, value. */
  datatype Node<D> = Node(next: Option<Address>, key: int, data: D)

  /** `chains` lists each bucket's chunks from its head; `place` tells which chunk holds a key. */
  datatype View<D> = View(
    heads: seq<Option<Address>>,
    nodes: map<Address, Node<D>>,
    chains: seq<seq<Address>>,
    place: map<int, Address>)

  /** The remainder without its sign. */
  function Bucket(key: int, size: int): (b: int)
    requires size > 0
    ensures 0 <= b < size
  {
    (if key < 0 then -key else key) % size
  }

  function At(list: seq<Address>, i: nat): Option<Address> {
    if i < |list| then Some(list[i]) else None
  }

  ghost predicate Linked<D>(v: View<D>, b: int, i: int) {
    && 0 <= b < |v.chains| && 0 <= i < |v.chains[b]|
    && var a := v.chains[b][i];
    a in v.nodes && v.nodes[a].next == At(v.chains[b], i + 1) && Bucket(v.nodes[a].key, |v.chains|) == b
  }

  ghost predicate Bucketed<D>(v: View<D>, b: int) {
    && 0 <= b < |v.chains| == |v.heads|
    && v.heads[b] == At(v.chains[b], 0)
    && (forall i :: 0 <= i < |v.chains[b]| ==> Linked(v, b, i))
    && (forall i, j :: 0 <= i < j < |v.chains[b]| ==> v.chains[b][i] != v.chains[b][j])
  }

  ghost predicate Placed<D>(v: View<D>, k: int) {
    && k in v.place && v.place[k] in v.nodes && v.nodes[v.place[k]].key == k
    && |v.chains| > 0 && v.place[k] in v.chains[Bucket(k, |v.chains|)]
  }

  ghost predicate Formed<D>(v: View<D>) {
    && |v.chains| == |v.heads| > 0
    && (forall b {:trigger Bucketed(v, b)} :: 0 <= b < |v.chains| ==> Bucketed(v, b))
    && (forall k {:trigger Placed(v, k)} :: k in v.place ==> Placed(v, k))
    && (forall a {:trigger v.nodes[a].key} :: a in v.nodes ==>
         v.nodes[a].key in v.place && v.place[v.nodes[a].key] == a)
  }

  /** The finite map the table stands for. */
  ghost function Contents<D>(v: View<D>): map<int, D>
    requires Formed(v)
  {
    map k | k in v.place :: assert Placed(v, k); v.nodes[v.place[k]].data
  }

  // ---------------------------------------------------------------- adding

  ghost function Added<D>(v: View<D>, a: Address, key: int, data: D): View<D>
    requires Formed(v)
  {
    var b := Bucket(key, |v.heads|);
    View(v.heads[b := Some(a)], v.nodes[a := Node(v.heads[b], key, data)],
         v.chains[b := [a] + v.chains[b]], v.place[key := a])
  }

  lemma AddedBucket<D>(v: View<D>, a: Address, key: int, data: D, c: int)
    requires Formed(v) && a !in v.nodes && key !in v.place && 0 <= c < |v.chains|
    ensures Bucketed(Added(v, a, key, data), c)
  {
    var w, b := Added(v, a, key, data), Bucket(key, |v.heads|);
    assert Bucketed(v, c);
    forall i | 0 <= i < |w.chains[c]| ensures Linked(w, c, i) && (i > 0 || c != b ==> w.chains[c][i] != a) {
      if c == b {
        if i > 0 { assert Linked(v, c, i - 1); }
      } else {
        assert Linked(v, c, i);
      }
    }
  }

  /** Linking a fresh chunk in front of its bucket adds one key. */
  lemma AddedFormed<D>(v: View<D>, a: Address, key: int, data: D)
    requires Formed(v) && a !in v.nodes && key !in v.place
    ensures Formed(Added(v, a, key, data))
    ensures Contents(Added(v, a, key, data)) == Contents(v)[key := data]
  {
    var w, b := Added(v, a, key, data), Bucket(key, |v.heads|);
    forall c | 0 <= c < |w.chains| ensures Bucketed(w, c) { AddedBucket(v, a, key, data, c); }
    forall k | k in w.place ensures Placed(w, k) {
      if k != key {
        assert Placed(v, k);
        assert v.place[k] in w.chains[Bucket(k, |v.chains|)];
      } else {
        assert w.chains[b][0] == a;
      }
    }
    forall k | k in w.place ensures Contents(w)[k] == Contents(v)[key := data][k] {
      if k != key { assert Placed(v, k); }
    }
  }

  // ---------------------------------------------------------------- updating

  ghost function Updated<D>(v: View<D>, a: Address, data: D): View<D>
    requires a in v.nodes
  {
    v.(nodes := v.nodes[a := v.nodes[a].(data := data)])
  }

  lemma UpdatedFormed<D>(v: View<D>, a: Address, data: D)
    requires Formed(v) && a in v.nodes
    ensures Formed(Updated(v, a, data))
    ensures Contents(Updated(v, a, data)) == Contents(v)[v.nodes[a].key := data]
  {
    var w := Updated(v, a, data);
    forall b | 0 <= b < |w.chains| ensures Bucketed(w, b) {
      assert Bucketed(v, b);
      forall i | 0 <= i < |w.chains[b]| ensures Linked(w, b, i) { assert Linked(v, b, i); }
    }
    forall k | k in w.place ensures Placed(w, k) { assert Placed(v, k); }
    forall k | k in w.place ensures Contents(w)[k] == Contents(v)[v.nodes[a].key := data][k] { assert Placed(v, k); }
  }

  // ---------------------------------------------------------------- removing

  /** Chain `b` without its `j`-th chunk: the link before it, or the head, skips it. */
  ghost function Removed<D>(v: View<D>, b: int, j: int): View<D>
    requires Formed(v) && 0 <= b < |v.chains| && 0 <= j < |v.chains[b]| && Linked(v, b, j)
    requires (j > 0 ==> Linked(v, b, j - 1))
  {
    var chain := v.chains[b];
    var a := chain[j];
    var heads := if j == 0 then v.heads[b := v.nodes[a].next] else v.heads;
    var nodes := if j == 0 then v.nodes else v.nodes[chain[j - 1] := v.nodes[chain[j - 1]].(next := v.nodes[a].next)];
    View(heads, nodes - {a}, v.chains[b := chain[..j] + chain[j + 1..]], v.place - {v.nodes[a].key})
  }

  lemma InOneChain<D>(v: View<D>, b: int, i: int, c: int, j: int)
    requires Formed(v) && Linked(v, b, i) && Linked(v, c, j) && v.chains[b][i] == v.chains[c][j]
    ensures b == c && i == j
  {
    assert Bucketed(v, b);
  }

  lemma RemovedLinks<D>(v: View<D>, b: int, j: int, c: int, i: int)
    requires Formed(v) && Linked(v, b, j) && (j > 0 ==> Linked(v, b, j - 1))
    requires 0 <= c < |v.chains| && 0 <= i < |Removed(v, b, j).chains[c]|
    ensures Linked(Removed(v, b, j), c, i)
  {
    var w := Removed(v, b, j);
    assert Bucketed(v, c) && Bucketed(v, b);
    var i0 := if c == b && i >= j then i + 1 else i;
    assert Linked(v, c, i0) && w.chains[c][i] == v.chains[c][i0];
    if v.chains[c][i0] == v.chains[b][j] { InOneChain(v, c, i0, b, j); }
    if j > 0 && v.chains[c][i0] == v.chains[b][j - 1] { InOneChain(v, c, i0, b, j - 1); }
  }

  lemma RemovedBuckets<D>(v: View<D>, b: int, j: int, c: int)
    requires Formed(v) && Linked(v, b, j) && (j > 0 ==> Linked(v, b, j - 1)) && 0 <= c < |v.chains|
    ensures Bucketed(Removed(v, b, j), c)
  {
    var w := Removed(v, b, j);
    assert Bucketed(v, c) && Bucketed(v, b);
    forall i | 0 <= i < |w.chains[c]| ensures Linked(w, c, i) { RemovedLinks(v, b, j, c, i); }
  }

  lemma RemovedPlaces<D>(v: View<D>, b: int, j: int, k: int)
    requires Formed(v) && Linked(v, b, j) && (j > 0 ==> Linked(v, b, j - 1)) && k in Removed(v, b, j).place
    ensures Placed(Removed(v, b, j), k) && Removed(v, b, j).nodes[v.place[k]].data == v.nodes[v.place[k]].data
  {
    var w, a := Removed(v, b, j), v.chains[b][j];
    assert Placed(v, k);
    var c := Bucket(k, |v.chains|);
    var i :| 0 <= i < |v.chains[c]| && v.chains[c][i] == v.place[k];
    assert v.place[k] != a;
    if c == b {
      assert i != j;
      var i1 := if i < j then i else i - 1;
      assert w.chains[c][i1] == v.place[k];
    }
  }

  /** Unlinking a chunk removes exactly its key. */
  lemma RemovedFormed<D>(v: View<D>, b: int, j: int)
    requires Formed(v) && Linked(v, b, j) && (j > 0 ==> Linked(v, b, j - 1))
    ensures Formed(Removed(v, b, j))
    ensures Contents(Removed(v, b, j)) == Contents(v) - {v.nodes[v.chains[b][j]].key}
  {
    hide Bucketed;
    var w := Removed(v, b, j);
    forall c | 0 <= c < |w.chains| ensures Bucketed(w, c) { RemovedBuckets(v, b, j, c); }
    forall k | k in w.place ensures Placed(w, k) { RemovedPlaces(v, b, j, k); }
    forall k | k in w.place ensures Contents(w)[k] == Contents(v)[k] {
      assert Placed(v, k);
      RemovedPlaces(v, b, j, k);
    }
  }

  // ---------------------------------------------------------------- walking

  /** All chunks from bucket `b` on. */
  ghost function From<D>(v: View<D>, b: int): seq<Address>
    requires 0 <= b <= |v.chains|
    decreases |v.chains| - b
  {
    if b == |v.chains| then [] else v.chains[b] + From(v, b + 1)
  }

  lemma {:induction false} FromNodes<D>(v: View<D>, b: int, a: Address)
    requires Formed(v) && 0 <= b <= |v.chains|
    ensures a in From(v, b) <==> a in v.nodes && Bucket(v.nodes[a].key, |v.chains|) >= b
    decreases |v.chains| - b
  {
    if b < |v.chains| {
      FromNodes(v, b + 1, a);
      assert Bucketed(v, b);
      if a in v.chains[b] {
        var i :| 0 <= i < |v.chains[b]| && v.chains[b][i] == a;
        assert Linked(v, b, i);
      }
      if a in v.nodes && Bucket(v.nodes[a].key, |v.chains|) == b { assert Placed(v, v.nodes[a].key); }
    }
  }

  ghost predicate Distinct<T>(s: seq<T>) {
    forall i, j :: 0 <= i < j < |s| ==> s[i] != s[j]
  }

  lemma {:induction false} FromDistinct<D>(v: View<D>, b: int)
    requires Formed(v) && 0 <= b <= |v.chains|
    ensures Distinct(From(v, b))
    decreases |v.chains| - b
  {
    if b < |v.chains| {
      FromDistinct(v, b + 1);
      assert Bucketed(v, b);
      forall i | 0 <= i < |v.chains[b]| ensures v.chains[b][i] !in From(v, b + 1) {
        assert Linked(v, b, i);
        FromNodes(v, b + 1, v.chains[b][i]);
      }
    }
  }

  ghost predicate AllIn<D>(v: View<D>, s: seq<Address>) {
    forall i :: 0 <= i < |s| ==> s[i] in v.nodes
  }

  ghost function KeysOf<D>(v: View<D>, s: seq<Address>): seq<int>
    requires AllIn(v, s)
  {
    seq(|s|, i requires 0 <= i < |s| => v.nodes[s[i]].key)
  }

  /** A walk over all buckets meets every key of the map, and none twice. */
  lemma WalkMeetsAll<D>(v: View<D>)
    requires Formed(v)
    ensures AllIn(v, From(v, 0))
    ensures Distinct(KeysOf(v, From(v, 0)))
    ensures forall k :: k in KeysOf(v, From(v, 0)) <==> k in Contents(v)
  {
    var all := From(v, 0);
    forall a ensures a in all <==> a in v.nodes { FromNodes(v, 0, a); }
    FromDistinct(v, 0);
    var keys := KeysOf(v, all);
    forall i, j | 0 <= i < j < |keys| ensures keys[i] != keys[j] {
      assert all[i] in v.nodes && all[j] in v.nodes;
    }
    forall k | k in Contents(v) ensures k in keys {
      assert Placed(v, k);
      var i :| 0 <= i < |all| && all[i] == v.place[k];
      assert keys[i] == k;
    }
  }
}
