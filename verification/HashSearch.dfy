/** The chained hash table with fixed-length values, on chunks of a pool allocator. */
module HashSearch {
  import opened Common
  import opened PoolAllocator
  import opened HashChains

  const POINTER_AND_KEY := 16
  const MAX_BLOCKS := 1000
  const CHUNKS_PER_BLOCK := 1000

  class QHashSearch<D> {
    var bucketSize: int
    var heads: seq<Option<Address>>
    var nodes: map<Address, Node<D>>
    const allocator: QPoolAllocator
    var dataNum: int
    var traversalIndex: int
    var traversalPos: Option<Address>
    ghost var chains: seq<seq<Address>>
    ghost var place: map<int, Address>
    ghost var cursor: nat

    ghost function Chains(): View<D>
      reads this
    {
      View(heads, nodes, chains, place)
    }

    /** The chunks in use are those the allocator counts as live. */
    ghost predicate Owned()
      reads this, allocator
    {
      Owns(nodes.Keys, allocator.live)
    }

    ghost predicate Valid()
      reads this, allocator
    {
      bucketSize == |heads| && Formed(Chains()) && allocator.Valid() && Owned() && dataNum == |place| && Sized()
    }

    ghost predicate Sized()
      reads allocator
    {
      allocator.maxBlockNum == 1000 && allocator.maxChunkNum == 1000
    }

    /** The finite map from keys to values that the table implements. */
    ghost function Map(): map<int, D>
      requires Valid()
      reads this, allocator
    {
      Contents(Chains())
    }

    /** The number of elements is the size of the map. */
    lemma Counted()
      requires Valid()
      ensures dataNum == |Map()|
    {
      assert Map().Keys == place.Keys;
      assert |place| == |place.Keys| && |Map()| == |Map().Keys|;
    }

    constructor (bucketSize: int, dataLen: nat)
      requires bucketSize > 0
      ensures Valid() && Map() == map[] && fresh(allocator) && Walking() && Remaining() == []
    {
      var pool := new QPoolAllocator();
      var ret := pool.Init(POINTER_AND_KEY + dataLen, MAX_BLOCKS, CHUNKS_PER_BLOCK, true);
      allocator := pool;
      this.bucketSize := bucketSize;
      new;
      hide Formed, Chain, Issued, From, Contents;
      Empty();
    }

    /** The bucket to look in: the one the caller names, or the key's own when the caller names none. */
    predicate Named(key: int, index: int)
      requires bucketSize > 0
      reads this`bucketSize
    {
      index < 0 || index == Bucket(key, bucketSize)
    }

    /** Walks the key's bucket. */
    method Find(key: int, index: int) returns (p: Option<Address>)
      requires Valid() && Named(key, index)
      ensures p == if key in place then Some(place[key]) else None
      ensures key in place ==> place[key] in nodes && nodes[place[key]].key == key
    {
      var b := if index < 0 then Bucket(key, bucketSize) else index;
      ghost var v := Chains();
      assert Bucketed(v, b);
      p := heads[b];
      ghost var j: nat := 0;
      while p.Some?
        invariant j <= |chains[b]| && p == At(chains[b], j)
        invariant forall i :: 0 <= i < j ==> chains[b][i] in nodes && nodes[chains[b][i]].key != key
        decreases |chains[b]| - j
      {
        assert Linked(v, b, j);
        if nodes[p.value].key == key { return; }
        p := nodes[p.value].next;
        j := j + 1;
      }
      NotPlaced(v, key);
    }

    /** While there is memory, the table is full with a million keys. */
    lemma FullExactly()
      requires Valid()
      ensures allocator.Exhausted(true) <==> |Map()| == 1000000
    {
      hide Formed, Chain, Issued, Owns;
      allocator.ExhaustedExactly();
      SameCounts(Chains());
      OwnsCount(nodes.Keys, allocator.live);
      Counted();
    }

    /** 1 when the key is there already, -1 when no chunk can be had, 0 when it was added.
        Without a value the new chunk keeps the bytes it holds, `stale`. */
    method AddKey(key: int, data: Option<D>, index: int, memoryLeft: bool, stale: D) returns (code: int)
      requires Valid() && Named(key, index)
      modifies this`heads, this`nodes, this`dataNum, this`chains, this`place, allocator
      ensures Valid()
      ensures key in old(Map()) ==> code == 1
      ensures key !in old(Map()) ==> code == if old(allocator.Exhausted(memoryLeft)) then -1 else 0
      ensures memoryLeft && key !in old(Map()) ==> (code == -1 <==> |old(Map())| == 1000000)
      ensures Map() == if code == 0 then old(Map())[key := Copied(data, stale)] else old(Map())
    {
      hide Formed, Chain, Issued, Owns, Contents, Bucket, Copied;
      FullExactly();
      SizesOf(Chains());
      var p := Find(key, index);
      ghost var v := Chains();
      SameKeys(v, key);
      if p.Some? { return 1; }
      p := TakeChunk(memoryLeft);
      if p == None { return -1; }
      var a, b := p.value, if index < 0 then Bucket(key, bucketSize) else index;
      AddedFormed(v, a, key, Copied(data, stale));
      Link(b, a, key, Copied(data, stale));
      code := 0;
    }

    /** A chunk that holds nothing yet. */
    method TakeChunk(memoryLeft: bool) returns (p: Option<Address>)
      requires allocator.Valid() && Owned()
      modifies allocator
      ensures allocator.Valid()
      ensures allocator.maxBlockNum == old(allocator.maxBlockNum) && allocator.maxChunkNum == old(allocator.maxChunkNum)
      ensures p == None <==> old(allocator.Exhausted(memoryLeft))
      ensures p == None ==> Owned()
      ensures p.Some? ==> p.value !in nodes && Owns(nodes.Keys + {p.value}, allocator.live)
    {
      hide Chain, Issued, Owns;
      p := allocator.Alloc(memoryLeft);
      if p.Some? { OwnsMore(nodes.Keys, old(allocator.live), p.value); }
    }

    method Link(b: int, a: Address, key: int, data: D)
      requires bucketSize == |heads| && Formed(Chains()) && b == Bucket(key, bucketSize)
      requires a !in nodes && key !in place && dataNum == |place|
      modifies this`heads, this`nodes, this`dataNum, this`chains, this`place
      ensures Chains() == Added(old(Chains()), a, key, data) && dataNum == |place| && bucketSize == |heads|
      ensures nodes.Keys == old(nodes.Keys) + {a}
    {
      nodes := nodes[a := Node(heads[b], key, data)];
      heads := heads[b := Some(a)];
      dataNum := dataNum + 1;
      chains, place := chains[b := [a] + chains[b]], place[key := a];
    }

    /** Finds exactly the keys of the map, with their values. */
    method SearchKey(key: int, index: int) returns (code: int, data: Option<D>)
      requires Valid() && Named(key, index)
      ensures key in Map() ==> code == 0 && data == Some(Map()[key])
      ensures key !in Map() ==> code == -1 && data == None
    {
      var p := Find(key, index);
      if p == None { return -1, None; }
      assert Placed(Chains(), key);
      code, data := 0, Some(nodes[p.value].data);
    }

    method UpdateKey(key: int, data: Option<D>, index: int) returns (code: int)
      requires Valid() && Named(key, index)
      modifies this`nodes
      ensures Valid()
      ensures key in old(Map()) ==> code == 0 && Map() == old(Map())[key := Copied(data, old(Map())[key])]
      ensures key !in old(Map()) ==> code == -1 && Map() == old(Map())
    {
      var p := Find(key, index);
      if p == None { return -1; }
      assert Placed(Chains(), key);
      var value := Copied(data, nodes[p.value].data);
      UpdatedFormed(Chains(), p.value, value);
      nodes := nodes[p.value := nodes[p.value].(data := value)];
      code := 0;
    }

    /** Unlinks the key's chunk and returns it to the allocator. */
    method DeleteKey(key: int, index: int) returns (code: int)
      requires Valid() && Named(key, index)
      modifies this`heads, this`nodes, this`dataNum, this`chains, this`place, allocator
      ensures Valid()
      ensures code == if key in old(Map()) then 0 else -1
      ensures Map() == old(Map()) - {key}
    {
      var b := if index < 0 then Bucket(key, bucketSize) else index;
      ghost var v := Chains();
      assert Bucketed(v, b);
      var p := heads[b];
      var q: Option<Address> := None;
      ghost var j: nat := 0;
      while p.Some?
        invariant j <= |chains[b]| && p == At(chains[b], j) && q == (if j == 0 then None else Some(chains[b][j - 1]))
        invariant forall i :: 0 <= i < j ==> chains[b][i] in nodes && nodes[chains[b][i]].key != key
        invariant Chains() == v && Valid() && unchanged(allocator)
        decreases |chains[b]| - j
      {
        assert Linked(v, b, j);
        if nodes[p.value].key == key {
          assert j > 0 ==> Linked(v, b, j - 1);
          Unlink(b, q, p.value, j);
          return 0;
        }
        q := p;
        p := nodes[p.value].next;
        j := j + 1;
      }
      NotPlaced(v, key);
      NoKey(v, key);
      code := -1;
    }

    /** The link that led to the chunk now skips it. */
    method Unlink(b: int, q: Option<Address>, a: Address, ghost j: nat)
      requires Valid() && Linked(Chains(), b, j) && chains[b][j] == a && (j > 0 ==> Linked(Chains(), b, j - 1))
      requires q == if j == 0 then None else Some(chains[b][j - 1])
      modifies this`heads, this`nodes, this`dataNum, this`chains, this`place, allocator
      ensures Valid() && Map() == old(Map()) - {old(nodes)[a].key} && old(nodes)[a].key in old(Map())
    {
      hide Chain, Issued, Owns, Contents, Bucketed, Placed;
      ghost var v, k := Chains(), nodes[a].key;
      RemovedFormed(v, b, j);
      SameKeys(v, k);
      OwnsLess(nodes.Keys, allocator.live, a);
      Skip(b, q, a, j);
      allocator.Free(a);
    }

    method Skip(b: int, q: Option<Address>, a: Address, ghost j: nat)
      requires bucketSize == |heads| && Formed(Chains()) && dataNum == |place|
      requires Linked(Chains(), b, j) && chains[b][j] == a && (j > 0 ==> Linked(Chains(), b, j - 1))
      requires q == if j == 0 then None else Some(chains[b][j - 1])
      modifies this`heads, this`nodes, this`dataNum, this`chains, this`place
      ensures Chains() == Removed(old(Chains()), b, j) && dataNum == |place| && bucketSize == |heads|
      ensures nodes.Keys == old(nodes.Keys) - {a}
    {
      hide Bucketed, Placed;
      ghost var k := nodes[a].key;
      if q == None {
        heads := heads[b := nodes[a].next];
      } else {
        nodes := nodes[q.value := nodes[q.value].(next := nodes[a].next)];
      }
      nodes := nodes - {a};
      dataNum := dataNum - 1;
      assert |place - {k}| == |place| - 1;
      chains, place := chains[b := chains[b][..j] + chains[b][j + 1..]], place - {k};
    }

    method Clear()
      requires Valid()
      modifies this, allocator
      ensures Valid() && Map() == map[] && bucketSize == old(bucketSize) && Walking() && Remaining() == []
    {
      hide Chain, Issued, Formed, Contents;
      SizesOf(Chains());
      allocator.ResetAllocator();
      Empty();
    }

    method Empty()
      requires bucketSize > 0
      modifies this
      ensures bucketSize == old(bucketSize) == |heads| && Formed(Chains()) && Contents(Chains()) == map[]
      ensures dataNum == 0 && nodes == map[] && place == map[] && Walking() && Remaining() == []
    {
      dataNum := 0;
      heads, nodes := seq(bucketSize, _ => None), map[];
      traversalIndex, traversalPos := 0, None;
      chains, place, cursor := seq(bucketSize, _ => []), map[], 0;
      hide Formed, From;
      EmptyFormed(Chains());
      EmptyFrom(Chains(), 1);
    }

    /** The traversal stands at chunk `cursor` of bucket `traversalIndex`, or at the end of that bucket. */
    ghost predicate Walking()
      reads this
    {
      0 <= traversalIndex < |chains| && cursor <= |chains[traversalIndex]| &&
      traversalPos == At(chains[traversalIndex], cursor)
    }

    /** The chunks a traversal has still to visit. */
    ghost function Remaining(): seq<Address>
      requires Walking()
      reads this
    {
      chains[traversalIndex][cursor..] + From(Chains(), traversalIndex + 1)
    }

    method PrepareTraversal()
      requires Valid()
      modifies this`traversalIndex, this`traversalPos, this`cursor
      ensures Valid() && Walking() && Remaining() == From(Chains(), 0)
    {
      assert Bucketed(Chains(), 0);
      traversalIndex, traversalPos, cursor := 0, heads[0], 0;
    }

    /** Steps over empty buckets to the next chunk; false when there is none. */
    method Advance() returns (found: bool)
      requires Valid() && Walking() && traversalPos == None
      modifies this`traversalIndex, this`traversalPos, this`cursor
      ensures Valid() && (!found ==> old(Remaining()) == [])
      ensures found ==> Walking() && traversalPos.Some? && Remaining() == old(Remaining())
    {
      hide Chain, Issued, Owns, Formed, From;
      ghost var v, rest := Chains(), Remaining();
      assert rest == From(v, traversalIndex + 1);
      SizesOf(v);
      traversalIndex := traversalIndex + 1;
      while traversalIndex < bucketSize
        invariant 0 <= traversalIndex <= bucketSize && rest == From(v, traversalIndex) && traversalPos == None
        decreases bucketSize - traversalIndex
      {
        HeadOf(v, traversalIndex);
        FromStep(v, traversalIndex);
        traversalPos, cursor := heads[traversalIndex], 0;
        if traversalPos.Some? {
          assert chains[traversalIndex][0..] == chains[traversalIndex];
          return true;
        }
        assert chains[traversalIndex] == [];
        traversalIndex := traversalIndex + 1;
      }
      FromStep(v, bucketSize);
      found := false;
    }

    /** Hands out the next chunk, or reports -1 when none is left; after that it must be prepared again. */
    method Traverse() returns (code: int, key: int, data: Option<D>)
      requires Valid() && Walking()
      modifies this`traversalIndex, this`traversalPos, this`cursor
      ensures Valid() && (code == 0 || code == -1)
      ensures code == -1 ==> old(Remaining()) == []
      ensures code == 0 ==> Walking() && old(Remaining()) != [] && Remaining() == old(Remaining())[1..]
      ensures code == 0 ==> old(Remaining())[0] in nodes && key == nodes[old(Remaining())[0]].key
      ensures code == 0 ==> data == Some(nodes[old(Remaining())[0]].data)
    {
      hide Chain, Issued, Owns, Formed;
      key, data := 0, None;
      if traversalPos == None {
        var found := Advance();
        if !found { return -1, 0, None; }
      }
      ghost var rest := Remaining();
      LinkedAt(Chains(), traversalIndex, cursor);
      var a := traversalPos.value;
      key, data := nodes[a].key, Some(nodes[a].data);
      traversalPos := nodes[a].next;
      cursor := cursor + 1;
      assert rest[1..] == Remaining();
      code := 0;
    }

    /** A full traversal yields every key of the map exactly once. */
    method TraverseAll() returns (keys: seq<int>)
      requires Valid()
      modifies this`traversalIndex, this`traversalPos, this`cursor
      ensures Valid() && Map() == old(Map())
      ensures Distinct(keys) && forall k :: k in keys <==> k in Map()
    {
      hide Chain, Issued, Owns, Formed, From;
      ghost var v := Chains();
      WalkMeetsAll(v);
      ghost var all := From(v, 0);
      PrepareTraversal();
      keys := [];
      var code, key, data := 0, 0, None;
      while code == 0
        invariant Valid() && Chains() == v && |keys| <= |all| && (code == 0 || code == -1)
        invariant code == 0 ==> Walking() && Remaining() == all[|keys|..]
        invariant code == -1 ==> |keys| == |all|
        invariant keys == KeysOf(v, all)[..|keys|]
        decreases |all| - |keys|, code
      {
        code, key, data := Traverse();
        if code == 0 { keys := keys + [key]; }
      }
    }
  }

  /** The value copied over what is there, if one is given. */
  function Copied<D>(data: Option<D>, there: D): D { if data.Some? then data.value else there }

  /** `used` are the usable addresses of the chunks headed by `live`. */
  ghost predicate Owns(used: set<Address>, live: set<Address>) {
    (forall a :: a in used ==> Header(a) in live) && (forall h :: h in live ==> Usable(h) in used)
  }

  lemma OwnsMore(used: set<Address>, live: set<Address>, a: Address)
    requires Owns(used, live) && Header(a) !in live
    ensures a !in used && Owns(used + {a}, live + {Header(a)})
  {
    assert Usable(Header(a)) == a;
  }

  lemma OwnsLess(used: set<Address>, live: set<Address>, a: Address)
    requires Owns(used, live) && a in used
    ensures Header(a) in live && Owns(used - {a}, live - {Header(a)})
  {
    forall b | b in used && b != a ensures Header(b) != Header(a) {
      assert Usable(Header(b)) == b && Usable(Header(a)) == a;
    }
  }

  lemma OwnsCount(used: set<Address>, live: set<Address>)
    requires Owns(used, live)
    ensures |used| == |live|
  {
    var f := map a | a in used :: Header(a);
    forall h | h in live ensures exists a :: a in used && f[a] == h {
      assert Usable(h) in used && f[Usable(h)] == h;
    }
    forall a, b | a in used && b in used && a != b ensures f[a] != f[b] {
      assert Usable(f[a]) == a && Usable(f[b]) == b;
    }
    PairedCount(used, live, f);
  }

  /** Every key has a chunk of its own. */
  lemma SameCounts<D>(v: View<D>)
    requires Formed(v)
    ensures |v.nodes.Keys| == |v.place|
  {
    forall k | k in v.place ensures v.place[k] in v.nodes && v.nodes[v.place[k]].key == k { assert Placed(v, k); }
    forall a | a in v.nodes.Keys ensures exists k :: k in v.place.Keys && v.place[k] == a {
      assert v.nodes[a].key in v.place;
    }
    PairedCount(v.place.Keys, v.nodes.Keys, v.place);
    assert |v.place.Keys| == |v.place|;
  }

  /** A key that its bucket does not show is in no bucket. */
  lemma NotPlaced<D>(v: View<D>, key: int)
    requires Formed(v)
    requires var b := Bucket(key, |v.chains|);
      forall i :: 0 <= i < |v.chains[b]| ==> v.chains[b][i] in v.nodes && v.nodes[v.chains[b][i]].key != key
    ensures key !in v.place
  {
    assert key in v.place ==> Placed(v, key);
  }

  lemma SizesOf<D>(v: View<D>)
    requires Formed(v)
    ensures |v.chains| == |v.heads| > 0
  {
  }

  lemma HeadOf<D>(v: View<D>, b: int)
    requires Formed(v) && 0 <= b < |v.heads|
    ensures |v.chains| == |v.heads| && v.heads[b] == At(v.chains[b], 0)
  {
    assert Bucketed(v, b);
  }

  lemma FromStep<D>(v: View<D>, b: int)
    requires 0 <= b <= |v.chains|
    ensures From(v, b) == if b == |v.chains| then [] else v.chains[b] + From(v, b + 1)
    ensures b < |v.chains| && v.chains[b] == [] ==> From(v, b) == From(v, b + 1)
  {
  }

  lemma LinkedAt<D>(v: View<D>, b: int, i: int)
    requires Formed(v) && 0 <= b < |v.chains| && 0 <= i < |v.chains[b]|
    ensures Linked(v, b, i)
  {
    assert Bucketed(v, b);
  }

  lemma SameKeys<D>(v: View<D>, key: int)
    requires Formed(v)
    ensures key in Contents(v) <==> key in v.place
  {
  }

  lemma NoKey<D>(v: View<D>, key: int)
    requires Formed(v) && key !in v.place
    ensures key !in Contents(v) && Contents(v) - {key} == Contents(v)
  {
  }

  lemma EmptyFormed<D>(v: View<D>)
    requires |v.heads| == |v.chains| > 0 && v.nodes == map[] && v.place == map[]
    requires forall b :: 0 <= b < |v.heads| ==> v.heads[b] == None && v.chains[b] == []
    ensures Formed(v) && Contents(v) == map[]
  {
    forall b | 0 <= b < |v.chains| ensures Bucketed(v, b) { }
  }

  lemma {:induction false} EmptyFrom<D>(v: View<D>, b: int)
    requires 0 <= b <= |v.chains| && forall b :: 0 <= b < |v.chains| ==> v.chains[b] == []
    ensures From(v, b) == []
    decreases |v.chains| - b
  {
    if b < |v.chains| { EmptyFrom(v, b + 1); }
  }
}
