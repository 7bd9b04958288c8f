/** The pool allocator: fixed-size chunks cut from blocks in order, and a list of returned chunks threaded
    through the word in front of each chunk. */
module PoolAllocator {
  import opened Common

  /** A byte of some block. */
  datatype Address = Address(block: int, offset: int)

  const POINTER_SIZE := 8

  /** The list of addresses reached from `head` through `links`. */
  ghost predicate Chain(links: map<Address, Option<Address>>, head: Option<Address>, list: seq<Address>) {
    && (head == if list == [] then None else Some(list[0]))
    && (forall i :: 0 <= i < |list| ==> LinkAt(links, list, i))
  }

  ghost predicate LinkAt(links: map<Address, Option<Address>>, list: seq<Address>, i: int) {
    0 <= i < |list| && list[i] in links && links[list[i]] == if i + 1 < |list| then Some(list[i + 1]) else None
  }

  lemma ChainHead(links: map<Address, Option<Address>>, head: Option<Address>, list: seq<Address>)
    requires Chain(links, head, list)
    ensures head == if list == [] then None else Some(list[0])
  {
  }

  lemma ChainPop(links: map<Address, Option<Address>>, head: Option<Address>, list: seq<Address>)
    requires Chain(links, head, list) && list != []
    ensures list[0] in links && Chain(links, links[list[0]], list[1..])
  {
    assert LinkAt(links, list, 0);
    forall i | 0 <= i < |list[1..]| ensures LinkAt(links, list[1..], i) { assert LinkAt(links, list, i + 1); }
  }

  lemma ChainPush(links: map<Address, Option<Address>>, head: Option<Address>, list: seq<Address>, a: Address)
    requires Chain(links, head, list) && a !in list
    ensures Chain(links[a := head], Some(a), [a] + list)
  {
    var after, longer := links[a := head], [a] + list;
    forall i | 0 <= i < |longer| ensures LinkAt(after, longer, i) {
      if i > 0 { assert LinkAt(links, list, i - 1); }
    }
  }

  /** The header of chunk `k` of a block; its usable bytes follow the header word. */
  ghost predicate ChunkAt(a: Address, k: nat, chunkSize: int) {
    a.offset == k * chunkSize
  }

  lemma ChunksApart(a: Address, j: nat, b: Address, k: nat, chunkSize: int)
    requires ChunkAt(a, j, chunkSize) && ChunkAt(b, k, chunkSize) && j < k && chunkSize > 0
    ensures a.offset + chunkSize <= b.offset
  {
    Multiples(j + 1, k, chunkSize);
    assert (j + 1) * chunkSize == j * chunkSize + chunkSize;
  }

  lemma Multiples(j: nat, k: nat, c: int)
    requires j <= k && c > 0
    ensures j * c <= k * c
  {
  }

  /** How many chunks of a block were handed out when `n` chunks of block `now` were. */
  function Bound(block: int, now: int, n: int, max: int): int {
    if 0 <= block < now then max else if 0 <= block == now then n else 0
  }

  /** How many chunks were handed out altogether. */
  ghost function Handed(now: int, n: int, max: int): int {
    if now < 0 then 0 else now * max + n
  }

  /** `h` heads a chunk that was handed out. */
  ghost predicate Issued(h: Address, now: int, n: int, max: int, chunkSize: int) {
    exists k: nat :: k < Bound(h.block, now, n, max) && ChunkAt(h, k, chunkSize)
  }

  /** Handing out one more chunk of the current block. */
  lemma IssueNext(now: int, n: nat, max: int, chunkSize: int)
    requires 0 <= now && n < max && chunkSize > 0
    ensures !Issued(Address(now, n * chunkSize), now, n, max, chunkSize)
    ensures Issued(Address(now, n * chunkSize), now, n + 1, max, chunkSize)
    ensures forall h :: Issued(h, now, n, max, chunkSize) ==> Issued(h, now, n + 1, max, chunkSize)
  {
    var a := Address(now, n * chunkSize);
    assert ChunkAt(a, n, chunkSize);
    forall k: nat | k < n ensures !ChunkAt(a, k, chunkSize) {
      if ChunkAt(a, k, chunkSize) { ChunksApart(a, k, a, n, chunkSize); }
    }
    forall h | Issued(h, now, n, max, chunkSize) ensures Issued(h, now, n + 1, max, chunkSize) {
      var k: nat :| k < Bound(h.block, now, n, max) && ChunkAt(h, k, chunkSize);
      assert k < Bound(h.block, now, n + 1, max);
    }
  }

  /** Beginning a block when the last one is used up, or the first block. */
  lemma IssueBlock(now: int, n: int, max: int, chunkSize: int)
    requires -1 <= now && (now == -1 || n == max)
    ensures forall h :: Issued(h, now, n, max, chunkSize) ==> Issued(h, now + 1, 0, max, chunkSize)
  {
    forall h | Issued(h, now, n, max, chunkSize) ensures Issued(h, now + 1, 0, max, chunkSize) {
      var k: nat :| k < Bound(h.block, now, n, max) && ChunkAt(h, k, chunkSize);
      assert k < Bound(h.block, now + 1, 0, max);
    }
  }

  lemma AllHanded(now: int, n: int, blocks: int, max: int)
    requires -1 <= now < blocks && 0 < blocks && max > 0 && (now >= 0 ==> 1 <= n <= max)
    ensures 0 <= Handed(now, n, max) <= blocks * max
    ensures Handed(now, n, max) == blocks * max <==> now + 1 == blocks && n == max
  {
    if now >= 0 {
      assert now * max + max == (now + 1) * max;
      Multiples(now + 1, blocks, max);
      if now + 1 < blocks { Multiples(now + 2, blocks, max); assert (now + 2) * max == (now + 1) * max + max; }
    }
  }

  class QPoolAllocator {
    var recycle: Option<Address>
    var links: map<Address, Option<Address>>
    var blocksMade: int
    var maxChunkNum: int
    var nowChunkNum: int
    var nowBlockLen: int
    var chunkSize: int
    var maxBlockNum: int
    var nowBlockNum: int
    var recycleNum: int
    var allocNum: int
    ghost var returned: seq<Address>
    ghost var live: set<Address>

    ghost predicate Cursor()
      reads this
    {
      && chunkSize > POINTER_SIZE && maxBlockNum > 0 && maxChunkNum > 0
      && -1 <= nowBlockNum < maxBlockNum && nowBlockNum < blocksMade <= maxBlockNum
      && (nowBlockNum == -1 ==> nowChunkNum == -1 || nowChunkNum == maxChunkNum)
      && (nowBlockNum >= 0 ==> 1 <= nowChunkNum <= maxChunkNum && nowBlockLen == nowChunkNum * chunkSize)
    }

    ghost predicate Valid()
      reads this
    {
      Cursor() && Accounts()
    }

    /** The recycle list and the live chunks are disjoint, were handed out, and are counted. */
    ghost predicate Accounts()
      reads this
    {
      && Chain(links, recycle, returned)
      && (forall i, j :: 0 <= i < j < |returned| ==> returned[i] != returned[j])
      && (forall h :: h in returned ==> h !in live)
      && (forall h :: h in live || h in returned ==> Issued(h, nowBlockNum, nowChunkNum, maxChunkNum, chunkSize))
      && recycleNum == |returned| && allocNum == |live| + |returned|
      && allocNum == Handed(nowBlockNum, nowChunkNum, maxChunkNum)
    }

    /** Live chunks lie inside their blocks, do not overlap, are not on the recycle list, and are counted right. */
    lemma LiveChunks()
      requires Valid()
      ensures |live| == allocNum - recycleNum
      ensures forall a :: a in live ==> a !in returned && 0 <= a.block <= nowBlockNum
      ensures forall a :: a in live ==> 0 <= a.offset && a.offset + chunkSize <= maxChunkNum * chunkSize
      ensures (forall a, b :: a in live && b in live && a != b && a.block == b.block ==>
                a.offset + chunkSize <= b.offset || b.offset + chunkSize <= a.offset)
    {
      forall a | a in live
        ensures 0 <= a.block <= nowBlockNum && 0 <= a.offset && a.offset + chunkSize <= maxChunkNum * chunkSize
      {
        assert Issued(a, nowBlockNum, nowChunkNum, maxChunkNum, chunkSize);
        var k: nat :| k < Bound(a.block, nowBlockNum, nowChunkNum, maxChunkNum) && ChunkAt(a, k, chunkSize);
        Multiples(k + 1, maxChunkNum, chunkSize);
        Multiples(0, k, chunkSize);
        assert (k + 1) * chunkSize == k * chunkSize + chunkSize;
      }
      forall a, b | a in live && b in live && a != b && a.block == b.block
        ensures a.offset + chunkSize <= b.offset || b.offset + chunkSize <= a.offset
      {
        assert Issued(a, nowBlockNum, nowChunkNum, maxChunkNum, chunkSize);
        assert Issued(b, nowBlockNum, nowChunkNum, maxChunkNum, chunkSize);
        var j: nat :| j < Bound(a.block, nowBlockNum, nowChunkNum, maxChunkNum) && ChunkAt(a, j, chunkSize);
        var k: nat :| k < Bound(b.block, nowBlockNum, nowChunkNum, maxChunkNum) && ChunkAt(b, k, chunkSize);
        if j < k { ChunksApart(a, j, b, k, chunkSize); }
        if k < j { ChunksApart(b, k, a, j, chunkSize); }
        assert j == k ==> a == b;
      }
    }

    constructor ()
      ensures nowChunkNum == -1 && nowBlockNum == -1
    {
      recycle, links, blocksMade := None, map[], 0;
      maxChunkNum, nowChunkNum, nowBlockLen, chunkSize := 0, -1, -1, 0;
      maxBlockNum, nowBlockNum, recycleNum, allocNum := 0, -1, 0, 0;
      returned, live := [], {};
    }

    /** `memoryLeft` says whether the table of blocks can be had. */
    method Init(lChunkSize: int, lMaxBlockNum: int, lChunkNumPerBlock: int, memoryLeft: bool) returns (code: int)
      modifies this
      ensures lChunkSize <= 0 || lMaxBlockNum <= 0 || lChunkNumPerBlock <= 0 ==> code == -1 && unchanged(this)
      ensures lChunkSize > 0 && lMaxBlockNum > 0 && lChunkNumPerBlock > 0 ==> code == if memoryLeft then 0 else -2
      ensures code == 0 ==> Valid() && live == {} && returned == []
      ensures code != -1 ==> chunkSize == lChunkSize + POINTER_SIZE
      ensures code != -1 ==> maxBlockNum == lMaxBlockNum && maxChunkNum == lChunkNumPerBlock
    {
      if lChunkSize <= 0 || lMaxBlockNum <= 0 || lChunkNumPerBlock <= 0 { return -1; }
      chunkSize, maxBlockNum, nowBlockNum := lChunkSize + POINTER_SIZE, lMaxBlockNum, -1;
      maxChunkNum, nowChunkNum, nowBlockLen := lChunkNumPerBlock, -1, 0;
      recycle, links, recycleNum, allocNum, blocksMade := None, map[], 0, 0, 0;
      returned, live := [], {};
      code := if memoryLeft then 0 else -2;
    }

    /** Nothing was returned, the current block is used up, and no further block can be had. */
    ghost predicate Exhausted(memoryLeft: bool)
      reads this
    {
      && returned == [] && (nowChunkNum == -1 || nowChunkNum == maxChunkNum)
      && (nowBlockNum + 1 >= maxBlockNum || (nowBlockNum + 1 == blocksMade && !memoryLeft))
    }

    /** While there is memory, chunks run out exactly when every chunk of every block is in use. */
    lemma ExhaustedExactly()
      requires Valid()
      ensures |live| <= maxBlockNum * maxChunkNum
      ensures Exhausted(true) <==> |live| == maxBlockNum * maxChunkNum
    {
      hide Chain, Issued;
      AllHanded(nowBlockNum, nowChunkNum, maxBlockNum, maxChunkNum);
    }

    /** A chunk nobody holds: a returned one if there is any, else the next one of the current block, else
        the first of a new block. Null only when every block is used up or a new block cannot be had. */
    method Alloc(memoryLeft: bool) returns (p: Option<Address>)
      requires Valid()
      modifies this
      ensures Valid() && chunkSize == old(chunkSize)
      ensures maxBlockNum == old(maxBlockNum) && maxChunkNum == old(maxChunkNum)
      ensures p.Some? ==> live == old(live) + {Header(p.value)} && Header(p.value) !in old(live)
      ensures p == None ==> live == old(live)
      ensures p == None <==> old(Exhausted(memoryLeft))
      ensures old(returned) != [] ==> p == Some(Usable(old(returned)[0])) && returned == old(returned)[1..]
    {
      hide Chain, Issued, Handed;
      ChainHead(links, recycle, returned);
      if recycle.Some? {
        var h := TakeReturned();
        return Some(Usable(h));
      }
      if nowChunkNum == -1 || nowChunkNum == maxChunkNum {
        if nowBlockNum + 1 >= maxBlockNum { return None; }
        if nowBlockNum + 1 == blocksMade && !memoryLeft { return None; }
        BeginBlock();
      }
      p := NextChunk();
    }

    method TakeReturned() returns (h: Address)
      requires Valid() && returned != [] && recycle == Some(returned[0])
      modifies this`recycle, this`recycleNum, this`live, this`returned
      ensures Valid() && h == old(returned)[0] && returned == old(returned)[1..]
      ensures live == old(live) + {h} && h !in old(live)
    {
      hide Chain, Issued, Handed;
      ChainPop(links, recycle, returned);
      h := recycle.value;
      recycle := links[h];
      recycleNum := recycleNum - 1;
      live, returned := live + {h}, returned[1..];
    }

    method BeginBlock()
      requires Valid() && nowBlockNum + 1 < maxBlockNum && (nowChunkNum == -1 || nowChunkNum == maxChunkNum)
      modifies this`nowBlockNum, this`blocksMade, this`nowBlockLen, this`nowChunkNum
      ensures Accounts() && 0 <= nowBlockNum < maxBlockNum && nowBlockNum < blocksMade <= maxBlockNum
      ensures nowChunkNum == 0 && nowBlockLen == 0
    {
      hide Chain, Issued;
      IssueBlock(nowBlockNum, nowChunkNum, maxChunkNum, chunkSize);
      nowBlockNum := nowBlockNum + 1;
      if nowBlockNum == blocksMade { blocksMade := blocksMade + 1; }
      nowBlockLen, nowChunkNum := 0, 0;
    }

    method NextChunk() returns (p: Option<Address>)
      requires Accounts() && returned == [] && 0 <= nowBlockNum < maxBlockNum && nowBlockNum < blocksMade <= maxBlockNum
      requires chunkSize > POINTER_SIZE && maxBlockNum > 0
      requires 0 <= nowChunkNum < maxChunkNum && nowBlockLen == nowChunkNum * chunkSize
      modifies this`nowBlockLen, this`nowChunkNum, this`allocNum, this`live
      ensures Valid()
      ensures p.Some? && live == old(live) + {Header(p.value)} && Header(p.value) !in old(live)
    {
      hide Chain, Issued;
      IssueNext(nowBlockNum, nowChunkNum, maxChunkNum, chunkSize);
      var h := Address(nowBlockNum, nowBlockLen);
      nowBlockLen := nowBlockLen + chunkSize;
      nowChunkNum := nowChunkNum + 1;
      allocNum := allocNum + 1;
      live := live + {h};
      p := Some(Usable(h));
      assert nowChunkNum * chunkSize == (nowChunkNum - 1) * chunkSize + chunkSize;
    }

    /** Puts a chunk that is in use on the recycle list. */
    method Free(buffer: Address)
      requires Valid() && Header(buffer) in live
      modifies this`recycle, this`links, this`recycleNum, this`returned, this`live
      ensures Valid() && live == old(live) - {Header(buffer)} && returned == [Header(buffer)] + old(returned)
    {
      hide Chain, Issued;
      var h := Header(buffer);
      ChainPush(links, recycle, returned, h);
      links := links[h := recycle];
      recycle := Some(h);
      recycleNum := recycleNum + 1;
      live, returned := live - {h}, [h] + returned;
    }

    /** Every chunk becomes free at once. */
    method ResetAllocator()
      requires Valid()
      modifies this
      ensures Valid() && live == {} && returned == [] && chunkSize == old(chunkSize)
      ensures maxBlockNum == old(maxBlockNum) && maxChunkNum == old(maxChunkNum)
    {
      recycle := None;
      nowChunkNum, nowBlockLen, nowBlockNum := maxChunkNum, 0, -1;
      recycleNum, allocNum := 0, 0;
      live, returned := {}, [];
    }
  }

  function Usable(h: Address): Address { h.(offset := h.offset + POINTER_SIZE) }

  function Header(p: Address): Address { p.(offset := p.offset - POINTER_SIZE) }
}
