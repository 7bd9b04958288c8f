/** How buffering, counting and padding fit together, and the MD5 class built on it. */
module Md5 {
  import opened Common
  import opened Md5Spec

  const PADDING: seq<byte> := [0x80] + Zeros(63)

  /** Whole blocks in a message of `n` bytes, and the bytes left over. */
  function Whole(n: nat): nat { n / 64 }
  function Part(n: nat): nat { n % 64 }

  lemma SplitUp(n: nat)
    ensures n == 64 * Whole(n) + Part(n) && Part(n) < 64
  {
  }

  lemma SplitOnce(n: nat, q: nat, r: nat)
    requires n == 64 * q + r && r < 64
    ensures q == Whole(n) && r == Part(n)
  {
  }

  /** What state, count pair and buffer hold after the bytes of `m`. */
  ghost predicate Absorbed(m: seq<byte>, state: State, low: uint32, high: uint32, buffer: seq<byte>) {
    SplitUp(|m|);
    && |buffer| == 64 && Counts(low, high, |m|)
    && state == Blocks(m, Whole(|m|))
    && buffer[..Part(|m|)] == m[64 * Whole(|m|)..]
  }

  lemma Begin(buffer: seq<byte>)
    requires |buffer| == 64
    ensures Absorbed([], INITIAL, 0, 0, buffer)
  {
  }

  /** A block that lies at position `n` of the message takes the state from `n` to `n + 1` blocks. */
  lemma OneBlock(all: seq<byte>, n: nat, block: seq<byte>)
    requires 64 * (n + 1) <= |all| && |block| == 64 && all[64 * n..64 * n + 64] == block
    ensures Transform(Blocks(all, n), block) == Blocks(all, n + 1)
  {
    hide Transform;
    assert 64 * (n + 1) == 64 * n + 64;
  }

  /** Filling the buffer completes the block begun in it. */
  lemma FirstBlock(m: seq<byte>, n: nat, input: seq<byte>, part: nat, block: seq<byte>)
    requires |m| == 64 * n + 64 - part && part <= 64 && part <= |input| && block == m[64 * n..] + input[..part]
    ensures Transform(Blocks(m, n), block) == Blocks(m + input, n + 1)
  {
    hide Transform, Blocks;
    BlocksPrefix(m, input, n);
    BlockAt(m, n, input, part);
    OneBlock(m + input, n, block);
  }

  lemma BlockAt(m: seq<byte>, n: nat, input: seq<byte>, part: nat)
    requires |m| == 64 * n + 64 - part && part <= 64 && part <= |input|
    ensures (m + input)[64 * n..64 * n + 64] == m[64 * n..] + input[..part]
  {
  }

  lemma NextBlock(m: seq<byte>, input: seq<byte>, i: nat, n: nat)
    requires |m| + i == 64 * n && i + 64 <= |input|
    ensures Transform(Blocks(m + input, n), input[i..i + 64]) == Blocks(m + input, n + 1)
  {
    hide Transform, Blocks;
    assert (m + input)[64 * n..64 * n + 64] == input[i..i + 64];
    OneBlock(m + input, n, input[i..i + 64]);
  }

  /** What is left over after the last whole block stays in the buffer. */
  lemma Leftover(m: seq<byte>, input: seq<byte>, i: nat, n: nat, low: uint32, high: uint32, before: seq<byte>,
                 buffer: seq<byte>)
    requires i <= |input| < i + 64 && |m| + i == 64 * n && |input| < 0x8000_0000
    requires Counts(low, high, |m|) && |before| == 64 && buffer == input[i..] + before[|input| - i..]
    ensures (var c := Counted(low, high, |input|); Absorbed(m + input, Blocks(m + input, n), c.0, c.1, buffer))
  {
    hide Whole, Part, Counts, Counted, Blocks;
    CountsOn(low, high, |m|, |input|);
    SplitOnce(|m + input|, n, |input| - i);
    assert (m + input)[64 * n..] == input[i..];
    assert buffer[..|input| - i] == input[i..];
  }

  /** An input too short to fill the buffer is appended to it. */
  lemma Appended(m: seq<byte>, n: nat, r: nat, input: seq<byte>, low: uint32, high: uint32, before: seq<byte>,
                 buffer: seq<byte>)
    requires |m| == 64 * n + r && r + |input| < 64 && Absorbed(m, Blocks(m, n), low, high, before)
    requires buffer == before[..r] + input + before[r + |input|..]
    ensures (var c := Counted(low, high, |input|); Absorbed(m + input, Blocks(m, n), c.0, c.1, buffer))
  {
    hide Whole, Part, Counts, Counted, Blocks;
    SplitOnce(|m|, n, r);
    CountsOn(low, high, |m|, |input|);
    SplitOnce(|m + input|, n, r + |input|);
    BlocksPrefix(m, input, n);
    assert (m + input)[64 * n..] == m[64 * n..] + input;
    assert buffer[..r + |input|] == before[..r] + input;
  }

  method Copy(buffer: array<byte>, index: nat, input: seq<byte>)
    requires index + |input| <= buffer.Length
    modifies buffer
    ensures buffer[..] == old(buffer[..index]) + input + old(buffer[index + |input|..])
  {
    var k := 0;
    while k < |input|
      invariant 0 <= k <= |input|
      invariant buffer[..] == old(buffer[..index]) + input[..k] + old(buffer[index + k..])
    {
      buffer[index + k] := input[k];
      k := k + 1;
    }
    assert input[..k] == input;
  }

  /** The padding that brings the length to 56 modulo 64 is the one of section 3.1. */
  lemma PaddingOf(length: nat, n: nat, index: nat, padLen: nat)
    requires length == 64 * n + index && index < 64 && padLen == if index < 56 then 56 - index else 120 - index
    ensures 1 <= padLen <= 64 && PADDING[..padLen] == Padding(length)
  {
    assert length % 64 == index;
    assert PADDING[..padLen] == [0x80] + Zeros(padLen - 1);
  }

  /** Feeding padding and count completes the digest. */
  lemma Completed(m: seq<byte>, state: State, low: uint32, high: uint32, buffer: seq<byte>)
    requires Absorbed(Padded(m), state, low, high, buffer)
    ensures Output(state) == Digest(m)
  {
    hide Blocks, Counts;
  }

  /** Adds the bits of `length` bytes to the count pair. */
  method AddCount(low: uint32, high: uint32, length: nat) returns (count0: uint32, count1: uint32)
    requires length < 0x8000_0000
    ensures (count0, count1) == Counted(low, high, length)
  {
    var shifted := length * 8 % 0x1_0000_0000;
    count0, count1 := (low + shifted) % 0x1_0000_0000, high;
    if count0 < shifted { count1 := (count1 + 1) % 0x1_0000_0000; }
    count1 := (count1 + length / 0x2000_0000) % 0x1_0000_0000;
  }

  // ---------------------------------------------------------------- MD5.cc

  class MD5 {
    var finalized: bool
    var buffer: array<byte>
    var count0: uint32
    var count1: uint32
    var state: State
    var digest: seq<byte>
    ghost var message: seq<byte>

    ghost predicate Valid()
      reads this, buffer
    {
      buffer.Length == 64 &&
      if finalized then digest == Digest(message) else Absorbed(message, state, count0, count1, buffer[..])
    }

    constructor ()
      ensures Valid() && !finalized && message == [] && fresh(buffer)
    {
      buffer := new byte[64];
      finalized, count0, count1, state, digest, message := false, 0, 0, INITIAL, [], [];
      new;
      hide Absorbed;
      Begin(buffer[..]);
    }

    method Update(input: seq<byte>)
      requires Valid() && !finalized && |input| < 0x8000_0000
      modifies this`count0, this`count1, this`state, this`message, buffer
      ensures Valid() && message == old(message) + input
    {
      hide Transform, Counts, Blocks, Counted, Whole, Part, Digest;
      ghost var m, low, high := message, count0, count1;
      var index := BufferIndex();
      count0, count1 := AddCount(count0, count1, |input|);
      var firstpart := 64 - index;
      var i := 0;
      ghost var before := buffer[..];
      ghost var n := Whole(|m|);
      if |input| >= firstpart {
        Copy(buffer, index, input[..firstpart]);
        FirstBlock(m, n, input, firstpart, buffer[..]);
        state := Transform(state, buffer[..]);
        i, n := firstpart, n + 1;
        while i + 64 <= |input|
          invariant firstpart <= i <= |input| && |m| + i == 64 * n && state == Blocks(m + input, n)
          invariant (count0, count1) == Counted(low, high, |input|)
        {
          NextBlock(m, input, i, n);
          state := Transform(state, input[i..i + 64]);
          i, n := i + 64, n + 1;
        }
        before := buffer[..];
        Copy(buffer, 0, input[i..]);
        Leftover(m, input, i, n, low, high, before, buffer[..]);
      } else {
        assert input[i..] == input;
        Copy(buffer, index, input[i..]);
        Appended(m, n, index, input, low, high, before, buffer[..]);
      }
      message := m + input;
    }

    /** How many bytes wait in the buffer, told by the bit count. */
    method BufferIndex() returns (index: nat)
      requires Valid() && !finalized
      ensures |message| == 64 * Whole(|message|) + index && index == Part(|message|) < 64
      ensures buffer[..index] == message[64 * Whole(|message|)..]
    {
      Index(count0, count1, |message|);
      index := count0 / 8 % 64;
    }

    /** The digest of everything fed so far; a second call changes nothing. */
    method Finalize()
      requires Valid()
      modifies this, buffer
      ensures Valid() && finalized && digest == Digest(old(message)) && buffer == old(buffer)
      ensures old(finalized) ==> digest == old(digest)
    {
      hide Transform, Counts, Blocks, Whole, Part, LittleEndian, Digest, Output, Padding;
      if finalized { return; }
      ghost var m := message;
      CountBytes(count0, count1, |m|);
      var bits := LittleEndian(count0, 4) + LittleEndian(count1, 4);
      var index := BufferIndex();
      var padLen := if index < 56 then 56 - index else 120 - index;
      PaddingOf(|m|, Whole(|m|), index, padLen);
      Update(PADDING[..padLen]);
      Update(bits);
      Completed(m, state, count0, count1, buffer[..]);
      digest := Output(state);
      finalized, count0, count1, message := true, 0, 0, m;
    }
  }

  /** The digest does not depend on how the message is cut into updates. */
  method HashChunks(chunks: seq<seq<byte>>) returns (digest: seq<byte>)
    requires forall c :: c in chunks ==> |c| < 0x8000_0000
    ensures digest == Digest(Flat(chunks))
  {
    hide Digest, Absorbed;
    var h := new MD5();
    var k := 0;
    while k < |chunks|
      invariant 0 <= k <= |chunks| && h.Valid() && !h.finalized && fresh(h) && fresh(h.buffer)
      invariant h.message == Flat(chunks[..k])
    {
      assert chunks[..k + 1][..k] == chunks[..k];
      h.Update(chunks[k]);
      k := k + 1;
    }
    assert chunks[..k] == chunks;
    h.Finalize();
    digest := h.digest;
  }
}
