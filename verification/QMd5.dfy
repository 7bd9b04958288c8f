/** The second MD5 implementation: a context struct and free-standing update and final steps. */
module QMd5 {
  import opened Common
  import opened Md5Spec
  import opened Md5
  import Md5Answers

  class Context {
    var state: State
    var count0: uint32
    var count1: uint32
    var buffer: array<byte>
    ghost var message: seq<byte>

    ghost predicate Valid()
      reads this, buffer
    {
      buffer.Length == 64 && Absorbed(message, state, count0, count1, buffer[..])
    }

    constructor ()
      ensures Valid() && message == [] && fresh(buffer)
    {
      buffer := new byte[64];
      count0, count1, state, message := 0, 0, INITIAL, [];
      new;
      Begin(buffer[..]);
    }

    method Update(input: seq<byte>)
      requires Valid() && |input| < 0x8000_0000
      modifies this`count0, this`count1, this`state, this`message, buffer
      ensures Valid() && message == old(message) + input
    {
      hide Transform, Counts, Blocks, Counted, Whole, Part;
      ghost var m, low, high := message, count0, count1;
      ghost var n := Whole(|m|);
      var index := Waiting();
      count0, count1 := AddCount(count0, count1, |input|);
      var partLen := 64 - index;
      ghost var before := buffer[..];
      if |input| < partLen {
        Copy(buffer, index, input);
        Appended(m, n, index, input, low, high, before, buffer[..]);
      } else {
        Copy(buffer, index, input[..partLen]);
        FirstBlock(m, n, input, partLen, buffer[..]);
        state := Transform(state, buffer[..]);
        var i := partLen;
        n := n + 1;
        while i + 63 < |input|
          invariant partLen <= i <= |input| && |m| + i == 64 * n && state == Blocks(m + input, n)
          invariant (count0, count1) == Counted(low, high, |input|)
        {
          NextBlock(m, input, i, n);
          state := Transform(state, input[i..i + 64]);
          i, n := i + 64, n + 1;
        }
        before := buffer[..];
        Copy(buffer, 0, input[i..]);
        Leftover(m, input, i, n, low, high, before, buffer[..]);
      }
      message := m + input;
    }

    /** The bytes waiting in the buffer. */
    method Waiting() returns (index: nat)
      requires Valid()
      ensures |message| == 64 * Whole(|message|) + index && index == Part(|message|) < 64
      ensures buffer[..index] == message[64 * Whole(|message|)..]
    {
      Index(count0, count1, |message|);
      index := count0 / 8 % 64;
    }

    method Final() returns (digest: seq<byte>)
      requires Valid()
      modifies this, buffer
      ensures digest == Digest(old(message))
    {
      hide Transform, Counts, Blocks, Whole, Part, LittleEndian, Digest, Output, Padding;
      ghost var m := message;
      CountBytes(count0, count1, |m|);
      var bits := LittleEndian(count0, 4) + LittleEndian(count1, 4);
      var index := Waiting();
      var padLen := if index < 56 then 56 - index else 120 - index;
      PaddingOf(|m|, Whole(|m|), index, padLen);
      Update(PADDING[..padLen]);
      Update(bits);
      Completed(m, state, count0, count1, buffer[..]);
      digest := Output(state);
      state, count0, count1 := State(0, 0, 0, 0), 0, 0;
    }
  }

  /** Sixteen zero bytes for the empty input, the digest for every other. */
  method MD5Bits128(input: seq<byte>) returns (output: seq<byte>)
    requires |input| < 0x8000_0000
    ensures input == [] ==> output == Zeros(16)
    ensures input != [] ==> output == Digest(input)
  {
    hide Digest, Absorbed;
    if |input| <= 0 { return Zeros(16); }
    var context := new Context();
    context.Update(input);
    assert [] + input == input;
    output := context.Final();
  }

  /** The number that the first eight bytes of `digest` are, low byte first. */
  function Bits64(digest: seq<byte>): nat
    requires |digest| >= 8
  {
    Word(digest, 0) as int + 0x1_0000_0000 * Word(digest, 4) as int
  }

  /** The first eight digest bytes as a little-endian number. */
  method MD5Bits64(input: seq<byte>) returns (value: nat)
    requires |input| < 0x8000_0000
    ensures input != [] ==> |Digest(input)| == 16 && value == Bits64(Digest(input))
    ensures LittleEndian(value, 8) == (if input == [] then Zeros(16) else Digest(input))[..8]
  {
    hide Digest, Absorbed;
    var usDigest := MD5Bits128(input);
    DigestLength(input);
    var low, high := Word(usDigest, 0), Word(usDigest, 4);
    value := low as int + 0x1_0000_0000 * high as int;
    LowHalf(low, high);
    Halves(value, 4, 4);
    WordBytes(usDigest, 0);
    WordBytes(usDigest, 4);
    assert usDigest[..8] == usDigest[0..4] + usDigest[4..8];
  }

  lemma DigestLength(m: seq<byte>)
    ensures |Digest(m)| == 16
  {
  }

  lemma WordBytes(s: seq<byte>, j: nat)
    requires j + 4 <= |s|
    ensures LittleEndian(Word(s, j), 4) == s[j..j + 4]
  {
    hide LittleEndian;
    var w3 := s[j + 3] as int;
    var w2 := s[j + 2] as int + 256 * w3;
    var w1 := s[j + 1] as int + 256 * w2;
    assert Word(s, j) == s[j] as int + 256 * w1;
    FourBytes(Word(s, j));
    ByteStep(s[j], w1);
    ByteStep(s[j + 1], w2);
    ByteStep(s[j + 2], w3);
  }

  /** Both implementations give the same digest for exactly the non-empty messages. */
  method BothDigests(message: seq<byte>) returns (first: seq<byte>, second: seq<byte>)
    requires |message| < 0x8000_0000
    ensures first == Digest(message)
    ensures message == [] ==> second == Zeros(16)
    ensures second == first <==> message != []
  {
    hide Digest, Absorbed;
    var h := new MD5();
    h.Update(message);
    assert [] + message == message;
    h.Finalize();
    first := h.digest;
    second := MD5Bits128(message);
    Md5Answers.EmptyDigest();
    assert message == [] ==> second[0] != first[0];
  }
}
