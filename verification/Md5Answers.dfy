/** Two answers of the test suite in appendix A.5 of RFC 1321, computed by the model: they tie its constants down. */
module Md5Answers {
  import opened Common
  import opened Md5Spec

  /** A padded message of one block whose first word and length word are given, and all others zero. */
  ghost predicate OneBlock(x: seq<bv32>, first: bv32, bits: bv32) {
    && |x| == 16
    && x[0] == first && x[1] == 0 && x[2] == 0 && x[3] == 0 && x[4] == 0 && x[5] == 0 && x[6] == 0 && x[7] == 0
    && x[8] == 0 && x[9] == 0 && x[10] == 0 && x[11] == 0 && x[12] == 0 && x[13] == 0 && x[14] == bits && x[15] == 0
  }

  lemma AsWord(x: bv32, n: uint32)
    requires x as int == n
    ensures n as bv32 == x
  {
    assert (x as int) as bv32 == x;
  }

  lemma {:induction false} OneByte(n: byte, k: nat)
    requires k > 0
    ensures LittleEndian(n, k) == [n] + Zeros(k - 1)
  {
    if k > 1 {
      OneByte(0, k - 1);
      assert [0] + Zeros(k - 2) == Zeros(k - 1);
    }
  }

  /** The one block that a message of less than four bytes is padded to. */
  lemma ShortBlock(m: seq<byte>)
    requires |m| < 4
    ensures Padded(m) == m + [0x80] + Zeros(55 - |m|) + [8 * |m|] + Zeros(7)
    ensures |Padded(m)| == 64 && Digest(m) == Output(Transform(INITIAL, Padded(m)))
  {
    hide LittleEndian, Transform, Output;
    OneByte(8 * |m|, 8);
    var p := Padded(m);
    assert p[0..64] == p;
    assert Blocks(p, 1) == Transform(Blocks(p, 0), p[0..64]);
  }

  lemma ShortBytes(m: seq<byte>, p: seq<byte>, i: nat)
    requires |m| < 4 && p == m + [0x80] + Zeros(55 - |m|) + [8 * |m|] + Zeros(7) && i < 64
    ensures i < 4 ==> p[i] == (m + [0x80] + Zeros(3 - |m|))[i]
    ensures i >= 4 ==> p[i] == if i == 56 then 8 * |m| else 0
  {
  }

  lemma ShortWord(m: seq<byte>, p: seq<byte>, i: nat)
    requires |m| < 4 && p == m + [0x80] + Zeros(55 - |m|) + [8 * |m|] + Zeros(7) && i < 16
    ensures Word(p, 4 * i) ==
            if i == 0 then Word(m + [0x80] + Zeros(3 - |m|), 0) else if i == 14 then 8 * |m| else 0
  {
    hide Zeros;
    ShortBytes(m, p, 4 * i);
    ShortBytes(m, p, 4 * i + 1);
    ShortBytes(m, p, 4 * i + 2);
    ShortBytes(m, p, 4 * i + 3);
  }

  lemma WordsAt(p: seq<byte>, i: nat, x: bv32)
    requires |p| == 64 && i < 16 && x as int == Word(p, 4 * i)
    ensures Words(p)[i] == x
  {
    hide Word;
    AsWord(x, Word(p, 4 * i));
  }

  /** The sixteen words of that block. */
  lemma ShortWords(m: seq<byte>, first: bv32, bits: bv32)
    requires |m| < 4 && bits as int == 8 * |m| && first as int == Word(m + [0x80] + Zeros(3 - |m|), 0)
    ensures |Padded(m)| == 64 && OneBlock(Words(Padded(m)), first, bits)
  {
    hide Padded, LittleEndian, Digest, Zeros, Word, Words;
    ShortBlock(m);
    var p := Padded(m);
    ShortWord(m, p, 0);
    WordsAt(p, 0, first);
    ShortWord(m, p, 14);
    WordsAt(p, 14, bits);
    forall i | 0 < i < 16 && i != 14
      ensures Words(p)[i] == 0
    {
      ShortWord(m, p, i);
      WordsAt(p, i, 0);
    }
  }

  lemma EmptyRound1(x: seq<bv32>)
    requires OneBlock(x, 0x80, 0x0)
    ensures Round1(Registers(0x67452301, 0xefcdab89, 0x98badcfe, 0x10325476), x) ==
            Registers(0xf56c7cf1, 0xd6819c6a, 0x5aa53f75, 0x374943a7)
  {
  }

  lemma EmptyRound2(x: seq<bv32>)
    requires OneBlock(x, 0x80, 0x0)
    ensures Round2(Registers(0xf56c7cf1, 0xd6819c6a, 0x5aa53f75, 0x374943a7), x) ==
            Registers(0x13707036, 0xa2205f1f, 0x1c31c384, 0xae7813db)
  {
  }

  lemma EmptyRound3(x: seq<bv32>)
    requires OneBlock(x, 0x80, 0x0)
    ensures Round3(Registers(0x13707036, 0xa2205f1f, 0x1c31c384, 0xae7813db), x) ==
            Registers(0x3f55edfd, 0xca7d2dbd, 0x68d84ea2, 0x22a31f54)
  {
  }

  lemma EmptyRound4(x: seq<bv32>)
    requires OneBlock(x, 0x80, 0x0)
    ensures Round4(Registers(0x3f55edfd, 0xca7d2dbd, 0x68d84ea2, 0x22a31f54), x) ==
            Registers(0x7246fad3, 0x14e45506, 0xff4ea3eb, 0x6e10a476)
  {
  }

  lemma EmptyTransform(block: seq<byte>)
    requires |block| == 64 && OneBlock(Words(block), 0x80, 0x0)
    ensures Transform(INITIAL, block) == State(0xd98c1dd4, 0x04b2008f, 0x980980e9, 0x7e42f8ec)
  {
    hide Round1, Round2, Round3, Round4, Words;
    AsWord(0x67452301, INITIAL.a);
    AsWord(0xefcdab89, INITIAL.b);
    AsWord(0x98badcfe, INITIAL.c);
    AsWord(0x10325476, INITIAL.d);
    var x := Words(block);
    EmptyRound1(x);
    EmptyRound2(x);
    EmptyRound3(x);
    EmptyRound4(x);
  }

  /** MD5 ("") = d41d8cd98f00b204e9800998ecf8427e. */
  lemma EmptyDigest()
    ensures Digest([]) ==
            [0xd4, 0x1d, 0x8c, 0xd9, 0x8f, 0x00, 0xb2, 0x04, 0xe9, 0x80, 0x09, 0x98, 0xec, 0xf8, 0x42, 0x7e]
  {
    hide Transform, Padded, Words, OneBlock, Digest, LittleEndian;
    ShortBlock([]);
    ShortWords([], 0x80, 0x0);
    EmptyTransform(Padded([]));
    FourBytes(0xd98c1dd4);
    FourBytes(0x04b2008f);
    FourBytes(0x980980e9);
    FourBytes(0x7e42f8ec);
  }

  lemma AbcRound1(x: seq<bv32>)
    requires OneBlock(x, 0x80636261, 0x18)
    ensures Round1(Registers(0x67452301, 0xefcdab89, 0x98badcfe, 0x10325476), x) ==
            Registers(0xdda9b9a6, 0x72aff2e0, 0xe396856b, 0xa1051895)
  {
  }

  lemma AbcRound2(x: seq<bv32>)
    requires OneBlock(x, 0x80636261, 0x18)
    ensures Round2(Registers(0xdda9b9a6, 0x72aff2e0, 0xe396856b, 0xa1051895), x) ==
            Registers(0x790a77fb, 0x726342d3, 0xa62884aa, 0x9f47e4f8)
  {
  }

  lemma AbcRound3(x: seq<bv32>)
    requires OneBlock(x, 0x80636261, 0x18)
    ensures Round3(Registers(0x790a77fb, 0x726342d3, 0xa62884aa, 0x9f47e4f8), x) ==
            Registers(0x7f2e507b, 0x7beb9700, 0x8fae6399, 0x99d9679d)
  {
  }

  lemma AbcRound4(x: seq<bv32>)
    requires OneBlock(x, 0x80636261, 0x18)
    ensures Round4(Registers(0x7f2e507b, 0x7beb9700, 0x8fae6399, 0x99d9679d), x) ==
            Registers(0x310ade8f, 0xc08226b3, 0xe484b9d8, 0x624d8cb2)
  {
  }

  lemma AbcTransform(block: seq<byte>)
    requires |block| == 64 && OneBlock(Words(block), 0x80636261, 0x18)
    ensures Transform(INITIAL, block) == State(0x98500190, 0xb04fd23c, 0x7d3f96d6, 0x727fe128)
  {
    hide Round1, Round2, Round3, Round4, Words;
    AsWord(0x67452301, INITIAL.a);
    AsWord(0xefcdab89, INITIAL.b);
    AsWord(0x98badcfe, INITIAL.c);
    AsWord(0x10325476, INITIAL.d);
    var x := Words(block);
    AbcRound1(x);
    AbcRound2(x);
    AbcRound3(x);
    AbcRound4(x);
  }

  /** MD5 ("abc") = 900150983cd24fb0d6963f7d28e17f72. */
  lemma AbcDigest()
    ensures Digest([0x61, 0x62, 0x63]) ==
            [0x90, 0x01, 0x50, 0x98, 0x3c, 0xd2, 0x4f, 0xb0, 0xd6, 0x96, 0x3f, 0x7d, 0x28, 0xe1, 0x7f, 0x72]
  {
    hide Transform, Padded, Words, OneBlock, Digest, LittleEndian;
    ShortBlock([0x61, 0x62, 0x63]);
    ShortWords([0x61, 0x62, 0x63], 0x80636261, 0x18);
    AbcTransform(Padded([0x61, 0x62, 0x63]));
    FourBytes(0x98500190);
    FourBytes(0xb04fd23c);
    FourBytes(0x7d3f96d6);
    FourBytes(0x727fe128);
  }
}
