/** A third answer of the test suite in appendix A.5 of RFC 1321: a message of two blocks, the first of which has
    sixteen different words. */
module Md5LongAnswer {
  import opened Common
  import opened Md5Spec
  import opened Md5Answers

  /** The capital letters, the small letters and the digits. */
  function Character(i: nat): byte
    requires i < 62
  {
    if i < 26 then 'A' as int + i else if i < 52 then 'a' as int + i - 26 else '0' as int + i - 52
  }

  const MESSAGE: seq<byte> := seq(62, i requires 0 <= i < 62 => Character(i))

  ghost predicate FirstWords(x: seq<bv32>) {
    && |x| == 16
    && x[0] == 0x44434241 && x[1] == 0x48474645 && x[2] == 0x4c4b4a49 && x[3] == 0x504f4e4d
    && x[4] == 0x54535251 && x[5] == 0x58575655 && x[6] == 0x62615a59 && x[7] == 0x66656463
    && x[8] == 0x6a696867 && x[9] == 0x6e6d6c6b && x[10] == 0x7271706f && x[11] == 0x76757473
    && x[12] == 0x7a797877 && x[13] == 0x33323130 && x[14] == 0x37363534 && x[15] == 0x803938
  }

  ghost predicate SecondWords(x: seq<bv32>) {
    && |x| == 16
    && x[0] == 0x0 && x[1] == 0x0 && x[2] == 0x0 && x[3] == 0x0
    && x[4] == 0x0 && x[5] == 0x0 && x[6] == 0x0 && x[7] == 0x0
    && x[8] == 0x0 && x[9] == 0x0 && x[10] == 0x0 && x[11] == 0x0
    && x[12] == 0x0 && x[13] == 0x0 && x[14] == 0x1f0 && x[15] == 0x0
  }

  lemma FirstRound1(x: seq<bv32>)
    requires FirstWords(x)
    ensures Round1(Registers(0x67452301, 0xefcdab89, 0x98badcfe, 0x10325476), x) ==
            Registers(0x3cbdcd45, 0x5d38e690, 0xfa148c8a, 0xb8dec763)
  {
  }

  lemma FirstRound2(x: seq<bv32>)
    requires FirstWords(x)
    ensures Round2(Registers(0x3cbdcd45, 0x5d38e690, 0xfa148c8a, 0xb8dec763), x) ==
            Registers(0x9b085fa9, 0xdd789ecc, 0x5993248f, 0x4400a9bd)
  {
  }

  lemma FirstRound3(x: seq<bv32>)
    requires FirstWords(x)
    ensures Round3(Registers(0x9b085fa9, 0xdd789ecc, 0x5993248f, 0x4400a9bd), x) ==
            Registers(0x2dbee21d, 0xf166f514, 0xee46e961, 0xe95c3a43)
  {
  }

  lemma FirstRound4(x: seq<bv32>)
    requires FirstWords(x)
    ensures Round4(Registers(0x2dbee21d, 0xf166f514, 0xee46e961, 0xe95c3a43), x) ==
            Registers(0x1cb80f0a, 0xef2e3a46, 0x10f68731, 0xea3d3eb4)
  {
  }

  lemma FirstTransform(block: seq<byte>)
    requires |block| == 64 && FirstWords(Words(block))
    ensures Transform(State(0x67452301, 0xefcdab89, 0x98badcfe, 0x10325476), block) ==
            State(0x83fd320b, 0xdefbe5cf, 0xa9b1642f, 0xfa6f932a)
  {
    hide Round1, Round2, Round3, Round4, Words, FirstWords;
    AsWord(0x67452301, 0x67452301);
    AsWord(0xefcdab89, 0xefcdab89);
    AsWord(0x98badcfe, 0x98badcfe);
    AsWord(0x10325476, 0x10325476);
    var x := Words(block);
    FirstRound1(x);
    FirstRound2(x);
    FirstRound3(x);
    FirstRound4(x);
  }

  lemma SecondRound1(x: seq<bv32>)
    requires SecondWords(x)
    ensures Round1(Registers(0x83fd320b, 0xdefbe5cf, 0xa9b1642f, 0xfa6f932a), x) ==
            Registers(0xa70737da, 0xa36f556f, 0x96f6586e, 0x5473f8a7)
  {
  }

  lemma SecondRound2(x: seq<bv32>)
    requires SecondWords(x)
    ensures Round2(Registers(0xa70737da, 0xa36f556f, 0x96f6586e, 0x5473f8a7), x) ==
            Registers(0x24eba695, 0x9c03e2e8, 0x10c42a2f, 0x4bd0378b)
  {
  }

  lemma SecondRound3(x: seq<bv32>)
    requires SecondWords(x)
    ensures Round3(Registers(0x24eba695, 0x9c03e2e8, 0x10c42a2f, 0x4bd0378b), x) ==
            Registers(0x54c9eb3a, 0x79c0710a, 0x2ec86f72, 0xd4d9c6ac)
  {
  }

  lemma SecondRound4(x: seq<bv32>)
    requires SecondWords(x)
    ensures Round4(Registers(0x54c9eb3a, 0x79c0710a, 0x2ec86f72, 0xd4d9c6ac), x) ==
            Registers(0x14ae42c6, 0x16dd9203, 0x826afd76, 0xa52dae75)
  {
  }

  lemma SecondTransform(block: seq<byte>)
    requires |block| == 64 && SecondWords(Words(block))
    ensures Transform(State(0x83fd320b, 0xdefbe5cf, 0xa9b1642f, 0xfa6f932a), block) ==
            State(0x98ab74d1, 0xf5d977d2, 0x2c1c61a5, 0x9f9d419f)
  {
    hide Round1, Round2, Round3, Round4, Words, SecondWords;
    AsWord(0x83fd320b, 0x83fd320b);
    AsWord(0xdefbe5cf, 0xdefbe5cf);
    AsWord(0xa9b1642f, 0xa9b1642f);
    AsWord(0xfa6f932a, 0xfa6f932a);
    var x := Words(block);
    SecondRound1(x);
    SecondRound2(x);
    SecondRound3(x);
    SecondRound4(x);
  }

  /** The two blocks. */
  lemma Blocked()
    ensures Padded(MESSAGE) == MESSAGE + [0x80] + Zeros(57) + [0xf0, 1] + Zeros(6)
    ensures |Padded(MESSAGE)| == 128
  {
    hide LittleEndian;
    OneByte(1, 7);
    LengthField();
  }

  lemma LengthField()
    ensures LittleEndian(496, 8) == [0xf0, 1] + Zeros(6)
  {
    OneByte(1, 7);
  }

  lemma PaddedByte(p: seq<byte>, i: nat)
    requires p == MESSAGE + [0x80] + Zeros(57) + [0xf0, 1] + Zeros(6) && i < 128
    ensures p[i] == if i < 62 then Character(i) else if i == 62 then 0x80
                    else if i == 120 then 0xf0 else if i == 121 then 1 else 0
  {
  }

  lemma PaddedWord(p: seq<byte>, b: nat, i: nat, x: bv32)
    requires p == MESSAGE + [0x80] + Zeros(57) + [0xf0, 1] + Zeros(6) && b < 2 && i < 16
    requires x as int == Word(p, 64 * b + 4 * i)
    ensures Words(p[64 * b..64 * b + 64])[i] == x
  {
    hide Words;
    var block := p[64 * b..64 * b + 64];
    assert Word(block, 4 * i) == Word(p, 64 * b + 4 * i);
    WordsAt(block, i, x);
  }

  /** The word that starts with character `4 * i` of the message. */
  function CharacterWord(i: nat): int
    requires i < 15
  {
    Character(4 * i) as int + 0x100 * Character(4 * i + 1) as int + 0x1_0000 * Character(4 * i + 2) as int +
    0x100_0000 * Character(4 * i + 3) as int
  }

  lemma FirstWord(p: seq<byte>, i: nat, x: bv32)
    requires p == MESSAGE + [0x80] + Zeros(57) + [0xf0, 1] + Zeros(6) && i < 15 && x as int == CharacterWord(i)
    ensures Words(p[0..64])[i] == x
  {
    hide Words, Zeros;
    PaddedByte(p, 4 * i);
    PaddedByte(p, 4 * i + 1);
    PaddedByte(p, 4 * i + 2);
    PaddedByte(p, 4 * i + 3);
    PaddedWord(p, 0, i, x);
  }

  lemma FirstBlock(p: seq<byte>)
    requires p == MESSAGE + [0x80] + Zeros(57) + [0xf0, 1] + Zeros(6)
    ensures FirstWords(Words(p[0..64]))
  {
    hide Words, Zeros;
    FirstWord(p, 0, 0x44434241);
    FirstWord(p, 1, 0x48474645);
    FirstWord(p, 2, 0x4c4b4a49);
    FirstWord(p, 3, 0x504f4e4d);
    FirstWord(p, 4, 0x54535251);
    FirstWord(p, 5, 0x58575655);
    FirstWord(p, 6, 0x62615a59);
    FirstWord(p, 7, 0x66656463);
    FirstWord(p, 8, 0x6a696867);
    FirstWord(p, 9, 0x6e6d6c6b);
    FirstWord(p, 10, 0x7271706f);
    FirstWord(p, 11, 0x76757473);
    FirstWord(p, 12, 0x7a797877);
    FirstWord(p, 13, 0x33323130);
    FirstWord(p, 14, 0x37363534);
    LastWord(p);
  }

  lemma LastWord(p: seq<byte>)
    requires p == MESSAGE + [0x80] + Zeros(57) + [0xf0, 1] + Zeros(6)
    ensures Words(p[0..64])[15] == 0x803938
  {
    hide Words, Zeros;
    PaddedByte(p, 60);
    PaddedByte(p, 61);
    PaddedByte(p, 62);
    PaddedByte(p, 63);
    PaddedWord(p, 0, 15, 0x803938);
  }

  lemma SecondBlock(p: seq<byte>)
    requires p == MESSAGE + [0x80] + Zeros(57) + [0xf0, 1] + Zeros(6)
    ensures SecondWords(Words(p[64..128]))
  {
    hide Words, Zeros;
    forall i | 64 <= i < 128 ensures p[i] == if i == 120 then 0xf0 else if i == 121 then 1 else 0 { PaddedByte(p, i); }
    forall i | 0 <= i < 16 && i != 14 ensures Words(p[64..128])[i] == 0 { PaddedWord(p, 1, i, 0); }
    PaddedWord(p, 1, 14, 0x1f0);
  }

  /** MD5 ("ABCDEFGHIJKLMNOPQRSTUVWXYZabcdefghijklmnopqrstuvwxyz0123456789") = d174ab98d277d9f5a5611c2c9f419d9f. */
  lemma LongDigest()
    ensures Digest(MESSAGE) ==
            [0xd1, 0x74, 0xab, 0x98, 0xd2, 0x77, 0xd9, 0xf5, 0xa5, 0x61, 0x1c, 0x2c, 0x9f, 0x41, 0x9d, 0x9f]
  {
    hide Transform, Words, FirstWords, SecondWords, LittleEndian, Padded;
    Blocked();
    var p := Padded(MESSAGE);
    FirstBlock(p);
    SecondBlock(p);
    FirstTransform(p[0..64]);
    SecondTransform(p[64..128]);
    assert Blocks(p, 1) == Transform(Blocks(p, 0), p[0..64]);
    assert Blocks(p, 2) == Transform(Blocks(p, 1), p[64..128]);
    FourBytes(0x98ab74d1);
    FourBytes(0xf5d977d2);
    FourBytes(0x2c1c61a5);
    FourBytes(0x9f9d419f);
  }
}
