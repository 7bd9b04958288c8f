/** The MD5 message digest of RFC 1321: the compression function, and the digest of a message as
    sections 3.1 to 3.5 define it. */
module Md5Spec {
  import opened Common

  type uint32 = w: int | 0 <= w < 0x1_0000_0000

  // ---------------------------------------------------------------- the compression function

  datatype Registers = Registers(a: bv32, b: bv32, c: bv32, d: bv32)

  function F(x: bv32, y: bv32, z: bv32): bv32 { (x & y) | (!x & z) }
  function G(x: bv32, y: bv32, z: bv32): bv32 { (x & z) | (y & !z) }
  function H(x: bv32, y: bv32, z: bv32): bv32 { x ^ y ^ z }
  function I(x: bv32, y: bv32, z: bv32): bv32 { y ^ (x | !z) }

  function RotateLeft(x: bv32, n: nat): bv32
    requires 0 < n < 32
  {
    (x << n) | (x >> (32 - n))
  }

  function FF(a: bv32, b: bv32, c: bv32, d: bv32, x: bv32, s: nat, ac: bv32): bv32
    requires 0 < s < 32
  {
    RotateLeft(a + F(b, c, d) + x + ac, s) + b
  }

  function GG(a: bv32, b: bv32, c: bv32, d: bv32, x: bv32, s: nat, ac: bv32): bv32
    requires 0 < s < 32
  {
    RotateLeft(a + G(b, c, d) + x + ac, s) + b
  }

  function HH(a: bv32, b: bv32, c: bv32, d: bv32, x: bv32, s: nat, ac: bv32): bv32
    requires 0 < s < 32
  {
    RotateLeft(a + H(b, c, d) + x + ac, s) + b
  }

  function II(a: bv32, b: bv32, c: bv32, d: bv32, x: bv32, s: nat, ac: bv32): bv32
    requires 0 < s < 32
  {
    RotateLeft(a + I(b, c, d) + x + ac, s) + b
  }

  function Round1(r: Registers, x: seq<bv32>): Registers
    requires |x| == 16
  {
    var a1 := FF(r.a, r.b, r.c, r.d, x[0], 7, 0xd76aa478);
    var d1 := FF(r.d, a1, r.b, r.c, x[1], 12, 0xe8c7b756);
    var c1 := FF(r.c, d1, a1, r.b, x[2], 17, 0x242070db);
    var b1 := FF(r.b, c1, d1, a1, x[3], 22, 0xc1bdceee);
    var a2 := FF(a1, b1, c1, d1, x[4], 7, 0xf57c0faf);
    var d2 := FF(d1, a2, b1, c1, x[5], 12, 0x4787c62a);
    var c2 := FF(c1, d2, a2, b1, x[6], 17, 0xa8304613);
    var b2 := FF(b1, c2, d2, a2, x[7], 22, 0xfd469501);
    var a3 := FF(a2, b2, c2, d2, x[8], 7, 0x698098d8);
    var d3 := FF(d2, a3, b2, c2, x[9], 12, 0x8b44f7af);
    var c3 := FF(c2, d3, a3, b2, x[10], 17, 0xffff5bb1);
    var b3 := FF(b2, c3, d3, a3, x[11], 22, 0x895cd7be);
    var a4 := FF(a3, b3, c3, d3, x[12], 7, 0x6b901122);
    var d4 := FF(d3, a4, b3, c3, x[13], 12, 0xfd987193);
    var c4 := FF(c3, d4, a4, b3, x[14], 17, 0xa679438e);
    var b4 := FF(b3, c4, d4, a4, x[15], 22, 0x49b40821);
    Registers(a4, b4, c4, d4)
  }

  function Round2(r: Registers, x: seq<bv32>): Registers
    requires |x| == 16
  {
    var a1 := GG(r.a, r.b, r.c, r.d, x[1], 5, 0xf61e2562);
    var d1 := GG(r.d, a1, r.b, r.c, x[6], 9, 0xc040b340);
    var c1 := GG(r.c, d1, a1, r.b, x[11], 14, 0x265e5a51);
    var b1 := GG(r.b, c1, d1, a1, x[0], 20, 0xe9b6c7aa);
    var a2 := GG(a1, b1, c1, d1, x[5], 5, 0xd62f105d);
    var d2 := GG(d1, a2, b1, c1, x[10], 9, 0x2441453);
    var c2 := GG(c1, d2, a2, b1, x[15], 14, 0xd8a1e681);
    var b2 := GG(b1, c2, d2, a2, x[4], 20, 0xe7d3fbc8);
    var a3 := GG(a2, b2, c2, d2, x[9], 5, 0x21e1cde6);
    var d3 := GG(d2, a3, b2, c2, x[14], 9, 0xc33707d6);
    var c3 := GG(c2, d3, a3, b2, x[3], 14, 0xf4d50d87);
    var b3 := GG(b2, c3, d3, a3, x[8], 20, 0x455a14ed);
    var a4 := GG(a3, b3, c3, d3, x[13], 5, 0xa9e3e905);
    var d4 := GG(d3, a4, b3, c3, x[2], 9, 0xfcefa3f8);
    var c4 := GG(c3, d4, a4, b3, x[7], 14, 0x676f02d9);
    var b4 := GG(b3, c4, d4, a4, x[12], 20, 0x8d2a4c8a);
    Registers(a4, b4, c4, d4)
  }

  function Round3(r: Registers, x: seq<bv32>): Registers
    requires |x| == 16
  {
    var a1 := HH(r.a, r.b, r.c, r.d, x[5], 4, 0xfffa3942);
    var d1 := HH(r.d, a1, r.b, r.c, x[8], 11, 0x8771f681);
    var c1 := HH(r.c, d1, a1, r.b, x[11], 16, 0x6d9d6122);
    var b1 := HH(r.b, c1, d1, a1, x[14], 23, 0xfde5380c);
    var a2 := HH(a1, b1, c1, d1, x[1], 4, 0xa4beea44);
    var d2 := HH(d1, a2, b1, c1, x[4], 11, 0x4bdecfa9);
    var c2 := HH(c1, d2, a2, b1, x[7], 16, 0xf6bb4b60);
    var b2 := HH(b1, c2, d2, a2, x[10], 23, 0xbebfbc70);
    var a3 := HH(a2, b2, c2, d2, x[13], 4, 0x289b7ec6);
    var d3 := HH(d2, a3, b2, c2, x[0], 11, 0xeaa127fa);
    var c3 := HH(c2, d3, a3, b2, x[3], 16, 0xd4ef3085);
    var b3 := HH(b2, c3, d3, a3, x[6], 23, 0x4881d05);
    var a4 := HH(a3, b3, c3, d3, x[9], 4, 0xd9d4d039);
    var d4 := HH(d3, a4, b3, c3, x[12], 11, 0xe6db99e5);
    var c4 := HH(c3, d4, a4, b3, x[15], 16, 0x1fa27cf8);
    var b4 := HH(b3, c4, d4, a4, x[2], 23, 0xc4ac5665);
    Registers(a4, b4, c4, d4)
  }

  function Round4(r: Registers, x: seq<bv32>): Registers
    requires |x| == 16
  {
    var a1 := II(r.a, r.b, r.c, r.d, x[0], 6, 0xf4292244);
    var d1 := II(r.d, a1, r.b, r.c, x[7], 10, 0x432aff97);
    var c1 := II(r.c, d1, a1, r.b, x[14], 15, 0xab9423a7);
    var b1 := II(r.b, c1, d1, a1, x[5], 21, 0xfc93a039);
    var a2 := II(a1, b1, c1, d1, x[12], 6, 0x655b59c3);
    var d2 := II(d1, a2, b1, c1, x[3], 10, 0x8f0ccc92);
    var c2 := II(c1, d2, a2, b1, x[10], 15, 0xffeff47d);
    var b2 := II(b1, c2, d2, a2, x[1], 21, 0x85845dd1);
    var a3 := II(a2, b2, c2, d2, x[8], 6, 0x6fa87e4f);
    var d3 := II(d2, a3, b2, c2, x[15], 10, 0xfe2ce6e0);
    var c3 := II(c2, d3, a3, b2, x[6], 15, 0xa3014314);
    var b3 := II(b2, c3, d3, a3, x[13], 21, 0x4e0811a1);
    var a4 := II(a3, b3, c3, d3, x[4], 6, 0xf7537e82);
    var d4 := II(d3, a4, b3, c3, x[11], 10, 0xbd3af235);
    var c4 := II(c3, d4, a4, b3, x[2], 15, 0x2ad7d2bb);
    var b4 := II(b3, c4, d4, a4, x[9], 21, 0xeb86d391);
    Registers(a4, b4, c4, d4)
  }

  datatype State = State(a: uint32, b: uint32, c: uint32, d: uint32)

  const INITIAL := State(0x67452301, 0xefcdab89, 0x98badcfe, 0x10325476)

  /** Four bytes as a word, low byte first. */
  function Word(s: seq<byte>, j: nat): uint32
    requires j + 4 <= |s|
  {
    s[j] as int + 0x100 * s[j + 1] as int + 0x1_0000 * s[j + 2] as int + 0x100_0000 * s[j + 3] as int
  }

  function Words(block: seq<byte>): (x: seq<bv32>)
    requires |block| == 64
    ensures |x| == 16
  {
    seq(16, i requires 0 <= i < 16 => Word(block, 4 * i) as bv32)
  }

  /** The state after one more block. */
  function Transform(s: State, block: seq<byte>): State
    requires |block| == 64
  {
    var x := Words(block);
    var a, b, c, d := s.a as bv32, s.b as bv32, s.c as bv32, s.d as bv32;
    var r := Round4(Round3(Round2(Round1(Registers(a, b, c, d), x), x), x), x);
    State((a + r.a) as int, (b + r.b) as int, (c + r.c) as int, (d + r.d) as int)
  }

  // ---------------------------------------------------------------- the digest of a message

  /** The state after the first `n` blocks of `m`. */
  function Blocks(m: seq<byte>, n: nat): State
    requires 64 * n <= |m|
  {
    if n == 0 then INITIAL else Transform(Blocks(m, n - 1), m[64 * (n - 1)..64 * n])
  }

  /** `n` as `k` bytes, low byte first. */
  function LittleEndian(n: nat, k: nat): (s: seq<byte>)
    ensures |s| == k
  {
    if k == 0 then [] else [n % 256] + LittleEndian(n / 256, k - 1)
  }

  function Zeros(n: nat): (s: seq<byte>)
    ensures |s| == n
  {
    seq(n, _ => 0)
  }

  /** Section 3.1: one bit, then zeros until the length is 56 modulo 64. */
  function Padding(length: nat): (s: seq<byte>)
    ensures 1 <= |s| <= 64 && (length + |s|) % 64 == 56
  {
    [0x80] + Zeros((119 - length % 64) % 64)
  }

  /** Sections 3.1 and 3.2: padding and the length in bits modulo 2^64. */
  function Padded(m: seq<byte>): (s: seq<byte>)
    ensures |s| == |m| + |Padding(|m|)| + 8
  {
    m + Padding(|m|) + LittleEndian(8 * |m| % 0x1_0000_0000_0000_0000, 8)
  }

  function Output(s: State): seq<byte> {
    LittleEndian(s.a, 4) + LittleEndian(s.b, 4) + LittleEndian(s.c, 4) + LittleEndian(s.d, 4)
  }

  function Digest(m: seq<byte>): seq<byte> {
    Output(Blocks(Padded(m), |Padded(m)| / 64))
  }

  // ---------------------------------------------------------------- facts about blocks and counts

  /** Later bytes do not affect earlier blocks. */
  lemma {:induction false} BlocksPrefix(m: seq<byte>, more: seq<byte>, n: nat)
    requires 64 * n <= |m|
    ensures Blocks(m + more, n) == Blocks(m, n)
  {
    hide Transform;
    if n > 0 {
      BlocksPrefix(m, more, n - 1);
      assert (m + more)[64 * (n - 1)..64 * n] == m[64 * (n - 1)..64 * n];
    }
  }

  /** The count pair after `length` more bytes: the low word's carry and the bits shifted out go to the high word. */
  function Counted(low: uint32, high: uint32, length: nat): (uint32, uint32)
    requires length < 0x8000_0000
  {
    var shifted := length * 8 % 0x1_0000_0000;
    var low' := (low + shifted) % 0x1_0000_0000;
    var high' := if low' < shifted then (high + 1) % 0x1_0000_0000 else high;
    (low', (high' + length / 0x2000_0000) % 0x1_0000_0000)
  }

  ghost predicate Counts(low: uint32, high: uint32, length: nat) {
    low + 0x1_0000_0000 * high == 8 * length % 0x1_0000_0000_0000_0000
  }

  /** The count pair is the length in bits modulo 2^64. */
  lemma CountsOn(low: uint32, high: uint32, length: nat, more: nat)
    requires Counts(low, high, length) && more < 0x8000_0000
    ensures Counts(Counted(low, high, more).0, Counted(low, high, more).1, length + more)
  {
    var B := 0x1_0000_0000;
    var shifted, top := more * 8 % B, more / 0x2000_0000;
    assert more * 8 == shifted + B * top;
    var carry := if low + shifted >= B then 1 else 0;
    var low' := (low + shifted) % B;
    assert low' == low + shifted - B * carry;
    var h := high + carry + top;
    assert low' + B * h == low + B * high + 8 * more;
    ModAdd32(high + carry, top);
    Wrapped(low', h);
    ModAdd(8 * length, 8 * more);
  }

  lemma Wrapped(low: uint32, h: nat)
    ensures low + 0x1_0000_0000 * (h % 0x1_0000_0000) == (low + 0x1_0000_0000 * h) % 0x1_0000_0000_0000_0000
  {
    var q, r := h / 0x1_0000_0000, h % 0x1_0000_0000;
    assert low + 0x1_0000_0000 * h == low + 0x1_0000_0000 * r + 0x1_0000_0000_0000_0000 * q;
  }

  lemma ModAdd32(a: nat, b: nat)
    ensures (a % 0x1_0000_0000 + b) % 0x1_0000_0000 == (a + b) % 0x1_0000_0000
  {
  }

  lemma ModAdd(a: nat, b: nat)
    ensures (a % 0x1_0000_0000_0000_0000 + b) % 0x1_0000_0000_0000_0000 == (a + b) % 0x1_0000_0000_0000_0000
  {
  }

  /** The low word tells how full the buffer is. */
  lemma Index(low: uint32, high: uint32, length: nat)
    requires Counts(low, high, length)
    ensures low / 8 % 64 == length % 64
  {
    var q := 8 * length / 0x1_0000_0000_0000_0000;
    assert low == 8 * (length - 0x2000_0000 * high - 0x2000_0000_0000_0000 * q);
    assert low / 8 == length - 64 * (0x80_0000 * high + 0x80_0000_0000_0000 * q);
  }

  function Shifted(n: nat, k: nat): nat { if k == 0 then n else Shifted(n / 256, k - 1) }

  lemma {:induction false} Halves(n: nat, k: nat, j: nat)
    ensures LittleEndian(n, k + j) == LittleEndian(n, k) + LittleEndian(Shifted(n, k), j)
  {
    if k > 0 { Halves(n / 256, k - 1, j); }
  }

  lemma LowHalf(low: uint32, high: nat)
    ensures (var n := low + 0x1_0000_0000 * high;
      LittleEndian(n, 4) == LittleEndian(low, 4) && Shifted(n, 4) == high)
  {
    hide LittleEndian, Shifted;
    var n := low + 0x1_0000_0000 * high;
    var l1 := low / 256;
    var l2 := l1 / 256;
    var l3 := l2 / 256;
    ByteStep(low, 0x100_0000 * high);
    ByteStep(l1, 0x1_0000 * high);
    ByteStep(l2, 0x100 * high);
    ByteStep(l3, high);
    FourBytes(n);
    FourBytes(low);
  }

  lemma ByteStep(l: nat, x: nat)
    ensures (l + 256 * x) % 256 == l % 256 && (l + 256 * x) / 256 == l / 256 + x
  {
  }

  lemma FourBytes(n: nat)
    ensures LittleEndian(n, 4) == [n % 256, n / 256 % 256, n / 256 / 256 % 256, n / 256 / 256 / 256 % 256]
    ensures Shifted(n, 4) == n / 256 / 256 / 256 / 256
  {
    var n1 := n / 256;
    var n2 := n1 / 256;
    var n3 := n2 / 256;
    assert LittleEndian(n3, 1) == [n3 % 256] + LittleEndian(n3 / 256, 0);
    assert LittleEndian(n2, 2) == [n2 % 256] + LittleEndian(n3, 1);
    assert LittleEndian(n1, 3) == [n1 % 256] + LittleEndian(n2, 2);
    assert Shifted(n1, 3) == Shifted(n2, 2) == Shifted(n3, 1) == Shifted(n3 / 256, 0);
  }

  /** The two words of the count, written low word first, are the 64-bit length. */
  lemma CountBytes(low: uint32, high: uint32, length: nat)
    requires Counts(low, high, length)
    ensures LittleEndian(low, 4) + LittleEndian(high, 4) == LittleEndian(8 * length % 0x1_0000_0000_0000_0000, 8)
  {
    hide LittleEndian, Shifted;
    LowHalf(low, high);
    Halves(low + 0x1_0000_0000 * high, 4, 4);
  }
}
