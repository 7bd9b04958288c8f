/** The index file of the dense index: marks, sizes and the three columns, as bytes. */
module IndexFile {
  import opened Common

  /** A 32-bit integer as it lies in memory, low byte first. */
  function Int32(n: nat): (s: seq<byte>)
    requires n < 0x8000_0000
    ensures |s| == 4
  {
    var n1 := n / 256;
    var n2 := n1 / 256;
    [n % 256, n1 % 256, n2 % 256, n2 / 256]
  }

  function ReadInt32(s: seq<byte>): int
    requires |s| == 4
  {
    var n := s[0] as int + 0x100 * s[1] as int + 0x1_0000 * s[2] as int + 0x100_0000 * s[3] as int;
    if n < 0x8000_0000 then n else n - 0x1_0000_0000
  }

  lemma ReadInt32Back(n: nat)
    requires n < 0x8000_0000
    ensures ReadInt32(Int32(n)) == n
  {
  }

  /** The low `k` bytes of `n`, low byte first. */
  function Field(n: int, k: nat): (s: seq<byte>)
    ensures |s| == k
    decreases k
  {
    if k == 0 then [] else [n % 256] + Field(n / 256, k - 1)
  }

  function ReadField(s: seq<byte>): nat {
    if s == [] then 0 else s[0] as int + 256 * ReadField(s[1..])
  }

  /** The first number that no longer fits into `k` bytes. */
  function Bound(k: nat): nat { if k == 0 then 1 else 256 * Bound(k - 1) }

  lemma {:induction false} ReadFieldBack(n: nat, k: nat)
    requires n < Bound(k)
    ensures ReadField(Field(n, k)) == n
  {
    if k > 0 { ReadFieldBack(n / 256, k - 1); }
  }

  /** A column of numbers, `k` bytes each. */
  function Column(ns: seq<int>, k: nat): (s: seq<byte>)
    ensures |s| == k * |ns|
  {
    if ns == [] then [] else Field(ns[0], k) + Column(ns[1..], k)
  }

  function ReadColumn(s: seq<byte>, k: nat, count: nat): (ns: seq<int>)
    requires |s| == k * count
    ensures |ns| == count
    decreases count
  {
    if count == 0 then [] else OneMore(k, count); [ReadField(s[..k])] + ReadColumn(s[k..], k, count - 1)
  }

  lemma OneMore(k: nat, count: nat)
    requires count > 0
    ensures k * count == k + k * (count - 1) && k * (count - 1) >= 0
  {
  }

  ghost predicate Fits(ns: seq<int>, k: nat) { forall i :: 0 <= i < |ns| ==> 0 <= ns[i] < Bound(k) }

  lemma {:induction false} ReadColumnBack(ns: seq<int>, k: nat)
    requires Fits(ns, k)
    ensures ReadColumn(Column(ns, k), k, |ns|) == ns
  {
    if ns != [] {
      var s := Column(ns, k);
      assert s[..k] == Field(ns[0], k) && s[k..] == Column(ns[1..], k);
      ReadFieldBack(ns[0], k);
      ReadColumnBack(ns[1..], k);
    }
  }

  /** "@QDIM1.0". */
  const INDEX_MARK: seq<byte> := [0x40, 0x51, 0x44, 0x49, 0x4d, 0x31, 0x2e, 0x30]

  function Header(max: nat, num: nat): (s: seq<byte>)
    requires max < 0x8000_0000 && num < 0x8000_0000
    ensures |s| == 16
  {
    INDEX_MARK + Int32(max) + Int32(num)
  }

  /** What rewriting the index writes. */
  function IndexBytes(max: nat, keys: seq<int>, offsets: seq<int>, flags: seq<int>): (s: seq<byte>)
    requires max < 0x8000_0000 && |keys| == |offsets| == |flags| < 0x8000_0000
    ensures |s| == 24 + 17 * |keys|
  {
    Header(max, |keys|) + Column(keys, 8) + Column(offsets, 8) + Column(flags, 1) + INDEX_MARK
  }

  /** Low bytes come first. */
  lemma ByteOrder()
    ensures Int32(0x01020304) == [4, 3, 2, 1]
    ensures Field(0x010203, 3) == [3, 2, 1]
  {
    assert Field(0x010203, 3) == [3] + Field(0x0102, 2) && Field(0x0102, 2) == [2] + Field(1, 1);
  }

  lemma {:induction false} ColumnAt(ns: seq<int>, k: nat, i: nat)
    requires i < |ns|
    ensures 0 <= k * i <= k * i + k <= |Column(ns, k)| && Column(ns, k)[k * i..k * i + k] == Field(ns[i], k)
  {
    if i == 0 {
      assert k * 0 == 0;
    } else {
      ColumnAt(ns[1..], k, i - 1);
      OneMore(k, i);
      var rest, at := Column(ns[1..], k), k * (i - 1);
      assert Column(ns, k)[k + at..k + at + k] == rest[at..at + k];
    }
  }

  lemma MarkSpelled()
    ensures INDEX_MARK == Ascii("@QDIM1.0")
  {
  }

  /** The parts of the file, in order. */
  lemma IndexLayout(max: nat, keys: seq<int>, offsets: seq<int>, flags: seq<int>)
    requires max < 0x8000_0000 && |keys| == |offsets| == |flags| < 0x8000_0000
    ensures (var file, n := IndexBytes(max, keys, offsets, flags), |keys|;
      file[..8] == INDEX_MARK && file[8..12] == Int32(max) && file[12..16] == Int32(n) &&
      file[16..16 + 8 * n] == Column(keys, 8) && file[16 + 8 * n..16 + 16 * n] == Column(offsets, 8) &&
      file[16 + 16 * n..16 + 17 * n] == Column(flags, 1) && file[16 + 17 * n..] == INDEX_MARK)
  {
    hide Column, Int32;
  }

  /** Bytes written over the front of a file. */
  function Overwritten(file: seq<byte>, bytes: seq<byte>): (s: seq<byte>)
    ensures bytes <= s
  {
    bytes + if |bytes| < |file| then file[|bytes|..] else []
  }

  datatype Index = Failed(code: int) | Loaded(max: int, keys: seq<int>, offsets: seq<int>, flags: seq<int>)

  /** What opening an index reads: each part in turn, where a part that is missing, or of no size, is an error. */
  function ReadIndex(file: seq<byte>): Index {
    if |file| < 8 || file[..8] != INDEX_MARK then Failed(-6)
    else if |file| < 12 then Failed(-7)
    else if |file| < 16 then Failed(-8)
    else
      var max, num := ReadInt32(file[8..12]), ReadInt32(file[12..16]);
      if num <= 0 || |file| < 16 + 8 * num then Failed(-12)
      else if |file| < 16 + 16 * num then Failed(-13)
      else if |file| < 16 + 17 * num then Failed(-14)
      else if |file| < 24 + 17 * num || file[16 + 17 * num..24 + 17 * num] != INDEX_MARK then Failed(-15)
      else Loaded(max, ReadColumn(file[16..16 + 8 * num], 8, num),
                  ReadColumn(file[16 + 8 * num..16 + 16 * num], 8, num),
                  ReadColumn(file[16 + 16 * num..16 + 17 * num], 1, num))
  }

  /** Opening reads back what was written, whatever older bytes are left behind it; an index without entries is the one
      that cannot be opened. */
  lemma Reopens(max: nat, keys: seq<int>, offsets: seq<int>, flags: seq<int>, more: seq<byte>)
    requires max < 0x8000_0000 && |keys| == |offsets| == |flags| < 0x8000_0000
    requires Fits(keys, 8) && Fits(offsets, 8) && Fits(flags, 1)
    ensures ReadIndex(IndexBytes(max, keys, offsets, flags) + more) ==
            if keys == [] then Failed(-12) else Loaded(max, keys, offsets, flags)
  {
    hide Column, ReadColumn, Int32, ReadInt32;
    var n := |keys|;
    var file := IndexBytes(max, keys, offsets, flags) + more;
    ReadInt32Back(max);
    ReadInt32Back(n);
    ReadColumnBack(keys, 8);
    ReadColumnBack(offsets, 8);
    ReadColumnBack(flags, 1);
    assert file[..8] == INDEX_MARK && file[8..12] == Int32(max) && file[12..16] == Int32(n);
    assert file[16..16 + 8 * n] == Column(keys, 8);
    assert file[16 + 8 * n..16 + 16 * n] == Column(offsets, 8);
    assert file[16 + 16 * n..16 + 17 * n] == Column(flags, 1);
    assert file[16 + 17 * n..24 + 17 * n] == INDEX_MARK;
  }
}
