/** What parse_string makes of \u escapes: the UTF-8 bytes of the code points they name. */
module CJsonUnicode {
  import opened Common
  import opened CJsonSpec

  /** The code points that UTF-8 encodes: all but the surrogates. */
  predicate Scalar(uc: int) { 0 <= uc < 0x11_0000 && !(0xD800 <= uc <= 0xDFFF) }

  predicate Tail(c: char) { 0x80 as char <= c < 0xC0 as char }

  function Bits(c: char): (v: int)
    requires Tail(c)
    ensures 0 <= v < 64
  {
    c as int - 0x80
  }

  /** Section 4 of RFC 3629: the code point at the front of `s` and the text after it, where the shortest form
      and no surrogate is required. */
  function DecodeUtf8(s: string): (r: Option<(int, string)>)
    ensures r.Some? ==> Scalar(r.value.0) && |r.value.1| < |s|
  {
    if s == [] then None
    else
      var lead := s[0] as int;
      if lead < 0x80 then Some((lead, s[1..]))
      else if 0xC2 <= lead < 0xE0 && |s| >= 2 && Tail(s[1]) then Some((64 * (lead - 0xC0) + Bits(s[1]), s[2..]))
      else if 0xE0 <= lead < 0xF0 && |s| >= 3 && Tail(s[1]) && Tail(s[2]) then
        var uc := 4096 * (lead - 0xE0) + 64 * Bits(s[1]) + Bits(s[2]);
        if uc >= 0x800 && Scalar(uc) then Some((uc, s[3..])) else None
      else if 0xF0 <= lead < 0xF5 && |s| >= 4 && Tail(s[1]) && Tail(s[2]) && Tail(s[3]) then
        var uc := 262144 * (lead - 0xF0) + 4096 * Bits(s[1]) + 64 * Bits(s[2]) + Bits(s[3]);
        if uc >= 0x1_0000 && Scalar(uc) then Some((uc, s[4..])) else None
      else None
  }

  /** The bytes of a scalar value decode to it. */
  lemma Utf8Decodes(uc: int, k: string)
    requires Scalar(uc)
    ensures DecodeUtf8(Utf8(uc) + k) == Some((uc, k))
  {
    var s := Utf8(uc) + k;
    assert s[|Utf8(uc)|..] == k;
    Digits64(uc);
  }

  /** A code point below 2^24 in base 64. */
  lemma Digits64(uc: int)
    requires 0 <= uc
    ensures uc == 64 * (uc / 64) + uc % 64
    ensures uc / 64 == 64 * (uc / 4096) + uc / 64 % 64
    ensures uc / 4096 == 64 * (uc / 262144) + uc / 4096 % 64
  {
  }

  lemma FromDigits64(a: int, b: int, c: int, d: int)
    requires 0 <= a && 0 <= b < 64 && 0 <= c < 64 && 0 <= d < 64
    ensures (var uc := 262144 * a + 4096 * b + 64 * c + d;
      uc % 64 == d && uc / 64 % 64 == c && uc / 4096 % 64 == b && uc / 262144 == a &&
      uc / 64 == 4096 * a + 64 * b + c && uc / 4096 == 64 * a + b)
  {
  }

  /** No other bytes do. */
  lemma Utf8Only(s: string)
    requires DecodeUtf8(s).Some?
    ensures (var (uc, rest) := DecodeUtf8(s).value; s == Utf8(uc) + rest)
  {
    var lead := s[0] as int;
    if lead < 0xC2 {
      assert s == [s[0]] + s[1..];
    } else if lead < 0xE0 {
      FromDigits64(0, 0, lead - 0xC0, Bits(s[1]));
      assert s == [s[0], s[1]] + s[2..];
    } else if lead < 0xF0 {
      ThreeOnly(s);
    } else {
      FourOnly(s);
    }
  }

  lemma ThreeOnly(s: string)
    requires DecodeUtf8(s).Some? && 0xE0 <= s[0] as int < 0xF0
    ensures (var (uc, rest) := DecodeUtf8(s).value; s == Utf8(uc) + rest)
  {
    FromDigits64(0, s[0] as int - 0xE0, Bits(s[1]), Bits(s[2]));
    assert s == [s[0], s[1], s[2]] + s[3..];
  }

  lemma FourOnly(s: string)
    requires DecodeUtf8(s).Some? && 0xF0 <= s[0] as int
    ensures (var (uc, rest) := DecodeUtf8(s).value; s == Utf8(uc) + rest)
  {
    FromDigits64(s[0] as int - 0xF0, Bits(s[1]), Bits(s[2]), Bits(s[3]));
    assert s == [s[0], s[1], s[2], s[3]] + s[4..];
  }

  // ---- Escapes

  lemma Hex4Front(h: string, k: string)
    requires |h| == 4
    ensures Hex4(h + k) == Hex4(h)
  {
  }

  /** The low ten bits of a surrogate. */
  lemma LowTen(high: int, low: int)
    requires 0xD800 <= high <= 0xDBFF && 0xDC00 <= low <= 0xDFFF
    ensures high % 1024 == high - 0xD800 && low % 1024 == low - 0xDC00
  {
  }

  /** Four hexadecimal digits that name neither a surrogate nor zero stand for that code point. */
  lemma EscapedUnit(h: string, k: string)
    requires |h| == 4 && Scalar(Hex4(h))
    ensures UnicodeEscape(h + k) == Some((if Hex4(h) == 0 then "" else Utf8(Hex4(h)), k))
  {
    hide Utf8, Hex4;
    Hex4Front(h, k);
    assert (h + k)[4..] == k;
  }

  /** Section 7 of RFC 8259: a high and a low surrogate stand for one code point beyond the first plane. */
  lemma EscapedPair(high: string, low: string, k: string)
    requires |high| == |low| == 4 && 0xD800 <= Hex4(high) <= 0xDBFF && 0xDC00 <= Hex4(low) <= 0xDFFF
    ensures UnicodeEscape(high + ("\\u" + (low + k))) ==
            Some((Utf8(0x1_0000 + 0x400 * (Hex4(high) - 0xD800) + (Hex4(low) - 0xDC00)), k))
  {
    hide Utf8, Hex4;
    var after := "\\u" + (low + k);
    Hex4Front(high, after);
    Hex4Front(low, k);
    LowTen(Hex4(high), Hex4(low));
    assert (high + after)[4..] == after;
    assert after[1..][0] == 'u' && after[2..] == low + k && after[6..] == k;
  }

  function Hex4Text(n: int): (h: string)
    requires 0 <= n < 0x1_0000
    ensures |h| == 4
  {
    [HexDigit(n / 4096), HexDigit(n / 256 % 16), HexDigit(n / 16 % 16), HexDigit(n % 16)]
  }

  lemma HexBack(n: int)
    requires 0 <= n < 16
    ensures HexValue(HexDigit(n)) == n
  {
  }

  lemma Hex4Back(n: int)
    requires 0 <= n < 0x1_0000
    ensures Hex4(Hex4Text(n)) == n
  {
    hide HexValue, HexDigit;
    HexBack(n / 4096);
    HexBack(n / 256 % 16);
    HexBack(n / 16 % 16);
    HexBack(n % 16);
    Digits16(n);
  }

  lemma Digits16(n: int)
    requires 0 <= n < 0x1_0000
    ensures n == 4096 * (n / 4096) + 256 * (n / 256 % 16) + 16 * (n / 16 % 16) + n % 16
  {
    var a := n / 16;
    var b := a / 16;
    assert n / 256 == b && n / 4096 == b / 16;
    assert n == 16 * a + n % 16 && a == 16 * b + a % 16 && b == 16 * (b / 16) + b % 16;
  }

  /** A scalar value as escapes: one unit, or the surrogate pair of section 2.1 of RFC 2781. */
  function Escape(uc: int, k: string): string
    requires Scalar(uc)
  {
    if uc < 0x1_0000 then "\\u" + (Hex4Text(uc) + k)
    else
      var v := uc - 0x1_0000;
      "\\u" + (Hex4Text(0xD800 + v / 0x400) + ("\\u" + (Hex4Text(0xDC00 + v % 0x400) + k)))
  }

  predicate Scalars(us: seq<int>) { forall uc :: uc in us ==> Scalar(uc) }

  function EscapeScalars(us: seq<int>, k: string): string
    requires Scalars(us)
  {
    if us == [] then k else Escape(us[0], EscapeScalars(us[1..], k))
  }

  function Utf8All(us: seq<int>): string
    requires Scalars(us)
  {
    if us == [] then []
    else
      assert Scalar(us[0]);
      Utf8(us[0]) + Utf8All(us[1..])
  }

  function DecodeAll(s: string): (r: Option<seq<int>>)
    decreases |s|
  {
    if s == [] then Some([])
    else
      match DecodeUtf8(s)
      case None => None
      case Some((uc, rest)) => match DecodeAll(rest) case None => None case Some(more) => Some([uc] + more)
  }

  /** The code points that escapes keep: an escaped zero is dropped. */
  function Kept(us: seq<int>): (r: seq<int>)
    ensures forall uc :: uc in r ==> uc in us && uc != 0
    ensures r == us <==> 0 !in us
    ensures |r| <= |us|
  {
    if us == [] then [] else (if us[0] == 0 then [] else [us[0]]) + Kept(us[1..])
  }

  lemma ReadsEscape(uc: int, k: string, out: string)
    requires Scalar(uc)
    ensures ReadChars(Escape(uc, k), out) == ReadChars(k, out + if uc == 0 then "" else Utf8(uc))
  {
    hide Utf8, UnicodeEscape, Hex4Text, Hex4;
    var s := Escape(uc, k);
    if uc < 0x1_0000 {
      Hex4Back(uc);
      EscapedUnit(Hex4Text(uc), k);
      assert s[2..] == Hex4Text(uc) + k;
    } else {
      var v := uc - 0x1_0000;
      var high, low := Hex4Text(0xD800 + v / 0x400), Hex4Text(0xDC00 + v % 0x400);
      Hex4Back(0xD800 + v / 0x400);
      Hex4Back(0xDC00 + v % 0x400);
      EscapedPair(high, low, k);
      assert s[2..] == high + ("\\u" + (low + k));
    }
  }

  lemma {:induction false} ReadsScalars(us: seq<int>, k: string, out: string)
    requires Scalars(us)
    ensures ReadChars(EscapeScalars(us, k), out) == ReadChars(k, out + Utf8All(Kept(us)))
    decreases us
  {
    hide ReadChars, Utf8, Escape;
    if us == [] {
      assert out + [] == out;
    } else {
      var rest := EscapeScalars(us[1..], k);
      ReadsEscape(us[0], rest, out);
      var bytes := if us[0] == 0 then "" else Utf8(us[0]);
      ReadsScalars(us[1..], k, out + bytes);
      assert Kept(us) == (if us[0] == 0 then [] else [us[0]]) + Kept(us[1..]);
      if us[0] != 0 {
        assert Kept(us)[1..] == Kept(us[1..]);
      } else {
        assert Kept(us) == Kept(us[1..]) && "" + Utf8All(Kept(us)) == Utf8All(Kept(us));
      }
      Associate(out, bytes, Utf8All(Kept(us[1..])));
    }
  }

  lemma {:induction false} DecodesAll(us: seq<int>)
    requires Scalars(us)
    ensures DecodeAll(Utf8All(us)) == Some(us)
    decreases us
  {
    hide DecodeUtf8, Utf8;
    if us != [] {
      Utf8Decodes(us[0], Utf8All(us[1..]));
      DecodesAll(us[1..]);
      assert us == [us[0]] + us[1..];
    }
  }

  /** A literal of escapes reads as the UTF-8 text of the code points it names, all but the zeros. */
  lemma ReadsEscapedText(us: seq<int>, k: string)
    requires Scalars(us)
    ensures ReadString("\"" + EscapeScalars(us, "\"" + k)) == Some((Utf8All(Kept(us)), k))
    ensures DecodeAll(Utf8All(Kept(us))) == Some(Kept(us))
  {
    hide EscapeScalars, DecodeAll, Utf8All;
    var s := "\"" + EscapeScalars(us, "\"" + k);
    assert s[1..] == EscapeScalars(us, "\"" + k);
    ReadsScalars(us, "\"" + k, "");
    assert ("\"" + k)[1..] == k && "" + Utf8All(Kept(us)) == Utf8All(Kept(us));
    DecodesAll(Kept(us));
  }
}
