/** The buffers of the JSON code: the lengths counted beforehand are enough for what is written. */
module CJsonBuffers {
  import opened Common
  import opened CJsonSpec
  import opened CJsonMeaning
  import opened CJsonMinify
  import CJson
  import G = CJsonGrammar

  // ---- Reading strings

  /** What the first loop of parse_string counts: one for each byte, an escaped one included. */
  function Counted(s: string): nat {
    if Head(s) == NUL || s[0] == '"' then 0
    else if s[0] != '\\' || |s| == 1 then 1 + Counted(s[1..])
    else 1 + Counted(s[2..])
  }

  method CountString(str: string) returns (len: nat)
    requires NulFree(str)
    ensures len == Counted(str)
  {
    len := 0;
    var ptr := str;
    while Head(ptr) != '"' && Head(ptr) != NUL
      invariant len + Counted(ptr) == Counted(str)
      decreases |ptr|
    {
      len := len + 1;
      ptr := if ptr[0] == '\\' && |ptr| > 1 then ptr[2..] else ptr[1..];
    }
  }

  lemma {:induction false} CountedPlain(w: string, k: string)
    requires forall c :: c in w ==> LiteralPlain(c)
    ensures Counted(w + k) == |w| + Counted(k)
  {
    if w == [] {
      assert w + k == k;
    } else {
      assert LiteralPlain(w[0]) && (w + k)[0] == w[0] && (w + k)[1..] == w[1..] + k;
      CountedPlain(w[1..], k);
    }
  }

  /** Six bytes of a plain escape are counted as five. */
  lemma CountedStep(s: string)
    requires Literal(s) && PlainEscapes(s) && s[0] != '"'
    ensures (var n := StepSize(s); 0 < n <= |s| && Counted(s) == (if n == 6 then 5 else 1) + Counted(s[n..]))
  {
    if StepSize(s) == 6 {
      assert s[2..] == s[2..6] + s[6..];
      CountedPlain(s[2..6], s[6..]);
    }
  }

  /** What each spelling of a character counts. */
  function PieceCount(p: G.Piece): nat {
    match p case Byte(_) => 1 case Short(_) => 1 case Unit(_) => 5 case Pair(_, _) => 10
  }

  lemma CountedHex(h: string, k: string)
    requires G.HexText(h)
    ensures Counted("\\u" + (h + k)) == 5 + Counted(k)
  {
    assert ("\\u" + (h + k))[2..] == h + k;
    forall c | c in h ensures LiteralPlain(c) { }
    CountedPlain(h, k);
  }

  lemma CountedPiece(p: G.Piece, k: string)
    requires G.PieceOk(p)
    ensures Counted(G.PieceWritten(p, k)) == PieceCount(p) + Counted(k)
  {
    hide Hex4, HexValue;
    match p
    case Byte(c) => CountedPlain([c], k);
    case Short(i) => assert G.PieceWritten(p, k)[2..] == k;
    case Unit(h) => CountedHex(h, k);
    case Pair(high, low) =>
      CountedHex(high, "\\u" + (low + k));
      CountedHex(low, k);
  }

  function PiecesCount(ps: seq<G.Piece>): nat {
    if ps == [] then 0 else PieceCount(ps[0]) + PiecesCount(ps[1..])
  }

  /** The count stops at the closing quote: one for a byte or a letter escape, five for four hexadecimal digits. */
  lemma {:induction false} CountedExactly(ps: seq<G.Piece>, k: string)
    requires G.PiecesOk(ps)
    ensures Counted(G.PiecesWritten(ps, "\"" + k)) == PiecesCount(ps)
  {
    hide G.PieceOk, G.PieceWritten, PieceCount;
    if ps != [] {
      CountedPiece(ps[0], G.PiecesWritten(ps[1..], "\"" + k));
      CountedExactly(ps[1..], k);
    }
  }

  lemma Utf8Length(uc: int)
    requires 0 <= uc < 0x110000
    ensures |Utf8(uc)| <= (if uc < 0x10000 then 3 else 4)
  {
  }

  /** An escape gives no more bytes than are counted for it. */
  lemma EscapeFits(u: string)
    requires |u| >= 4 && Literal(u[4..]) && PlainEscapes(u[4..])
    ensures UnicodeEscape(u).Some?
    ensures (var (bytes, r) := UnicodeEscape(u).value;
      Literal(r) && PlainEscapes(r) && |r| < |u| && |bytes| + Counted(r) <= 5 + Counted(u[4..]))
  {
    hide Utf8, Hex4;
    var uc := Hex4(u);
    var after := u[4..];
    if Head(after) == '\\' && Head(after[1..]) == 'u' {
      CountedStep(after);
      if |after| >= 6 { Utf8Length(0x10000 + uc % 1024 * 1024 + Hex4(after[2..]) % 1024); }
    }
    Utf8Length(uc);
  }

  /** The decoded text of every literal with plain escapes is no longer than was counted. */
  lemma {:induction false} DecodedFits(s: string, out: string)
    requires Literal(s) && PlainEscapes(s)
    ensures ReadChars(s, out).Some? && |ReadChars(s, out).value.0| <= |out| + Counted(s)
    decreases |s|
  {
    if s[0] != '"' {
      var n := StepSize(s);
      CountedStep(s);
      if n < 6 {
        DecodedFits(s[n..], out + if n == 1 then [s[0]] else [Unescaped(s[1])]);
        PlainStep(s, s, out, n);
      } else {
        var u := s[2..];
        assert u[4..] == s[6..];
        EscapeFits(u);
        hide UnicodeEscape;
        var (bytes, r) := UnicodeEscape(u).value;
        DecodedFits(r, out + bytes);
        EscapeStep(s, s, out);
      }
    }
  }

  // ---- Printing strings

  /** What the first loop of print_string_ptr counts. */
  function Escaped(s: string): nat {
    if s == [] then 0
    else
      (if s[0] in {'"', '\\', BACKSPACE, FORMFEED, '\n', '\r', '\t'} then 2 else if s[0] < 32 as char then 6 else 1)
      + Escaped(s[1..])
  }

  method CountEscaped(str: string) returns (len: nat)
    ensures len == Escaped(str)
  {
    len := 0;
    var i := 0;
    while i < |str|
      invariant 0 <= i <= |str| && len + Escaped(str[i..]) == Escaped(str)
    {
      assert str[i..][1..] == str[i + 1..];
      len := len + 1;
      if str[i] in {'"', '\\', BACKSPACE, FORMFEED, '\n', '\r', '\t'} {
        len := len + 1;
      } else if str[i] < 32 as char {
        len := len + 5;
      }
      i := i + 1;
    }
  }

  lemma {:induction false} EscapedLength(s: string, k: string)
    ensures |EscapeAll(s, k)| == Escaped(s) + |k|
  {
    if s != [] { EscapedLength(s[1..], k); }
  }

  /** The quoted text and its terminator take up the `len + 3` bytes exactly. */
  lemma StringTextLength(s: string)
    ensures |StringText(s, "")| + 1 == Escaped(s) + 3
  {
    EscapedLength(s, "\"");
    assert "\"" + "" == "\"";
  }

  // ---- Printing arrays and objects

  /** What print_array adds for its items. */
  ghost function ItemsCounted(items: seq<Json>, depth: nat, fmt: bool): nat
    requires forall i :: 0 <= i < |items| ==> Printable(items[i])
  {
    if items == [] then 0
    else |Text(items[0], depth, fmt, "")| + 2 + (if fmt then 1 else 0) + ItemsCounted(items[1..], depth, fmt)
  }

  lemma {:induction false} ItemsLength(items: seq<Json>, depth: nat, fmt: bool, k: string)
    requires items != [] && forall i :: 0 <= i < |items| ==> Printable(items[i])
    ensures |ItemsText(items, depth, fmt, k)| <= ItemsCounted(items, depth, fmt) + |k|
  {
    hide Text;
    var rest := if |items| == 1 then k else "," + When(fmt, " ", ItemsText(items[1..], depth, fmt, k));
    CJson.TextAppend(items[0], depth, fmt, rest);
    if |items| > 1 { ItemsLength(items[1..], depth, fmt, k); }
  }

  /** The text of an array and its terminator fit into the bytes counted. */
  lemma ArrayFits(items: seq<Json>, depth: nat, fmt: bool)
    requires Printable(Array(items))
    ensures |Text(Array(items), depth, fmt, "")| + 1 <=
            if items == [] then 3 else 5 + ItemsCounted(items, depth + 1, fmt)
  {
    if items != [] {
      hide Text;
      CJson.ArrayWhole(items, depth, fmt, "");
      ItemsLength(items, depth + 1, fmt, "]");
    }
  }

  ghost function MembersCounted(ms: seq<Member>, depth: nat, fmt: bool): nat
    requires forall i :: 0 <= i < |ms| ==> NulFree(ms[i].name) && Printable(ms[i].value)
  {
    if ms == [] then 0
    else
      |Text(ms[0].value, depth, fmt, "")| + |StringText(ms[0].name, "")| + 2 + (if fmt then 2 + depth else 0)
      + MembersCounted(ms[1..], depth, fmt)
  }

  lemma {:induction false} TabsLength(n: nat)
    ensures |Tabs(n)| == n
  {
    if n > 0 { TabsLength(n - 1); }
  }

  lemma MemberLength(m: Member, depth: nat, fmt: bool, k: string)
    requires NulFree(m.name) && Printable(m.value)
    ensures |MemberText(m, depth, fmt, k)| ==
            |Text(m.value, depth, fmt, "")| + |StringText(m.name, "")| + 1 + (if fmt then 1 + depth else 0) + |k|
  {
    hide Text, StringText;
    TabsLength(depth);
    CJson.TextAppend(m.value, depth, fmt, k);
    CJson.StringTextAppend(m.name, ":" + When(fmt, "\t", Text(m.value, depth, fmt, k)));
  }

  lemma {:induction false} MembersLength(ms: seq<Member>, depth: nat, fmt: bool, k: string)
    requires ms != [] && forall i :: 0 <= i < |ms| ==> NulFree(ms[i].name) && Printable(ms[i].value)
    ensures |MembersText(ms, depth, fmt, k)| <= MembersCounted(ms, depth, fmt) + |k|
  {
    hide Text, StringText, MemberText;
    MemberLength(ms[0], depth, fmt, if |ms| == 1 then When(fmt, "\n", k)
                                    else "," + When(fmt, "\n", MembersText(ms[1..], depth, fmt, k)));
    if |ms| > 1 { MembersLength(ms[1..], depth, fmt, k); }
  }

  /** The text of an object and its terminator fit into the bytes counted. */
  lemma ObjectFits(ms: seq<Member>, depth: nat, fmt: bool)
    requires Printable(Object(ms))
    ensures |Text(Object(ms), depth, fmt, "")| + 1 <=
            if ms == [] then (if fmt then depth + 4 else 3)
            else 7 + (if fmt then depth + 1 else 0) + MembersCounted(ms, depth + 1, fmt)
  {
    TabsLength(depth);
    if ms == [] {
      TabsLength(if depth == 0 then 0 else depth - 1);
    } else {
      hide Text;
      CJson.ObjectWhole(ms, depth, fmt, "");
      MembersLength(ms, depth + 1, fmt, When(fmt, Tabs(depth), "}"));
    }
  }
}
