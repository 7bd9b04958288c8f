/** What cJSON_Print writes, byte by byte: escapes, number formats and layout. */
module CJsonLayout {
  import opened Common
  import opened CJsonGrammar
  import opened CJsonNumbers
  import opened CJsonSpec
  import opened Doubles
  import CJson

  // ---------------------------------------------------------------- escapes

  /** Visible bytes stand for themselves; the others have a letter or two hexadecimal digits. A slash is not escaped. */
  lemma EscapedForm(c: char, i: nat)
    requires i < |SHORT|
    ensures ' ' <= c && c != '"' && c != '\\' ==> EscapeChar(c) == [c]
    ensures SHORT[i] != '/' ==> EscapeChar(MEANT[i]) == ['\\', SHORT[i]]
    ensures (c < ' ' && c !in MEANT ==>
      EscapeChar(c) == "\\u00" + ["01"[c as int / 16], "0123456789abcdef"[c as int % 16]])
  {
    assert i == 0 || i == 1 || i == 2 || i == 3 || i == 4 || i == 5 || i == 6 || i == 7;
    if c < ' ' {
      HexDigits(c as int / 16);
      HexDigits(c as int % 16);
    }
  }

  // ---------------------------------------------------------------- numbers

  /** Farther than DBL_EPSILON from every whole number. */
  ghost predicate Fractional(x: real) {
    x.Floor as real + EPSILON < x < (x.Floor + 1) as real - EPSILON
  }

  /** Whole numbers of up to sixty digits are written out. */
  lemma WholeText(x: real)
    requires x == x.Floor as real && Magnitude(x) < PowTen(60)
    ensures NumberText(x) == DecimalText(x.Floor)
  {
    hide DecimalText, Mantissa, Millionths;
    assert x < 0.0 ==> (-x).Floor == -x.Floor;
  }

  lemma FractionalText(x: real)
    requires Fractional(x)
    ensures !IsInt32(x) && !IsWhole(x) && x != 0.0
  {
    hide PowTen;
    if x < 0.0 { assert (-x).Floor == -x.Floor - 1; }
  }

  /** Other numbers have six digits after the point, and an exponent of at least two digits exactly outside the range
      from a millionth to a thousand millions. */
  lemma FractionalShape(x: real) returns (w: string, f: string, es: string)
    requires Fractional(x)
    ensures AllDigits(w) && w != "" && AllDigits(f) && |f| == 6 && AllDigits(es)
    ensures (if 0.000001 <= Magnitude(x) <= 1000000000.0 then
      NumberText(x) == Signed(x, w + ("." + f))
    else
      |w| == 1 && |es| >= 2 &&
      (NumberText(x) == Signed(x, w + ("." + f) + ("e+" + es)) ||
       NumberText(x) == Signed(x, w + ("." + f) + ("e-" + es))))
  {
    hide Mantissa, IsInt32, IsWhole, DecimalText, Nearest, DecimalDigits, LastDigits;
    FractionalText(x);
    if 0.000001 <= Magnitude(x) <= 1000000000.0 {
      var n := Nearest(Magnitude(x) * 1000000.0);
      w, f, es := DecimalDigits(n / 1000000), LastDigits(n, 6), "";
    } else {
      var (m, e) := Mantissa(Magnitude(x));
      var n := if e < 0 then -e else e;
      OneDigit(m / 1000000);
      TwoDigits(n);
      w, f, es := DecimalDigits(m / 1000000), LastDigits(m, 6), (if n < 10 then "0" else "") + DecimalDigits(n);
    }
  }

  lemma OneDigit(n: nat)
    requires n < 10
    ensures |DecimalDigits(n)| == 1
  {
  }

  lemma TwoDigits(n: nat)
    ensures (var s := (if n < 10 then "0" else "") + DecimalDigits(n); AllDigits(s) && |s| >= 2)
  {
    if n >= 10 { assert |DecimalDigits(n / 10)| >= 1; }
  }

  lemma DigitTable(v: nat)
    requires v < 10
    ensures IsDigit("0123456789"[v]) && DigitValue("0123456789"[v]) == v
  {
  }

  lemma FiveZeros()
    ensures LastDigits(500000, 6) == "500000"
  {
    assert LastDigits(50, 2) == LastDigits(5, 1) + "0" && LastDigits(5, 1) == "5";
    OneMore(500, 3);
    OneMore(5000, 4);
    OneMore(50000, 5);
    OneMore(500000, 6);
  }

  lemma OneMore(n: nat, k: nat)
    requires k > 0 && n % 10 == 0
    ensures LastDigits(n, k) == LastDigits(n / 10, k - 1) + "0"
  {
  }

  /** One half, written out. */
  lemma Half()
    ensures NumberText(0.5) == "0.500000" && NumberText(-0.5) == "-0.500000"
  {
    hide PowTen, Mantissa, LastDigits;
    assert (0.5).Floor == 0 && (-0.5).Floor == -1;
    FractionalText(0.5);
    FractionalText(-0.5);
    hide IsInt32, IsWhole;
    FiveZeros();
    assert Nearest(500000.0) == 500000;
  }

  // ---------------------------------------------------------------- layout

  /** The parts in order, with `sep` between them. */
  function Joined(parts: seq<string>, sep: string): string
    requires parts != []
  {
    if |parts| == 1 then parts[0] else parts[0] + (sep + Joined(parts[1..], sep))
  }

  lemma {:induction false} TabsAre(n: nat)
    ensures |Tabs(n)| == n && forall i :: 0 <= i < n ==> Tabs(n)[i] == '\t'
  {
    if n > 0 { TabsAre(n - 1); }
  }

  lemma {:induction false} ItemsLayout(items: seq<Json>, depth: nat, fmt: bool, parts: seq<string>, k: string)
    requires items != [] && |parts| == |items| && forall i :: 0 <= i < |items| ==> Printable(items[i])
    requires forall i :: 0 <= i < |items| ==> parts[i] == Text(items[i], depth, fmt, "")
    ensures ItemsText(items, depth, fmt, k) == Joined(parts, if fmt then ", " else ",") + k
    decreases |items|
  {
    hide Text;
    if |items| == 1 {
      CJson.TextAppend(items[0], depth, fmt, k);
    } else {
      var sep, more := if fmt then ", " else ",", ItemsText(items[1..], depth, fmt, k);
      ItemsLayout(items[1..], depth, fmt, parts[1..], k);
      CJson.TextAppend(items[0], depth, fmt, "," + When(fmt, " ", more));
      var rest := Joined(parts[1..], sep);
      assert "," + When(fmt, " ", rest + k) == sep + (rest + k);
      assert parts[0] + (sep + (rest + k)) == parts[0] + (sep + rest) + k;
    }
  }

  lemma {:induction false} MembersLayout(ms: seq<Member>, depth: nat, fmt: bool, lines: seq<string>, k: string)
    requires ms != [] && |lines| == |ms| && forall i :: 0 <= i < |ms| ==> NulFree(ms[i].name) && Printable(ms[i].value)
    requires forall i :: 0 <= i < |ms| ==> lines[i] == MemberText(ms[i], depth, fmt, "")
    ensures MembersText(ms, depth, fmt, k) == Joined(lines, if fmt then ",\n" else ",") + When(fmt, "\n", k)
    decreases |ms|
  {
    hide MemberText;
    if |ms| == 1 {
      CJson.MemberAppend(ms[0], depth, fmt, When(fmt, "\n", k));
    } else {
      var sep, more := if fmt then ",\n" else ",", MembersText(ms[1..], depth, fmt, k);
      MembersLayout(ms[1..], depth, fmt, lines[1..], k);
      CJson.MemberAppend(ms[0], depth, fmt, "," + When(fmt, "\n", more));
      var rest, end := Joined(lines[1..], sep), When(fmt, "\n", k);
      assert "," + When(fmt, "\n", rest + end) == sep + (rest + end);
      assert lines[0] + (sep + (rest + end)) == lines[0] + (sep + rest) + end;
    }
  }

  lemma MemberLine(m: Member, depth: nat)
    requires NulFree(m.name) && Printable(m.value)
    ensures MemberText(m, depth, true, "") ==
            Tabs(depth) + (StringText(m.name, "") + (":\t" + Text(m.value, depth, true, "")))
    ensures MemberText(m, depth, false, "") == StringText(m.name, "") + (":" + Text(m.value, depth, false, ""))
  {
    hide StringText, Text, Tabs;
    CJson.StringTextAppend(m.name, ":" + When(true, "\t", Text(m.value, depth, true, "")));
    CJson.StringTextAppend(m.name, ":" + Text(m.value, depth, false, ""));
    assert ":" + ("\t" + Text(m.value, depth, true, "")) == ":\t" + Text(m.value, depth, true, "");
  }

  /** Items follow each other on one line. */
  lemma ArrayLayout(items: seq<Json>, depth: nat, fmt: bool, parts: seq<string>)
    requires Printable(Array(items)) && |parts| == |items|
    requires forall i :: 0 <= i < |items| ==> parts[i] == Text(items[i], depth + 1, fmt, "")
    ensures (Text(Array(items), depth, fmt, "") ==
      if items == [] then "[]" else "[" + (Joined(parts, if fmt then ", " else ",") + "]"))
  {
    hide ItemsText;
    if items == [] {
      assert "[" + ("]" + "") == "[]";
    } else {
      CJson.ArrayWhole(items, depth, fmt, "");
      ItemsLayout(items, depth + 1, fmt, parts, "]");
    }
  }

  /** Formatted members stand on lines of their own, one tab deeper than the braces; an empty object has its closing
      brace on the next line, one tab less deep than where it opens. */
  lemma ObjectLayout(ms: seq<Member>, depth: nat, values: seq<string>, lines: seq<string>)
    requires Printable(Object(ms)) && |lines| == |values| == |ms|
    requires forall i :: 0 <= i < |ms| ==> values[i] == Text(ms[i].value, depth + 1, true, "")
    requires (forall i :: 0 <= i < |ms| ==>
               lines[i] == Tabs(depth + 1) + (StringText(ms[i].name, "") + (":\t" + values[i])))
    ensures (Text(Object(ms), depth, true, "") ==
      if ms == [] then "{\n" + (Tabs(if depth == 0 then 0 else depth - 1) + "}")
      else "{\n" + (Joined(lines, ",\n") + ("\n" + (Tabs(depth) + "}"))))
  {
    hide MembersText, MemberText, Tabs, StringText;
    if ms == [] {
      var tabs := Tabs(if depth == 0 then 0 else depth - 1);
      assert "{" + ("\n" + tabs + ("}" + "")) == "{\n" + (tabs + "}");
    } else {
      hide Text;
      forall i | 0 <= i < |ms| ensures lines[i] == MemberText(ms[i], depth + 1, true, "") {
        MemberLine(ms[i], depth + 1);
      }
      var close := Tabs(depth) + "}";
      CJson.ObjectWhole(ms, depth, true, "");
      MembersLayout(ms, depth + 1, true, lines, close);
      var inner := Joined(lines, ",\n") + ("\n" + close);
      assert "{" + ("\n" + inner) == "{\n" + inner;
    }
  }

  lemma FlatObjectLayout(ms: seq<Member>, depth: nat, values: seq<string>, parts: seq<string>)
    requires Printable(Object(ms)) && |parts| == |values| == |ms|
    requires forall i :: 0 <= i < |ms| ==> values[i] == Text(ms[i].value, depth + 1, false, "")
    requires forall i :: 0 <= i < |ms| ==> parts[i] == StringText(ms[i].name, "") + (":" + values[i])
    ensures Text(Object(ms), depth, false, "") == if ms == [] then "{}" else "{" + (Joined(parts, ",") + "}")
  {
    hide MembersText, MemberText, StringText;
    if ms == [] {
      assert "{" + ("}" + "") == "{}";
    } else {
      hide Text;
      forall i | 0 <= i < |ms| ensures parts[i] == MemberText(ms[i], depth + 1, false, "") {
        MemberLine(ms[i], depth + 1);
      }
      CJson.ObjectWhole(ms, depth, false, "");
      MembersLayout(ms, depth + 1, false, parts, "}");
    }
  }
}
