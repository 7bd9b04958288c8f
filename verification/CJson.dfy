/** The parser and printer of include/common/cJSON.c, written as its loops and mutually recursive
    procedures, and proved to compute the relation of CJsonSpec. Allocation failure is not modelled. */
module CJson {
  import opened Common
  import opened CJsonSpec
  import opened Doubles
  import CJsonRoundTrip

  // ---- Parsing

  method SkipBlanks(s: string) returns (r: string)
    ensures r == Skip(s)
  {
    r := s;
    while r != [] && NUL < r[0] <= ' '
      invariant Skip(r) == Skip(s)
    {
      r := r[1..];
    }
  }

  method ScanDigits(s: string, start: real) returns (n: real, rest: string)
    requires start >= 0.0
    ensures (n, rest) == TakeDigits(s, start)
  {
    n, rest := start, s;
    while rest != [] && IsDigit(rest[0])
      invariant n >= 0.0 && TakeDigits(rest, n) == TakeDigits(s, start)
    {
      n, rest := NextDigit(n, DigitValue(rest[0])), rest[1..];
    }
  }

  method ScanExponent(s: string) returns (n: int, rest: string)
    ensures (n, rest) == TakeExponent(s, 0)
  {
    n, rest := 0, s;
    while rest != [] && IsDigit(rest[0])
      invariant TakeExponent(rest, n) == TakeExponent(s, 0)
    {
      n, rest := 10 * n + DigitValue(rest[0]), rest[1..];
    }
  }

  method ParseNumber(num: string) returns (v: real, rest: string)
    requires Head(num) == '-' || IsDigit(Head(num))
    ensures (v, rest) == ReadNumber(num)
  {
    hide Integer, Fraction, Exponent, Scaled;
    var sign := 1.0;
    rest := num;
    if Head(rest) == '-' { sign, rest := -1.0, rest[1..]; }
    var n, scale, subscale, signsubscale;
    n, rest := ParseInteger(rest);
    n, scale, rest := ParseFraction(rest, n);
    subscale, signsubscale, rest := ParseExponent(rest);
    v := Scaled(sign, n, scale + subscale * signsubscale);
  }

  method ParseInteger(num: string) returns (n: real, rest: string)
    ensures (n, rest) == Integer(num)
  {
    n, rest := 0.0, num;
    if Head(rest) == '0' { rest := rest[1..]; }
    if '1' <= Head(rest) <= '9' { n, rest := ScanDigits(rest, 0.0); }
  }

  method ParseFraction(num: string, whole: real) returns (n: real, scale: int, rest: string)
    requires whole >= 0.0
    ensures (n, scale, rest) == Fraction(num, whole)
  {
    n, scale, rest := whole, 0, num;
    if Head(rest) == '.' && IsDigit(Head(rest[1..])) {
      n, rest := ScanDigits(rest[1..], n);
      scale := |rest| - (|num| - 1);
    }
  }

  method ParseExponent(num: string) returns (subscale: int, signsubscale: int, rest: string)
    ensures (subscale * signsubscale, rest) == Exponent(num)
  {
    subscale, signsubscale, rest := 0, 1, num;
    if Head(rest) == 'e' || Head(rest) == 'E' {
      rest := rest[1..];
      if Head(rest) == '+' {
        assert rest[1..] == num[2..];
        rest := rest[1..];
      } else if Head(rest) == '-' {
        assert rest[1..] == num[2..];
        signsubscale, rest := -1, rest[1..];
      }
      subscale, rest := ScanExponent(rest);
    }
  }

  method ParseString(str: string) returns (r: Option<(string, string)>)
    ensures r == ReadString(str)
  {
    if Head(str) != '"' { return None; }
    var ptr, out := str[1..], "";
    while Head(ptr) != '"' && Head(ptr) != NUL
      invariant ReadChars(ptr, out) == ReadChars(str[1..], "")
      decreases |ptr|
    {
      if ptr[0] != '\\' {
        ptr, out := ptr[1..], out + [ptr[0]];
      } else if Head(ptr[1..]) == NUL {
        return None;
      } else if ptr[1] != 'u' {
        ptr, out := ptr[2..], out + [Unescaped(ptr[1])];
      } else {
        match UnicodeEscape(ptr[2..])
        case None => return None;
        case Some((bytes, rest)) => ptr, out := rest, out + bytes;
      }
    }
    if Head(ptr) == '"' { ptr := ptr[1..]; }
    r := Some((out, ptr));
  }

  method ParseValue(s: string) returns (r: Parsed<Json>)
    ensures r == ReadValue(s)
    decreases |s|, 1
  {
    if "null" <= s { return Some((Null, s[4..])); }
    if "false" <= s { return Some((False, s[5..])); }
    if "true" <= s { return Some((True, s[4..])); }
    if Head(s) == '"' {
      var p := ParseString(s);
      match p
      case None => return None;
      case Some((t, rest)) => return Some((String(t), rest));
    }
    if Head(s) == '-' || IsDigit(Head(s)) {
      var n, rest := ParseNumber(s);
      return Some((Number(n), rest));
    }
    if Head(s) == '[' { r := ParseArray(s); return; }
    if Head(s) == '{' { r := ParseObject(s); return; }
    r := None;
  }

  method ParseArray(s: string) returns (r: Parsed<Json>)
    requires Head(s) == '['
    ensures r == ReadArray(s)
    decreases |s|, 0
  {
    hide ReadValue;
    var value := SkipBlanks(s[1..]);
    if Head(value) == ']' { return Some((Array([]), value[1..])); }
    var done: seq<Json> := [];
    while true
      invariant |value| < |s| && ReadItems(value, done) == ReadArray(s)
      decreases |value|
    {
      var start := SkipBlanks(value);
      var p := ParseValue(start);
      if p.None? { return None; }
      done := done + [p.value.0];
      value := SkipBlanks(p.value.1);
      if Head(value) != ',' { break; }
      value := value[1..];
    }
    if Head(value) == ']' { return Some((Array(done), value[1..])); }
    r := None;
  }

  /** One name, colon and value of parse_object. */
  method ParseMember(s: string) returns (r: Parsed<Member>)
    ensures r == ReadMember(s)
    decreases |s|, 2
  {
    hide ReadValue, ReadString;
    var start := SkipBlanks(s);
    var p := ParseString(start);
    if p.None? { return None; }
    var value := SkipBlanks(p.value.1);
    if Head(value) != ':' { return None; }
    value := SkipBlanks(value[1..]);
    var q := ParseValue(value);
    if q.None? { return None; }
    r := Some((Member(p.value.0, q.value.0), q.value.1));
  }

  method ParseObject(s: string) returns (r: Parsed<Json>)
    requires Head(s) == '{'
    ensures r == ReadObject(s)
    decreases |s|, 0
  {
    hide ReadMember;
    var value := SkipBlanks(s[1..]);
    if Head(value) == '}' { return Some((Object([]), value[1..])); }
    var done: seq<Member> := [];
    while true
      invariant |value| < |s| && ReadMembers(value, done) == ReadObject(s)
      decreases |value|
    {
      var p := ParseMember(value);
      if p.None? { return None; }
      done := done + [p.value.0];
      value := SkipBlanks(p.value.1);
      if Head(value) != ',' { break; }
      value := value[1..];
    }
    if Head(value) == '}' { return Some((Object(done), value[1..])); }
    r := None;
  }

  method ParseWithOpts(value: string, requireNullTerminated: bool) returns (r: Option<Json>)
    ensures r == Parse(value, requireNullTerminated)
  {
    var start := SkipBlanks(value);
    var p := ParseValue(start);
    if p.None? { return None; }
    if requireNullTerminated {
      var end := SkipBlanks(p.value.1);
      if Head(end) != NUL { return None; }
    }
    r := Some(p.value.0);
  }

  // ---- Printing

  lemma {:induction false} EscapeAllAppend(s: string, k: string)
    ensures EscapeAll(s, k) == EscapeAll(s, "") + k
    decreases |s|
  {
    hide EscapeChar;
    if s == [] {
      assert "" + k == k;
    } else {
      EscapeAllAppend(s[1..], k);
      Associate(EscapeChar(s[0]), EscapeAll(s[1..], ""), k);
    }
  }

  lemma StringTextAppend(s: string, k: string)
    ensures StringText(s, k) == StringText(s, "") + k
  {
    EscapeAllAppend(s, "\"" + k);
    EscapeAllAppend(s, "\"");
    assert "\"" + "" == "\"";
    Associate("\"", EscapeAll(s, "\""), k);
    Associate(EscapeAll(s, ""), "\"", k);
  }

  lemma WhenAppend(b: bool, a: string, m: string, k: string)
    ensures When(b, a, m + k) == When(b, a, m) + k
  {
    Associate(a, m, k);
  }

  /** Printing before `k` is printing, then `k`. */
  lemma {:induction false} TextAppend(t: Json, depth: nat, fmt: bool, k: string)
    requires Printable(t)
    ensures Text(t, depth, fmt, k) == Text(t, depth, fmt, "") + k
    decreases t, 1
  {
    match t
    case Null => assert "null" + "" == "null";
    case False => assert "false" + "" == "false";
    case True => assert "true" + "" == "true";
    case Number(x) => assert NumberText(x) + "" == NumberText(x);
    case String(u) => StringTextAppend(u, k);
    case Array(items) => ArrayAppend(items, depth, fmt, k);
    case Object(ms) => ObjectAppend(ms, depth, fmt, k);
  }

  lemma {:induction false} ArrayAppend(items: seq<Json>, depth: nat, fmt: bool, k: string)
    requires Printable(Array(items))
    ensures Text(Array(items), depth, fmt, k) == Text(Array(items), depth, fmt, "") + k
    decreases items, 2
  {
    assert "]" + "" == "]";
    if items != [] {
      ItemsAppend(items, depth + 1, fmt, "]", k);
      Associate("[", ItemsText(items, depth + 1, fmt, "]"), k);
    }
  }

  lemma {:induction false} ObjectAppend(ms: seq<Member>, depth: nat, fmt: bool, k: string)
    requires Printable(Object(ms))
    ensures Text(Object(ms), depth, fmt, k) == Text(Object(ms), depth, fmt, "") + k
    decreases ms, 2
  {
    assert "}" + "" == "}";
    if ms == [] {
      var blanks := "\n" + Tabs(if depth == 0 then 0 else depth - 1);
      WhenAppend(fmt, blanks, "}", k);
      Associate("{", When(fmt, blanks, "}"), k);
    } else {
      var close := When(fmt, Tabs(depth), "}");
      var inner := MembersText(ms, depth + 1, fmt, close);
      WhenAppend(fmt, Tabs(depth), "}", k);
      MembersAppend(ms, depth + 1, fmt, close, k);
      WhenAppend(fmt, "\n", inner, k);
      Associate("{", When(fmt, "\n", inner), k);
    }
  }

  lemma {:induction false} ItemsAppend(items: seq<Json>, depth: nat, fmt: bool, m: string, k: string)
    requires items != [] && forall i :: 0 <= i < |items| ==> Printable(items[i])
    ensures ItemsText(items, depth, fmt, m + k) == ItemsText(items, depth, fmt, m) + k
    decreases items, 0
  {
    var first := Text(items[0], depth, fmt, "");
    if |items| == 1 {
      TextAppend(items[0], depth, fmt, m);
      TextAppend(items[0], depth, fmt, m + k);
      Associate(first, m, k);
    } else {
      var more := ItemsText(items[1..], depth, fmt, m);
      ItemsAppend(items[1..], depth, fmt, m, k);
      WhenAppend(fmt, " ", more, k);
      var x := When(fmt, " ", more);
      TextAppend(items[0], depth, fmt, "," + x);
      TextAppend(items[0], depth, fmt, "," + (x + k));
      Associate(first, "," + x, k);
      Associate(",", x, k);
    }
  }

  lemma {:induction false} MemberAppend(m: Member, depth: nat, fmt: bool, k: string)
    requires NulFree(m.name) && Printable(m.value)
    ensures MemberText(m, depth, fmt, k) == MemberText(m, depth, fmt, "") + k
    decreases m, 2
  {
    hide StringText;
    var value := Text(m.value, depth, fmt, "");
    TextAppend(m.value, depth, fmt, k);
    WhenAppend(fmt, "\t", value, k);
    var x := When(fmt, "\t", value);
    Associate(":", x, k);
    StringTextAppend(m.name, ":" + x);
    StringTextAppend(m.name, ":" + x + k);
    Associate(StringText(m.name, ""), ":" + x, k);
    WhenAppend(fmt, Tabs(depth), StringText(m.name, ":" + x), k);
  }

  lemma {:induction false} MembersAppend(ms: seq<Member>, depth: nat, fmt: bool, m: string, k: string)
    requires ms != [] && forall i :: 0 <= i < |ms| ==> NulFree(ms[i].name) && Printable(ms[i].value)
    ensures MembersText(ms, depth, fmt, m + k) == MembersText(ms, depth, fmt, m) + k
    decreases ms, 0
  {
    hide MemberText;
    var first := MemberText(ms[0], depth, fmt, "");
    if |ms| == 1 {
      WhenAppend(fmt, "\n", m, k);
      MemberAppend(ms[0], depth, fmt, When(fmt, "\n", m));
      MemberAppend(ms[0], depth, fmt, When(fmt, "\n", m) + k);
      Associate(first, When(fmt, "\n", m), k);
    } else {
      var more := MembersText(ms[1..], depth, fmt, m);
      MembersAppend(ms[1..], depth, fmt, m, k);
      WhenAppend(fmt, "\n", more, k);
      var x := When(fmt, "\n", more);
      MemberAppend(ms[0], depth, fmt, "," + x);
      MemberAppend(ms[0], depth, fmt, "," + (x + k));
      Associate(first, "," + x, k);
      Associate(",", x, k);
    }
  }

  method PrintStringPtr(str: string) returns (out: string)
    ensures out == StringText(str, "")
  {
    hide EscapeChar;
    assert "\"" + "" == "\"";
    out := "\"";
    var ptr := str;
    while ptr != []
      invariant out + EscapeAll(ptr, "\"") == StringText(str, "")
      decreases |ptr|
    {
      Associate(out, EscapeChar(ptr[0]), EscapeAll(ptr[1..], "\""));
      out := out + EscapeChar(ptr[0]);
      ptr := ptr[1..];
    }
    out := out + "\"";
  }

  method PrintTabs(n: nat) returns (out: string)
    ensures out == Tabs(n)
  {
    out := "";
    for i := 0 to n
      invariant out == Tabs(i)
    {
      TabsCommute(i);
      out := out + "\t";
    }
  }

  lemma {:induction false} TabsCommute(n: nat)
    ensures Tabs(n) + "\t" == "\t" + Tabs(n)
  {
    if n > 0 { TabsCommute(n - 1); }
  }

  method PrintValue(item: Json, depth: nat, fmt: bool) returns (out: string)
    requires Printable(item)
    ensures out == Text(item, depth, fmt, "")
    decreases item, 1
  {
    match item
    case Null => out := "null";
    case False => out := "false";
    case True => out := "true";
    case Number(x) => out := NumberText(x);
    case String(s) => out := PrintStringPtr(s);
    case Array(items) => out := PrintArray(items, depth, fmt);
    case Object(ms) => out := PrintObject(ms, depth, fmt);
  }

  method PrintArray(items: seq<Json>, depth: nat, fmt: bool) returns (out: string)
    requires Printable(Array(items))
    ensures out == Text(Array(items), depth, fmt, "")
    decreases items, 0
  {
    if items == [] { return "[]"; }
    var entries: seq<string> := [];
    for i := 0 to |items|
      invariant |entries| == i
      invariant forall j :: 0 <= j < i ==> entries[j] == Text(items[j], depth + 1, fmt, "")
    {
      var ret := PrintValue(items[i], depth + 1, fmt);
      entries := entries + [ret];
    }
    out := ComposeArray(items, entries, depth, fmt);
  }

  method ComposeArray(items: seq<Json>, entries: seq<string>, depth: nat, fmt: bool) returns (out: string)
    requires items != [] && Printable(Array(items)) && |entries| == |items|
    requires forall j :: 0 <= j < |items| ==> entries[j] == Text(items[j], depth + 1, fmt, "")
    ensures out == Text(Array(items), depth, fmt, "")
  {
    hide Text;
    out := "[";
    ghost var whole := "[" + ItemsText(items, depth + 1, fmt, "]");
    for i := 0 to |items|
      invariant i < |items| ==> out + ItemsText(items[i..], depth + 1, fmt, "]") == whole
      invariant i == |items| ==> out + "]" == whole
    {
      ghost var k := if i == |items| - 1 then "]"
                     else "," + When(fmt, " ", ItemsText(items[i + 1..], depth + 1, fmt, "]"));
      assert items[i..][1..] == items[i + 1..];
      assert ItemsText(items[i..], depth + 1, fmt, "]") == Text(items[i], depth + 1, fmt, k);
      TextAppend(items[i], depth + 1, fmt, k);
      Associate(out, entries[i], k);
      out := out + entries[i];
      if i != |items| - 1 {
        out := out + ",";
        if fmt { out := out + " "; }
      }
    }
    out := out + "]";
    assert out == Text(Array(items), depth, fmt, "") by { ArrayWhole(items, depth, fmt, ""); }
  }

  lemma ArrayWhole(items: seq<Json>, depth: nat, fmt: bool, k: string)
    requires items != [] && Printable(Array(items))
    ensures Text(Array(items), depth, fmt, k) == "[" + ItemsText(items, depth + 1, fmt, "]" + k)
    ensures Text(Array(items), depth, fmt, "") == "[" + ItemsText(items, depth + 1, fmt, "]")
  {
    assert "]" + "" == "]";
  }

  method PrintObject(ms: seq<Member>, depth: nat, fmt: bool) returns (out: string)
    requires Printable(Object(ms))
    ensures out == Text(Object(ms), depth, fmt, "")
    decreases ms, 0
  {
    if ms == [] {
      out := "{";
      if fmt {
        var tabs := PrintTabs(if depth == 0 then 0 else depth - 1);
        out := out + ("\n" + tabs);
      }
      return out + "}";
    }
    var names: seq<string>, entries: seq<string> := [], [];
    for i := 0 to |ms|
      invariant |names| == |entries| == i
      invariant forall j :: 0 <= j < i ==>
        names[j] == StringText(ms[j].name, "") && entries[j] == Text(ms[j].value, depth + 1, fmt, "")
    {
      var str := PrintStringPtr(ms[i].name);
      var ret := PrintValue(ms[i].value, depth + 1, fmt);
      names, entries := names + [str], entries + [ret];
    }
    out := ComposeObject(ms, names, entries, depth, fmt);
  }

  /** One line of the composed object: indentation, name, colon and value. */
  method ComposeMember(m: Member, name: string, entry: string, depth: nat, fmt: bool) returns (out: string)
    requires NulFree(m.name) && Printable(m.value)
    requires name == StringText(m.name, "") && entry == Text(m.value, depth, fmt, "")
    ensures out == MemberText(m, depth, fmt, "")
  {
    hide StringText, Text;
    out := "";
    if fmt { out := PrintTabs(depth); }
    StringTextAppend(m.name, ":" + When(fmt, "\t", entry));
    out := out + name + ":";
    if fmt { out := out + "\t"; }
    out := out + entry;
  }

  method ComposeObject(ms: seq<Member>, names: seq<string>, entries: seq<string>, depth: nat, fmt: bool)
    returns (out: string)
    requires ms != [] && Printable(Object(ms)) && |names| == |entries| == |ms|
    requires forall j :: 0 <= j < |ms| ==>
      names[j] == StringText(ms[j].name, "") && entries[j] == Text(ms[j].value, depth + 1, fmt, "")
    ensures out == Text(Object(ms), depth, fmt, "")
  {
    hide Text, MemberText, StringText;
    ghost var close := When(fmt, Tabs(depth), "}");
    ghost var whole := "{" + When(fmt, "\n", MembersText(ms, depth + 1, fmt, close));
    out := "{";
    if fmt { out := out + "\n"; }
    for i := 0 to |ms|
      invariant i < |ms| ==> out + MembersText(ms[i..], depth + 1, fmt, close) == whole
      invariant i == |ms| ==> out + close == whole
    {
      ghost var k := if i == |ms| - 1 then When(fmt, "\n", close)
                     else "," + When(fmt, "\n", MembersText(ms[i + 1..], depth + 1, fmt, close));
      assert ms[i..][1..] == ms[i + 1..];
      assert MembersText(ms[i..], depth + 1, fmt, close) == MemberText(ms[i], depth + 1, fmt, k);
      MemberAppend(ms[i], depth + 1, fmt, k);
      var line := ComposeMember(ms[i], names[i], entries[i], depth + 1, fmt);
      Associate(out, line, k);
      out := out + line;
      if i != |ms| - 1 { out := out + ","; }
      if fmt { out := out + "\n"; }
    }
    if fmt {
      var tabs := PrintTabs(depth);
      out := out + tabs;
    }
    out := out + "}";
    assert out == Text(Object(ms), depth, fmt, "") by { ObjectWhole(ms, depth, fmt, ""); }
  }

  lemma ObjectWhole(ms: seq<Member>, depth: nat, fmt: bool, k: string)
    requires ms != [] && Printable(Object(ms))
    ensures Text(Object(ms), depth, fmt, k)
         == "{" + When(fmt, "\n", MembersText(ms, depth + 1, fmt, When(fmt, Tabs(depth), "}" + k)))
    ensures Text(Object(ms), depth, fmt, "")
         == "{" + When(fmt, "\n", MembersText(ms, depth + 1, fmt, When(fmt, Tabs(depth), "}")))
  {
    assert "}" + "" == "}";
  }

  /** Printing with the code above and parsing the result with the code above gives the tree back. */
  method PrintThenParse(item: Json, depth: nat, fmt: bool) returns (r: Option<Json>)
    requires Printable(item)
    ensures r == Some(CJsonRoundTrip.AsRead(item))
    ensures CJsonRoundTrip.WholeUpTo(item, LIMIT - 1) ==> r == Some(item)
  {
    var out := PrintValue(item, depth, fmt);
    CJsonRoundTrip.RoundTrip(item, depth, fmt);
    r := ParseWithOpts(out, true);
  }
}
