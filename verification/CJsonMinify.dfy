/** cJSON_Minify: dropping blanks and comments in place, and its effect on formatted output. */
module CJsonMinify {
  import opened Common
  import opened CJsonSpec
  import CJson

  predicate IsBlank(c: char) { c == ' ' || c == '\t' || c == '\r' || c == '\n' }

  function ToLineEnd(s: string): (r: string)
    ensures |r| <= |s| && (s != [] && s[0] != NUL && s[0] != '\n' ==> |r| < |s|)
  {
    if Head(s) != NUL && s[0] != '\n' then ToLineEnd(s[1..]) else s
  }

  /** The text after the first "*" "/"; None when the comment never ends. */
  function ToCommentEnd(s: string): (r: Option<string>)
    ensures r.Some? ==> |r.value| < |s|
  {
    if Head(s) == NUL then None
    else if s[0] == '*' && Head(s[1..]) == '/' then Some(s[2..])
    else ToCommentEnd(s[1..])
  }

  /** Copies a string literal whose opening quote is already in `out`; None when it never ends. */
  function CopyLiteral(s: string, out: string): (r: Option<(string, string)>)
    ensures r.Some? ==> |r.value.1| < |s|
    decreases |s|
  {
    if Head(s) == NUL then None
    else if s[0] == '"' then Some((out + ['"'], s[1..]))
    else if s[0] != '\\' then CopyLiteral(s[1..], out + [s[0]])
    else if Head(s[1..]) == NUL then None
    else CopyLiteral(s[2..], out + [s[0], s[1]])
  }

  /** The minified text, appended to `out`. None when a literal or comment runs over the end of the text. */
  function Minified(s: string, out: string): Option<string>
    decreases |s|
  {
    if Head(s) == NUL then Some(out)
    else if IsBlank(s[0]) then Minified(s[1..], out)
    else if s[0] == '/' && Head(s[1..]) == '/' then Minified(ToLineEnd(s), out)
    else if s[0] == '/' && Head(s[1..]) == '*' then
      match ToCommentEnd(s) case None => None case Some(rest) => Minified(rest, out)
    else if s[0] == '"' then
      match CopyLiteral(s[1..], out + ['"']) case None => None case Some((o, rest)) => Minified(rest, o)
    else Minified(s[1..], out + [s[0]])
  }

  // ---- Formatted output minifies to unformatted output

  predicate Plain(c: char) { c != NUL && !IsBlank(c) && c != '/' && c != '"' }

  lemma {:induction false} KeepsPlain(w: string, k: string, out: string)
    requires forall c :: c in w ==> Plain(c)
    ensures Minified(w + k, out) == Minified(k, out + w)
  {
    if w == [] {
      assert w + k == k && out + w == out;
    } else {
      assert Plain(w[0]) && (w + k)[0] == w[0];
      assert (w + k)[1..] == w[1..] + k;
      KeepsPlain(w[1..], k, out + [w[0]]);
      assert out + [w[0]] + w[1..] == out + w;
    }
  }

  lemma DropsBlank(c: char, k: string, out: string)
    requires IsBlank(c)
    ensures Minified([c] + k, out) == Minified(k, out)
  {
    assert ([c] + k)[1..] == k;
  }

  lemma {:induction false} DropsTabs(n: nat, k: string, out: string)
    ensures Minified(Tabs(n) + k, out) == Minified(k, out)
  {
    if n == 0 {
      assert Tabs(0) + k == k;
    } else {
      assert Tabs(n) + k == "\t" + (Tabs(n - 1) + k);
      DropsBlank('\t', Tabs(n - 1) + k, out);
      DropsTabs(n - 1, k, out);
    }
  }

  /** All layout is dropped. */
  lemma DropsLayout(n: nat, k: string, out: string)
    ensures Minified(When(true, Tabs(n), k), out) == Minified(k, out)
    ensures Minified(When(true, "\n" + Tabs(n), k), out) == Minified(k, out)
    ensures Minified(When(true, "\n", k), out) == Minified(k, out)
    ensures Minified(When(true, "\t", k), out) == Minified(k, out)
    ensures Minified(When(true, " ", k), out) == Minified(k, out)
  {
    hide Minified;
    DropsTabs(n, k, out);
    DropsBlank('\n', k, out);
    DropsBlank('\t', k, out);
    DropsBlank(' ', k, out);
    Associate("\n", Tabs(n), k);
    DropsBlank('\n', Tabs(n) + k, out);
  }

  lemma CopiesEscapedChar(c: char, k: string, out: string)
    requires c != NUL
    ensures CopyLiteral(EscapeChar(c) + k, out) == CopyLiteral(k, out + EscapeChar(c))
  {
    var s := EscapeChar(c) + k;
    if c > 31 as char && c != '"' && c != '\\' {
      assert s[1..] == k;
    } else if c in {'\\', '"', BACKSPACE, FORMFEED, '\n', '\r', '\t'} {
      assert s[2..] == k;
    } else {
      CopiesHex(HexDigit(c as int / 16), HexDigit(c as int % 16), k, out);
    }
  }

  lemma CopiesHex(a: char, b: char, k: string, out: string)
    requires a !in {NUL, '"', '\\'} && b !in {NUL, '"', '\\'}
    ensures CopyLiteral("\\u00" + [a, b] + k, out) == CopyLiteral(k, out + ("\\u00" + [a, b]))
  {
    hide CopyLiteral;
    assert "\\u00" + [a, b] == ['\\', 'u'] + ['0', '0', a, b];
    Associate(['\\', 'u'], ['0', '0', a, b], k);
    CopiesPair('u', ['0', '0', a, b] + k, out);
    CopiesPlain(['0', '0', a, b], k, out + ['\\', 'u']);
    Associate(out, ['\\', 'u'], ['0', '0', a, b]);
  }

  lemma CopiesPair(c: char, k: string, out: string)
    requires c != NUL
    ensures CopyLiteral(['\\', c] + k, out) == CopyLiteral(k, out + ['\\', c])
  {
    assert (['\\', c] + k)[2..] == k;
  }

  predicate LiteralPlain(c: char) { c !in {NUL, '"', '\\'} }

  lemma {:induction false} CopiesPlain(w: string, k: string, out: string)
    requires forall c :: c in w ==> LiteralPlain(c)
    ensures CopyLiteral(w + k, out) == CopyLiteral(k, out + w)
  {
    if w == [] {
      assert w + k == k && out + w == out;
    } else {
      assert LiteralPlain(w[0]) && (w + k)[0] == w[0];
      assert (w + k)[1..] == w[1..] + k;
      CopiesPlain(w[1..], k, out + [w[0]]);
      assert out + [w[0]] + w[1..] == out + w;
    }
  }

  lemma {:induction false} CopiesEscaped(t: string, k: string, out: string)
    requires NulFree(t)
    ensures CopyLiteral(EscapeAll(t, "\"" + k), out) == Some((out + EscapeAll(t, "\""), k))
    decreases |t|
  {
    hide CopyLiteral, EscapeChar;
    if t == [] {
      CopiesQuote(k, out);
    } else {
      CopiesEscapedChar(t[0], EscapeAll(t[1..], "\"" + k), out);
      CopiesEscaped(t[1..], k, out + EscapeChar(t[0]));
      Associate(out, EscapeChar(t[0]), EscapeAll(t[1..], "\""));
    }
  }

  lemma CopiesQuote(k: string, out: string)
    ensures CopyLiteral("\"" + k, out) == Some((out + "\"", k))
  {
    assert ("\"" + k)[1..] == k;
  }

  lemma KeepsString(t: string, k: string, out: string)
    requires NulFree(t)
    ensures Minified(StringText(t, k), out) == Minified(k, out + StringText(t, ""))
  {
    assert StringText(t, k)[1..] == EscapeAll(t, "\"" + k);
    CopiesEscaped(t, k, out + ['"']);
    assert "\"" + "" == "\"";
    Associate(out, "\"", EscapeAll(t, "\""));
  }

  lemma KeepsNumber(x: real, k: string, out: string)
    ensures Minified(NumberText(x) + k, out) == Minified(k, out + NumberText(x))
  {
    KeepsPlain(NumberText(x), k, out);
  }

  lemma {:induction false} KeepsValue(t: Json, depth: nat, k: string, out: string)
    requires Printable(t)
    ensures Minified(Text(t, depth, true, k), out) == Minified(k, out + Text(t, depth, false, ""))
    decreases t, 1
  {
    hide Minified;
    match t
    case Null => KeepsPlain("null", k, out); assert "null" + "" == "null";
    case False => KeepsPlain("false", k, out); assert "false" + "" == "false";
    case True => KeepsPlain("true", k, out); assert "true" + "" == "true";
    case Number(x) => KeepsNumber(x, k, out); assert NumberText(x) + "" == NumberText(x);
    case String(u) => KeepsString(u, k, out);
    case Array(items) => KeepsArray(items, depth, k, out);
    case Object(ms) => KeepsObject(ms, depth, k, out);
  }

  lemma {:induction false} KeepsArray(items: seq<Json>, depth: nat, k: string, out: string)
    requires Printable(Array(items))
    ensures Minified(Text(Array(items), depth, true, k), out) == Minified(k, out + Text(Array(items), depth, false, ""))
    decreases items, 2
  {
    if items == [] {
      EmptyArray(depth, k, out);
    } else {
      hide Minified, Text;
      CJson.ArrayWhole(items, depth, true, k);
      CJson.ArrayWhole(items, depth, false, "");
      var flat := ItemsText(items, depth + 1, false, "");
      KeepsPlain("[", ItemsText(items, depth + 1, true, "]" + k), out);
      KeepsItems(items, depth + 1, "]" + k, out + "[");
      KeepsPlain("]", k, out + "[" + flat);
      CJson.ItemsAppend(items, depth + 1, false, "", "]");
      assert "" + "]" == "]";
      Associate(out + "[", flat, "]");
      Associate(out, "[", flat + "]");
    }
  }

  lemma EmptyArray(depth: nat, k: string, out: string)
    ensures Minified(Text(Array([]), depth, true, k), out) == Minified(k, out + Text(Array([]), depth, false, ""))
  {
    hide Minified;
    KeepsPlain("[]", k, out);
    assert "[" + ("]" + k) == "[]" + k;
    assert "[" + ("]" + "") == "[]";
  }

  lemma {:induction false} KeepsItems(items: seq<Json>, depth: nat, k: string, out: string)
    requires items != [] && forall i :: 0 <= i < |items| ==> Printable(items[i])
    ensures Minified(ItemsText(items, depth, true, k), out) == Minified(k, out + ItemsText(items, depth, false, ""))
    decreases items, 1
  {
    hide Minified, Text;
    var first := Text(items[0], depth, false, "");
    if |items| == 1 {
      KeepsValue(items[0], depth, k, out);
    } else {
      var more, flat := ItemsText(items[1..], depth, true, k), ItemsText(items[1..], depth, false, "");
      KeepsValue(items[0], depth, "," + When(true, " ", more), out);
      KeepsPlain(",", When(true, " ", more), out + first);
      DropsLayout(0, more, out + first + ",");
      KeepsItems(items[1..], depth, k, out + first + ",");
      CJson.TextAppend(items[0], depth, false, "," + flat);
      assert out + first + "," + flat == out + (first + ("," + flat));
    }
  }

  lemma {:induction false} KeepsObject(ms: seq<Member>, depth: nat, k: string, out: string)
    requires Printable(Object(ms))
    ensures Minified(Text(Object(ms), depth, true, k), out) == Minified(k, out + Text(Object(ms), depth, false, ""))
    decreases ms, 2
  {
    if ms == [] {
      EmptyObject(depth, k, out);
    } else {
      hide Minified, Text, MembersText, When, Tabs, Printable;
      CJson.ObjectWhole(ms, depth, true, k);
      FlatObject(ms, depth);
      var close := When(true, Tabs(depth), "}" + k);
      var flat := MembersText(ms, depth + 1, false, "");
      OpensObject(MembersText(ms, depth + 1, true, close), out);
      KeepsMembers(ms, depth + 1, close, out + "{");
      ClosesObject(depth, k, out + "{" + flat);
      Associate(out + "{", flat, "}");
      Associate(out, "{", flat + "}");
    }
  }

  lemma OpensObject(inner: string, out: string)
    ensures Minified("{" + When(true, "\n", inner), out) == Minified(inner, out + "{")
  {
    hide Minified, When;
    KeepsPlain("{", When(true, "\n", inner), out);
    DropsLayout(0, inner, out + "{");
  }

  lemma ClosesObject(depth: nat, k: string, out: string)
    ensures Minified(When(true, Tabs(depth), "}" + k), out) == Minified(k, out + "}")
  {
    hide Minified, When, Tabs;
    DropsLayout(depth, "}" + k, out);
    KeepsPlain("}", k, out);
  }

  lemma FlatObject(ms: seq<Member>, depth: nat)
    requires ms != [] && Printable(Object(ms))
    ensures Text(Object(ms), depth, false, "") == "{" + (MembersText(ms, depth + 1, false, "") + "}")
  {
    hide Text, MembersText;
    CJson.ObjectWhole(ms, depth, false, "");
    CJson.MembersAppend(ms, depth + 1, false, "", "}");
    assert "" + "}" == "}";
  }

  lemma EmptyObject(depth: nat, k: string, out: string)
    ensures Minified(Text(Object([]), depth, true, k), out) == Minified(k, out + Text(Object([]), depth, false, ""))
  {
    hide Minified;
    var n := if depth == 0 then 0 else depth - 1;
    KeepsPlain("{", When(true, "\n" + Tabs(n), "}" + k), out);
    DropsLayout(n, "}" + k, out + "{");
    KeepsPlain("}", k, out + "{");
    assert "}" + "" == "}";
    Associate(out, "{", "}");
  }

  lemma {:induction false} KeepsMember(m: Member, depth: nat, k: string, out: string)
    requires NulFree(m.name) && Printable(m.value)
    ensures Minified(MemberText(m, depth, true, k), out) == Minified(k, out + MemberText(m, depth, false, ""))
    decreases m, 2
  {
    hide Minified, Text, StringText;
    var value, flat := Text(m.value, depth, true, k), Text(m.value, depth, false, "");
    var name := StringText(m.name, "");
    DropsLayout(depth, StringText(m.name, ":" + When(true, "\t", value)), out);
    KeepsString(m.name, ":" + When(true, "\t", value), out);
    KeepsPlain(":", When(true, "\t", value), out + name);
    DropsLayout(0, value, out + name + ":");
    KeepsValue(m.value, depth, k, out + name + ":");
    CJson.StringTextAppend(m.name, ":" + flat);
    assert out + name + ":" + flat == out + (name + (":" + flat));
  }

  lemma {:induction false} KeepsMembers(ms: seq<Member>, depth: nat, k: string, out: string)
    requires ms != [] && forall i :: 0 <= i < |ms| ==> NulFree(ms[i].name) && Printable(ms[i].value)
    ensures Minified(MembersText(ms, depth, true, k), out) == Minified(k, out + MembersText(ms, depth, false, ""))
    decreases ms, 1
  {
    hide Minified, MemberText;
    var first := MemberText(ms[0], depth, false, "");
    if |ms| == 1 {
      KeepsMember(ms[0], depth, When(true, "\n", k), out);
      DropsLayout(0, k, out + first);
    } else {
      var more, flat := MembersText(ms[1..], depth, true, k), MembersText(ms[1..], depth, false, "");
      KeepsMember(ms[0], depth, "," + When(true, "\n", more), out);
      KeepsPlain(",", When(true, "\n", more), out + first);
      DropsLayout(0, more, out + first + ",");
      KeepsMembers(ms[1..], depth, k, out + first + ",");
      CJson.MemberAppend(ms[0], depth, false, "," + flat);
      assert out + first + "," + flat == out + (first + ("," + flat));
    }
  }

  /** Minifying the formatted print of any tree gives exactly its unformatted print. */
  lemma MinifyFormatted(t: Json, depth: nat)
    requires Printable(t)
    ensures Minified(Text(t, depth, true, ""), "") == Some(Text(t, depth, false, ""))
  {
    KeepsValue(t, depth, "", "");
    assert "" + Text(t, depth, false, "") == Text(t, depth, false, "");
  }

  // ---- The in-place loop. `text` is the buffer's content on entry; bytes from `pos` on are still in place.

  ghost predicate Pending(json: array<char>, text: string, pos: nat)
    reads json
  {
    pos <= |text| < json.Length && NulFree(text) && json[|text|] == NUL &&
    forall i :: pos <= i < |text| ==> json[i] == text[i]
  }

  method SkipLine(json: array<char>, ghost text: string, start: nat) returns (pos: nat)
    requires Pending(json, text, start)
    ensures start <= pos <= |text| && text[pos..] == ToLineEnd(text[start..])
  {
    pos := start;
    while json[pos] != NUL && json[pos] != '\n'
      invariant start <= pos <= |text| && ToLineEnd(text[pos..]) == ToLineEnd(text[start..])
      decreases |text| - pos
    {
      assert text[pos..][1..] == text[pos + 1..];
      pos := pos + 1;
    }
  }

  method SkipComment(json: array<char>, ghost text: string, start: nat) returns (pos: nat)
    requires Pending(json, text, start) && ToCommentEnd(text[start..]).Some?
    ensures start <= pos <= |text| && ToCommentEnd(text[start..]) == Some(text[pos..])
  {
    pos := start;
    while json[pos] != NUL && !(json[pos] == '*' && json[pos + 1] == '/')
      invariant start <= pos <= |text| && ToCommentEnd(text[pos..]) == ToCommentEnd(text[start..])
      decreases |text| - pos
    {
      assert text[pos..][1..] == text[pos + 1..];
      pos := pos + 1;
    }
    assert pos < |text|;
    assert text[pos..][1..] == text[pos + 1..] && text[pos..][2..] == text[pos + 2..];
    pos := pos + 2;
  }

  /** One byte moved down, as in "*into++ = *json++". */
  method MoveByte(json: array<char>, ghost text: string, pos: nat, into: nat)
    requires Pending(json, text, pos) && into <= pos < |text|
    modifies json
    ensures Pending(json, text, pos + 1)
    ensures json[..into + 1] == old(json[..into]) + [text[pos]]
    ensures forall i :: into < i < json.Length ==> json[i] == old(json[i])
  {
    json[into] := json[pos];
  }

  /** Moves the rest of a literal down, up to and including its closing quote. */
  method MoveLiteral(json: array<char>, ghost text: string, start: nat, dest: nat) returns (pos: nat, into: nat)
    requires Pending(json, text, start) && dest <= start
    requires CopyLiteral(text[start..], json[..dest]).Some?
    modifies json
    ensures Pending(json, text, pos) && into <= pos && start < pos
    ensures old(CopyLiteral(text[start..], json[..dest])) == Some((json[..into], text[pos..]))
    ensures dest <= into && forall i :: into <= i < json.Length ==> json[i] == old(json[i])
  {
    hide CopyLiteral;
    pos, into := start, dest;
    while json[pos] != NUL && json[pos] != '"'
      invariant Pending(json, text, pos) && into <= pos && start <= pos
      invariant CopyLiteral(text[pos..], json[..into]) == old(CopyLiteral(text[start..], json[..dest]))
      invariant dest <= into && forall i :: into <= i < json.Length ==> json[i] == old(json[i])
      decreases |text| - pos
    {
      CopyLiteralStep(text, pos, json[..into]);
      if json[pos] == '\\' {
        MoveByte(json, text, pos, into);
        pos, into := pos + 1, into + 1;
      }
      MoveByte(json, text, pos, into);
      pos, into := pos + 1, into + 1;
    }
    CopyLiteralStep(text, pos, json[..into]);
    MoveByte(json, text, pos, into);
    pos, into := pos + 1, into + 1;
  }

  lemma CopyLiteralStep(text: string, pos: nat, out: string)
    requires pos <= |text| && NulFree(text) && CopyLiteral(text[pos..], out).Some?
    ensures pos < |text|
    ensures CopyLiteral(text[pos..], out) ==
      if text[pos] == '"' then Some((out + [text[pos]], text[pos + 1..]))
      else if text[pos] == '\\' && pos + 1 < |text| then
        CopyLiteral(text[pos + 2..], out + [text[pos]] + [text[pos + 1]])
      else CopyLiteral(text[pos + 1..], out + [text[pos]])
    ensures text[pos] == '\\' ==> pos + 1 < |text|
  {
    assert text[pos..][1..] == text[pos + 1..];
    if text[pos] == '\\' {
      assert text[pos..][2..] == text[pos + 2..];
      assert out + [text[pos], text[pos + 1]] == out + [text[pos]] + [text[pos + 1]];
    }
  }

  /** Rewrites the NUL-terminated text at the front of the buffer by its minified form. */
  method Minify(json: array<char>, ghost text: string) returns (into: nat)
    requires Pending(json, text, 0) && Minified(text, "").Some?
    modifies json
    ensures into <= |text| && json[into] == NUL && Minified(text, "") == Some(json[..into])
    ensures forall i :: into < i < json.Length ==> json[i] == old(json[i])
  {
    var pos := 0;
    into := 0;
    assert text[0..] == text && json[..0] == "";
    while json[pos] != NUL
      invariant Pending(json, text, pos) && into <= pos
      invariant Minified(text[pos..], json[..into]) == Minified(text, "")
      invariant forall i :: into <= i < json.Length ==> json[i] == old(json[i])
      decreases |text| - pos
    {
      assert text[pos..][1..] == text[pos + 1..];
      if IsBlank(json[pos]) {
        pos := pos + 1;
      } else if json[pos] == '/' && json[pos + 1] == '/' {
        pos := SkipLine(json, text, pos);
      } else if json[pos] == '/' && json[pos + 1] == '*' {
        pos := SkipComment(json, text, pos);
      } else if json[pos] == '"' {
        MoveByte(json, text, pos, into);
        pos, into := MoveLiteral(json, text, pos + 1, into + 1);
      } else {
        MoveByte(json, text, pos, into);
        pos, into := pos + 1, into + 1;
      }
    }
    json[into] := NUL;
  }
}
