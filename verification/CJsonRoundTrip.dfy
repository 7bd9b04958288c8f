/** Reading back what was printed, in both print modes and at any depth: everything but numbers comes back as it was,
    and whole doubles below a limit do too. */
module CJsonRoundTrip {
  import opened Common
  import opened CJsonNumbers
  import opened CJsonSpec
  import opened Doubles

  // ---- Strings

  lemma ReadsEscapedChar(c: char, rest: string, out: string)
    requires c != NUL
    ensures ReadChars(EscapeChar(c) + rest, out) == ReadChars(rest, out + [c])
  {
    var s := EscapeChar(c) + rest;
    if c > 31 as char && c != '"' && c != '\\' {
      assert s[1..] == rest;
    } else if c in {'\\', '"', BACKSPACE, FORMFEED, '\n', '\r', '\t'} {
      assert s[2..] == rest;
    } else {
      ReadsHexEscape(c, rest);
      assert s[2..] == ['0', '0', HexDigit(c as int / 16), HexDigit(c as int % 16)] + rest;
    }
  }

  lemma ReadsHexEscape(c: char, rest: string)
    requires NUL < c < ' '
    ensures UnicodeEscape(['0', '0', HexDigit(c as int / 16), HexDigit(c as int % 16)] + rest) == Some(([c], rest))
  {
    var s := ['0', '0', HexDigit(c as int / 16), HexDigit(c as int % 16)] + rest;
    assert HexValue(s[0]) == 0 && HexValue(s[1]) == 0;
    assert HexValue(s[2]) == c as int / 16 && HexValue(s[3]) == c as int % 16;
    assert Hex4(s) == c as int;
    assert s[4..] == rest;
  }

  lemma ReadsQuote(k: string, out: string)
    ensures ReadChars("\"" + k, out) == Some((out, k))
  {
    assert ("\"" + k)[1..] == k;
  }

  lemma {:induction false} ReadsEscaped(t: string, k: string, out: string)
    requires NulFree(t)
    ensures ReadChars(EscapeAll(t, "\"" + k), out) == Some((out + t, k))
    decreases |t|
  {
    hide ReadChars, EscapeChar;
    if t == [] {
      ReadsQuote(k, out);
      assert out + t == out;
    } else {
      ReadsEscapedChar(t[0], EscapeAll(t[1..], "\"" + k), out);
      ReadsEscaped(t[1..], k, out + [t[0]]);
      assert out + [t[0]] + t[1..] == out + t;
    }
  }

  lemma ReadsString(t: string, k: string)
    requires NulFree(t)
    ensures ReadString(StringText(t, k)) == Some((t, k))
  {
    assert StringText(t, k)[1..] == EscapeAll(t, "\"" + k);
    ReadsEscaped(t, k, "");
    assert "" + t == t;
  }

  // ---- Blanks

  lemma SkipOne(c: char, k: string)
    requires NUL < c <= ' '
    ensures Skip([c] + k) == Skip(k)
  {
    assert ([c] + k)[1..] == k;
  }

  lemma {:induction false} SkipTabs(n: nat, k: string)
    ensures Skip(Tabs(n) + k) == Skip(k)
  {
    if n == 0 {
      assert Tabs(0) + k == k;
    } else {
      assert Tabs(n) + k == "\t" + (Tabs(n - 1) + k);
      SkipOne('\t', Tabs(n - 1) + k);
      SkipTabs(n - 1, k);
    }
  }

  /** Everything that formatted printing adds is skipped. */
  lemma SkipLayout(fmt: bool, n: nat, k: string)
    ensures Skip(When(fmt, Tabs(n), k)) == Skip(k)
    ensures Skip(When(fmt, "\n" + Tabs(n), k)) == Skip(k)
    ensures Skip(When(fmt, "\n", k)) == Skip(k)
    ensures Skip(When(fmt, "\t", k)) == Skip(k)
    ensures Skip(When(fmt, " ", k)) == Skip(k)
  {
    SkipTabs(n, k);
    SkipOne('\n', k);
    SkipOne('\t', k);
    SkipOne(' ', k);
    assert "\n" + Tabs(n) + k == "\n" + (Tabs(n) + k);
    SkipOne('\n', Tabs(n) + k);
  }

  lemma {:induction false} SkipIdempotent(s: string)
    ensures Skip(Skip(s)) == Skip(s)
  {
    if s != [] && NUL < s[0] <= ' ' { SkipIdempotent(s[1..]); }
  }

  lemma SkipVisible(s: string)
    requires s != [] && ' ' < s[0]
    ensures Skip(s) == s
  {
  }

  /** Layout never extends a number either. */
  lemma LayoutEndsNumber(fmt: bool, n: nat, k: string)
    ensures EndsNumber("," + k) && EndsNumber("]" + k) && EndsNumber("}" + k)
    ensures EndsNumber(k) ==> EndsNumber(When(fmt, "\n", k)) && EndsNumber(When(fmt, Tabs(n), k))
  {
    assert n == 0 ==> Tabs(n) + k == k;
  }

  // ---- Values

  lemma NumberStart(x: real, k: string)
    ensures NumberText(x) != [] && (NumberText(x)[0] == '-' || IsDigit(NumberText(x)[0]))
    ensures (NumberText(x) + k)[0] == NumberText(x)[0]
  {
    hide ReadNumber, NumberText, Reread;
    ReadsNumber(x, "");
    assert NumberText(x) + "" == NumberText(x);
  }

  /** What a printed tree is read as: its numbers are those that their texts are read as. */
  ghost function AsRead(t: Json): Json
    decreases t, 1
  {
    match t
    case Number(x) => Number(Reread(x))
    case Array(items) => Array(ItemsAsRead(items))
    case Object(ms) => Object(MembersAsRead(ms))
    case _ => t
  }

  ghost function ItemsAsRead(items: seq<Json>): (r: seq<Json>)
    ensures |r| == |items|
    decreases items, 0
  {
    if items == [] then [] else [AsRead(items[0])] + ItemsAsRead(items[1..])
  }

  ghost function MembersAsRead(ms: seq<Member>): (r: seq<Member>)
    ensures |r| == |ms|
    decreases ms, 0
  {
    if ms == [] then [] else [Member(ms[0].name, AsRead(ms[0].value))] + MembersAsRead(ms[1..])
  }

  /** Printed values start with a visible byte, so no blanks are skipped before them. */
  lemma VisibleStart(t: Json, depth: nat, fmt: bool, k: string)
    requires Printable(t)
    ensures var s := Text(t, depth, fmt, k); s != [] && ' ' < s[0] && s[0] != ']' && Skip(s) == s
  {
    if t.Number? { NumberStart(t.value, k); }
  }

  /** Only the first byte decides how a value that is no keyword is read. */
  lemma NotKeyword(s: string)
    requires s != [] && s[0] !in {'n', 'f', 't'}
    ensures !("null" <= s) && !("false" <= s) && !("true" <= s)
  {
    assert "null"[0] == 'n' && "false"[0] == 'f' && "true"[0] == 't';
  }

  lemma ReadsKeyword(t: Json, k: string)
    requires t.Null? || t.False? || t.True?
    ensures ReadValue(Text(t, 0, false, k)) == Some((t, k))
  {
    var s := Text(t, 0, false, k);
    if t.False? { assert s[0] == 'f' && s[5..] == k; }
    else if t.True? { assert s[0] == 't' && s[4..] == k; }
    else { assert s[4..] == k; }
  }

  lemma ReadsNumberValue(x: real, k: string)
    requires EndsNumber(k)
    ensures ReadValue(NumberText(x) + k) == Some((Number(Reread(x)), k))
  {
    hide NumberText, Reread, ReadNumber, ReadArray, ReadObject, ReadString;
    ReadsNumber(x, k);
    NotKeyword(NumberText(x) + k);
  }

  lemma {:induction false} ReadsValue(t: Json, depth: nat, fmt: bool, k: string)
    requires Printable(t) && EndsNumber(k)
    ensures ReadValue(Text(t, depth, fmt, k)) == Some((AsRead(t), k))
    decreases t, 1
  {
    hide NumberText, Reread;
    match t
    case Null => ReadsKeyword(t, k);
    case False => ReadsKeyword(t, k);
    case True => ReadsKeyword(t, k);
    case Number(x) =>
      ReadsNumberValue(x, k);
    case String(u) =>
      ReadsString(u, k);
      NotKeyword(StringText(u, k));
    case Array(items) => ReadsArray(items, depth, fmt, k);
    case Object(ms) => ReadsObject(ms, depth, fmt, k);
  }

  lemma OpenArray(inner: string)
    ensures Head(Skip(inner)) != ']' ==> ReadValue("[" + inner) == ReadItems(Skip(inner), [])
    ensures forall k :: Skip(inner) == "]" + k ==> ReadValue("[" + inner) == Some((Array([]), k))
  {
    NotKeyword("[" + inner);
    assert ("[" + inner)[1..] == inner;
    assert forall k :: Skip(inner) == "]" + k ==> Skip(inner)[1..] == k;
  }

  lemma {:induction false} ReadsArray(items: seq<Json>, depth: nat, fmt: bool, k: string)
    requires Printable(Array(items))
    ensures ReadValue(Text(Array(items), depth, fmt, k)) == Some((Array(ItemsAsRead(items)), k))
    decreases items, 2
  {
    hide ReadValue, ReadItems, Skip;
    if items == [] {
      SkipVisible("]" + k);
      OpenArray("]" + k);
    } else {
      var inner := ItemsText(items, depth + 1, fmt, "]" + k);
      ItemsStart(items, depth + 1, fmt, "]" + k);
      OpenArray(inner);
      ReadsItems(items, [], depth + 1, fmt, inner, k);
      assert [] + ItemsAsRead(items) == ItemsAsRead(items);
    }
  }

  lemma ItemsStart(items: seq<Json>, depth: nat, fmt: bool, k: string)
    requires items != [] && forall i :: 0 <= i < |items| ==> Printable(items[i])
    ensures var s := ItemsText(items, depth, fmt, k); s != [] && s[0] != ']' && Skip(s) == s
  {
    VisibleStart(items[0], depth, fmt,
                 if |items| == 1 then k else "," + When(fmt, " ", ItemsText(items[1..], depth, fmt, k)));
  }

  lemma LastItem(s: string, done: seq<Json>, v: Json, k: string)
    requires ReadValue(Skip(s)) == Some((v, "]" + k))
    ensures ReadItems(s, done) == Some((Array(done + [v]), k))
  {
    assert ("]" + k)[1..] == k;
  }

  lemma NextItem(s: string, done: seq<Json>, v: Json, next: string)
    requires ReadValue(Skip(s)) == Some((v, "," + next))
    ensures ReadItems(s, done) == ReadItems(next, done + [v])
  {
    assert ("," + next)[1..] == next;
  }

  lemma {:induction false} ReadsItems(items: seq<Json>, done: seq<Json>, depth: nat, fmt: bool, s: string, k: string)
    requires items != [] && forall i :: 0 <= i < |items| ==> Printable(items[i])
    requires Skip(s) == ItemsText(items, depth, fmt, "]" + k)
    ensures ReadItems(s, done) == Some((Array(done + ItemsAsRead(items)), k))
    decreases items, 1
  {
    hide ReadValue, ReadItems, Skip;
    if |items| == 1 {
      ReadsValue(items[0], depth, fmt, "]" + k);
      LastItem(s, done, AsRead(items[0]), k);
      assert ItemsAsRead(items) == [AsRead(items[0])];
    } else {
      var more := ItemsText(items[1..], depth, fmt, "]" + k);
      var next := When(fmt, " ", more);
      ReadsValue(items[0], depth, fmt, "," + next);
      NextItem(s, done, AsRead(items[0]), next);
      ItemsStart(items[1..], depth, fmt, "]" + k);
      SkipLayout(fmt, 0, more);
      ReadsItems(items[1..], done + [AsRead(items[0])], depth, fmt, next, k);
      Associate(done, [AsRead(items[0])], ItemsAsRead(items[1..]));
    }
  }

  lemma OpenObject(inner: string)
    ensures Head(Skip(inner)) != '}' ==> ReadValue("{" + inner) == ReadMembers(Skip(inner), [])
    ensures forall k :: Skip(inner) == "}" + k ==> ReadValue("{" + inner) == Some((Object([]), k))
  {
    NotKeyword("{" + inner);
    assert ("{" + inner)[1..] == inner;
    assert forall k :: Skip(inner) == "}" + k ==> Skip(inner)[1..] == k;
  }

  lemma {:induction false} ReadsObject(ms: seq<Member>, depth: nat, fmt: bool, k: string)
    requires Printable(Object(ms))
    ensures ReadValue(Text(Object(ms), depth, fmt, k)) == Some((Object(MembersAsRead(ms)), k))
    decreases ms, 3
  {
    hide ReadValue, ReadMembers, Skip;
    var close := "}" + k;
    SkipVisible(close);
    if ms == [] {
      var n := if depth == 0 then 0 else depth - 1;
      SkipLayout(fmt, n, close);
      OpenObject(When(fmt, "\n" + Tabs(n), close));
    } else {
      var indented := When(fmt, Tabs(depth), close);
      var inner := MembersText(ms, depth + 1, fmt, indented);
      SkipLayout(fmt, depth, close);
      SkipLayout(fmt, 0, inner);
      SkipIdempotent(inner);
      LayoutEndsNumber(fmt, depth, k);
      LayoutEndsNumber(fmt, depth, close);
      MembersStart(ms, depth + 1, fmt, indented);
      OpenObject(When(fmt, "\n", inner));
      ReadsMembers(ms, [], depth + 1, fmt, Skip(inner), indented, k);
      assert [] + MembersAsRead(ms) == MembersAsRead(ms);
    }
  }

  /** After indentation a member starts with the quote of its name. */
  lemma MemberStart(m: Member, depth: nat, fmt: bool, k: string)
    requires NulFree(m.name) && Printable(m.value)
    ensures Skip(MemberText(m, depth, fmt, k))
         == StringText(m.name, ":" + When(fmt, "\t", Text(m.value, depth, fmt, k)))
  {
    var body := StringText(m.name, ":" + When(fmt, "\t", Text(m.value, depth, fmt, k)));
    SkipLayout(fmt, depth, body);
    SkipVisible(body);
  }

  lemma MembersStart(ms: seq<Member>, depth: nat, fmt: bool, k: string)
    requires ms != [] && forall i :: 0 <= i < |ms| ==> NulFree(ms[i].name) && Printable(ms[i].value)
    ensures Head(Skip(MembersText(ms, depth, fmt, k))) == '"'
  {
    MemberStart(ms[0], depth, fmt, if |ms| == 1 then When(fmt, "\n", k)
                                   else "," + When(fmt, "\n", MembersText(ms[1..], depth, fmt, k)));
  }

  lemma NamedValue(s: string, name: string, next: string)
    requires ReadString(Skip(s)) == Some((name, ":" + next)) && ReadValue(Skip(next)).Some?
    ensures var r := ReadValue(Skip(next)).value; ReadMember(s) == Some((Member(name, r.0), r.1))
  {
    assert (":" + next)[1..] == next;
  }

  lemma {:induction false} ReadsMember(m: Member, depth: nat, fmt: bool, s: string, k: string)
    requires NulFree(m.name) && Printable(m.value) && EndsNumber(k)
    requires Skip(s) == Skip(MemberText(m, depth, fmt, k))
    ensures ReadMember(s) == Some((Member(m.name, AsRead(m.value)), k))
    decreases m, 2
  {
    hide ReadValue, ReadMember, ReadString, Skip;
    var value := Text(m.value, depth, fmt, k);
    MemberStart(m, depth, fmt, k);
    ReadsString(m.name, ":" + When(fmt, "\t", value));
    VisibleStart(m.value, depth, fmt, k);
    SkipLayout(fmt, 0, value);
    ReadsValue(m.value, depth, fmt, k);
    NamedValue(s, m.name, When(fmt, "\t", value));
  }

  lemma LastMember(s: string, done: seq<Member>, m: Member, tail: string, k: string)
    requires ReadMember(s) == Some((m, tail)) && Skip(tail) == "}" + k
    ensures ReadMembers(s, done) == Some((Object(done + [m]), k))
  {
    assert ("}" + k)[1..] == k;
  }

  lemma NextMember(s: string, done: seq<Member>, m: Member, next: string)
    requires ReadMember(s) == Some((m, "," + next))
    ensures ReadMembers(s, done) == ReadMembers(next, done + [m])
  {
    assert ("," + next)[1..] == next;
  }

  lemma {:induction false} ReadsMembers(ms: seq<Member>, done: seq<Member>, depth: nat, fmt: bool,
                                        s: string, close: string, k: string)
    requires ms != [] && forall i :: 0 <= i < |ms| ==> NulFree(ms[i].name) && Printable(ms[i].value)
    requires Skip(s) == Skip(MembersText(ms, depth, fmt, close))
    requires Skip(close) == "}" + k && EndsNumber(close)
    ensures ReadMembers(s, done) == Some((Object(done + MembersAsRead(ms)), k))
    decreases ms, 1
  {
    hide ReadMember, ReadMembers, Skip;
    LayoutEndsNumber(fmt, 0, close);
    var m := Member(ms[0].name, AsRead(ms[0].value));
    if |ms| == 1 {
      SkipLayout(fmt, 0, close);
      ReadsMember(ms[0], depth, fmt, s, When(fmt, "\n", close));
      LastMember(s, done, m, When(fmt, "\n", close), k);
      assert MembersAsRead(ms) == [m];
    } else {
      var more := MembersText(ms[1..], depth, fmt, close);
      var next := When(fmt, "\n", more);
      LayoutEndsNumber(fmt, 0, next);
      ReadsMember(ms[0], depth, fmt, s, "," + next);
      NextMember(s, done, m, next);
      SkipLayout(fmt, 0, more);
      ReadsMembers(ms[1..], done + [m], depth, fmt, next, close, k);
      Associate(done, [m], MembersAsRead(ms[1..]));
    }
  }

  /** Trees whose numbers are whole doubles of magnitude at most `b`. */
  predicate WholeUpTo(t: Json, b: nat)
    decreases t
  {
    match t
    case Number(x) => IsWholeDouble(x) && Magnitude(x) <= b as real
    case Array(items) => forall i :: 0 <= i < |items| ==> WholeUpTo(items[i], b)
    case Object(ms) => forall i :: 0 <= i < |ms| ==> WholeUpTo(ms[i].value, b)
    case _ => true
  }

  lemma {:induction false} ItemAsReadAt(items: seq<Json>, i: nat)
    requires i < |items|
    ensures ItemsAsRead(items)[i] == AsRead(items[i])
  {
    if i > 0 { ItemAsReadAt(items[1..], i - 1); }
  }

  lemma {:induction false} MemberAsReadAt(ms: seq<Member>, i: nat)
    requires i < |ms|
    ensures MembersAsRead(ms)[i] == Member(ms[i].name, AsRead(ms[i].value))
  {
    if i > 0 { MemberAsReadAt(ms[1..], i - 1); }
  }

  /** Below the limit such a tree is read as itself. */
  lemma {:induction false} WholeAsRead(t: Json, b: nat)
    requires WholeUpTo(t, b) && b < LIMIT
    ensures AsRead(t) == t
    decreases t
  {
    hide Reread, IsWholeDouble;
    match t
    case Number(x) => SafeNumber(x);
    case Array(items) =>
      forall i | 0 <= i < |items| ensures ItemsAsRead(items)[i] == items[i] {
        ItemAsReadAt(items, i);
        WholeAsRead(items[i], b);
      }
    case Object(ms) =>
      forall i | 0 <= i < |ms| ensures MembersAsRead(ms)[i] == ms[i] {
        MemberAsReadAt(ms, i);
        WholeAsRead(ms[i].value, b);
      }
    case _ =>
  }

  /** Parsing any printed tree uses all of the text and changes nothing but numbers, formatted or not. Whole doubles
      below the limit are not changed. */
  lemma RoundTrip(t: Json, depth: nat, fmt: bool)
    requires Printable(t)
    ensures ReadValue(Text(t, depth, fmt, "")) == Some((AsRead(t), ""))
    ensures Parse(Text(t, depth, fmt, ""), true) == Some(AsRead(t))
    ensures WholeUpTo(t, LIMIT - 1) ==> Parse(Text(t, depth, fmt, ""), true) == Some(t)
  {
    ReadsValue(t, depth, fmt, "");
    VisibleStart(t, depth, fmt, "");
    if WholeUpTo(t, LIMIT - 1) { WholeAsRead(t, LIMIT - 1); }
  }

  ghost predicate ComesBack(t: Json) {
    Printable(t) ==> forall depth, fmt :: Parse(Text(t, depth, fmt, ""), true) == Some(t)
  }

  /** All trees of whole doubles up to `b` come back from their prints if and only if `b` is below the limit. */
  lemma RoundTripExactly(b: nat)
    ensures (forall t :: WholeUpTo(t, b) ==> ComesBack(t)) <==> b < LIMIT
  {
    hide ReadValue, Text, Parse, Reread, IsWholeDouble;
    if b < LIMIT {
      forall t | WholeUpTo(t, b) ensures ComesBack(t) {
        if Printable(t) {
          forall depth, fmt ensures Parse(Text(t, depth, fmt, ""), true) == Some(t) {
            RoundTrip(t, depth, fmt);
            WholeAsRead(t, b);
          }
        }
      }
    } else {
      var t := Number(LIMIT as real);
      UnsafeNumber();
      assert WholeUpTo(t, b) && Printable(t);
      RoundTrip(t, 0, false);
    }
  }
}
