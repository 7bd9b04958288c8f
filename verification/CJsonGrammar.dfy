/** The grammar of RFC 8259 against the reader of cJSON: every text of the grammar, with any blanks, any spelling of its
    strings and numbers and any nesting, is read as what it stands for. */
module CJsonGrammar {
  import opened Common
  import opened CJsonNumbers
  import opened CJsonSpec
  import opened CJsonRoundTrip
  import opened CJsonUnicode

  // ---------------------------------------------------------------- strings

  /** Hexadecimal digits of either case, and nothing else. */
  lemma HexTable(c: char)
    ensures HexValue(c) >= 0 <==> c in "0123456789" + "abcdef" + "ABCDEF"
    ensures HexValue(c) >= 0 ==> c == "0123456789abcdef"[HexValue(c)] || c == "0123456789ABCDEF"[HexValue(c)]
  {
  }

  /** Section 7 of RFC 8259: the letters after a backslash and what they stand for. */
  const SHORT := "\"\\/bfnrt"
  const MEANT := ['"', '\\', '/', 8 as char, 12 as char, 10 as char, 13 as char, 9 as char]

  /** One character of a string: a byte that stands for itself, a letter of `SHORT`, four hexadecimal digits, or the
      digits of a surrogate pair. */
  datatype Piece = Byte(c: char) | Short(i: nat) | Unit(h: string) | Pair(high: string, low: string)

  predicate HexText(h: string) { |h| == 4 && forall i :: 0 <= i < 4 ==> HexValue(h[i]) >= 0 }

  predicate PieceOk(p: Piece) {
    match p
    case Byte(c) => c != NUL && c != '"' && c != '\\'
    case Short(i) => i < |SHORT|
    case Unit(h) => HexText(h) && !(0xD800 <= Hex4(h) <= 0xDBFF)
    case Pair(high, low) =>
      HexText(high) && HexText(low) && 0xD800 <= Hex4(high) <= 0xDBFF && 0xDC00 <= Hex4(low) <= 0xDFFF
  }

  function PieceWritten(p: Piece, k: string): string
    requires PieceOk(p)
  {
    match p
    case Byte(c) => [c] + k
    case Short(i) => ['\\', SHORT[i]] + k
    case Unit(h) => "\\u" + (h + k)
    case Pair(high, low) => "\\u" + (high + ("\\u" + (low + k)))
  }

  /** A zero and a low surrogate on its own stand for nothing. */
  function PieceMeant(p: Piece): string
    requires PieceOk(p)
  {
    match p
    case Byte(c) => [c]
    case Short(i) => [MEANT[i]]
    case Unit(h) => if Scalar(Hex4(h)) && Hex4(h) != 0 then Utf8(Hex4(h)) else ""
    case Pair(high, low) => Utf8(0x1_0000 + 0x400 * (Hex4(high) - 0xD800) + (Hex4(low) - 0xDC00))
  }

  predicate PiecesOk(ps: seq<Piece>) { forall i :: 0 <= i < |ps| ==> PieceOk(ps[i]) }

  function PiecesWritten(ps: seq<Piece>, k: string): string
    requires PiecesOk(ps)
  {
    if ps == [] then k else PieceWritten(ps[0], PiecesWritten(ps[1..], k))
  }

  function PiecesMeant(ps: seq<Piece>): string
    requires PiecesOk(ps)
  {
    if ps == [] then "" else PieceMeant(ps[0]) + PiecesMeant(ps[1..])
  }

  lemma ReadsByte(c: char, k: string, out: string)
    requires c != NUL && c != '"' && c != '\\'
    ensures ReadChars([c] + k, out) == ReadChars(k, out + [c])
  {
    assert ([c] + k)[1..] == k;
  }

  lemma ReadsShort(i: nat, k: string, out: string)
    requires i < |SHORT|
    ensures ReadChars(['\\', SHORT[i]] + k, out) == ReadChars(k, out + [MEANT[i]])
  {
    assert i == 0 || i == 1 || i == 2 || i == 3 || i == 4 || i == 5 || i == 6 || i == 7;
    assert (['\\', SHORT[i]] + k)[2..] == k;
    assert (['\\', SHORT[i]] + k)[1..][0] == SHORT[i];
  }

  lemma ReadsHexPiece(p: Piece, k: string, out: string)
    requires PieceOk(p) && (p.Unit? || p.Pair?)
    ensures ReadChars(PieceWritten(p, k), out) == ReadChars(k, out + PieceMeant(p))
  {
    hide Utf8, UnicodeEscape, Hex4;
    var s := PieceWritten(p, k);
    assert s[1..][0] == 'u';
    match p
    case Unit(h) =>
      assert s[2..] == h + k;
      if Scalar(Hex4(h)) { EscapedUnit(h, k); } else { LoneLow(h, k); }
    case Pair(high, low) =>
      assert s[2..] == high + ("\\u" + (low + k));
      EscapedPair(high, low, k);
  }

  lemma LoneLow(h: string, k: string)
    requires |h| == 4 && 0xDC00 <= Hex4(h) <= 0xDFFF
    ensures UnicodeEscape(h + k) == Some(("", k))
  {
    hide Utf8, Hex4;
    Hex4Front(h, k);
    assert (h + k)[4..] == k;
  }

  lemma ReadsPiece(p: Piece, k: string, out: string)
    requires PieceOk(p)
    ensures ReadChars(PieceWritten(p, k), out) == ReadChars(k, out + PieceMeant(p))
  {
    hide ReadChars, Utf8, Hex4;
    match p
    case Byte(c) => ReadsByte(c, k, out);
    case Short(i) => ReadsShort(i, k, out);
    case Unit(_) => ReadsHexPiece(p, k, out);
    case Pair(_, _) => ReadsHexPiece(p, k, out);
  }

  lemma {:induction false} ReadsPieces(ps: seq<Piece>, k: string, out: string)
    requires PiecesOk(ps)
    ensures ReadChars(PiecesWritten(ps, k), out) == ReadChars(k, out + PiecesMeant(ps))
    decreases |ps|
  {
    hide ReadChars, PieceOk, PieceWritten, PieceMeant;
    if ps == [] {
      assert out + "" == out;
    } else {
      ReadsPiece(ps[0], PiecesWritten(ps[1..], k), out);
      ReadsPieces(ps[1..], k, out + PieceMeant(ps[0]));
      Associate(out, PieceMeant(ps[0]), PiecesMeant(ps[1..]));
    }
  }

  function Quoted(ps: seq<Piece>, k: string): string
    requires PiecesOk(ps)
  {
    "\"" + PiecesWritten(ps, "\"" + k)
  }

  /** Any spelling of a string; one that the text ends before its closing quote is read as far as it goes. */
  lemma ReadsQuoted(ps: seq<Piece>, k: string)
    requires PiecesOk(ps)
    ensures ReadString(Quoted(ps, k)) == Some((PiecesMeant(ps), k))
    ensures ReadString("\"" + PiecesWritten(ps, "")) == Some((PiecesMeant(ps), ""))
  {
    hide PiecesWritten, PiecesMeant, PiecesOk;
    assert Quoted(ps, k)[1..] == PiecesWritten(ps, "\"" + k);
    ReadsPieces(ps, "\"" + k, "");
    assert "" + PiecesMeant(ps) == PiecesMeant(ps);
    ReadsQuote(k, PiecesMeant(ps));
    assert ("\"" + PiecesWritten(ps, ""))[1..] == PiecesWritten(ps, "");
    ReadsPieces(ps, "", "");
  }

  // ---------------------------------------------------------------- texts

  /** A value with the blanks around its parts. */
  datatype Doc =
    | NullDoc | FalseDoc | TrueDoc
    | NumberDoc(n: Spelling)
    | StringDoc(ps: seq<Piece>)
    | ArrayDoc(gap: string, items: seq<Item>)
    | ObjectDoc(gap: string, entries: seq<Entry>)

  datatype Item = Item(before: string, doc: Doc, after: string)

  datatype Entry = Entry(before: string, name: seq<Piece>, mid: string, lead: string, doc: Doc, after: string)

  predicate Blanks(b: string) { forall c :: c in b ==> NUL < c <= ' ' }

  ghost predicate DocOk(d: Doc) {
    match d
    case NumberDoc(n) => Spelled(n)
    case StringDoc(ps) => PiecesOk(ps)
    case ArrayDoc(gap, items) => Blanks(gap) && forall i :: 0 <= i < |items| ==> ItemOk(items[i])
    case ObjectDoc(gap, entries) => Blanks(gap) && forall i :: 0 <= i < |entries| ==> EntryOk(entries[i])
    case _ => true
  }

  ghost predicate ItemOk(m: Item) { Blanks(m.before) && Blanks(m.after) && DocOk(m.doc) }

  ghost predicate EntryOk(m: Entry) {
    Blanks(m.before) && PiecesOk(m.name) && Blanks(m.mid) && Blanks(m.lead) && Blanks(m.after) && DocOk(m.doc)
  }

  /** The text, then `k`. */
  ghost function Written(d: Doc, k: string): string
    requires DocOk(d)
    decreases d, 1
  {
    match d
    case NullDoc => "null" + k
    case FalseDoc => "false" + k
    case TrueDoc => "true" + k
    case NumberDoc(n) => Spell(n, k)
    case StringDoc(ps) => Quoted(ps, k)
    case ArrayDoc(gap, items) => "[" + if items == [] then gap + ("]" + k) else ItemsWritten(items, "]" + k)
    case ObjectDoc(gap, entries) => "{" + if entries == [] then gap + ("}" + k) else EntriesWritten(entries, "}" + k)
  }

  ghost function ItemsWritten(items: seq<Item>, k: string): string
    requires items != [] && forall i :: 0 <= i < |items| ==> ItemOk(items[i])
    decreases items, 0
  {
    var rest := if |items| == 1 then k else "," + ItemsWritten(items[1..], k);
    assert ItemOk(items[0]);
    items[0].before + Written(items[0].doc, items[0].after + rest)
  }

  ghost function EntryWritten(m: Entry, k: string): string
    requires EntryOk(m)
    decreases m, 2
  {
    m.before + Quoted(m.name, m.mid + (":" + (m.lead + Written(m.doc, m.after + k))))
  }

  ghost function EntriesWritten(entries: seq<Entry>, k: string): string
    requires entries != [] && forall i :: 0 <= i < |entries| ==> EntryOk(entries[i])
    decreases entries, 0
  {
    EntryWritten(entries[0], if |entries| == 1 then k else "," + EntriesWritten(entries[1..], k))
  }

  ghost function Meant(d: Doc): Json
    requires DocOk(d)
    decreases d, 1
  {
    match d
    case NullDoc => Null
    case FalseDoc => False
    case TrueDoc => True
    case NumberDoc(n) => Number(SpelledValue(n))
    case StringDoc(ps) => String(PiecesMeant(ps))
    case ArrayDoc(_, items) => Array(ItemsMeant(items))
    case ObjectDoc(_, entries) => Object(EntriesMeant(entries))
  }

  ghost function ItemsMeant(items: seq<Item>): seq<Json>
    requires forall i :: 0 <= i < |items| ==> ItemOk(items[i])
    decreases items, 0
  {
    if items == [] then []
    else
      assert ItemOk(items[0]);
      [Meant(items[0].doc)] + ItemsMeant(items[1..])
  }

  ghost function EntriesMeant(entries: seq<Entry>): seq<Member>
    requires forall i :: 0 <= i < |entries| ==> EntryOk(entries[i])
    decreases entries, 0
  {
    if entries == [] then []
    else
      assert EntryOk(entries[0]);
      [Member(PiecesMeant(entries[0].name), Meant(entries[0].doc))] + EntriesMeant(entries[1..])
  }

  // ---------------------------------------------------------------- blanks

  lemma {:induction false} SkipsBlanks(b: string, k: string)
    requires Blanks(b)
    ensures Skip(b + k) == Skip(k)
  {
    if b == [] {
      assert b + k == k;
    } else {
      assert (b + k)[0] == b[0] && b[0] in b && (b + k)[1..] == b[1..] + k;
      assert forall c :: c in b[1..] ==> c in b;
      SkipsBlanks(b[1..], k);
    }
  }

  lemma BlanksEndNumber(b: string, k: string)
    requires Blanks(b) && EndsNumber(k)
    ensures EndsNumber(b + k)
  {
    if b == [] { assert b + k == k; } else { assert (b + k)[0] == b[0] && b[0] in b; }
  }

  /** A value starts with a visible byte that closes nothing. */
  lemma DocStart(d: Doc, k: string)
    requires DocOk(d) && EndsNumber(k)
    ensures (var s := Written(d, k); s != [] && ' ' < s[0] && s[0] != ']' && Skip(s) == s)
  {
    hide ReadNumber, SpelledValue, Spell;
    if d.NumberDoc? { ReadsSpelled(d.n, k); }
  }

  // ---------------------------------------------------------------- values

  /** What becomes of an array once these items are read and `t` is left. */
  function AfterItem(t: string, done: seq<Json>): Parsed<Json> {
    if Head(t) == ',' then ReadItems(t[1..], done)
    else if Head(t) == ']' then Some((Array(done), t[1..]))
    else None
  }

  function AfterEntry(t: string, done: seq<Member>): Parsed<Json> {
    if Head(t) == ',' then ReadMembers(t[1..], done)
    else if Head(t) == '}' then Some((Object(done), t[1..]))
    else None
  }

  lemma OneItem(s: string, done: seq<Json>, v: Json, tail: string)
    requires ReadValue(Skip(s)) == Some((v, tail))
    ensures ReadItems(s, done) == AfterItem(Skip(tail), done + [v])
  {
  }

  lemma OneEntry(s: string, done: seq<Member>, m: Member, tail: string)
    requires ReadMember(s) == Some((m, tail))
    ensures ReadMembers(s, done) == AfterEntry(Skip(tail), done + [m])
  {
  }

  lemma {:induction false} ReadsDoc(d: Doc, k: string)
    requires DocOk(d) && EndsNumber(k)
    ensures ReadValue(Written(d, k)) == Some((Meant(d), k))
    decreases d, 1
  {
    match d
    case NullDoc => ReadsKeyword(Null, k);
    case FalseDoc => ReadsKeyword(False, k);
    case TrueDoc => ReadsKeyword(True, k);
    case NumberDoc(n) => ReadsNumberDoc(n, k);
    case StringDoc(ps) => ReadsStringDoc(ps, k);
    case ArrayDoc(gap, items) => ReadsArrayDoc(gap, items, k);
    case ObjectDoc(gap, entries) => ReadsObjectDoc(gap, entries, k);
  }

  lemma ReadsNumberDoc(n: Spelling, k: string)
    requires Spelled(n) && EndsNumber(k)
    ensures ReadValue(Spell(n, k)) == Some((Number(SpelledValue(n)), k))
  {
    hide ReadNumber, SpelledValue, Spell, ReadArray, ReadObject, ReadString;
    ReadsSpelled(n, k);
    NotKeyword(Spell(n, k));
  }

  lemma ReadsStringDoc(ps: seq<Piece>, k: string)
    requires PiecesOk(ps)
    ensures ReadValue(Quoted(ps, k)) == Some((String(PiecesMeant(ps)), k))
  {
    hide ReadString, PiecesMeant, PiecesWritten, ReadArray, ReadObject;
    ReadsQuoted(ps, k);
    NotKeyword(Quoted(ps, k));
  }

  lemma {:induction false} ReadsArrayDoc(gap: string, items: seq<Item>, k: string)
    requires DocOk(ArrayDoc(gap, items))
    ensures ReadValue(Written(ArrayDoc(gap, items), k)) == Some((Array(ItemsMeant(items)), k))
    decreases items, 2
  {
    hide ReadValue, ReadItems, Skip, ItemsWritten;
    SkipVisible("]" + k);
    if items == [] {
      SkipsBlanks(gap, "]" + k);
      OpenArray(gap + ("]" + k));
    } else {
      var inner := ItemsWritten(items, "]" + k);
      ItemsStartDoc(items, "]" + k);
      OpenArray(inner);
      SkipIdempotent(inner);
      ReadsItemDocs(items, [], Skip(inner), "]" + k);
      assert [] + ItemsMeant(items) == ItemsMeant(items) && ("]" + k)[1..] == k;
    }
  }

  lemma ItemsStartDoc(items: seq<Item>, k: string)
    requires items != [] && EndsNumber(k) && forall i :: 0 <= i < |items| ==> ItemOk(items[i])
    ensures (var rest := if |items| == 1 then k else "," + ItemsWritten(items[1..], k);
      ItemOk(items[0]) && EndsNumber(items[0].after + rest) &&
      Skip(ItemsWritten(items, k)) == Written(items[0].doc, items[0].after + rest) &&
      Head(Skip(ItemsWritten(items, k))) != ']')
  {
    hide Skip, Written;
    var rest := if |items| == 1 then k else "," + ItemsWritten(items[1..], k);
    assert ItemOk(items[0]);
    BlanksEndNumber(items[0].after, rest);
    DocStart(items[0].doc, items[0].after + rest);
    SkipsBlanks(items[0].before, Written(items[0].doc, items[0].after + rest));
  }

  /** Items read in full; what follows them decides. */
  lemma {:induction false} ReadsItemDocs(items: seq<Item>, done: seq<Json>, s: string, t: string)
    requires items != [] && forall i :: 0 <= i < |items| ==> ItemOk(items[i])
    requires Skip(s) == Skip(ItemsWritten(items, t)) && EndsNumber(t) && Skip(t) == t
    ensures ReadItems(s, done) == AfterItem(t, done + ItemsMeant(items))
    decreases items, 1
  {
    hide ReadValue, ReadItems, Skip, ItemsWritten, Written;
    var rest := if |items| == 1 then t else "," + ItemsWritten(items[1..], t);
    var tail := items[0].after + rest;
    var v := Meant(items[0].doc);
    ItemsStartDoc(items, t);
    ReadsDoc(items[0].doc, tail);
    SkipsBlanks(items[0].after, rest);
    OneItem(s, done, v, tail);
    if |items| == 1 {
      assert ItemsMeant(items) == [v];
    } else {
      var more := ItemsWritten(items[1..], t);
      SkipVisible("," + more);
      assert ("," + more)[1..] == more;
      ReadsItemDocs(items[1..], done + [v], more, t);
      Associate(done, [v], ItemsMeant(items[1..]));
    }
  }

  lemma {:induction false} ReadsObjectDoc(gap: string, entries: seq<Entry>, k: string)
    requires DocOk(ObjectDoc(gap, entries))
    ensures ReadValue(Written(ObjectDoc(gap, entries), k)) == Some((Object(EntriesMeant(entries)), k))
    decreases entries, 3
  {
    hide ReadValue, ReadMembers, Skip, EntriesWritten;
    SkipVisible("}" + k);
    if entries == [] {
      SkipsBlanks(gap, "}" + k);
      OpenObject(gap + ("}" + k));
    } else {
      var inner := EntriesWritten(entries, "}" + k);
      EntriesStartDoc(entries, "}" + k);
      OpenObject(inner);
      SkipIdempotent(inner);
      ReadsEntryDocs(entries, [], Skip(inner), "}" + k);
      assert [] + EntriesMeant(entries) == EntriesMeant(entries) && ("}" + k)[1..] == k;
    }
  }

  lemma EntryStartDoc(m: Entry, k: string)
    requires EntryOk(m)
    ensures Skip(EntryWritten(m, k)) == Quoted(m.name, m.mid + (":" + (m.lead + Written(m.doc, m.after + k))))
    ensures Head(Skip(EntryWritten(m, k))) == '"'
  {
    hide Skip, Written;
    var s := Quoted(m.name, m.mid + (":" + (m.lead + Written(m.doc, m.after + k))));
    SkipsBlanks(m.before, s);
    SkipVisible(s);
  }

  lemma EntriesStartDoc(entries: seq<Entry>, k: string)
    requires entries != [] && forall i :: 0 <= i < |entries| ==> EntryOk(entries[i])
    ensures Head(Skip(EntriesWritten(entries, k))) == '"'
  {
    hide Skip, EntryWritten;
    EntryStartDoc(entries[0], if |entries| == 1 then k else "," + EntriesWritten(entries[1..], k));
  }

  lemma {:induction false} ReadsEntryDoc(m: Entry, s: string, k: string)
    requires EntryOk(m) && EndsNumber(k) && Skip(s) == Skip(EntryWritten(m, k))
    ensures ReadMember(s) == Some((Member(PiecesMeant(m.name), Meant(m.doc)), m.after + k))
    decreases m, 2
  {
    hide ReadValue, ReadMember, ReadString, Skip, Written, EntryWritten, Quoted;
    var value := Written(m.doc, m.after + k);
    var colon := ":" + (m.lead + value);
    EntryStartDoc(m, k);
    ReadsQuoted(m.name, m.mid + colon);
    SkipsBlanks(m.mid, colon);
    SkipVisible(colon);
    BlanksEndNumber(m.after, k);
    SkipsBlanks(m.lead, value);
    DocStart(m.doc, m.after + k);
    ReadsDoc(m.doc, m.after + k);
    NamedBlankValue(s, PiecesMeant(m.name), m.mid + colon, m.lead + value);
  }

  lemma NamedBlankValue(s: string, name: string, tail: string, next: string)
    requires ReadString(Skip(s)) == Some((name, tail)) && Skip(tail) == ":" + next && ReadValue(Skip(next)).Some?
    ensures var r := ReadValue(Skip(next)).value; ReadMember(s) == Some((Member(name, r.0), r.1))
  {
    assert (":" + next)[1..] == next;
  }

  lemma {:induction false} ReadsEntryDocs(entries: seq<Entry>, done: seq<Member>, s: string, t: string)
    requires entries != [] && forall i :: 0 <= i < |entries| ==> EntryOk(entries[i])
    requires Skip(s) == Skip(EntriesWritten(entries, t)) && EndsNumber(t) && Skip(t) == t
    ensures ReadMembers(s, done) == AfterEntry(t, done + EntriesMeant(entries))
    decreases entries, 1
  {
    hide ReadMember, ReadMembers, Skip, EntryWritten, Meant;
    assert EntryOk(entries[0]);
    var rest := if |entries| == 1 then t else "," + EntriesWritten(entries[1..], t);
    var m := Member(PiecesMeant(entries[0].name), Meant(entries[0].doc));
    ReadsEntryDoc(entries[0], s, rest);
    SkipsBlanks(entries[0].after, rest);
    OneEntry(s, done, m, entries[0].after + rest);
    if |entries| == 1 {
      assert EntriesMeant(entries) == [m];
    } else {
      var more := EntriesWritten(entries[1..], t);
      SkipVisible("," + more);
      assert ("," + more)[1..] == more;
      ReadsEntryDocs(entries[1..], done + [m], more, t);
      Associate(done, [m], EntriesMeant(entries[1..]));
    }
  }

  /** cJSON_Parse gives every text of the grammar the tree it stands for. What follows it is ignored, or refused if the
      end of the text is demanded. */
  lemma ParsesDoc(d: Doc, before: string, after: string, k: string)
    requires DocOk(d) && Blanks(before) && Blanks(after) && EndsNumber(k) && Skip(k) == k
    ensures Parse(before + Written(d, after), true) == Some(Meant(d))
    ensures Parse(before + Written(d, after + k), false) == Some(Meant(d))
    ensures Head(k) != NUL ==> Parse(before + Written(d, after + k), true) == None
  {
    hide ReadValue, Written, Meant;
    BlanksEndNumber(after, "");
    BlanksEndNumber(after, k);
    assert after + "" == after;
    ParsesFrom(d, before, after);
    ParsesFrom(d, before, after + k);
    SkipsBlanks(after, "");
    SkipsBlanks(after, k);
  }

  lemma ParsesFrom(d: Doc, before: string, k: string)
    requires DocOk(d) && Blanks(before) && EndsNumber(k)
    ensures ReadValue(Skip(before + Written(d, k))) == Some((Meant(d), k))
  {
    hide ReadValue, Written, Meant, Skip;
    SkipsBlanks(before, Written(d, k));
    DocStart(d, k);
    ReadsDoc(d, k);
  }

  // ---------------------------------------------------------------- texts that are refused

  /** A value starts with a keyword, a quote, a minus sign, a digit or an opening bracket. */
  lemma RefusesStart(s: string)
    requires !("null" <= s) && !("false" <= s) && !("true" <= s) && Head(s) !in "\"-0123456789[{"
    ensures ReadValue(s) == None
  {
    assert forall c :: IsDigit(c) ==> c in "0123456789";
  }

  /** After an item comes a comma and another value, or the closing bracket. */
  lemma RefusesArray(items: seq<Item>, t: string)
    requires items != [] && forall i :: 0 <= i < |items| ==> ItemOk(items[i])
    requires EndsNumber(t) && Skip(t) == t && Head(t) != ']' && (Head(t) == ',' ==> ReadValue(Skip(t[1..])) == None)
    ensures ReadValue("[" + ItemsWritten(items, t)) == None
  {
    hide ReadValue, Skip, ItemsWritten;
    var inner := ItemsWritten(items, t);
    ItemsStartDoc(items, t);
    OpenArray(inner);
    SkipIdempotent(inner);
    ReadsItemDocs(items, [], Skip(inner), t);
  }

  /** A member starts with a quote. */
  lemma RefusesName(gap: string, s: string)
    requires Blanks(gap) && Skip(s) == s && Head(s) != '"' && Head(s) != '}'
    ensures ReadValue("{" + (gap + s)) == None
  {
    hide ReadValue;
    SkipsBlanks(gap, s);
    OpenObject(gap + s);
  }

  /** Its name is followed by a colon. */
  lemma RefusesColon(gap: string, ps: seq<Piece>, mid: string, t: string)
    requires Blanks(gap) && PiecesOk(ps) && Blanks(mid) && Skip(t) == t && Head(t) != ':'
    ensures ReadValue("{" + (gap + Quoted(ps, mid + t))) == None
  {
    hide ReadValue, PiecesWritten, ReadString;
    var s := Quoted(ps, mid + t);
    SkipsBlanks(gap, s);
    OpenObject(gap + s);
    ReadsQuoted(ps, mid + t);
    SkipsBlanks(mid, t);
  }

  lemma NoEntry(s: string, done: seq<Member>)
    requires Head(Skip(s)) != '"'
    ensures ReadMembers(s, done) == None
  {
  }

  /** After a member comes a comma and another member, or the closing brace. */
  lemma RefusesObject(entries: seq<Entry>, t: string)
    requires entries != [] && forall i :: 0 <= i < |entries| ==> EntryOk(entries[i])
    requires EndsNumber(t) && Skip(t) == t && Head(t) != '}' && (Head(t) == ',' ==> Head(Skip(t[1..])) != '"')
    ensures ReadValue("{" + EntriesWritten(entries, t)) == None
  {
    hide ReadValue, ReadMembers, Skip, EntriesWritten;
    var inner := EntriesWritten(entries, t);
    EntriesStartDoc(entries, t);
    OpenObject(inner);
    SkipIdempotent(inner);
    ReadsEntryDocs(entries, [], Skip(inner), t);
    if Head(t) == ',' { NoEntry(t[1..], [] + EntriesMeant(entries)); }
  }
}
