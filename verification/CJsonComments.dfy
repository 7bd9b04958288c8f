/** cJSON_Minify on texts with comments: what is kept and what is dropped, part by part. */
module CJsonComments {
  import opened Common
  import opened CJsonSpec
  import opened CJsonMinify

  // ---------------------------------------------------------------- one comment

  lemma {:induction false} LineEndsAt(w: string, k: string)
    requires NulFree(w) && '\n' !in w
    ensures ToLineEnd(w + "\n" + k) == "\n" + k
    ensures ToLineEnd(w) == ""
  {
    if w == [] {
      assert w + "\n" + k == "\n" + k;
    } else {
      assert (w + "\n" + k)[1..] == w[1..] + "\n" + k;
      assert (w + "\n" + k)[0] == w[0] && w[0] in w;
      LineEndsAt(w[1..], k);
    }
  }

  /** A comment to the end of the line goes with its line break. */
  lemma DropsLineComment(w: string, k: string, out: string)
    requires NulFree(w) && '\n' !in w
    ensures Minified("//" + w + "\n" + k, out) == Minified(k, out)
  {
    hide ToLineEnd;
    var s := "//" + w + "\n" + k;
    LineEndsAt("//" + w, k);
    assert s[0] == '/' && s[1..][0] == '/';
    assert ("\n" + k)[1..] == k;
    DropsBlank('\n', k, out);
  }

  lemma DropsLastComment(w: string, out: string)
    requires NulFree(w) && '\n' !in w
    ensures Minified("//" + w, out) == Some(out)
  {
    hide ToLineEnd;
    var s := "//" + w;
    LineEndsAt(s, "");
    assert s[0] == '/' && s[1..][0] == '/';
  }

  /** The end of a comment that has been opened does not occur in `w`, not even right at its front. */
  ghost predicate Unclosed(w: string) {
    NulFree(w) && forall i :: 0 <= i < |w| && w[i] == '/' ==> i > 0 && w[i - 1] != '*'
  }

  lemma {:induction false} CommentEndsAt(w: string, k: string)
    requires NulFree(w) && forall i :: 0 < i < |w| && w[i] == '/' ==> w[i - 1] != '*'
    ensures ToCommentEnd(w + "*/" + k) == Some(k)
  {
    var s := w + "*/" + k;
    if w == [] {
      assert s == "*/" + k;
      assert s[1..][0] == '/' && s[2..] == k;
    } else {
      assert s[1..] == w[1..] + "*/" + k && w[0] in w;
      CommentEndsAt(w[1..], k);
    }
  }

  /** A comment between marks goes, whatever it holds. */
  lemma DropsBlockComment(w: string, k: string, out: string)
    requires Unclosed(w)
    ensures Minified("/*" + w + "*/" + k, out) == Minified(k, out)
  {
    hide ToCommentEnd;
    var s := "/*" + w + "*/" + k;
    CommentEndsAt("/*" + w, k);
    assert s[0] == '/' && s[1..][0] == '*';
  }

  /** A slash that opens no comment is kept. */
  lemma KeepsSlash(k: string, out: string)
    requires Head(k) != '/' && Head(k) != '*'
    ensures Minified("/" + k, out) == Minified(k, out + "/")
  {
    assert ("/" + k)[1..] == k;
  }

  // ---------------------------------------------------------------- literals

  /** What may stand between quotes: a backslash protects the byte after it. */
  predicate Body(b: string) {
    b == [] ||
    if b[0] == '\\' then |b| >= 2 && b[1] != NUL && Body(b[2..]) else b[0] != NUL && b[0] != '"' && Body(b[1..])
  }

  lemma {:induction false} CopiesBody(b: string, k: string, out: string)
    requires Body(b)
    ensures CopyLiteral(b + "\"" + k, out) == Some((out + b + "\"", k))
    decreases |b|
  {
    if b == [] {
      assert b + "\"" + k == "\"" + k && out + b == out;
      CopiesQuote(k, out);
    } else {
      var n := if b[0] == '\\' then 2 else 1;
      assert b + "\"" + k == b[..n] + (b[n..] + "\"" + k);
      if n == 2 {
        CopiesPair(b[1], b[2..] + "\"" + k, out);
        assert b[..2] == ['\\', b[1]];
      } else {
        CopiesPlain(b[..1], b[1..] + "\"" + k, out);
      }
      CopiesBody(b[n..], k, out + b[..n]);
      assert out + b[..n] + b[n..] == out + b;
    }
  }

  lemma KeepsLiteral(b: string, k: string, out: string)
    requires Body(b)
    ensures Minified("\"" + b + "\"" + k, out) == Minified(k, out + ("\"" + b + "\""))
  {
    hide CopyLiteral;
    var s := "\"" + b + "\"" + k;
    assert s[1..] == b + "\"" + k;
    CopiesBody(b, k, out + "\"");
    assert out + "\"" + b + "\"" == out + ("\"" + b + "\"");
  }

  // ---------------------------------------------------------------- whole texts

  datatype Part = Token(w: string) | Quoted(b: string) | Blank(c: char) | LineNote(w: string) | BlockNote(w: string)

  /** A token holds no blank, slash, quote or NUL. */
  ghost predicate PartOk(p: Part) {
    match p
    case Token(w) => forall c :: c in w ==> Plain(c)
    case Quoted(b) => Body(b)
    case Blank(c) => c in " \t\r\n"
    case LineNote(w) => NulFree(w) && '\n' !in w
    case BlockNote(w) => Unclosed(w)
  }

  function Spelt(p: Part): string {
    match p
    case Token(w) => w
    case Quoted(b) => "\"" + b + "\""
    case Blank(c) => [c]
    case LineNote(w) => "//" + w + "\n"
    case BlockNote(w) => "/*" + w + "*/"
  }

  predicate Kept(p: Part) { p.Token? || p.Quoted? }

  function SpeltAll(ps: seq<Part>): string {
    if ps == [] then "" else Spelt(ps[0]) + SpeltAll(ps[1..])
  }

  /** The parts that are kept, as they stand. */
  function KeptOf(ps: seq<Part>): seq<Part> {
    if ps == [] then [] else (if Kept(ps[0]) then [ps[0]] else []) + KeptOf(ps[1..])
  }

  lemma OnePart(p: Part, k: string, out: string)
    requires PartOk(p)
    ensures Minified(Spelt(p) + k, out) == Minified(k, if Kept(p) then out + Spelt(p) else out)
  {
    hide Minified, Body, Unclosed;
    match p
    case Token(w) => KeepsPlain(w, k, out);
    case Quoted(b) => KeepsLiteral(b, k, out);
    case Blank(c) => DropsBlank(c, k, out);
    case LineNote(w) => DropsLineComment(w, k, out);
    case BlockNote(w) => DropsBlockComment(w, k, out);
  }

  lemma {:induction false} PartsFrom(ps: seq<Part>, out: string)
    requires forall i :: 0 <= i < |ps| ==> PartOk(ps[i])
    ensures Minified(SpeltAll(ps), out) == Some(out + SpeltAll(KeptOf(ps)))
    decreases |ps|
  {
    hide Minified, Spelt, PartOk;
    if ps == [] {
      Ends(out);
    } else {
      OnePart(ps[0], SpeltAll(ps[1..]), out);
      PartsFrom(ps[1..], if Kept(ps[0]) then out + Spelt(ps[0]) else out);
      if Kept(ps[0]) {
        FirstKept(ps);
        Associate(out, Spelt(ps[0]), SpeltAll(KeptOf(ps[1..])));
      } else {
        assert KeptOf(ps) == KeptOf(ps[1..]);
      }
    }
  }

  lemma FirstKept(ps: seq<Part>)
    requires ps != [] && Kept(ps[0])
    ensures SpeltAll(KeptOf(ps)) == Spelt(ps[0]) + SpeltAll(KeptOf(ps[1..]))
  {
    hide Spelt;
    assert KeptOf(ps)[0] == ps[0] && KeptOf(ps)[1..] == KeptOf(ps[1..]);
  }

  lemma Ends(out: string)
    ensures Minified("", out) == Some(out + "")
  {
    assert out + "" == out;
  }

  /** Tokens and literals stay, byte for byte and in order; blanks and comments between them go. */
  lemma DropsComments(ps: seq<Part>)
    requires forall i :: 0 <= i < |ps| ==> PartOk(ps[i])
    ensures Minified(SpeltAll(ps), "") == Some(SpeltAll(KeptOf(ps)))
    ensures Minified(SpeltAll(ps), "") == Minified(SpeltAll(KeptOf(ps)), "")
  {
    hide Minified, PartOk;
    PartsFrom(ps, "");
    KeptStay(ps);
    PartsFrom(KeptOf(ps), "");
    assert "" + SpeltAll(KeptOf(ps)) == SpeltAll(KeptOf(ps));
  }

  lemma {:induction false} KeptStay(ps: seq<Part>)
    requires forall i :: 0 <= i < |ps| ==> PartOk(ps[i])
    ensures KeptOf(KeptOf(ps)) == KeptOf(ps)
    ensures forall i :: 0 <= i < |KeptOf(ps)| ==> PartOk(KeptOf(ps)[i])
  {
    hide PartOk;
    if ps != [] {
      KeptStay(ps[1..]);
      if Kept(ps[0]) {
        assert KeptOf(ps)[0] == ps[0] && KeptOf(ps)[1..] == KeptOf(ps[1..]);
      } else {
        assert KeptOf(ps) == KeptOf(ps[1..]);
      }
    }
  }
}
