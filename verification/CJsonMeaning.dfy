/** cJSON_Minify keeps what a text means: whatever parses, parses to the same tree once it is minified. */
module CJsonMeaning {
  import opened Common
  import opened CJsonSpec
  import opened CJsonMinify
  import opened Doubles
  import CJsonRoundTrip

  // ---- Minifying from the front

  ghost function Squeezed(s: string): Option<string> { Minified(s, "") }

  function Prefixed(w: string, r: Option<string>): Option<string> {
    match r case None => None case Some(m) => Some(w + m)
  }

  /** What is already written never matters. */
  lemma {:induction false} LiteralAccumulates(s: string, out: string, more: string)
    ensures CopyLiteral(s, out + more) ==
            match CopyLiteral(s, more) case None => None case Some((o, rest)) => Some((out + o, rest))
    decreases |s|
  {
    if Head(s) == NUL {
    } else if s[0] == '"' {
      Associate(out, more, ['"']);
    } else if s[0] != '\\' {
      LiteralAccumulates(s[1..], out, more + [s[0]]);
      Associate(out, more, [s[0]]);
    } else if Head(s[1..]) != NUL {
      LiteralAccumulates(s[2..], out, more + [s[0], s[1]]);
      Associate(out, more, [s[0], s[1]]);
    }
  }

  lemma {:induction false} Accumulates(s: string, out: string, more: string)
    ensures Minified(s, out + more) == Prefixed(out, Minified(s, more))
    decreases |s|
  {
    hide CopyLiteral, ToLineEnd, ToCommentEnd;
    if Head(s) == NUL {
    } else if IsBlank(s[0]) {
      Accumulates(s[1..], out, more);
    } else if s[0] == '/' && Head(s[1..]) == '/' {
      Accumulates(ToLineEnd(s), out, more);
    } else if s[0] == '/' && Head(s[1..]) == '*' {
      if ToCommentEnd(s).Some? { Accumulates(ToCommentEnd(s).value, out, more); }
    } else if s[0] == '"' {
      Associate(out, more, ['"']);
      LiteralAccumulates(s[1..], out, more + ['"']);
      var r := CopyLiteral(s[1..], more + ['"']);
      if r.Some? { Accumulates(r.value.1, out, r.value.0); }
    } else {
      Associate(out, more, [s[0]]);
      Accumulates(s[1..], out, more + [s[0]]);
    }
  }

  lemma SqueezesPlain(w: string, r: string)
    requires forall c :: c in w ==> Plain(c)
    ensures Squeezed(w + r) == Prefixed(w, Squeezed(r))
  {
    hide Minified;
    KeepsPlain(w, r, "");
    assert "" + w == w == w + "";
    Accumulates(r, w, "");
  }

  // ---- Literals

  /** What follows an opening quote is closed, as the parser reads it. */
  predicate Literal(s: string) {
    if Head(s) == NUL then false
    else if s[0] == '"' then true
    else if s[0] != '\\' then Literal(s[1..])
    else if Head(s[1..]) == NUL then false
    else if s[1] != 'u' then Literal(s[2..])
    else |s| >= 6 && Literal(s[6..])
  }

  /** One step along a literal. */
  function StepSize(s: string): nat {
    if s == [] then 0 else if s[0] != '\\' then 1 else if |s| > 1 && s[1] == 'u' then 6 else 2
  }

  /** The text after the closing quote. */
  function AfterLiteral(s: string): (r: string)
    requires Literal(s)
    ensures |r| < |s| && s[|s| - |r|..] == r && s[|s| - |r| - 1] == '"'
  {
    if s[0] == '"' then s[1..]
    else
      var n := StepSize(s);
      var r := AfterLiteral(s[n..]);
      assert s[n..][|s| - n - |r|..] == s[|s| - |r|..];
      r
  }

  /** The literal up to and including its closing quote. */
  function Front(s: string): (w: string)
    requires Literal(s)
    ensures w != [] && w + AfterLiteral(s) == s
  {
    s[..|s| - |AfterLiteral(s)|]
  }

  lemma AfterStep(s: string)
    requires Literal(s) && s[0] != '"'
    ensures (var n := StepSize(s); 0 < n <= |s| && Literal(s[n..]) && AfterLiteral(s[n..]) == AfterLiteral(s))
  {
  }

  lemma Cut(s: string, n: nat, end: nat)
    requires n <= end <= |s|
    ensures s[..end] == s[..n] + s[n..][..end - n]
  {
  }

  lemma FrontStep(s: string)
    requires Literal(s) && s[0] != '"'
    ensures (var n := StepSize(s);
      0 < n <= |s| && Literal(s[n..]) && AfterLiteral(s[n..]) == AfterLiteral(s) && Front(s) == s[..n] + Front(s[n..]))
  {
    AfterStep(s);
    hide Literal, AfterLiteral;
    Cut(s, StepSize(s), |s| - |AfterLiteral(s)|);
  }

  /** The minifier copies it up to the same quote. */
  predicate Sound(s: string) { Literal(s) && CopyLiteral(s, "") == Some((Front(s), AfterLiteral(s))) }

  /** No \u escape takes a quote or a backslash for one of its digits. */
  predicate PlainEscapes(s: string)
    requires Literal(s)
  {
    s[0] == '"' ||
    ((StepSize(s) == 6 ==> forall i :: 2 <= i < 6 ==> LiteralPlain(s[i])) && PlainEscapes(s[StepSize(s)..]))
  }

  /** Then the parser and the minifier end the literal at the same quote. */
  lemma PlainSound(s: string)
    requires Literal(s) && PlainEscapes(s)
    ensures Sound(s)
  {
    CopiesLiteral(s, "");
    assert "" + Front(s) == Front(s);
  }

  lemma {:induction false} CopiesLiteral(s: string, out: string)
    requires Literal(s) && PlainEscapes(s)
    ensures CopyLiteral(s, out) == Some((out + Front(s), AfterLiteral(s)))
    decreases |s|
  {
    if s[0] != '"' {
      hide AfterLiteral, Front;
      FrontStep(s);
      var n := StepSize(s);
      CopiesLiteral(s[n..], out + s[..n]);
      Associate(out, s[..n], Front(s[n..]));
      CopiesStep(s, out);
    } else {
      assert Front(s) == ['"'];
    }
  }

  lemma CopiesStep(s: string, out: string)
    requires Literal(s) && PlainEscapes(s) && s[0] != '"'
    ensures StepSize(s) <= |s| && CopyLiteral(s, out) == CopyLiteral(s[StepSize(s)..], out + s[..StepSize(s)])
  {
    if s[0] != '\\' {
      assert s[..1] == [s[0]];
    } else {
      assert s[..2] == [s[0], s[1]];
      if s[1] == 'u' {
        hide CopyLiteral;
        CopiesPair('u', s[2..], out);
        assert s == ['\\', 'u'] + s[2..] && s[2..] == s[2..6] + s[6..];
        CopiesPlain(s[2..6], s[6..], out + s[..2]);
        assert out + s[..2] + s[2..6] == out + s[..6];
      }
    }
  }

  /** An escape inside a literal reads no further than the literal. */
  lemma EscapeLocal(u: string, k: string)
    requires |u| >= 4 && Literal(u[4..])
    ensures UnicodeEscape(u).Some?
    ensures (var (bytes, r) := UnicodeEscape(u).value;
      Literal(r) && AfterLiteral(r) == AfterLiteral(u[4..]) &&
      UnicodeEscape(u[..4] + (Front(u[4..]) + k)) == Some((bytes, Front(r) + k)))
  {
    hide Utf8, Hex4, AfterLiteral, Front;
    var after := u[4..];
    var after' := Front(after) + k;
    var u' := u[..4] + after';
    SameHex(u, u');
    assert u'[4..] == after';
    FrontOf(after, k);
    if Head(after) == '\\' && Head(after[1..]) == 'u' {
      FrontStep(after);
      SameHex(after[2..], after'[2..]);
      assert after'[6..] == Front(after[6..]) + k;
    }
  }

  lemma SameHex(s: string, t: string)
    requires |s| >= 4 && |t| >= 4 && s[..4] == t[..4]
    ensures Hex4(s) == Hex4(t)
  {
    assert forall i :: 0 <= i < 4 ==> s[i] == s[..4][i] && t[i] == t[..4][i];
  }

  lemma FrontOf(s: string, k: string)
    requires Literal(s)
    ensures Head(Front(s) + k) == s[0]
    ensures s[0] == '\\' ==> |Front(s)| > 1 && (Front(s) + k)[1..] != [] && (Front(s) + k)[1] == s[1]
    ensures s[0] == '\\' && s[1] == 'u' ==> |Front(s)| > 6 && (Front(s) + k)[..6] == s[..6]
  {
    hide AfterLiteral, Literal, Front;
    assert Front(s)[0] == (Front(s) + AfterLiteral(s))[0];
    if s[0] == '\\' {
      FrontStep(s);
      var n := StepSize(s);
      assert (Front(s) + k)[..n] == s[..n];
      assert (Front(s) + k)[1] == (Front(s) + k)[..n][1] == s[..n][1];
    }
  }

  /** A literal reads the same whatever follows it. */
  lemma {:induction false} ReadsFront(s: string, out: string, k: string)
    requires Literal(s)
    ensures ReadChars(s, out).Some? && ReadChars(s, out).value.1 == AfterLiteral(s)
    ensures ReadChars(Front(s) + k, out) == Some((ReadChars(s, out).value.0, k))
    decreases |s|
  {
    if s[0] == '"' {
      assert Front(s) == ['"'] && (['"'] + k)[1..] == k;
    } else {
      hide AfterLiteral, Front, UnicodeEscape, Literal;
      FrontStep(s);
      var n := StepSize(s);
      var t := Front(s) + k;
      assert t == s[..n] + (Front(s[n..]) + k);
      if n < 6 {
        assert t[n..] == Front(s[n..]) + k && t[..n] == s[..n];
        ReadsFront(s[n..], out + if n == 1 then [s[0]] else [Unescaped(s[1])], k);
        PlainStep(s, t, out, n);
      } else {
        var u := s[2..];
        assert u[4..] == s[6..] && t[2..] == u[..4] + (Front(u[4..]) + k) && t[..2] == s[..2];
        EscapeLocal(u, k);
        var (bytes, r) := UnicodeEscape(u).value;
        ReadsFront(r, out + bytes, k);
        EscapeStep(s, t, out);
      }
    }
  }

  lemma PlainStep(s: string, t: string, out: string, n: nat)
    requires Literal(s) && s[0] != '"' && n == StepSize(s) && n < 6 && n <= |s| && n <= |t| && t[..n] == s[..n]
    ensures (var o := out + if n == 1 then [s[0]] else [Unescaped(s[1])];
      ReadChars(s, out) == ReadChars(s[n..], o) && ReadChars(t, out) == ReadChars(t[n..], o))
  {
    assert t[0] == t[..n][0] && s[0] == s[..n][0];
    if n == 2 { assert t[1] == t[..n][1] && s[1] == s[..n][1] && t[1..][0] == t[1] && s[1..][0] == s[1]; }
  }

  lemma EscapeStep(s: string, t: string, out: string)
    requires |s| >= 2 && |t| >= 2 && t[..2] == s[..2] && s[0] == '\\' && s[1] == 'u'
    requires UnicodeEscape(s[2..]).Some? && UnicodeEscape(t[2..]).Some?
    ensures (var (bytes, r) := UnicodeEscape(s[2..]).value; ReadChars(s, out) == ReadChars(r, out + bytes))
    ensures (var (bytes, r) := UnicodeEscape(t[2..]).value; ReadChars(t, out) == ReadChars(r, out + bytes))
  {
    hide UnicodeEscape;
    assert t[0] == t[..2][0] && t[1] == t[..2][1] && t[1..][0] == t[1] && s[1..][0] == s[1];
  }

  /** All literals are sound. */
  predicate Tidy(s: string) {
    if Head(s) == NUL then true
    else if s[0] == '"' then Sound(s[1..]) && Tidy(AfterLiteral(s[1..]))
    else Tidy(s[1..])
  }

  predicate Clean(s: string) { NulFree(s) && Tidy(s) }

  lemma CleanAfter(w: string, r: string)
    requires Clean(w + r) && forall c :: c in w ==> Plain(c)
    ensures Clean(r)
  {
    if w == [] {
      assert w + r == r;
    } else {
      assert Plain(w[0]) && (w + r)[0] == w[0] && (w + r)[1..] == w[1..] + r;
      CleanAfter(w[1..], r);
    }
  }

  lemma CleanLiteral(s: string)
    requires Clean(s) && Head(s) == '"'
    ensures Sound(s[1..]) && Clean(AfterLiteral(s[1..]))
  {
    hide AfterLiteral, Literal, CopyLiteral;
    var rest := AfterLiteral(s[1..]);
    assert rest == s[1..][|s| - 1 - |rest|..];
  }

  lemma ReadsLiteral(s: string, k: string)
    requires Head(s) == '"' && Literal(s[1..])
    ensures ReadString(s).Some? && ReadString(s).value.1 == AfterLiteral(s[1..])
    ensures ReadString(['"'] + Front(s[1..]) + k) == Some((ReadString(s).value.0, k))
  {
    hide ReadChars, Literal, AfterLiteral, Front;
    ReadsFront(s[1..], "", k);
    assert (['"'] + Front(s[1..]) + k)[1..] == Front(s[1..]) + k;
  }

  /** A string read from a clean text is read again from the minified text. */
  lemma StringKept(s: string)
    requires Clean(s) && Head(s) == '"'
    ensures ReadString(s).Some? && Clean(ReadString(s).value.1)
    ensures (var (t, rest) := ReadString(s).value;
      Squeezed(rest).Some? ==>
        Squeezed(s).Some? && ReadString(Squeezed(s).value) == Some((t, Squeezed(rest).value)))
  {
    CleanLiteral(s);
    hide ReadString, Squeezed, Literal, AfterLiteral, Front, Clean;
    var rest := AfterLiteral(s[1..]);
    SqueezesLiteral(s);
    ReadsLiteral(s, if Squeezed(rest).Some? then Squeezed(rest).value else "");
  }

  lemma SqueezesLiteral(s: string)
    requires Head(s) == '"' && Sound(s[1..])
    ensures Squeezed(s) == Prefixed(['"'] + Front(s[1..]), Squeezed(AfterLiteral(s[1..])))
  {
    hide CopyLiteral, Front, AfterLiteral;
    var w, rest := ['"'] + Front(s[1..]), AfterLiteral(s[1..]);
    LiteralAccumulates(s[1..], ['"'], "");
    assert ['"'] + "" == ['"'] && "" + ['"'] == ['"'] && w + "" == w;
    assert Minified(s, "") == Minified(rest, w);
    Accumulates(rest, w, "");
  }

  // ---- Numbers

  /** What may follow a value: a separator, a byte that is skipped, or nothing. */
  predicate Stops(k: string) { Head(k) <= ' ' || Head(k) in {',', ']', '}'} }

  predicate NumberByte(c: char) { IsDigit(c) || c in {'-', '+', '.', 'e', 'E'} }

  predicate NumberBytes(w: string) { forall c :: c in w ==> NumberByte(c) }

  lemma JoinBytes(a: string, b: string)
    requires NumberBytes(a) && NumberBytes(b)
    ensures NumberBytes(a + b)
  {
  }

  lemma OneByte(c: char)
    requires NumberByte(c)
    ensures NumberBytes([c]) && NumberBytes([])
  {
  }

  /** Digits read the same whatever follows them; `w` is what they take of `s`. */
  lemma {:induction false} DigitsLocal(s: string, n: real, k: string) returns (w: string)
    requires n >= 0.0 && !IsDigit(Head(k))
    ensures s == w + TakeDigits(s, n).1 && NumberBytes(w)
    ensures TakeDigits(w + k, n) == (TakeDigits(s, n).0, k)
    ensures w == [] || w[0] == s[0]
    decreases |s|
  {
    hide NumberBytes;
    OneByte('0');
    if s != [] && IsDigit(s[0]) {
      var more := DigitsLocal(s[1..], NextDigit(n, DigitValue(s[0])), k);
      OneByte(s[0]);
      JoinBytes([s[0]], more);
      w := [s[0]] + more;
      assert (w + k)[1..] == more + k;
    } else {
      w := [];
      assert w + k == k;
    }
  }

  lemma {:induction false} ExponentDigits(s: string, n: int, k: string) returns (w: string)
    requires !IsDigit(Head(k))
    ensures s == w + TakeExponent(s, n).1 && NumberBytes(w)
    ensures TakeExponent(w + k, n) == (TakeExponent(s, n).0, k)
    ensures w == [] || w[0] == s[0]
    decreases |s|
  {
    hide NumberBytes;
    OneByte('0');
    if s != [] && IsDigit(s[0]) {
      var more := ExponentDigits(s[1..], 10 * n + DigitValue(s[0]), k);
      OneByte(s[0]);
      JoinBytes([s[0]], more);
      w := [s[0]] + more;
      assert (w + k)[1..] == more + k;
    } else {
      w := [];
      assert w + k == k;
    }
  }

  lemma IntegerLocal(s: string, k: string) returns (w: string)
    requires !IsDigit(Head(k))
    ensures s == w + Integer(s).1 && NumberBytes(w) && Integer(w + k) == (Integer(s).0, k)
  {
    hide TakeDigits, NumberBytes;
    if Head(s) != '0' {
      w := NonZeroLocal(s, k);
    } else {
      var ds := NonZeroLocal(s[1..], k);
      OneByte('0');
      JoinBytes(['0'], ds);
      w := ['0'] + ds;
      assert (w + k)[1..] == ds + k;
    }
  }

  lemma NonZeroLocal(z: string, k: string) returns (w: string)
    requires !IsDigit(Head(k))
    ensures (var r := if '1' <= Head(z) <= '9' then TakeDigits(z, 0.0) else (0.0, z);
      z == w + r.1 && (if '1' <= Head(w + k) <= '9' then TakeDigits(w + k, 0.0) else (0.0, w + k)) == (r.0, k))
    ensures NumberBytes(w) && Head(w + k) == if w == [] then Head(k) else z[0]
  {
    hide TakeDigits, NumberBytes;
    OneByte('0');
    if '1' <= Head(z) <= '9' {
      w := DigitsLocal(z, 0.0, k);
    } else {
      w := [];
      assert w + k == k;
    }
  }

  lemma FractionLocal(s: string, n: real, k: string) returns (w: string)
    requires n >= 0.0 && !IsDigit(Head(k)) && Head(k) != '.'
    ensures s == w + Fraction(s, n).2 && NumberBytes(w) && (w == [] || w[0] == '.')
    ensures Fraction(w + k, n) == (Fraction(s, n).0, Fraction(s, n).1, k)
  {
    hide TakeDigits, NumberBytes;
    OneByte('.');
    if Head(s) == '.' && IsDigit(Head(s[1..])) {
      var ds := DigitsLocal(s[1..], n, k);
      JoinBytes(['.'], ds);
      w := ['.'] + ds;
      assert (w + k)[1..] == ds + k;
    } else {
      w := [];
      assert w + k == k;
    }
  }

  lemma ExponentLocal(s: string, k: string) returns (w: string)
    requires !IsDigit(Head(k)) && Head(k) !in {'e', 'E', '+', '-'}
    ensures s == w + Exponent(s).1 && NumberBytes(w) && (w == [] || w[0] == 'e' || w[0] == 'E')
    ensures Exponent(w + k) == (Exponent(s).0, k)
  {
    hide TakeExponent, NumberBytes;
    OneByte('e');
    if Head(s) != 'e' && Head(s) != 'E' {
      w := [];
      assert w + k == k;
    } else {
      var n := if Head(s[1..]) == '+' || Head(s[1..]) == '-' then 2 else 1;
      var ds := ExponentDigits(s[n..], 0, k);
      SignBytes(s, n, ds);
      w := s[..n] + ds;
      ExponentFront(s, n, ds, k);
    }
  }

  lemma SignBytes(s: string, n: nat, ds: string)
    requires s != [] && NumberByte(s[0]) && 1 <= n <= 2 && n <= |s| && (n == 2 ==> NumberByte(s[1])) && NumberBytes(ds)
    ensures NumberBytes(s[..n] + ds)
  {
  }

  lemma ExponentFront(s: string, n: nat, ds: string, k: string)
    requires s != [] && s[0] in {'e', 'E'} && 1 <= n <= |s| && n == if Head(s[1..]) in {'+', '-'} then 2 else 1
    requires ds == [] ==> Head(k) !in {'+', '-'}
    requires ds != [] ==> |s| > n && ds[0] == s[n]
    ensures (var t := s[..n] + ds + k;
      t[0] == s[0] && t[n..] == ds + k && (n == 2 ==> Head(t[1..]) == s[1]) && (n == 1 ==> Head(t[1..]) !in {'+', '-'}))
  {
  }

  /** A number reads the same whatever may follow a value. */
  lemma NumberLocal(s: string, k: string) returns (w: string)
    requires (Head(s) == '-' || IsDigit(Head(s))) && Stops(k)
    ensures w != [] && s == w + ReadNumber(s).1 && NumberBytes(w)
    ensures Head(w + k) == Head(s) && ReadNumber(w + k) == (ReadNumber(s).0, k)
  {
    hide Integer, Fraction, Exponent, Scaled, NumberBytes;
    var minus := if Head(s) == '-' then ['-'] else [];
    var s1 := s[|minus|..];
    assert s == minus + s1;
    var w1, w23 := UnsignedLocal(s1, k);
    OneByte('-');
    JoinBytes(w1, w23);
    JoinBytes(minus, w1 + w23);
    w := minus + (w1 + w23);
    var t := w1 + (w23 + k);
    assert w + k == minus + t;
    assert w != [] by { assert |ReadNumber(s).1| < |s|; }
    assert (w + k)[0] == w[0] == s[0];
    assert (w + k)[|minus|..] == t;
  }

  /** The digits before the fraction, and the fraction with the exponent. */
  lemma UnsignedLocal(s: string, k: string) returns (w1: string, w23: string)
    requires Stops(k)
    ensures (var (n, s2) := Integer(s);
      var (m, scale, s3) := Fraction(s2, n);
      var (e, s4) := Exponent(s3);
      s == w1 + w23 + s4 && NumberBytes(w1) && NumberBytes(w23) &&
      Integer(w1 + (w23 + k)) == (n, w23 + k) &&
      Fraction(w23 + k, n).0 == m && Fraction(w23 + k, n).1 == scale &&
      Exponent(Fraction(w23 + k, n).2) == (e, k))
  {
    hide Integer, Fraction, Exponent, NumberBytes;
    var (n, s2) := Integer(s);
    var (m, scale, s3) := Fraction(s2, n);
    var w3 := ExponentLocal(s3, k);
    var w2 := FractionLocal(s2, n, w3 + k);
    JoinBytes(w2, w3);
    w23 := w2 + w3;
    Associate(w2, w3, k);
    w1 := IntegerLocal(s, w23 + k);
    assert s == w1 + w23 + Exponent(s3).1;
  }

  // ---- Blanks

  /** The skipped bytes that minifying leaves in place. */
  function Left(s: string): string {
    if s != [] && NUL < s[0] <= ' ' then (if IsBlank(s[0]) then [] else [s[0]]) + Left(s[1..]) else []
  }

  lemma {:induction false} SqueezesBlanks(s: string)
    ensures Squeezed(s) == Prefixed(Left(s), Squeezed(Skip(s)))
    ensures Clean(s) ==> Clean(Skip(s))
    decreases |s|
  {
    if s != [] && NUL < s[0] <= ' ' {
      SqueezesBlanks(s[1..]);
      assert s == [s[0]] + s[1..];
      if IsBlank(s[0]) {
        assert [] + Left(s[1..]) == Left(s[1..]);
      } else {
        SqueezesPlain([s[0]], s[1..]);
        if Squeezed(Skip(s)).Some? { Associate([s[0]], Left(s[1..]), Squeezed(Skip(s)).value); }
      }
    } else {
      assert Squeezed(s).Some? ==> [] + Squeezed(s).value == Squeezed(s).value;
    }
  }

  lemma {:induction false} SkipLeft(s: string, k: string)
    ensures Skip(Left(s) + k) == Skip(k)
    ensures Stops(k) ==> Stops(Left(s) + k)
    decreases |s|
  {
    if s != [] && NUL < s[0] <= ' ' {
      SkipLeft(s[1..], k);
      if IsBlank(s[0]) {
        assert Left(s) == Left(s[1..]);
      } else {
        assert Left(s) + k == [s[0]] + (Left(s[1..]) + k);
        CJsonRoundTrip.SkipOne(s[0], Left(s[1..]) + k);
      }
    } else {
      assert Left(s) + k == k;
    }
  }

  /** Skipping and minifying may come in either order. */
  lemma BlanksKept(s: string)
    requires Clean(s)
    ensures Clean(Skip(s))
    ensures Squeezed(s).Some? <==> Squeezed(Skip(s)).Some?
    ensures Squeezed(s).Some? ==> Skip(Squeezed(s).value) == Skip(Squeezed(Skip(s)).value)
    ensures Squeezed(s).Some? && Stops(Squeezed(Skip(s)).value) ==> Stops(Squeezed(s).value)
  {
    hide Squeezed, Skip, Left, Clean;
    SqueezesBlanks(s);
    if Squeezed(Skip(s)).Some? { SkipLeft(s, Squeezed(Skip(s)).value); }
  }

  // ---- Values

  /** The first byte of a token stays first. */
  lemma HeadKept(s: string)
    requires Clean(s) && s != [] && ' ' < s[0] && s[0] != '/' && Squeezed(s).Some?
    ensures Squeezed(s).value != [] && Squeezed(s).value[0] == s[0] && Skip(Squeezed(s).value) == Squeezed(s).value
  {
    hide Squeezed, Literal, AfterLiteral, Front;
    if s[0] == '"' {
      CleanLiteral(s);
      SqueezesLiteral(s);
    } else {
      assert s == [s[0]] + s[1..];
      SqueezesPlain([s[0]], s[1..]);
    }
    CJsonRoundTrip.SkipVisible(Squeezed(s).value);
  }

  lemma ValueHead(s: string)
    requires ReadValue(s).Some?
    ensures s != [] && ' ' < s[0] && s[0] !in {'/', ',', ':', ']', '}'}
  {
    hide ReadArray, ReadObject, ReadNumber, ReadString;
    if "null" <= s { assert s[0] == 'n'; }
    else if "false" <= s { assert s[0] == 'f'; }
    else if "true" <= s { assert s[0] == 't'; }
  }

  /** A token of plain bytes is kept as it is. */
  lemma TokenKept(w: string, s: string, rest: string)
    requires Clean(s) && s == w + rest && forall c :: c in w ==> Plain(c)
    ensures Clean(rest) && Squeezed(s) == Prefixed(w, Squeezed(rest))
  {
    hide Clean;
    CleanAfter(w, rest);
    SqueezesPlain(w, rest);
  }

  /** The minified text starts with the same value, and goes on with the rest minified. */
  ghost predicate ValueSame(s: string)
    requires ReadValue(s).Some?
  {
    var (v, rest) := ReadValue(s).value;
    Clean(rest) &&
    (Squeezed(rest).Some? && Stops(Squeezed(rest).value) ==>
      Squeezed(s).Some? && ReadValue(Squeezed(s).value) == Some((v, Squeezed(rest).value)))
  }

  ghost predicate ItemsSame(s: string, done: seq<Json>)
    requires ReadItems(s, done).Some?
  {
    var (v, rest) := ReadItems(s, done).value;
    Clean(rest) &&
    (Squeezed(rest).Some? ==>
      Squeezed(s).Some? && ReadItems(Squeezed(s).value, done) == Some((v, Squeezed(rest).value)))
  }

  ghost predicate MemberSame(s: string)
    requires ReadMember(s).Some?
  {
    var (m, rest) := ReadMember(s).value;
    Clean(rest) &&
    (Squeezed(rest).Some? && Stops(Squeezed(rest).value) ==>
      Squeezed(s).Some? && ReadMember(Squeezed(s).value) == Some((m, Squeezed(rest).value)))
  }

  ghost predicate MembersSame(s: string, done: seq<Member>)
    requires ReadMembers(s, done).Some?
  {
    var (v, rest) := ReadMembers(s, done).value;
    Clean(rest) &&
    (Squeezed(rest).Some? ==>
      Squeezed(s).Some? && ReadMembers(Squeezed(s).value, done) == Some((v, Squeezed(rest).value)))
  }

  lemma {:induction false} ValueKept(s: string)
    requires Clean(s) && ReadValue(s).Some?
    ensures ValueSame(s)
    decreases |s|, 1
  {
    if "null" <= s || "false" <= s || "true" <= s {
      KeywordKept(s);
    } else if Head(s) == '"' {
      hide Squeezed, ReadString, Clean;
      StringKept(s);
      var rest := ReadString(s).value.1;
      if Squeezed(rest).Some? {
        HeadKept(s);
        CJsonRoundTrip.NotKeyword(Squeezed(s).value);
      }
    } else if Head(s) == '-' || IsDigit(Head(s)) {
      NumberKept(s);
    } else if Head(s) == '[' {
      ArrayKept(s);
    } else {
      ObjectKept(s);
    }
  }

  lemma KeywordKept(s: string)
    requires Clean(s) && ("null" <= s || "false" <= s || "true" <= s)
    ensures ReadValue(s).Some? && ValueSame(s)
  {
    hide Squeezed, Clean;
    var w := if "null" <= s then "null" else if "false" <= s then "false" else "true";
    assert s == w + s[|w|..];
    TokenKept(w, s, s[|w|..]);
    if Squeezed(s[|w|..]).Some? {
      var k := Squeezed(s[|w|..]).value;
      assert (w + k)[0] == w[0] && (w + k)[|w|..] == k;
    }
  }

  lemma NumberKept(s: string)
    requires Clean(s) && (Head(s) == '-' || IsDigit(Head(s)))
    ensures ReadValue(s).Some? && ValueSame(s)
  {
    hide Squeezed, Clean, ReadNumber;
    CJsonRoundTrip.NotKeyword(s);
    var rest := ReadNumber(s).1;
    var k := if Squeezed(rest).Some? && Stops(Squeezed(rest).value) then Squeezed(rest).value else "";
    var w := NumberLocal(s, k);
    TokenKept(w, s, rest);
    CJsonRoundTrip.NotKeyword(w + k);
  }

  lemma {:induction false} ArrayKept(s: string)
    requires Clean(s) && Head(s) == '[' && ReadArray(s).Some?
    ensures ReadValue(s) == ReadArray(s) && ValueSame(s)
    decreases |s|, 0
  {
    CJsonRoundTrip.NotKeyword(s);
    assert ReadValue(s) == ReadArray(s);
    hide ReadValue, ReadItems, Squeezed, Clean, Skip;
    var inner := s[1..];
    assert s == "[" + inner;
    TokenKept("[", s, inner);
    BlanksKept(inner);
    var t := Skip(inner);
    if Head(t) == ']' {
      assert t == "]" + t[1..];
      TokenKept("]", t, t[1..]);
      if Squeezed(t[1..]).Some? {
        CJsonRoundTrip.SkipVisible(Squeezed(t).value);
        CJsonRoundTrip.OpenArray(Squeezed(inner).value);
      }
    } else {
      CJsonRoundTrip.SkipIdempotent(inner);
      ItemsKept(t, []);
      ItemsHead(t, []);
      if Squeezed(ReadItems(t, []).value.1).Some? {
        HeadKept(t);
        CJsonRoundTrip.OpenArray(Squeezed(inner).value);
      }
    }
  }

  lemma ItemsHead(t: string, done: seq<Json>)
    requires Skip(t) == t && ReadItems(t, done).Some?
    ensures t != [] && ' ' < t[0] && t[0] !in {'/', ']'}
  {
    ValueHead(t);
  }

  /** One item and what comes after it. */
  lemma ItemStep(s: string, done: seq<Json>, v: Json, r: string, next: string)
    requires ReadValue(Skip(s)) == Some((v, r))
    ensures Skip(r) == "," + next ==> ReadItems(s, done) == ReadItems(next, done + [v])
    ensures Skip(r) == "]" + next ==> ReadItems(s, done) == Some((Array(done + [v]), next))
  {
    assert ("," + next)[1..] == next && ("]" + next)[1..] == next;
  }

  lemma {:induction false} ItemsKept(s: string, done: seq<Json>)
    requires Clean(s) && ReadItems(s, done).Some?
    ensures ItemsSame(s, done)
    decreases |s|, 2
  {
    var s1 := Skip(s);
    var (v, r) := ReadValue(s1).value;
    var t := Skip(r);
    var next := t[1..];
    assert t == [t[0]] + next && t[0] in {',', ']'};
    hide ReadValue, ReadItems, Squeezed, Clean, Skip, Stops;
    BlanksKept(s);
    ValueKept(s1);
    ValueHead(s1);
    BlanksKept(r);
    TokenKept([t[0]], t, next);
    ItemStep(s, done, v, r, next);
    if t[0] == ',' { ItemsKept(next, done + [v]); }
    if Squeezed(next).Some? {
      TailKept(r, next);
      HeadKept(s1);
      ItemStep(Squeezed(s).value, done, v, Squeezed(r).value, Squeezed(next).value);
    }
  }

  /** After a value comes a separator, in the minified text too. */
  lemma TailKept(r: string, next: string)
    requires Clean(r) && Skip(r) != []
    requires Skip(r)[0] in {',', ':', ']', '}'} && next == Skip(r)[1..] && Squeezed(next).Some?
    ensures Squeezed(r).Some? && Skip(Squeezed(r).value) == [Skip(r)[0]] + Squeezed(next).value
    ensures Skip(r)[0] != ':' ==> Stops(Squeezed(r).value)
  {
    hide Squeezed, Clean, Skip;
    var t := Skip(r);
    BlanksKept(r);
    assert t == [t[0]] + next;
    TokenKept([t[0]], t, next);
    CJsonRoundTrip.SkipVisible([t[0]] + Squeezed(next).value);
  }

  lemma {:induction false} ObjectKept(s: string)
    requires Clean(s) && Head(s) == '{' && ReadObject(s).Some?
    ensures ReadValue(s) == ReadObject(s) && ValueSame(s)
    decreases |s|, 0
  {
    CJsonRoundTrip.NotKeyword(s);
    assert ReadValue(s) == ReadObject(s);
    hide ReadValue, ReadMembers, Squeezed, Clean, Skip;
    var inner := s[1..];
    assert s == "{" + inner;
    TokenKept("{", s, inner);
    BlanksKept(inner);
    var t := Skip(inner);
    if Head(t) == '}' {
      assert t == "}" + t[1..];
      TokenKept("}", t, t[1..]);
      if Squeezed(t[1..]).Some? {
        CJsonRoundTrip.SkipVisible(Squeezed(t).value);
        CJsonRoundTrip.OpenObject(Squeezed(inner).value);
      }
    } else {
      CJsonRoundTrip.SkipIdempotent(inner);
      MembersKept(t, []);
      MembersHead(t, []);
      if Squeezed(ReadMembers(t, []).value.1).Some? {
        HeadKept(t);
        CJsonRoundTrip.OpenObject(Squeezed(inner).value);
      }
    }
  }

  lemma MembersHead(t: string, done: seq<Member>)
    requires Skip(t) == t && ReadMembers(t, done).Some?
    ensures t != [] && t[0] == '"'
  {
  }

  lemma {:induction false} MemberKept(s: string)
    requires Clean(s) && ReadMember(s).Some?
    ensures MemberSame(s)
    decreases |s|, 2
  {
    var s1 := Skip(s);
    var (name, r) := ReadString(s1).value;
    var t := Skip(r);
    var next := t[1..];
    var s2 := Skip(next);
    var (v, rest) := ReadValue(s2).value;
    assert Head(s1) == '"' && t == ":" + next;
    hide ReadValue, ReadString, ReadMember, Squeezed, Clean, Skip, Stops;
    BlanksKept(s);
    StringKept(s1);
    BlanksKept(r);
    TokenKept(":", t, next);
    BlanksKept(next);
    ValueKept(s2);
    ValueHead(s2);
    MemberStep(s, name, r, next);
    if Squeezed(rest).Some? && Stops(Squeezed(rest).value) {
      HeadKept(s2);
      TailKept(r, next);
      HeadKept(s1);
      MemberStep(Squeezed(s).value, name, Squeezed(r).value, Squeezed(next).value);
    }
  }

  lemma MemberStep(s: string, name: string, r: string, next: string)
    requires ReadString(Skip(s)) == Some((name, r)) && Skip(r) == ":" + next && ReadValue(Skip(next)).Some?
    ensures (var (v, rest) := ReadValue(Skip(next)).value; ReadMember(s) == Some((Member(name, v), rest)))
  {
    assert (":" + next)[1..] == next;
  }

  lemma MembersStep(s: string, done: seq<Member>, m: Member, r: string, next: string)
    requires ReadMember(s) == Some((m, r))
    ensures Skip(r) == "," + next ==> ReadMembers(s, done) == ReadMembers(next, done + [m])
    ensures Skip(r) == "}" + next ==> ReadMembers(s, done) == Some((Object(done + [m]), next))
  {
    assert ("," + next)[1..] == next && ("}" + next)[1..] == next;
  }

  lemma {:induction false} MembersKept(s: string, done: seq<Member>)
    requires Clean(s) && ReadMembers(s, done).Some?
    ensures MembersSame(s, done)
    decreases |s|, 3
  {
    var (m, r) := ReadMember(s).value;
    var t := Skip(r);
    var next := t[1..];
    assert t == [t[0]] + next && t[0] in {',', '}'};
    hide ReadMember, ReadMembers, Squeezed, Clean, Skip, Stops;
    MemberKept(s);
    BlanksKept(r);
    TokenKept([t[0]], t, next);
    MembersStep(s, done, m, r, next);
    if t[0] == ',' { MembersKept(next, done + [m]); }
    if Squeezed(next).Some? {
      TailKept(r, next);
      MembersStep(Squeezed(s).value, done, m, Squeezed(r).value, Squeezed(next).value);
    }
  }

  // ---- Whole texts

  /** A text whose literals are sound and that parses to the end is minified to a text that parses to the same tree. */
  lemma TidyKeepsMeaning(s: string)
    requires NulFree(s) && Tidy(s) && Parse(s, true).Some?
    ensures Minified(s, "").Some? && Parse(Minified(s, "").value, true) == Parse(s, true)
  {
    var s1 := Skip(s);
    var (v, rest) := ReadValue(s1).value;
    assert Head(Skip(rest)) == NUL;
    hide ReadValue, Skip, Minified, Tidy;
    BlanksKept(s);
    ValueKept(s1);
    ValueHead(s1);
    BlanksKept(rest);
    EndKept(Skip(rest));
    HeadKept(s1);
  }

  lemma EndKept(t: string)
    requires Clean(t) && Head(t) == NUL
    ensures t == [] && Squeezed(t) == Some("")
  {
  }

  /** All literals of the text are closed, and no \u escape in them takes a quote or a backslash for a digit. */
  predicate PlainText(s: string) {
    if Head(s) == NUL then true
    else if s[0] == '"' then Literal(s[1..]) && PlainEscapes(s[1..]) && PlainText(AfterLiteral(s[1..]))
    else PlainText(s[1..])
  }

  lemma {:induction false} PlainTidy(s: string)
    requires PlainText(s)
    ensures Tidy(s)
    decreases |s|
  {
    hide Literal, AfterLiteral, PlainEscapes, Sound;
    if Head(s) == NUL {
    } else if s[0] == '"' {
      PlainSound(s[1..]);
      PlainTidy(AfterLiteral(s[1..]));
    } else {
      PlainTidy(s[1..]);
    }
  }

  /** A text of this kind that parses to the end is minified to a text that parses to the same tree. */
  lemma MinifyKeepsMeaning(s: string)
    requires NulFree(s) && PlainText(s) && Parse(s, true).Some?
    ensures Minified(s, "").Some? && Parse(Minified(s, "").value, true) == Parse(s, true)
  {
    hide Parse, Minified;
    PlainTidy(s);
    TidyKeepsMeaning(s);
  }

  const RUN_ON := "\"\\u\" 12\""

  /** Otherwise it may not be: where a \u escape swallows a quote, the reader and the minifier end the literal at
      different quotes. Here the reader takes the whole text for one string, and the minifier runs over its end. */
  lemma RunOnEscape()
    ensures NulFree(RUN_ON) && Parse(RUN_ON, true) == Some(String("")) && Minified(RUN_ON, "").None?
  {
    var s := RUN_ON;
    assert s[1..] == "\\u\" 12\"" && s[3..] == "\" 12\"" && s[7..] == "\"";
    ReadsRunOn(s);
    MinifiesRunOn(s);
  }

  lemma ReadsRunOn(s: string)
    requires s == RUN_ON
    ensures Parse(s, true) == Some(String(""))
  {
    var t, u := s[1..], s[3..];
    assert t[2..] == u && |u| == 5 && Hex4(u) == 0 && u[4..] == s[7..];
    assert UnicodeEscape(u) == Some(("", s[7..]));
    assert ReadChars(s[7..], "") == Some(("", s[8..])) && "" + "" == "";
    assert ReadChars(t, "") == ReadChars(s[7..], "");
    CJsonRoundTrip.NotKeyword(s);
    CJsonRoundTrip.SkipVisible(s);
  }

  lemma MinifiesRunOn(s: string)
    requires s == RUN_ON
    ensures Minified(s, "").None?
  {
    var t := s[1..];
    var o := "" + ['"'];
    assert t[2..][1..] == s[4..] && s[4..] == " 12\"";
    assert CopyLiteral(t[2..], o + [t[0], t[1]]) == Some((o + [t[0], t[1]] + ['"'], s[4..]));
    assert CopyLiteral(t, o) == CopyLiteral(t[2..], o + [t[0], t[1]]);
    hide CopyLiteral;
    var out := o + [t[0], t[1]] + ['"'];
    assert Minified(s, "") == Minified(s[4..], out);
    DropsBlank(' ', "12\"", out);
    assert s[4..] == [' '] + "12\"" && "12\"" == "12" + "\"";
    KeepsPlain("12", "\"", out);
    OpenQuote(out + "12");
  }

  lemma OpenQuote(out: string)
    ensures Minified("\"", out).None?
  {
    assert "\""[1..] == "";
  }
}
