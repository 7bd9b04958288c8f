/** The JSON text format as include/common/cJSON.c reads and writes it.
    A `char` is one byte of a C string; a pointer into a C string is the text that remains from there,
    and the terminating NUL is the end of that text. */
module CJsonSpec {
  import opened Common
  import opened Doubles

  datatype Member = Member(name: string, value: Json)

  /** A cJSON item; a number is the real that its double stands for, and the child list is a sequence. */
  datatype Json =
    | Null | False | True
    | Number(value: real)
    | String(text: string)
    | Array(items: seq<Json>)
    | Object(members: seq<Member>)

  const NUL := 0 as char
  const BACKSPACE := 8 as char
  const FORMFEED := 12 as char

  function Head(s: string): char { if s == [] then NUL else s[0] }

  predicate IsDigit(c: char) { '0' <= c <= '9' }

  function DigitValue(c: char): int
    requires IsDigit(c)
  {
    c as int - '0' as int
  }

  /** Drops leading bytes 1 to 32. */
  function Skip(s: string): (r: string)
    ensures |r| <= |s|
  {
    if s != [] && NUL < s[0] <= ' ' then Skip(s[1..]) else s
  }

  // ---- Numbers

  /** Digits of a number, after those that gave `n`; each step is computed in doubles. */
  function TakeDigits(s: string, n: real): (r: (real, string))
    requires n >= 0.0
    ensures r.0 >= 0.0 && |r.1| <= |s| && (s != [] && IsDigit(s[0]) ==> |r.1| < |s|)
  {
    if s != [] && IsDigit(s[0]) then TakeDigits(s[1..], NextDigit(n, DigitValue(s[0]))) else (n, s)
  }

  /** Digits of an exponent, computed in integers. */
  function TakeExponent(s: string, n: int): (r: (int, string))
    ensures |r.1| <= |s|
  {
    if s != [] && IsDigit(s[0]) then TakeExponent(s[1..], 10 * n + DigitValue(s[0])) else (n, s)
  }

  function PowTen(e: int): (p: real)
    ensures p > 0.0
    decreases if e < 0 then -e else e
  {
    if e == 0 then 1.0 else if e > 0 then 10.0 * PowTen(e - 1) else PowTen(e + 1) / 10.0
  }

  /** What pow(10.0, e) returns: the power of ten, rounded. */
  function Pow(e: int): (p: real)
    ensures p >= 0.0
  {
    Round(PowTen(e))
  }

  function Scaled(sign: real, n: real, e: int): real
    requires n >= 0.0
  {
    sign * Times(n, Pow(e))
  }

  /** Optional fraction: the digits so far, the count of fraction digits negated, and the rest. */
  function Fraction(s: string, n: real): (r: (real, int, string))
    requires n >= 0.0
    ensures r.0 >= 0.0 && |r.2| <= |s|
  {
    if Head(s) == '.' && IsDigit(Head(s[1..])) then
      var t := TakeDigits(s[1..], n);
      (t.0, |t.1| - (|s| - 1), t.1)
    else (n, 0, s)
  }

  /** Optional exponent, signed. */
  function Exponent(s: string): (r: (int, string))
    ensures |r.1| <= |s|
  {
    if Head(s) == 'e' || Head(s) == 'E' then
      if Head(s[1..]) == '+' then TakeExponent(s[2..], 0)
      else if Head(s[1..]) == '-' then (var t := TakeExponent(s[2..], 0); (-t.0, t.1))
      else TakeExponent(s[1..], 0)
    else (0, s)
  }

  /** Optional '-', an optional leading zero, then digits that start with 1 to 9. */
  function Integer(s: string): (r: (real, string))
    ensures r.0 >= 0.0 && |r.1| <= |s|
  {
    var z := if Head(s) == '0' then s[1..] else s;
    if '1' <= Head(z) <= '9' then TakeDigits(z, 0.0) else (0.0, z)
  }

  function ReadNumber(s: string): (r: (real, string))
    requires Head(s) == '-' || IsDigit(Head(s))
    ensures |r.1| < |s|
  {
    var (sign, s1) := if Head(s) == '-' then (-1.0, s[1..]) else (1.0, s);
    var (n, s2) := Integer(s1);
    var (m, scale, s3) := Fraction(s2, n);
    var (subscale, s4) := Exponent(s3);
    (Scaled(sign, m, scale + subscale), s4)
  }

  function DecimalDigits(n: nat): (r: string)
    ensures r != [] && forall c :: c in r ==> IsDigit(c)
  {
    var last := [('0' as int + n % 10) as char];
    if n < 10 then last else DecimalDigits(n / 10) + last
  }

  /** What "%d" prints. */
  function DecimalText(v: int): string {
    if v < 0 then "-" + DecimalDigits(-v) else DecimalDigits(v)
  }

  /** DBL_EPSILON, the distance from 1 to the next number of type double. */
  const EPSILON: real := 1.0 / 4503599627370496.0

  function Magnitude(x: real): (m: real)
    ensures m >= 0.0
  {
    if x < 0.0 then -x else x
  }

  /** A conversion to int, which drops the fraction. */
  function Truncated(x: real): int { if x < 0.0 then -((-x).Floor) else x.Floor }

  /** What "%d" and "%.0f" are used for: 32-bit integers, and whole numbers of up to sixty digits. */
  predicate IsInt32(x: real) {
    Magnitude(Truncated(x) as real - x) <= EPSILON && -2147483648.0 <= x <= 2147483647.0
  }

  predicate IsWhole(x: real) { Magnitude(x.Floor as real - x) <= EPSILON && Magnitude(x) < PowTen(60) }

  /** How far `x` is from the numbers from 1 up to 10. */
  ghost function Distance(x: real): (d: nat)
    requires x > 0.0
  {
    if x >= 10.0 then x.Floor else if x < 1.0 then InverseFalls(x); (1.0 / x).Floor else 0
  }

  lemma InverseFalls(x: real)
    requires 0.0 < x < 1.0
    ensures 0 <= (if x * 10.0 < 1.0 then (1.0 / (x * 10.0)).Floor else 0) < (1.0 / x).Floor
  {
    assert 1.0 / x > 1.0 by { assert x * (1.0 / x) == 1.0; }
    assert 1.0 / (x * 10.0) == 1.0 / x / 10.0;
  }

  lemma DistanceFalls(x: real)
    requires x > 0.0
    ensures x >= 10.0 ==> Distance(x / 10.0) < Distance(x)
    ensures x < 1.0 ==> Distance(x * 10.0) < Distance(x)
  {
    if x < 1.0 { InverseFalls(x); }
  }

  /** What "%e" is used for, where the number is not whole. */
  predicate IsScientific(x: real) { x != 0.0 && (Magnitude(x) < 0.000001 || Magnitude(x) > 1000000000.0) }

  /** `x` as a number from 1 up to 10 and a power of ten. */
  function Normal(x: real): (r: (real, int))
    requires x > 0.0
    ensures 1.0 <= r.0 < 10.0
    decreases Distance(x)
  {
    DistanceFalls(x);
    if x >= 10.0 then var r := Normal(x / 10.0); (r.0, r.1 + 1)
    else if x < 1.0 then var r := Normal(x * 10.0); (r.0, r.1 - 1)
    else (x, 0)
  }

  /** The seven digits and the power of ten of "%e". */
  function Mantissa(x: real): (r: (nat, int))
    requires x > 0.0
    ensures 1000000 <= r.0 < 10000000
  {
    var (y, e) := Normal(x);
    var m := Nearest(y * 1000000.0);
    if m == 10000000 then (1000000, e + 1) else (m, e)
  }

  /** The last `k` decimal digits of `n`. */
  function LastDigits(n: nat, k: nat): (r: string)
    ensures |r| == k && forall c :: c in r ==> IsDigit(c)
  {
    if k == 0 then [] else LastDigits(n / 10, k - 1) + [('0' as int + n % 10) as char]
  }

  /** `n` millionths. */
  function Millionths(n: nat): string { DecimalDigits(n / 1000000) + ("." + LastDigits(n, 6)) }

  function ExponentText(e: int): string {
    var n := if e < 0 then -e else e;
    (if e < 0 then "e-" else "e+") + ((if n < 10 then "0" else "") + DecimalDigits(n))
  }

  function Signed(x: real, s: string): string { if x < 0.0 then "-" + s else s }

  /** print_number: "%d" or "%.0f" for whole numbers, "%e" for very small and very large ones, else "%f". */
  function NumberText(x: real): string {
    if IsInt32(x) then DecimalText(Truncated(x))
    else if IsWhole(x) then DecimalText(x.Floor)
    else if IsScientific(x) then
      var (m, e) := Mantissa(Magnitude(x));
      Signed(x, Millionths(m) + ExponentText(e))
    else Signed(x, Millionths(Nearest(Magnitude(x) * 1000000.0)))
  }

  // ---- Strings

  function HexValue(c: char): (v: int)
    ensures -1 <= v < 16
  {
    if IsDigit(c) then DigitValue(c)
    else if 'A' <= c <= 'F' then 10 + c as int - 'A' as int
    else if 'a' <= c <= 'f' then 10 + c as int - 'a' as int
    else -1
  }

  /** Four hexadecimal digits, or 0 when one of them is not. */
  function Hex4(s: string): (h: int)
    requires |s| >= 4
    ensures 0 <= h < 0x10000
  {
    var a, b, c, d := HexValue(s[0]), HexValue(s[1]), HexValue(s[2]), HexValue(s[3]);
    if a >= 0 && b >= 0 && c >= 0 && d >= 0 then 4096 * a + 256 * b + 16 * c + d else 0
  }

  /** UTF-8 bytes of a code point. */
  function Utf8(uc: int): string
    requires 0 <= uc < 0x110000
  {
    if uc < 0x80 then [uc as char]
    else if uc < 0x800 then [(0xC0 + uc / 64) as char, (0x80 + uc % 64) as char]
    else if uc < 0x10000 then [(0xE0 + uc / 4096) as char, (0x80 + uc / 64 % 64) as char, (0x80 + uc % 64) as char]
    else [(0xF0 + uc / 262144) as char, (0x80 + uc / 4096 % 64) as char,
          (0x80 + uc / 64 % 64) as char, (0x80 + uc % 64) as char]
  }

  /** What a \u escape adds to the string and the text after it; `s` starts after the 'u'.
      None when the escape runs over the end of the text. */
  function UnicodeEscape(s: string): (r: Option<(string, string)>)
    ensures r.Some? ==> |r.value.1| < |s|
  {
    if |s| < 4 then None
    else
      var uc := Hex4(s);
      var after := s[4..];
      if 0xDC00 <= uc <= 0xDFFF || uc == 0 then Some(("", after))
      else if 0xD800 <= uc <= 0xDBFF then
        if Head(after) != '\\' || Head(after[1..]) != 'u' then Some(("", after))
        else if |after| < 6 then None
        else
          var uc2 := Hex4(after[2..]);
          if uc2 < 0xDC00 || uc2 > 0xDFFF then Some(("", after[6..]))
          else Some((Utf8(0x10000 + uc % 1024 * 1024 + uc2 % 1024), after[6..]))
      else Some((Utf8(uc), after))
  }

  /** The byte that a one-letter escape stands for. */
  function Unescaped(c: char): char {
    match c
    case 'b' => BACKSPACE
    case 'f' => FORMFEED
    case 'n' => '\n'
    case 'r' => '\r'
    case 't' => '\t'
    case _ => c
  }

  /** Reads string content up to the closing quote (or the end of the text), appending to `out`. */
  function ReadChars(s: string, out: string): (r: Option<(string, string)>)
    ensures r.Some? ==> |r.value.1| <= |s|
    decreases |s|
  {
    if Head(s) == NUL then Some((out, s))
    else if s[0] == '"' then Some((out, s[1..]))
    else if s[0] != '\\' then ReadChars(s[1..], out + [s[0]])
    else if Head(s[1..]) == NUL then None
    else if s[1] != 'u' then ReadChars(s[2..], out + [Unescaped(s[1])])
    else
      match UnicodeEscape(s[2..])
      case None => None
      case Some((bytes, rest)) => ReadChars(rest, out + bytes)
  }

  function ReadString(s: string): (r: Option<(string, string)>)
    ensures r.Some? ==> |r.value.1| < |s|
  {
    if Head(s) != '"' then None else ReadChars(s[1..], "")
  }

  /** How one byte of a string is printed. */
  function EscapeChar(c: char): string {
    if c > 31 as char && c != '"' && c != '\\' then [c]
    else if c == '\\' then "\\\\"
    else if c == '"' then "\\\""
    else if c == BACKSPACE then "\\b"
    else if c == FORMFEED then "\\f"
    else if c == '\n' then "\\n"
    else if c == '\r' then "\\r"
    else if c == '\t' then "\\t"
    else "\\u00" + [HexDigit(c as int / 16), HexDigit(c as int % 16)]
  }

  /** The escaped bytes of `s`, then `k`. */
  function EscapeAll(s: string, k: string): string {
    if s == [] then k else EscapeChar(s[0]) + EscapeAll(s[1..], k)
  }

  function StringText(s: string, k: string): string { "\"" + EscapeAll(s, "\"" + k) }

  // ---- Values

  type Parsed<T> = Option<(T, string)>

  function ReadValue(s: string): (r: Parsed<Json>)
    ensures r.Some? ==> |r.value.1| < |s|
    decreases |s|, 1
  {
    if "null" <= s then Some((Null, s[4..]))
    else if "false" <= s then Some((False, s[5..]))
    else if "true" <= s then Some((True, s[4..]))
    else if Head(s) == '"' then
      match ReadString(s) case None => None case Some((t, rest)) => Some((String(t), rest))
    else if Head(s) == '-' || IsDigit(Head(s)) then
      var (n, rest) := ReadNumber(s);
      Some((Number(n), rest))
    else if Head(s) == '[' then ReadArray(s)
    else if Head(s) == '{' then ReadObject(s)
    else None
  }

  function ReadArray(s: string): (r: Parsed<Json>)
    requires Head(s) == '['
    ensures r.Some? ==> |r.value.1| < |s|
    decreases |s|, 0
  {
    var t := Skip(s[1..]);
    if Head(t) == ']' then Some((Array([]), t[1..])) else ReadItems(t, [])
  }

  /** One or more items and the closing bracket, after the items already in `done`. */
  function ReadItems(s: string, done: seq<Json>): (r: Parsed<Json>)
    ensures r.Some? ==> |r.value.1| < |s|
    decreases |s|, 2
  {
    match ReadValue(Skip(s))
    case None => None
    case Some((v, rest)) =>
      var t := Skip(rest);
      if Head(t) == ',' then ReadItems(t[1..], done + [v])
      else if Head(t) == ']' then Some((Array(done + [v]), t[1..]))
      else None
  }

  function ReadObject(s: string): (r: Parsed<Json>)
    requires Head(s) == '{'
    ensures r.Some? ==> |r.value.1| < |s|
    decreases |s|, 0
  {
    var t := Skip(s[1..]);
    if Head(t) == '}' then Some((Object([]), t[1..])) else ReadMembers(t, [])
  }

  /** A name, a colon and a value. */
  function ReadMember(s: string): (r: Parsed<Member>)
    ensures r.Some? ==> |r.value.1| < |s|
    decreases |s|, 2
  {
    match ReadString(Skip(s))
    case None => None
    case Some((name, rest)) =>
      var t := Skip(rest);
      if Head(t) != ':' then None
      else
        match ReadValue(Skip(t[1..]))
        case None => None
        case Some((v, rest2)) => Some((Member(name, v), rest2))
  }

  function ReadMembers(s: string, done: seq<Member>): (r: Parsed<Json>)
    ensures r.Some? ==> |r.value.1| < |s|
    decreases |s|, 3
  {
    match ReadMember(s)
    case None => None
    case Some((m, rest)) =>
      var t := Skip(rest);
      if Head(t) == ',' then ReadMembers(t[1..], done + [m])
      else if Head(t) == '}' then Some((Object(done + [m]), t[1..]))
      else None
  }

  /** cJSON_ParseWithOpts: leading blanks are skipped; trailing text is an error only on request. */
  function Parse(s: string, requireEnd: bool): Option<Json> {
    match ReadValue(Skip(s))
    case None => None
    case Some((v, rest)) => if requireEnd && Head(Skip(rest)) != NUL then None else Some(v)
  }

  // ---- Printing

  predicate NulFree(s: string) { NUL !in s }

  /** Trees whose strings and names hold no NUL. */
  predicate Printable(t: Json)
    decreases t
  {
    match t
    case String(s) => NulFree(s)
    case Array(items) => forall i :: 0 <= i < |items| ==> Printable(items[i])
    case Object(ms) => forall i :: 0 <= i < |ms| ==> NulFree(ms[i].name) && Printable(ms[i].value)
    case _ => true
  }

  function Tabs(n: nat): string { if n == 0 then [] else "\t" + Tabs(n - 1) }

  function When(b: bool, s: string, k: string): string { if b then s + k else k }

  /** The printed form of `t`, then `k`. Formatted printing breaks and indents objects and spaces arrays. */
  function Text(t: Json, depth: nat, fmt: bool, k: string): string
    requires Printable(t)
    decreases t, 1
  {
    match t
    case Null => "null" + k
    case False => "false" + k
    case True => "true" + k
    case Number(x) => NumberText(x) + k
    case String(s) => StringText(s, k)
    case Array(items) => "[" + if items == [] then "]" + k else ItemsText(items, depth + 1, fmt, "]" + k)
    case Object(ms) =>
      "{" + if ms == [] then When(fmt, "\n" + Tabs(if depth == 0 then 0 else depth - 1), "}" + k)
            else When(fmt, "\n", MembersText(ms, depth + 1, fmt, When(fmt, Tabs(depth), "}" + k)))
  }

  function ItemsText(items: seq<Json>, depth: nat, fmt: bool, k: string): string
    requires items != [] && forall i :: 0 <= i < |items| ==> Printable(items[i])
    decreases items, 0
  {
    Text(items[0], depth, fmt,
         if |items| == 1 then k else "," + When(fmt, " ", ItemsText(items[1..], depth, fmt, k)))
  }

  function MemberText(m: Member, depth: nat, fmt: bool, k: string): string
    requires NulFree(m.name) && Printable(m.value)
    decreases m, 2
  {
    When(fmt, Tabs(depth), StringText(m.name, ":" + When(fmt, "\t", Text(m.value, depth, fmt, k))))
  }

  function MembersText(ms: seq<Member>, depth: nat, fmt: bool, k: string): string
    requires ms != [] && forall i :: 0 <= i < |ms| ==> NulFree(ms[i].name) && Printable(ms[i].value)
    decreases ms, 0
  {
    MemberText(ms[0], depth, fmt,
               if |ms| == 1 then When(fmt, "\n", k)
               else "," + When(fmt, "\n", MembersText(ms[1..], depth, fmt, k)))
  }
}
