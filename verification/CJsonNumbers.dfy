/** The number formats of print_number: what each text shows, how exact it is, and what double it is read back as. */
module CJsonNumbers {
  import opened Common
  import opened CJsonSpec
  import opened Doubles

  /** Nothing here would extend a number that stops just before. */
  predicate EndsNumber(rest: string) {
    !IsDigit(Head(rest)) && Head(rest) !in {'.', 'e', 'E'}
  }

  /** The number that digits show, after those that showed `n`. */
  ghost function DigitsValue(ds: string, n: int): int
    requires forall c :: c in ds ==> IsDigit(c)
  {
    if ds == [] then n else DigitsValue(ds[1..], 10 * n + DigitValue(ds[0]))
  }

  /** The double that reading them gives. */
  ghost function DigitsRead(ds: string, n: real): (r: real)
    requires n >= 0.0 && forall c :: c in ds ==> IsDigit(c)
    ensures r >= 0.0
  {
    if ds == [] then n else DigitsRead(ds[1..], NextDigit(n, DigitValue(ds[0])))
  }

  lemma {:induction false} TakesAllDigits(ds: string, n: real, rest: string)
    requires n >= 0.0 && (forall c :: c in ds ==> IsDigit(c)) && !IsDigit(Head(rest))
    ensures TakeDigits(ds + rest, n) == (DigitsRead(ds, n), rest)
  {
    if ds == [] {
      assert ds + rest == rest;
    } else {
      assert (ds + rest)[1..] == ds[1..] + rest;
      TakesAllDigits(ds[1..], NextDigit(n, DigitValue(ds[0])), rest);
    }
  }

  lemma {:induction false} TakesExponent(ds: string, n: int, rest: string)
    requires (forall c :: c in ds ==> IsDigit(c)) && !IsDigit(Head(rest))
    ensures TakeExponent(ds + rest, n) == (DigitsValue(ds, n), rest)
  {
    if ds == [] {
      assert ds + rest == rest;
    } else {
      assert (ds + rest)[1..] == ds[1..] + rest;
      TakesExponent(ds[1..], 10 * n + DigitValue(ds[0]), rest);
    }
  }

  lemma {:induction false} AppendDigit(ds: string, d: char, n: int)
    requires (forall c :: c in ds ==> IsDigit(c)) && IsDigit(d)
    ensures forall c :: c in ds + [d] ==> IsDigit(c)
    ensures DigitsValue(ds + [d], n) == 10 * DigitsValue(ds, n) + DigitValue(d)
  {
    if ds == [] {
      assert ds + [d] == [d];
      assert DigitsValue([d], n) == DigitsValue([d][1..], 10 * n + DigitValue(d));
    } else {
      assert (ds + [d])[1..] == ds[1..] + [d];
      AppendDigit(ds[1..], d, 10 * n + DigitValue(ds[0]));
    }
  }

  lemma {:induction false} ReadOneMore(ds: string, d: char, n: real)
    requires n >= 0.0 && (forall c :: c in ds ==> IsDigit(c)) && IsDigit(d)
    ensures forall c :: c in ds + [d] ==> IsDigit(c)
    ensures DigitsRead(ds + [d], n) == NextDigit(DigitsRead(ds, n), DigitValue(d))
  {
    hide NextDigit;
    if ds == [] {
      assert ds + [d] == [d];
      assert DigitsRead([d], n) == DigitsRead([d][1..], NextDigit(n, DigitValue(d)));
    } else {
      assert (ds + [d])[1..] == ds[1..] + [d];
      ReadOneMore(ds[1..], d, NextDigit(n, DigitValue(ds[0])));
    }
  }

  lemma {:induction false} DecimalDigitsValue(n: nat)
    ensures DigitsValue(DecimalDigits(n), 0) == n
    ensures n > 0 ==> DecimalDigits(n)[0] != '0'
  {
    var d := ('0' as int + n % 10) as char;
    if n < 10 {
      AppendDigit([], d, 0);
      assert [] + [d] == [d];
    } else {
      DecimalDigitsValue(n / 10);
      AppendDigit(DecimalDigits(n / 10), d, 0);
    }
  }

  lemma {:induction false} DigitsGrow(ds: string, n: nat)
    requires forall c :: c in ds ==> IsDigit(c)
    ensures DigitsValue(ds, n) >= n
  {
    if ds != [] { DigitsGrow(ds[1..], 10 * n + DigitValue(ds[0])); }
  }

  /** As long as the number stays within 2^53, every number on the way is whole and none is rounded. */
  lemma {:induction false} ReadExactly(ds: string, n: nat)
    requires (forall c :: c in ds ==> IsDigit(c)) && DigitsValue(ds, n) as real <= HIGH
    ensures DigitsRead(ds, n as real) == DigitsValue(ds, n) as real
  {
    hide NextDigit;
    if ds != [] {
      var m := 10 * n + DigitValue(ds[0]);
      DigitsGrow(ds[1..], m);
      NextWhole(m);
      ReadExactly(ds[1..], m);
    }
  }

  /** What reading the digits of a whole number gives. */
  ghost function WholeRead(n: nat): real { DigitsRead(DecimalDigits(n), 0.0) }

  lemma WholeStep(n: nat)
    ensures n as real <= HIGH ==> WholeRead(n) == n as real
    ensures n >= 10 ==> WholeRead(n) == NextDigit(WholeRead(n / 10), n % 10)
  {
    hide NextDigit;
    DecimalDigitsValue(n);
    if n as real <= HIGH { ReadExactly(DecimalDigits(n), 0); }
    if n >= 10 { ReadOneMore(DecimalDigits(n / 10), ('0' as int + n % 10) as char, 0.0); }
  }

  lemma {:induction false} ReadIsDouble(ds: string, n: real)
    requires IsDouble(n) && forall c :: c in ds ==> IsDigit(c)
    ensures IsDouble(DigitsRead(ds, n))
  {
    hide Round;
    if ds != [] {
      RoundAgain(Round(n * 10.0) + DigitValue(ds[0]) as real);
      ReadIsDouble(ds[1..], NextDigit(n, DigitValue(ds[0])));
    }
  }

  /** Below the limit a whole double is read back from its digits. */
  lemma WholeSafe(n: nat)
    requires IsDouble(n as real) && n < LIMIT
    ensures WholeRead(n) == n as real
  {
    hide NextDigit, WholeRead;
    WholeStep(n);
    if n as real > HIGH {
      WholeStep(n / 10);
      NextSafe(n);
    }
  }

  /** The limit itself is not. */
  lemma WholeUnsafe()
    ensures IsDouble(LIMIT as real) && WholeRead(LIMIT) == 18014398509482000.0
  {
    hide NextDigit, WholeRead;
    WholeStep(LIMIT);
    WholeStep(LIMIT / 10);
    NextUnsafe();
  }

  lemma ReadsInteger(n: nat, rest: string)
    requires !IsDigit(Head(rest))
    ensures Integer(DecimalDigits(n) + rest) == (WholeRead(n), rest)
  {
    hide NextDigit;
    var ds := DecimalDigits(n);
    DecimalDigitsValue(n);
    if n == 0 {
      WholeStep(0);
      assert (ds + rest)[1..] == rest;
    } else {
      assert (ds + rest)[0] == ds[0];
      TakesAllDigits(ds, 0.0, rest);
    }
  }

  /** A factor of pow(10.0, 0) changes nothing. */
  lemma ScaledByOne(sign: real, n: real)
    requires IsDouble(n)
    ensures Scaled(sign, n, 0) == sign * n
  {
    hide Round;
    RoundWhole(1);
    assert PowTen(0) == 1.0;
    assert n * 1.0 == n;
  }

  lemma NumberWithoutTail(s: string, n: real, rest: string)
    requires EndsNumber(rest) && IsDigit(Head(s)) && Integer(s) == (n, rest) && IsDouble(n)
    ensures ReadNumber(s) == (n, rest)
    ensures ReadNumber("-" + s) == (-n, rest)
  {
    hide Scaled, Round, Integer;
    assert Fraction(rest, n) == (n, 0, rest) && Exponent(rest) == (0, rest);
    ScaledByOne(1.0, n);
    ScaledByOne(-1.0, n);
    assert ("-" + s)[1..] == s;
  }

  ghost function WholeValue(v: int): real { if v < 0 then -WholeRead(-v) else WholeRead(v) }

  lemma ReadsDecimal(v: int, rest: string)
    requires EndsNumber(rest)
    ensures var s := DecimalText(v) + rest;
            (Head(s) == '-' || IsDigit(Head(s))) && ReadNumber(s) == (WholeValue(v), rest)
  {
    hide ReadNumber, Integer, DecimalDigits, Round, NextDigit;
    var n := if v < 0 then -v else v;
    var s := DecimalDigits(n) + rest;
    assert s[0] in DecimalDigits(n);
    ReadsInteger(n, rest);
    assert IsDouble(0.0) by { RoundWhole(0); }
    ReadIsDouble(DecimalDigits(n), 0.0);
    NumberWithoutTail(s, WholeRead(n), rest);
    assert v < 0 ==> DecimalText(v) + rest == "-" + s;
  }

  function Dropped(n: nat, k: nat): nat { if k == 0 then n else Dropped(n / 10, k - 1) }

  lemma {:induction false} LastDigitsValue(n: nat, k: nat)
    ensures DigitsValue(LastDigits(n, k), Dropped(n, k)) == n
  {
    if k > 0 {
      LastDigitsValue(n / 10, k - 1);
      AppendDigit(LastDigits(n / 10, k - 1), ('0' as int + n % 10) as char, Dropped(n, k));
    }
  }

  lemma DropSix(n: nat)
    ensures Dropped(n, 6) == n / 1000000
  {
    var a := n / 10 / 10 / 10;
    assert Dropped(n, 6) == Dropped(n / 10, 5) == Dropped(n / 10 / 10, 4) == Dropped(a, 3);
    assert Dropped(a, 3) == Dropped(a / 10, 2) == Dropped(a / 10 / 10, 1) == Dropped(a / 10 / 10 / 10, 0);
  }

  /** The digits before and after the point are the digits of `n`. */
  lemma ReadsMillionths(n: nat, rest: string)
    requires n as real <= HIGH && !IsDigit(Head(rest))
    ensures (var (a, r) := Integer(Millionths(n) + rest); Fraction(r, a) == (n as real, -6, rest))
    ensures IsDigit(Head(Millionths(n) + rest))
  {
    hide Integer, TakeDigits, DecimalDigits, LastDigits, NextDigit, WholeRead;
    var ds, tail := DecimalDigits(n / 1000000), LastDigits(n, 6);
    assert Millionths(n) + rest == ds + ("." + (tail + rest));
    assert (ds + ("." + (tail + rest)))[0] in ds;
    ReadsInteger(n / 1000000, "." + (tail + rest));
    WholeStep(n / 1000000);
    LastDigitsValue(n, 6);
    DropSix(n);
    TakesAllDigits(tail, (n / 1000000) as real, rest);
    ReadExactly(tail, n / 1000000);
    assert ("." + (tail + rest))[1..] == tail + rest;
    assert (tail + rest)[0] == tail[0] && tail[0] in tail;
  }

  lemma ReadsExponent(e: int, rest: string)
    requires EndsNumber(rest)
    ensures Exponent(ExponentText(e) + rest) == (e, rest) && !IsDigit(Head(ExponentText(e) + rest))
  {
    hide TakeExponent, DecimalDigits;
    var n := if e < 0 then -e else e;
    var ds := (if n < 10 then "0" else "") + DecimalDigits(n);
    PaddedValue(n);
    TakesExponent(ds, 0, rest);
    var s := ExponentText(e) + rest;
    assert s[2..] == ds + rest && s[1..][0] == s[1];
  }

  lemma PaddedValue(n: nat)
    ensures (var ds := (if n < 10 then "0" else "") + DecimalDigits(n);
      (forall c :: c in ds ==> IsDigit(c)) && DigitsValue(ds, 0) == n)
  {
    hide DecimalDigits;
    DecimalDigitsValue(n);
    var ds := DecimalDigits(n);
    assert "" + ds == ds && ("0" + ds)[1..] == ds;
  }

  ghost function Sign(x: real): real { if x < 0.0 then -1.0 else 1.0 }

  /** `n` times a power of ten. */
  ghost function Decimal(n: nat, e: int): real { n as real * PowTen(e) }

  ghost function ScientificValue(x: real): real
    requires x > 0.0
  {
    var (m, e) := Mantissa(x);
    Decimal(m, -6 + e)
  }

  ghost function FixedValue(x: real): real
    requires x >= 0.0
  {
    Decimal(Nearest(x * 1000000.0), -6)
  }

  /** The value that the text of a number shows. */
  ghost function Shown(x: real): real {
    if IsInt32(x) then Truncated(x) as real
    else if IsWhole(x) then x.Floor as real
    else
      var v := if IsScientific(x) then ScientificValue(Magnitude(x)) else FixedValue(Magnitude(x));
      if x < 0.0 then -v else v
  }

  /** The double that the text is read as. */
  ghost function Reread(x: real): real {
    if IsInt32(x) then WholeValue(Truncated(x))
    else if IsWhole(x) then WholeValue(x.Floor)
    else if IsScientific(x) then
      var (m, e) := Mantissa(Magnitude(x));
      Scaled(Sign(x), m as real, -6 + e)
    else Scaled(Sign(x), Nearest(Magnitude(x) * 1000000.0) as real, -6)
  }

  lemma ReadsSigned(x: real, s: string, n: nat, e: int, rest: string)
    requires IsDigit(Head(s))
    requires (var (a, r) := Integer(s);
      var (m, scale, r') := Fraction(r, a);
      m == n as real && scale == -6 && Exponent(r') == (e, rest))
    ensures ReadNumber(Signed(x, s)) == (Scaled(Sign(x), n as real, -6 + e), rest)
    ensures Head(Signed(x, s)) == '-' || IsDigit(Head(Signed(x, s)))
  {
    hide Integer, Fraction, Exponent, Scaled;
    assert ("-" + s)[1..] == s;
  }

  /** Any printed number is read as `Reread` says. */
  lemma ReadsNumber(x: real, rest: string)
    requires EndsNumber(rest)
    ensures (var s := NumberText(x) + rest;
      (Head(s) == '-' || IsDigit(Head(s))) && ReadNumber(s) == (Reread(x), rest))
  {
    hide ReadNumber, Integer, Fraction, Exponent, Scaled, DecimalText, Millionths, ExponentText, Mantissa, Nearest;
    hide IsInt32, IsWhole, WholeValue;
    if IsInt32(x) {
      ReadsDecimal(Truncated(x), rest);
    } else if IsWhole(x) {
      ReadsDecimal(x.Floor, rest);
    } else if IsScientific(x) {
      var (m, e) := Mantissa(Magnitude(x));
      var tail := ExponentText(e) + rest;
      ReadsExponent(e, rest);
      ReadsMillionths(m, tail);
      Associate(Millionths(m), ExponentText(e), rest);
      SignedFirst(x, Millionths(m) + ExponentText(e), rest);
      ReadsSigned(x, Millionths(m) + tail, m, e, rest);
    } else {
      var n := Nearest(Magnitude(x) * 1000000.0);
      ReadsMillionths(n, rest);
      assert Exponent(rest) == (0, rest) by { NoExponent(rest); }
      SignedFirst(x, Millionths(n), rest);
      ReadsSigned(x, Millionths(n) + rest, n, 0, rest);
    }
  }

  lemma SignedFirst(x: real, s: string, rest: string)
    ensures Signed(x, s) + rest == Signed(x, s + rest)
  {
    Associate("-", s, rest);
  }

  lemma NoExponent(rest: string)
    requires EndsNumber(rest)
    ensures Exponent(rest) == (0, rest)
  {
  }

  /** A number whose text shows it exactly. */
  ghost predicate Exact(x: real) { Shown(x) == x }

  /** Whole numbers of up to sixty digits are exact. */
  lemma ExactWhole(x: real)
    requires x == x.Floor as real && Magnitude(x) < PowTen(60)
    ensures Exact(x)
  {
    hide PowTen;
    assert x < 0.0 ==> (-x).Floor == -x.Floor;
  }

  lemma MinusSix()
    ensures PowTen(-6) == 0.000001
  {
    assert PowTen(-3) == PowTen(-2) / 10.0 && PowTen(-1) == PowTen(0) / 10.0;
  }

  /** Numbers that "%f" prints. */
  predicate IsFixed(x: real) { !IsInt32(x) && !IsWhole(x) && !IsScientific(x) }

  /** They are shown to within half a millionth, and exactly when they are whole millionths. */
  lemma FixedClose(x: real)
    requires IsFixed(x)
    ensures -0.0000005 <= Shown(x) - x <= 0.0000005
    ensures Exact(x) <==> x * 1000000.0 == (x * 1000000.0).Floor as real
  {
    hide PowTen, IsInt32, IsWhole, IsScientific;
    MinusSix();
    var n := Nearest(Magnitude(x) * 1000000.0);
    assert Shown(x) == if x < 0.0 then -(n as real * 0.000001) else n as real * 0.000001;
    hide Shown, Nearest;
    if x < 0.0 {
      assert Shown(x) - x == (-x * 1000000.0 - n as real) * 0.000001;
      WholeNegated(x * 1000000.0);
    } else {
      assert Shown(x) - x == (n as real - x * 1000000.0) * 0.000001;
    }
    NearestWhole(Magnitude(x) * 1000000.0);
  }

  lemma NearestWhole(y: real)
    requires y >= 0.0
    ensures y == y.Floor as real <==> Nearest(y) as real == y
  {
  }

  lemma WholeNegated(y: real)
    ensures y == y.Floor as real <==> -y == (-y).Floor as real
  {
    assert y == y.Floor as real ==> (-y).Floor == -y.Floor;
    assert -y == (-y).Floor as real ==> y.Floor == -(-y).Floor;
  }

  lemma NextPower(e: int)
    ensures PowTen(e + 1) == 10.0 * PowTen(e) && PowTen(e) > 0.0
    decreases if e < 0 then -e else e
  {
    if e < -1 { NextPower(e + 1); } else if e > 0 { NextPower(e - 1); }
  }

  lemma NormalSteps(x: real)
    requires x > 0.0
    ensures x >= 10.0 ==> Normal(x) == (Normal(x / 10.0).0, Normal(x / 10.0).1 + 1)
    ensures x < 1.0 ==> Normal(x) == (Normal(x * 10.0).0, Normal(x * 10.0).1 - 1)
    ensures 1.0 <= x < 10.0 ==> Normal(x) == (x, 0)
  {
  }

  ghost predicate Scales(x: real, a: real, e: int) { x == a * PowTen(e) }

  lemma ScalesOn(x: real, a: real, e: int)
    ensures Scales(x / 10.0, a, e) ==> Scales(x, a, e + 1)
    ensures Scales(x * 10.0, a, e) ==> Scales(x, a, e - 1)
    ensures Scales(a, a, 0)
  {
    NextPower(e);
    NextPower(e - 1);
  }

  lemma {:induction false} NormalScales(x: real)
    requires x > 0.0
    ensures Scales(x, Normal(x).0, Normal(x).1)
    decreases Distance(x)
  {
    DistanceFalls(x);
    NormalSteps(x);
    hide Normal, Scales, Distance;
    if x >= 10.0 {
      NormalScales(x / 10.0);
      ScalesOn(x, Normal(x).0, Normal(x / 10.0).1);
    } else if x < 1.0 {
      NormalScales(x * 10.0);
      ScalesOn(x, Normal(x).0, Normal(x * 10.0).1);
    } else {
      ScalesOn(x, x, 0);
    }
  }

  ghost predicate Within(a: real, b: real, d: real) { b - d <= a <= b + d }

  /** Half a unit of the seventh digit of `x`. */
  ghost function HalfUnit(x: real): real
    requires x > 0.0
  {
    0.5 * PowTen(Normal(x).1 - 6)
  }

  lemma ScientificNear(x: real)
    requires x > 0.0
    ensures Within(ScientificValue(x), x, HalfUnit(x))
  {
    hide PowTen, Normal, Nearest;
    var (y, e) := Normal(x);
    NormalScales(x);
    var p := PowTen(e - 6);
    var n := Nearest(y * 1000000.0);
    SixPowers(e - 6);
    NextPower(e - 6);
    var (m, e') := Mantissa(x);
    assert m as real * PowTen(-6 + e') == n as real * p by { if n == 10000000 { assert PowTen(-6 + e') == 10.0 * p; } }
    MillionTimes(y, p);
    assert PowTen(e) == 1000000.0 * p && x == y * 1000000.0 * p;
    assert HalfUnit(x) == 0.5 * p && ScientificValue(x) == n as real * p;
    NearProduct(ScientificValue(x), x, HalfUnit(x), n as real, y * 1000000.0, p);
  }

  /** Numbers that "%e" prints are shown to within half a unit of their seventh digit. */
  lemma ScientificClose(x: real)
    requires !IsInt32(x) && !IsWhole(x) && IsScientific(x)
    ensures Within(Shown(x), x, HalfUnit(Magnitude(x)))
  {
    hide IsInt32, IsWhole, ScientificValue, HalfUnit;
    ScientificNear(Magnitude(x));
  }

  lemma SixPowers(e: int)
    ensures PowTen(e + 6) == 1000000.0 * PowTen(e)
  {
    hide PowTen;
    NextPower(e);
    NextPower(e + 1);
    NextPower(e + 2);
    NextPower(e + 3);
    NextPower(e + 4);
    NextPower(e + 5);
  }

  lemma NearProduct(v: real, x: real, half: real, n: real, y: real, p: real)
    requires -0.5 <= n - y <= 0.5 && p > 0.0 && v == n * p && x == y * p && half == 0.5 * p
    ensures Within(v, x, half)
  {
    NonNegative(0.5 - (n - y), p);
    NonNegative(0.5 + (n - y), p);
  }

  lemma MillionTimes(y: real, p: real)
    ensures y * 1000000.0 * p == y * (1000000.0 * p)
  {
  }

  // ---- Any number of the grammar

  /** A number as section 6 of RFC 8259 spells it: digits, an optional fraction (`fs` is empty when there is none), and
      an optional exponent after `mark`, an e of either case, with an optional sign (`mark` is empty where there is
      none). */
  datatype Spelling = Spelling(minus: bool, ds: string, fs: string, mark: string, sign: string, es: string)

  predicate AllDigits(w: string) { forall c :: c in w ==> IsDigit(c) }

  ghost predicate Spelled(n: Spelling) {
    && AllDigits(n.ds) && AllDigits(n.fs) && AllDigits(n.es) && n.ds != "" && (n.ds == "0" || n.ds[0] != '0')
    && n.mark in {"", "e", "E"} && n.sign in {"", "+", "-"} && (n.mark == "" ==> n.sign == "" && n.es == "")
    && (n.mark != "" ==> n.es != "")
  }

  ghost function FractionPart(n: Spelling): string { if n.fs == "" then "" else "." + n.fs }

  ghost function Spell(n: Spelling, rest: string): string {
    (if n.minus then "-" else "") + (n.ds + (FractionPart(n) + (n.mark + (n.sign + (n.es + rest)))))
  }

  /** Its digits are accumulated, and scaled by the exponent less the number of fraction digits. */
  ghost function SpelledValue(n: Spelling): real
    requires Spelled(n)
  {
    JoinDigits(n.ds, n.fs);
    Scaled(if n.minus then -1.0 else 1.0, DigitsRead(n.ds + n.fs, 0.0),
           (if n.sign == "-" then -DigitsValue(n.es, 0) else DigitsValue(n.es, 0)) - |n.fs|)
  }

  lemma JoinDigits(a: string, b: string)
    requires AllDigits(a) && AllDigits(b)
    ensures AllDigits(a + b)
  {
  }

  lemma {:induction false} ReadTogether(a: string, b: string, n: real)
    requires AllDigits(a) && AllDigits(b) && n >= 0.0
    ensures AllDigits(a + b) && DigitsRead(a + b, n) == DigitsRead(b, DigitsRead(a, n))
  {
    hide NextDigit;
    if a == [] {
      assert a + b == b;
    } else {
      assert (a + b)[1..] == a[1..] + b;
      ReadTogether(a[1..], b, NextDigit(n, DigitValue(a[0])));
    }
  }

  lemma SpelledInteger(n: Spelling, rest: string)
    requires Spelled(n) && !IsDigit(Head(rest))
    ensures Integer(n.ds + rest) == (DigitsRead(n.ds, 0.0), rest)
  {
    hide NextDigit;
    assert (n.ds + rest)[0] == n.ds[0] && n.ds[0] in n.ds;
    if n.ds == "0" {
      assert ("0" + rest)[1..] == rest && DigitsRead("0", 0.0) == DigitsRead("0"[1..], NextDigit(0.0, 0));
      NextWhole(0);
    } else {
      TakesAllDigits(n.ds, 0.0, rest);
    }
  }

  lemma SpelledFraction(n: Spelling, x: real, rest: string)
    requires Spelled(n) && x >= 0.0 && !IsDigit(Head(rest)) && Head(rest) != '.'
    ensures Fraction(FractionPart(n) + rest, x) == (DigitsRead(n.fs, x), -|n.fs|, rest)
    ensures !IsDigit(Head(FractionPart(n) + rest))
  {
    hide NextDigit, TakeDigits;
    if n.fs == "" {
      assert "" + rest == rest;
    } else {
      var s := "." + n.fs + rest;
      assert s[1..] == n.fs + rest && (n.fs + rest)[0] == n.fs[0] && n.fs[0] in n.fs;
      TakesAllDigits(n.fs, x, rest);
    }
  }

  lemma SpelledExponent(n: Spelling, rest: string)
    requires Spelled(n) && EndsNumber(rest)
    ensures (Exponent(n.mark + (n.sign + (n.es + rest))) ==
      (if n.sign == "-" then -DigitsValue(n.es, 0) else DigitsValue(n.es, 0), rest))
    ensures !IsDigit(Head(n.mark + (n.sign + (n.es + rest)))) && Head(n.mark + (n.sign + (n.es + rest))) != '.'
  {
    hide TakeExponent;
    var s := n.mark + (n.sign + (n.es + rest));
    if n.mark == "" {
      assert s == rest;
    } else {
      TakesExponent(n.es, 0, rest);
      assert s[1..] == n.sign + (n.es + rest) && (n.es + rest)[0] == n.es[0] && n.es[0] in n.es;
      if n.sign == "" { assert s[1..] == n.es + rest; } else { assert s[2..] == n.es + rest && s[1..][0] == n.sign[0]; }
    }
  }

  /** Every number of the grammar is read as this value, up to the next byte that ends a number. */
  lemma ReadsSpelled(n: Spelling, rest: string)
    requires Spelled(n) && EndsNumber(rest)
    ensures Head(Spell(n, rest)) == '-' || IsDigit(Head(Spell(n, rest)))
    ensures ReadNumber(Spell(n, rest)) == (SpelledValue(n), rest)
  {
    hide Integer, Fraction, Exponent, Scaled, DigitsRead, DigitsValue;
    var tail := n.mark + (n.sign + (n.es + rest));
    var body := n.ds + (FractionPart(n) + tail);
    SpelledExponent(n, rest);
    SpelledInteger(n, FractionPart(n) + tail);
    var x := DigitsRead(n.ds, 0.0);
    SpelledFraction(n, x, tail);
    ReadTogether(n.ds, n.fs, 0.0);
    assert body[0] == n.ds[0] && n.ds[0] in n.ds;
    assert ("-" + body)[1..] == body && "" + body == body;
  }

  // ---- What is read back

  lemma {:induction false} PowTenAbove(e: nat)
    requires e >= 18
    ensures PowTen(e) >= 1000000000000000000.0
  {
    if e > 18 {
      PowTenAbove(e - 1);
    } else {
      hide PowTen;
      PowZero();
      SixPowers(0);
      SixPowers(6);
      SixPowers(12);
    }
  }

  lemma PowZero()
    ensures PowTen(0) == 1.0
  {
  }

  /** Whole numbers of type double. */
  predicate IsWholeDouble(x: real) { x == x.Floor as real && IsDouble(Magnitude(x)) }

  lemma WholeFormat(x: real)
    requires x == x.Floor as real && Magnitude(x) < 1000000000000000000.0
    ensures Reread(x) == WholeValue(x.Floor)
  {
    hide PowTen, WholeValue, Scaled, Mantissa;
    PowTenAbove(60);
    assert x < 0.0 ==> (-x).Floor == -x.Floor;
  }

  /** Below the limit, whole doubles survive printing and reading. */
  lemma SafeNumber(x: real)
    requires IsWholeDouble(x) && Magnitude(x) < LIMIT as real
    ensures Reread(x) == x
  {
    hide Reread, WholeRead, Round;
    WholeFormat(x);
    WholeSafe(if x < 0.0 then -x.Floor else x.Floor);
  }

  lemma UnsafeNumber()
    ensures IsWholeDouble(LIMIT as real) && Reread(LIMIT as real) == 18014398509482000.0
  {
    hide Reread, WholeRead, Round;
    WholeFormat(LIMIT as real);
    WholeUnsafe();
  }

  /** 2^58, as another instance, comes back as 32 less. */
  lemma TwoTo58()
    ensures IsWholeDouble(288230376151711744.0) && Reread(288230376151711744.0) == 288230376151711712.0
  {
    hide Reread, WholeRead;
    WholeFormat(288230376151711744.0);
    WholeStep(288230376151711744);
    WholeStep(28823037615171174);
    WholeStep(2882303761517117);
    hide Round;
    ShiftedUp(7205759403792792.5, 7205759403792792.0);
    ShiftedUp(7205759403792793.0, 7205759403792793.0);
    ShiftedUp(9007199254740991.25, 9007199254740991.0);
    ShiftedUp(9007199254740991.125, 9007199254740991.0);
    ShiftedUp(4503599627370496.0, 4503599627370496.0);
  }

  /** Rounding is the same for all powers of two: four times and 32 times and 64 times a number of 53 digits. */
  lemma ShiftedUp(x: real, y: real)
    requires LOW <= x < HIGH && y == Nearest(x) as real
    ensures Round(4.0 * x) == 4.0 * y && Round(32.0 * x) == 32.0 * y && Round(64.0 * x) == 64.0 * y
  {
    hide Round;
    RoundMiddle(x);
    RoundTwice(x);
    RoundTwice(2.0 * x);
    RoundTwice(4.0 * x);
    RoundTwice(8.0 * x);
    RoundTwice(16.0 * x);
    RoundTwice(32.0 * x);
  }

  /** Other numbers are read to within two DBL_EPSILON of what their text shows, relatively. */
  lemma ReadingClose(x: real)
    requires !IsInt32(x) && !IsWhole(x)
    ensures Within(Reread(x), Shown(x), 2.0 * EPSILON * Magnitude(Shown(x)))
  {
    hide IsInt32, IsWhole, Mantissa, Nearest, Scaled, Decimal;
    if IsScientific(x) {
      var (m, e) := Mantissa(Magnitude(x));
      ScaledClose(Sign(x), m, -6 + e);
    } else {
      ScaledClose(Sign(x), Nearest(Magnitude(x) * 1000000.0), -6);
    }
  }

  lemma ScaledClose(sign: real, n: nat, e: int)
    requires sign == 1.0 || sign == -1.0
    ensures (var v := Decimal(n, e);
      v >= 0.0 && Within(Scaled(sign, n as real, e), if sign < 0.0 then -v else v, 2.0 * EPSILON * v))
  {
    hide PowTen, Round, Times;
    TimesError(n as real, PowTen(e), Decimal(n, e));
  }
}
