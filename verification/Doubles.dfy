/** Rounding to the 53 binary digits of a double, to the nearest and of two to the even one. Numbers of type double are
    the reals that rounding leaves alone; the range of their exponents is not modelled. */
module Doubles {

  /** 2^52 and 2^53: the integers between them are the ones with 53 binary digits. */
  const LOW: real := 4503599627370496.0
  const HIGH: real := 9007199254740992.0

  /** The nearest integer; of two, the even one. */
  function Nearest(x: real): (n: nat)
    requires x >= 0.0
    ensures -0.5 <= n as real - x <= 0.5
  {
    var f := x.Floor;
    var d := x - f as real;
    if d < 0.5 || (d == 0.5 && f % 2 == 0) then f else f + 1
  }

  /** How far `x` is from the numbers from `LOW` up to `HIGH`. */
  ghost function Scale(x: real): (d: nat)
    requires x > 0.0
  {
    if x >= HIGH then x.Floor else if x < LOW then ScaleInverse(x); (LOW / x).Floor else 0
  }

  lemma ScaleInverse(x: real)
    requires 0.0 < x < LOW
    ensures 0 <= (if x * 2.0 < LOW then (LOW / (x * 2.0)).Floor else 0) < (LOW / x).Floor
  {
    assert LOW / x > 1.0 by { assert x * (LOW / x) == LOW; }
    assert LOW / (x * 2.0) == LOW / x / 2.0;
  }

  lemma ScaleFalls(x: real)
    requires x > 0.0
    ensures x >= HIGH ==> Scale(x / 2.0) < Scale(x)
    ensures x < LOW ==> Scale(x * 2.0) < Scale(x)
  {
    if x < LOW { ScaleInverse(x); }
  }

  /** Scaled by twos to 53 binary digits, cut to an integer and scaled back. */
  function Round(x: real): (r: real)
    requires x >= 0.0
    ensures r >= 0.0
    decreases if x > 0.0 then Scale(x) else 0
  {
    if x == 0.0 then 0.0
    else
      ScaleFalls(x);
      if x >= HIGH then 2.0 * Round(x / 2.0) else if x < LOW then Round(x * 2.0) / 2.0 else Nearest(x) as real
  }

  /** The non-negative numbers of type double. */
  predicate IsDouble(x: real) { x >= 0.0 && Round(x) == x }

  lemma RoundTwice(x: real)
    requires x >= 0.0
    ensures Round(2.0 * x) == 2.0 * Round(x)
  {
    assert 2.0 * x == x * 2.0 && x * 2.0 / 2.0 == x;
  }

  lemma RoundStep(x: real)
    requires x > 0.0
    ensures x >= HIGH ==> Round(x) == 2.0 * Round(x / 2.0)
    ensures x < LOW ==> Round(x) == Round(x * 2.0) / 2.0
    ensures LOW <= x < HIGH ==> Round(x) == Nearest(x) as real
  {
  }

  lemma RoundMiddle(x: real)
    requires LOW <= x < HIGH
    ensures Round(x) == Nearest(x) as real
  {
  }

  /** Whole numbers of up to 53 binary digits are not changed. */
  lemma {:induction false} RoundWhole(n: nat)
    requires n as real <= HIGH
    ensures Round(n as real) == n as real
    decreases HIGH.Floor - n
  {
    if n == 0 {
    } else if n as real == HIGH {
      RoundTwice(LOW);
      RoundMiddle(LOW);
    } else if n as real >= LOW {
      RoundMiddle(n as real);
    } else {
      RoundWhole(2 * n);
      RoundTwice(n as real);
    }
  }

  /** Rounding twice is rounding once. */
  lemma {:induction false} RoundAgain(x: real)
    requires x >= 0.0
    ensures IsDouble(Round(x))
    decreases if x > 0.0 then Scale(x) else 0
  {
    if x > 0.0 {
      ScaleFalls(x);
      RoundStep(x);
      hide Scale, Round, Nearest;
      if x >= HIGH {
        RoundAgain(x / 2.0);
        RoundTwice(Round(x / 2.0));
      } else if x < LOW {
        RoundAgain(x * 2.0);
        RoundTwice(Round(x));
      } else {
        RoundWhole(Nearest(x));
      }
    }
  }

  /** The relative error is at most 2^-53. */
  lemma {:induction false} RoundError(x: real)
    requires x >= 0.0
    ensures -x / HIGH <= Round(x) - x <= x / HIGH
    decreases if x > 0.0 then Scale(x) else 0
  {
    if x > 0.0 {
      ScaleFalls(x);
      hide Scale;
      if x >= HIGH { RoundError(x / 2.0); } else if x < LOW { RoundError(x * 2.0); }
    }
  }

  lemma NonNegative(a: real, b: real)
    requires a >= 0.0 && b >= 0.0
    ensures a * b >= 0.0
  {
  }

  /** A product of doubles. */
  function Times(a: real, b: real): (r: real)
    requires a >= 0.0 && b >= 0.0
    ensures r >= 0.0
  {
    NonNegative(a, b);
    Round(a * b)
  }

  lemma TimesNear(a: real, b: real, w: real)
    requires a >= 0.0 && b >= 0.0 && w == a * b
    ensures w >= 0.0 && -w / HIGH <= Times(a, b) - w <= w / HIGH
  {
    hide Round;
    NonNegative(a, b);
    RoundError(w);
  }

  lemma FactorNear(n: real, p: real, q: real, v: real, w: real)
    requires n >= 0.0 && -p / HIGH <= q - p <= p / HIGH && v == n * p && w == n * q
    ensures -v / HIGH <= w - v <= v / HIGH
  {
    NonNegative(n, p / HIGH - (q - p));
    NonNegative(n, q - p + p / HIGH);
  }

  /** A product with a factor that was rounded: the error of two roundings. */
  lemma TimesError(n: real, p: real, v: real)
    requires n >= 0.0 && p >= 0.0 && v == n * p
    ensures v >= 0.0 && v - 4.0 * v / HIGH <= Times(n, Round(p)) <= v + 4.0 * v / HIGH
  {
    hide Round, Times;
    NonNegative(n, p);
    RoundError(p);
    FactorNear(n, p, Round(p), v, n * Round(p));
    TimesNear(n, Round(p), n * Round(p));
  }

  // ---- Reading decimal digits

  /** One more digit, as the source computes it: a product and a sum, each rounded. */
  function NextDigit(n: real, d: int): (r: real)
    requires n >= 0.0 && d >= 0
    ensures r >= 0.0
  {
    Round(Round(n * 10.0) + d as real)
  }

  /** The least whole number of type double that is not read back from its digits. */
  const LIMIT: nat := 18014398509481996

  lemma NextWhole(n: nat)
    requires n as real <= HIGH
    ensures NextDigit((n / 10) as real, n % 10) == n as real
  {
    hide Round;
    RoundWhole(n / 10 * 10);
    RoundWhole(n);
  }

  /** Below the limit the last digit of a whole double is read without an error that stays. */
  lemma NextSafe(n: nat)
    requires IsDouble(n as real) && n < LIMIT
    ensures NextDigit((n / 10) as real, n % 10) == n as real
  {
    hide Round;
    var p := n / 10;
    if p <= 1801439850948198 {
      RoundWhole(p * 5);
      RoundTwice((p * 5) as real);
      assert Round((10 * p) as real) == (10 * p) as real;
    } else {
      assert p == 1801439850948199;
      FourTimes(n);
      assert n == 18014398509481992;
      TieUp();
      FourthsTie();
    }
  }

  /** A double from 2^54 to 2^55 is a multiple of four. */
  lemma FourTimes(n: nat)
    requires 18014398509481984 <= n < 36028797018963968 && IsDouble(n as real)
    ensures n % 4 == 0
  {
    hide Round, Nearest;
    var x := n as real / 4.0;
    assert 2.0 * (2.0 * x) == n as real;
    RoundTwice(x);
    RoundTwice(2.0 * x);
    RoundMiddle(x);
    assert n as real == (4 * Nearest(x)) as real;
  }

  lemma TieUp()
    ensures Round(18014398509481990.0) == 18014398509481992.0
  {
    var x := 4503599627370497.5;
    RoundTwice(x);
    RoundTwice(2.0 * x);
    RoundMiddle(x);
  }

  lemma FourthsTie()
    ensures Round(18014398509481994.0) == 18014398509481992.0
  {
    var x := 4503599627370498.5;
    RoundTwice(x);
    RoundTwice(2.0 * x);
    RoundMiddle(x);
  }

  /** At the limit it is not: both roundings are ties, and both go up. */
  lemma NextUnsafe()
    ensures IsDouble(LIMIT as real) && NextDigit((LIMIT / 10) as real, LIMIT % 10) == 18014398509482000.0
  {
    TieUp();
    var x, y := 4503599627370499.5, 4503599627370499.0;
    RoundTwice(x);
    RoundTwice(2.0 * x);
    RoundMiddle(x);
    RoundTwice(y);
    RoundTwice(2.0 * y);
    RoundMiddle(y);
  }
}
