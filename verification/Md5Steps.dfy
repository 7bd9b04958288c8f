/** The compression function in the form of the tables: 64 steps that differ only in the function, the word, the shift
    and the constant they use, as section 3.4 of RFC 1321 lists them. */
module Md5Steps {
  import opened Md5Spec

  function FirstSine(i: nat): bv32 {
    match i
    case 0 => 0xd76aa478 case 1 => 0xe8c7b756 case 2 => 0x242070db case 3 => 0xc1bdceee
    case 4 => 0xf57c0faf case 5 => 0x4787c62a case 6 => 0xa8304613 case 7 => 0xfd469501
    case 8 => 0x698098d8 case 9 => 0x8b44f7af case 10 => 0xffff5bb1 case 11 => 0x895cd7be
    case 12 => 0x6b901122 case 13 => 0xfd987193 case 14 => 0xa679438e case _ => 0x49b40821
  }

  function SecondSine(i: nat): bv32 {
    match i
    case 0 => 0xf61e2562 case 1 => 0xc040b340 case 2 => 0x265e5a51 case 3 => 0xe9b6c7aa
    case 4 => 0xd62f105d case 5 => 0x02441453 case 6 => 0xd8a1e681 case 7 => 0xe7d3fbc8
    case 8 => 0x21e1cde6 case 9 => 0xc33707d6 case 10 => 0xf4d50d87 case 11 => 0x455a14ed
    case 12 => 0xa9e3e905 case 13 => 0xfcefa3f8 case 14 => 0x676f02d9 case _ => 0x8d2a4c8a
  }

  function ThirdSine(i: nat): bv32 {
    match i
    case 0 => 0xfffa3942 case 1 => 0x8771f681 case 2 => 0x6d9d6122 case 3 => 0xfde5380c
    case 4 => 0xa4beea44 case 5 => 0x4bdecfa9 case 6 => 0xf6bb4b60 case 7 => 0xbebfbc70
    case 8 => 0x289b7ec6 case 9 => 0xeaa127fa case 10 => 0xd4ef3085 case 11 => 0x04881d05
    case 12 => 0xd9d4d039 case 13 => 0xe6db99e5 case 14 => 0x1fa27cf8 case _ => 0xc4ac5665
  }

  function FourthSine(i: nat): bv32 {
    match i
    case 0 => 0xf4292244 case 1 => 0x432aff97 case 2 => 0xab9423a7 case 3 => 0xfc93a039
    case 4 => 0x655b59c3 case 5 => 0x8f0ccc92 case 6 => 0xffeff47d case 7 => 0x85845dd1
    case 8 => 0x6fa87e4f case 9 => 0xfe2ce6e0 case 10 => 0xa3014314 case 11 => 0x4e0811a1
    case 12 => 0xf7537e82 case 13 => 0xbd3af235 case 14 => 0x2ad7d2bb case _ => 0xeb86d391
  }

  /** The integer part of 2^32 times the sine of 1 to 64, in radians. */
  function Sine(i: nat): bv32 {
    if i < 16 then FirstSine(i) else if i < 32 then SecondSine(i - 16) else if i < 48 then ThirdSine(i - 32)
    else FourthSine(i - 48)
  }

  /** The word of the block that step `i` uses. */
  function WordIndex(i: nat): (k: nat)
    ensures k < 16
  {
    if i < 16 then i else if i < 32 then (5 * i + 1) % 16 else if i < 48 then (3 * i + 5) % 16 else 7 * i % 16
  }

  function Shift(i: nat): (n: nat)
    ensures 0 < n < 32
  {
    var k := i % 4;
    if i < 16 then (if k == 0 then 7 else if k == 1 then 12 else if k == 2 then 17 else 22)
    else if i < 32 then (if k == 0 then 5 else if k == 1 then 9 else if k == 2 then 14 else 20)
    else if i < 48 then (if k == 0 then 4 else if k == 1 then 11 else if k == 2 then 16 else 23)
    else (if k == 0 then 6 else if k == 1 then 10 else if k == 2 then 15 else 21)
  }

  function WordAt(x: seq<bv32>, i: nat): bv32
    requires |x| == 16
  {
    x[WordIndex(i)]
  }

  /** One step: the registers move on by one, and the one that drops out comes back changed. */
  function Step(r: Registers, x: seq<bv32>, i: nat): Registers
    requires |x| == 16
  {
    var w, n, t := WordAt(x, i), Shift(i), Sine(i);
    var turned :=
      if i < 16 then FF(r.a, r.b, r.c, r.d, w, n, t) else if i < 32 then GG(r.a, r.b, r.c, r.d, w, n, t)
      else if i < 48 then HH(r.a, r.b, r.c, r.d, w, n, t) else II(r.a, r.b, r.c, r.d, w, n, t);
    Registers(r.d, turned, r.b, r.c)
  }

  /** The steps before `n`. */
  function Steps(r: Registers, x: seq<bv32>, n: nat): Registers
    requires |x| == 16 && n <= 64
  {
    if n == 0 then r else Step(Steps(r, x, n - 1), x, n - 1)
  }

  lemma StepsOn(r: Registers, x: seq<bv32>, n: nat)
    requires |x| == 16 && n + 4 <= 64
    ensures Steps(r, x, n + 4) ==
            Step(Step(Step(Step(Steps(r, x, n), x, n), x, n + 1), x, n + 2), x, n + 3)
  {
    hide Step;
    assert Steps(r, x, n + 1) == Step(Steps(r, x, n), x, n);
    assert Steps(r, x, n + 2) == Step(Steps(r, x, n + 1), x, n + 1);
    assert Steps(r, x, n + 3) == Step(Steps(r, x, n + 2), x, n + 2);
  }

  lemma FirstTable()
    ensures WordIndex(0) == 0 && Shift(0) == 7 && Sine(0) == 0xd76aa478
    ensures WordIndex(1) == 1 && Shift(1) == 12 && Sine(1) == 0xe8c7b756
    ensures WordIndex(2) == 2 && Shift(2) == 17 && Sine(2) == 0x242070db
    ensures WordIndex(3) == 3 && Shift(3) == 22 && Sine(3) == 0xc1bdceee
    ensures WordIndex(4) == 4 && Shift(4) == 7 && Sine(4) == 0xf57c0faf
    ensures WordIndex(5) == 5 && Shift(5) == 12 && Sine(5) == 0x4787c62a
    ensures WordIndex(6) == 6 && Shift(6) == 17 && Sine(6) == 0xa8304613
    ensures WordIndex(7) == 7 && Shift(7) == 22 && Sine(7) == 0xfd469501
    ensures WordIndex(8) == 8 && Shift(8) == 7 && Sine(8) == 0x698098d8
    ensures WordIndex(9) == 9 && Shift(9) == 12 && Sine(9) == 0x8b44f7af
    ensures WordIndex(10) == 10 && Shift(10) == 17 && Sine(10) == 0xffff5bb1
    ensures WordIndex(11) == 11 && Shift(11) == 22 && Sine(11) == 0x895cd7be
    ensures WordIndex(12) == 12 && Shift(12) == 7 && Sine(12) == 0x6b901122
    ensures WordIndex(13) == 13 && Shift(13) == 12 && Sine(13) == 0xfd987193
    ensures WordIndex(14) == 14 && Shift(14) == 17 && Sine(14) == 0xa679438e
    ensures WordIndex(15) == 15 && Shift(15) == 22 && Sine(15) == 0x49b40821
  {
    hide SecondSine, ThirdSine, FourthSine;
  }

  lemma FirstStep(r: Registers, x: seq<bv32>, i: nat)
    requires |x| == 16 && i < 16
    ensures Step(r, x, i) ==
            Registers(r.d, FF(r.a, r.b, r.c, r.d, WordAt(x, i), Shift(i), Sine(i)), r.b, r.c)
  {
    hide FF, GG, HH, II, WordAt, Shift, Sine;
  }

  lemma FirstFour(r: Registers, x: seq<bv32>, n: nat)
    requires |x| == 16 && n < 16 && n % 4 == 0
    ensures (var a := FF(r.a, r.b, r.c, r.d, WordAt(x, n), Shift(n), Sine(n));
      var d := FF(r.d, a, r.b, r.c, WordAt(x, n + 1), Shift(n + 1), Sine(n + 1));
      var c := FF(r.c, d, a, r.b, WordAt(x, n + 2), Shift(n + 2), Sine(n + 2));
      var b := FF(r.b, c, d, a, WordAt(x, n + 3), Shift(n + 3), Sine(n + 3));
      Step(Step(Step(Step(r, x, n), x, n + 1), x, n + 2), x, n + 3) == Registers(a, b, c, d))
  {
    hide Step, FF, WordAt, Shift, Sine;
    FirstStep(r, x, n);
    var r1 := Step(r, x, n);
    FirstStep(r1, x, n + 1);
    var r2 := Step(r1, x, n + 1);
    FirstStep(r2, x, n + 2);
    FirstStep(Step(r2, x, n + 2), x, n + 3);
  }

  lemma FirstRound(r: Registers, x: seq<bv32>)
    requires |x| == 16
    ensures Steps(r, x, 16) == Round1(Steps(r, x, 0), x)
  {
    hide Step, Steps, FF, WordIndex, Shift, Sine;
    FirstTable();
    var q := Steps(r, x, 0);
    StepsOn(r, x, 0);
    StepsOn(r, x, 4);
    StepsOn(r, x, 8);
    StepsOn(r, x, 12);
    FirstFour(q, x, 0);
    FirstFour(Steps(r, x, 4), x, 4);
    FirstFour(Steps(r, x, 8), x, 8);
    FirstFour(Steps(r, x, 12), x, 12);
  }

  lemma SecondTable()
    ensures WordIndex(16) == 1 && Shift(16) == 5 && Sine(16) == 0xf61e2562
    ensures WordIndex(17) == 6 && Shift(17) == 9 && Sine(17) == 0xc040b340
    ensures WordIndex(18) == 11 && Shift(18) == 14 && Sine(18) == 0x265e5a51
    ensures WordIndex(19) == 0 && Shift(19) == 20 && Sine(19) == 0xe9b6c7aa
    ensures WordIndex(20) == 5 && Shift(20) == 5 && Sine(20) == 0xd62f105d
    ensures WordIndex(21) == 10 && Shift(21) == 9 && Sine(21) == 0x02441453
    ensures WordIndex(22) == 15 && Shift(22) == 14 && Sine(22) == 0xd8a1e681
    ensures WordIndex(23) == 4 && Shift(23) == 20 && Sine(23) == 0xe7d3fbc8
    ensures WordIndex(24) == 9 && Shift(24) == 5 && Sine(24) == 0x21e1cde6
    ensures WordIndex(25) == 14 && Shift(25) == 9 && Sine(25) == 0xc33707d6
    ensures WordIndex(26) == 3 && Shift(26) == 14 && Sine(26) == 0xf4d50d87
    ensures WordIndex(27) == 8 && Shift(27) == 20 && Sine(27) == 0x455a14ed
    ensures WordIndex(28) == 13 && Shift(28) == 5 && Sine(28) == 0xa9e3e905
    ensures WordIndex(29) == 2 && Shift(29) == 9 && Sine(29) == 0xfcefa3f8
    ensures WordIndex(30) == 7 && Shift(30) == 14 && Sine(30) == 0x676f02d9
    ensures WordIndex(31) == 12 && Shift(31) == 20 && Sine(31) == 0x8d2a4c8a
  {
    hide FirstSine, ThirdSine, FourthSine;
  }

  lemma SecondStep(r: Registers, x: seq<bv32>, i: nat)
    requires |x| == 16 && 16 <= i < 32
    ensures Step(r, x, i) ==
            Registers(r.d, GG(r.a, r.b, r.c, r.d, WordAt(x, i), Shift(i), Sine(i)), r.b, r.c)
  {
    hide FF, GG, HH, II, WordAt, Shift, Sine;
  }

  lemma SecondFour(r: Registers, x: seq<bv32>, n: nat)
    requires |x| == 16 && 16 <= n < 32 && n % 4 == 0
    ensures (var a := GG(r.a, r.b, r.c, r.d, WordAt(x, n), Shift(n), Sine(n));
      var d := GG(r.d, a, r.b, r.c, WordAt(x, n + 1), Shift(n + 1), Sine(n + 1));
      var c := GG(r.c, d, a, r.b, WordAt(x, n + 2), Shift(n + 2), Sine(n + 2));
      var b := GG(r.b, c, d, a, WordAt(x, n + 3), Shift(n + 3), Sine(n + 3));
      Step(Step(Step(Step(r, x, n), x, n + 1), x, n + 2), x, n + 3) == Registers(a, b, c, d))
  {
    hide Step, GG, WordAt, Shift, Sine;
    SecondStep(r, x, n);
    var r1 := Step(r, x, n);
    SecondStep(r1, x, n + 1);
    var r2 := Step(r1, x, n + 1);
    SecondStep(r2, x, n + 2);
    SecondStep(Step(r2, x, n + 2), x, n + 3);
  }

  lemma SecondRound(r: Registers, x: seq<bv32>)
    requires |x| == 16
    ensures Steps(r, x, 32) == Round2(Steps(r, x, 16), x)
  {
    hide Step, Steps, GG, WordIndex, Shift, Sine;
    SecondTable();
    var q := Steps(r, x, 16);
    StepsOn(r, x, 16);
    StepsOn(r, x, 20);
    StepsOn(r, x, 24);
    StepsOn(r, x, 28);
    SecondFour(q, x, 16);
    SecondFour(Steps(r, x, 20), x, 20);
    SecondFour(Steps(r, x, 24), x, 24);
    SecondFour(Steps(r, x, 28), x, 28);
  }

  lemma ThirdTable()
    ensures WordIndex(32) == 5 && Shift(32) == 4 && Sine(32) == 0xfffa3942
    ensures WordIndex(33) == 8 && Shift(33) == 11 && Sine(33) == 0x8771f681
    ensures WordIndex(34) == 11 && Shift(34) == 16 && Sine(34) == 0x6d9d6122
    ensures WordIndex(35) == 14 && Shift(35) == 23 && Sine(35) == 0xfde5380c
    ensures WordIndex(36) == 1 && Shift(36) == 4 && Sine(36) == 0xa4beea44
    ensures WordIndex(37) == 4 && Shift(37) == 11 && Sine(37) == 0x4bdecfa9
    ensures WordIndex(38) == 7 && Shift(38) == 16 && Sine(38) == 0xf6bb4b60
    ensures WordIndex(39) == 10 && Shift(39) == 23 && Sine(39) == 0xbebfbc70
    ensures WordIndex(40) == 13 && Shift(40) == 4 && Sine(40) == 0x289b7ec6
    ensures WordIndex(41) == 0 && Shift(41) == 11 && Sine(41) == 0xeaa127fa
    ensures WordIndex(42) == 3 && Shift(42) == 16 && Sine(42) == 0xd4ef3085
    ensures WordIndex(43) == 6 && Shift(43) == 23 && Sine(43) == 0x04881d05
    ensures WordIndex(44) == 9 && Shift(44) == 4 && Sine(44) == 0xd9d4d039
    ensures WordIndex(45) == 12 && Shift(45) == 11 && Sine(45) == 0xe6db99e5
    ensures WordIndex(46) == 15 && Shift(46) == 16 && Sine(46) == 0x1fa27cf8
    ensures WordIndex(47) == 2 && Shift(47) == 23 && Sine(47) == 0xc4ac5665
  {
    hide FirstSine, SecondSine, FourthSine;
  }

  lemma ThirdStep(r: Registers, x: seq<bv32>, i: nat)
    requires |x| == 16 && 32 <= i < 48
    ensures Step(r, x, i) ==
            Registers(r.d, HH(r.a, r.b, r.c, r.d, WordAt(x, i), Shift(i), Sine(i)), r.b, r.c)
  {
    hide FF, GG, HH, II, WordAt, Shift, Sine;
  }

  lemma ThirdFour(r: Registers, x: seq<bv32>, n: nat)
    requires |x| == 16 && 32 <= n < 48 && n % 4 == 0
    ensures (var a := HH(r.a, r.b, r.c, r.d, WordAt(x, n), Shift(n), Sine(n));
      var d := HH(r.d, a, r.b, r.c, WordAt(x, n + 1), Shift(n + 1), Sine(n + 1));
      var c := HH(r.c, d, a, r.b, WordAt(x, n + 2), Shift(n + 2), Sine(n + 2));
      var b := HH(r.b, c, d, a, WordAt(x, n + 3), Shift(n + 3), Sine(n + 3));
      Step(Step(Step(Step(r, x, n), x, n + 1), x, n + 2), x, n + 3) == Registers(a, b, c, d))
  {
    hide Step, HH, WordAt, Shift, Sine;
    ThirdStep(r, x, n);
    var r1 := Step(r, x, n);
    ThirdStep(r1, x, n + 1);
    var r2 := Step(r1, x, n + 1);
    ThirdStep(r2, x, n + 2);
    ThirdStep(Step(r2, x, n + 2), x, n + 3);
  }

  lemma ThirdRound(r: Registers, x: seq<bv32>)
    requires |x| == 16
    ensures Steps(r, x, 48) == Round3(Steps(r, x, 32), x)
  {
    hide Step, Steps, HH, WordIndex, Shift, Sine;
    ThirdTable();
    var q := Steps(r, x, 32);
    StepsOn(r, x, 32);
    StepsOn(r, x, 36);
    StepsOn(r, x, 40);
    StepsOn(r, x, 44);
    ThirdFour(q, x, 32);
    ThirdFour(Steps(r, x, 36), x, 36);
    ThirdFour(Steps(r, x, 40), x, 40);
    ThirdFour(Steps(r, x, 44), x, 44);
  }

  lemma FourthTable()
    ensures WordIndex(48) == 0 && Shift(48) == 6 && Sine(48) == 0xf4292244
    ensures WordIndex(49) == 7 && Shift(49) == 10 && Sine(49) == 0x432aff97
    ensures WordIndex(50) == 14 && Shift(50) == 15 && Sine(50) == 0xab9423a7
    ensures WordIndex(51) == 5 && Shift(51) == 21 && Sine(51) == 0xfc93a039
    ensures WordIndex(52) == 12 && Shift(52) == 6 && Sine(52) == 0x655b59c3
    ensures WordIndex(53) == 3 && Shift(53) == 10 && Sine(53) == 0x8f0ccc92
    ensures WordIndex(54) == 10 && Shift(54) == 15 && Sine(54) == 0xffeff47d
    ensures WordIndex(55) == 1 && Shift(55) == 21 && Sine(55) == 0x85845dd1
    ensures WordIndex(56) == 8 && Shift(56) == 6 && Sine(56) == 0x6fa87e4f
    ensures WordIndex(57) == 15 && Shift(57) == 10 && Sine(57) == 0xfe2ce6e0
    ensures WordIndex(58) == 6 && Shift(58) == 15 && Sine(58) == 0xa3014314
    ensures WordIndex(59) == 13 && Shift(59) == 21 && Sine(59) == 0x4e0811a1
    ensures WordIndex(60) == 4 && Shift(60) == 6 && Sine(60) == 0xf7537e82
    ensures WordIndex(61) == 11 && Shift(61) == 10 && Sine(61) == 0xbd3af235
    ensures WordIndex(62) == 2 && Shift(62) == 15 && Sine(62) == 0x2ad7d2bb
    ensures WordIndex(63) == 9 && Shift(63) == 21 && Sine(63) == 0xeb86d391
  {
    hide FirstSine, SecondSine, ThirdSine;
  }

  lemma FourthStep(r: Registers, x: seq<bv32>, i: nat)
    requires |x| == 16 && 48 <= i < 64
    ensures Step(r, x, i) ==
            Registers(r.d, II(r.a, r.b, r.c, r.d, WordAt(x, i), Shift(i), Sine(i)), r.b, r.c)
  {
    hide FF, GG, HH, II, WordAt, Shift, Sine;
  }

  lemma FourthFour(r: Registers, x: seq<bv32>, n: nat)
    requires |x| == 16 && 48 <= n < 64 && n % 4 == 0
    ensures (var a := II(r.a, r.b, r.c, r.d, WordAt(x, n), Shift(n), Sine(n));
      var d := II(r.d, a, r.b, r.c, WordAt(x, n + 1), Shift(n + 1), Sine(n + 1));
      var c := II(r.c, d, a, r.b, WordAt(x, n + 2), Shift(n + 2), Sine(n + 2));
      var b := II(r.b, c, d, a, WordAt(x, n + 3), Shift(n + 3), Sine(n + 3));
      Step(Step(Step(Step(r, x, n), x, n + 1), x, n + 2), x, n + 3) == Registers(a, b, c, d))
  {
    hide Step, II, WordAt, Shift, Sine;
    FourthStep(r, x, n);
    var r1 := Step(r, x, n);
    FourthStep(r1, x, n + 1);
    var r2 := Step(r1, x, n + 1);
    FourthStep(r2, x, n + 2);
    FourthStep(Step(r2, x, n + 2), x, n + 3);
  }

  lemma FourthRound(r: Registers, x: seq<bv32>)
    requires |x| == 16
    ensures Steps(r, x, 64) == Round4(Steps(r, x, 48), x)
  {
    hide Step, Steps, II, WordIndex, Shift, Sine;
    FourthTable();
    var q := Steps(r, x, 48);
    StepsOn(r, x, 48);
    StepsOn(r, x, 52);
    StepsOn(r, x, 56);
    StepsOn(r, x, 60);
    FourthFour(q, x, 48);
    FourthFour(Steps(r, x, 52), x, 52);
    FourthFour(Steps(r, x, 56), x, 56);
    FourthFour(Steps(r, x, 60), x, 60);
  }

  /** The four rounds are the 64 steps in order. */
  lemma RoundsAreSteps(r: Registers, x: seq<bv32>)
    requires |x| == 16
    ensures Round4(Round3(Round2(Round1(r, x), x), x), x) == Steps(r, x, 64)
  {
    hide Step, Round1, Round2, Round3, Round4;
    FirstRound(r, x);
    SecondRound(r, x);
    ThirdRound(r, x);
    FourthRound(r, x);
    assert Steps(r, x, 0) == r;
  }
}
