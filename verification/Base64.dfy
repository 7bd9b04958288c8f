/** Base64 as two resumable state machines, against the grouping of section 4 of RFC 4648 with lines of 72 characters.
    Bytes and characters are numbers; masks and shifts are written as quotients and remainders. */
module Base64 {
  import opened Common

  const CHARS_PER_LINE := 72
  const PAD: byte := 61
  const NEWLINE: byte := 10

  // ---------------------------------------------------------------- the alphabet

  /** Capitals, small letters, digits, plus and slash; padding for anything else. */
  function EncodeValue(v: int): byte
    requires 0 <= v < 128
  {
    if v < 26 then 65 + v else if v < 52 then 97 + (v - 26) else if v < 62 then 48 + (v - 52)
    else if v == 62 then 43 else if v == 63 then 47 else PAD
  }

  function DecodeValue(c: byte): (v: int)
    ensures v < 64
  {
    if c == 43 then 62 else if c == 47 then 63 else if 48 <= c < 58 then 52 + (c - 48)
    else if c == PAD then -2 else if 65 <= c < 91 then c - 65 else if 97 <= c < 123 then 26 + (c - 97) else -1
  }

  /** Table 1 of RFC 4648: the letter of value `v` is at position `v`. */
  const ALPHABET := "ABCDEFGHIJKLMNOPQRSTUVWXYZ" + "abcdefghijklmnopqrstuvwxyz" + "0123456789" + "+/"

  lemma AlphabetTable(v: int)
    requires 0 <= v < 64
    ensures |ALPHABET| == 64 && EncodeValue(v) == ALPHABET[v] as int
  {
  }

  /** Reading a character finds its position in the table, and nothing that is not in it. */
  lemma AlphabetPosition(c: byte)
    ensures DecodeValue(c) >= 0 <==> exists v :: 0 <= v < 64 && ALPHABET[v] as int == c
    ensures DecodeValue(c) >= 0 ==> ALPHABET[DecodeValue(c)] as int == c
  {
    hide DecodeValue, EncodeValue;
    LetterBack(c);
    if DecodeValue(c) >= 0 { AlphabetTable(DecodeValue(c)); }
    if v :| 0 <= v < 64 && ALPHABET[v] as int == c { AlphabetTable(v); }
  }

  /** The 64 letters: each value has one, and each letter stands for the value it is written for. */
  lemma ValueBack(v: int)
    requires 0 <= v < 64
    ensures DecodeValue(EncodeValue(v)) == v
  {
  }

  lemma LetterBack(c: byte)
    ensures DecodeValue(c) >= 0 <==> exists v :: 0 <= v < 64 && EncodeValue(v) == c
    ensures DecodeValue(c) >= 0 ==> EncodeValue(DecodeValue(c)) == c
  {
    if DecodeValue(c) >= 0 { assert EncodeValue(DecodeValue(c)) == c; }
  }

  /** Joins two bit fields of a byte that do not overlap. */
  function Or(high: int, low: int, unit: int): (x: int)
    requires unit == 4 || unit == 16 || unit == 64
    requires 0 <= high < 256 && high % unit == 0 && 0 <= low < unit
    ensures 0 <= x < 256
  {
    high + low
  }

  // ---------------------------------------------------------------- encoding

  datatype EncodeStep = StepA | StepB | StepC

  datatype EncodeState = EncodeState(step: EncodeStep, result: int, stepcount: int)

  ghost predicate EncodeOk(st: EncodeState) {
    && 0 <= st.stepcount < CHARS_PER_LINE / 4
    && match st.step
       case StepA => true
       case StepB => 0 <= st.result <= 48 && st.result % 16 == 0
       case StepC => 0 <= st.result <= 60 && st.result % 4 == 0
  }

  datatype Encoded = Encoded(state: EncodeState, out: seq<byte>)

  /** What one more byte of input produces. */
  function EncodeByte(st: EncodeState, x: byte): (r: Encoded)
    requires EncodeOk(st)
    ensures EncodeOk(r.state)
  {
    match st.step
    case StepA => Encoded(EncodeState(StepB, x % 4 * 16, st.stepcount), [EncodeValue(x / 4)])
    case StepB => Encoded(EncodeState(StepC, x % 16 * 4, st.stepcount), [EncodeValue(Or(st.result, x / 16, 16))])
    case StepC =>
      var full := st.stepcount + 1 == CHARS_PER_LINE / 4;
      Encoded(EncodeState(StepA, x % 64, if full then 0 else st.stepcount + 1),
              [EncodeValue(Or(st.result, x / 64, 4)), EncodeValue(x % 64)] + if full then [NEWLINE] else [])
  }

  function EncodeBytes(st: EncodeState, s: seq<byte>): (r: Encoded)
    requires EncodeOk(st)
    ensures EncodeOk(r.state)
    decreases |s|
  {
    if s == [] then Encoded(st, [])
    else
      var before := EncodeBytes(st, s[..|s| - 1]);
      var last := EncodeByte(before.state, s[|s| - 1]);
      Encoded(last.state, before.out + last.out)
  }

  /** Encoding two chunks one after the other is encoding them joined. */
  lemma {:induction false} EncodeChunks(st: EncodeState, a: seq<byte>, b: seq<byte>)
    requires EncodeOk(st)
    ensures (var one, two := EncodeBytes(st, a), EncodeBytes(EncodeBytes(st, a).state, b);
      EncodeBytes(st, a + b) == Encoded(two.state, one.out + two.out))
    decreases |b|
  {
    hide EncodeByte, EncodeOk;
    if b == [] {
      assert a + b == a;
    } else {
      EncodeChunks(st, a, b[..|b| - 1]);
      assert (a + b)[..|a + b| - 1] == a + b[..|b| - 1];
    }
  }

  function EncodeEach(st: EncodeState, chunks: seq<seq<byte>>): (r: Encoded)
    requires EncodeOk(st)
    ensures EncodeOk(r.state)
    decreases |chunks|
  {
    if chunks == [] then Encoded(st, [])
    else
      var before := EncodeEach(st, chunks[..|chunks| - 1]);
      var last := EncodeBytes(before.state, chunks[|chunks| - 1]);
      Encoded(last.state, before.out + last.out)
  }

  /** However the input is cut, the output and the final state are those of one call. */
  lemma {:induction false} EncodeAnyCut(st: EncodeState, chunks: seq<seq<byte>>)
    requires EncodeOk(st)
    ensures EncodeEach(st, chunks) == EncodeBytes(st, Flat(chunks))
    decreases |chunks|
  {
    if chunks != [] {
      EncodeAnyCut(st, chunks[..|chunks| - 1]);
      EncodeChunks(st, Flat(chunks[..|chunks| - 1]), chunks[|chunks| - 1]);
    }
  }

  /** The rest of an unfinished group, padded, and a newline. */
  function EncodeEnd(st: EncodeState): seq<byte>
    requires EncodeOk(st)
  {
    match st.step
    case StepA => [NEWLINE]
    case StepB => [EncodeValue(st.result), PAD, PAD, NEWLINE]
    case StepC => [EncodeValue(st.result), PAD, NEWLINE]
  }

  // ---------------------------------------------------------------- the reference: groups of three bytes

  /** Six-bit digit `k` of the 24-bit number `n`, most significant first. */
  function Digit(n: nat, k: nat): int
    requires n < 0x100_0000 && k < 4
  {
    if k == 0 then n / 0x4_0000 else if k == 1 then n / 0x1000 % 64 else if k == 2 then n / 64 % 64 else n % 64
  }

  function Group(x: byte, y: byte, z: byte): (g: seq<byte>)
    ensures |g| == 4
  {
    var n := x * 0x1_0000 + y * 0x100 + z;
    [EncodeValue(Digit(n, 0)), EncodeValue(Digit(n, 1)), EncodeValue(Digit(n, 2)), EncodeValue(Digit(n, 3))]
  }

  function Line(count: nat): seq<byte> {
    if count + 1 == 18 then [NEWLINE] else []
  }

  function NextCount(count: nat): nat {
    if count + 1 == 18 then 0 else count + 1
  }

  /** RFC 4648 with a line break after every eighteenth full group, `count` groups into the current line. */
  function Reference(s: seq<byte>, count: nat): seq<byte> {
    if |s| == 0 then []
    else if |s| == 1 then Group(s[0], 0, 0)[..2] + [PAD, PAD]
    else if |s| == 2 then Group(s[0], s[1], 0)[..3] + [PAD]
    else
      Group(s[0], s[1], s[2]) + Line(count) + Reference(s[3..], NextCount(count))
  }

  lemma DigitsOf(x: byte, y: byte, z: byte)
    ensures (var n := x * 0x1_0000 + y * 0x100 + z;
      Digit(n, 0) == x / 4 && Digit(n, 1) == x % 4 * 16 + y / 16 &&
      Digit(n, 2) == y % 16 * 4 + z / 64 && Digit(n, 3) == z % 64)
  {
    var n := x * 0x1_0000 + y * 0x100 + z;
    assert n == (x / 4) * 0x4_0000 + (x % 4 * 16 + y / 16) * 0x1000 + (y % 16 * 4 + z / 64) * 64 + z % 64;
    Radix(x / 4, x % 4 * 16 + y / 16, y % 16 * 4 + z / 64, z % 64);
  }

  lemma Radix(a: nat, b: nat, c: nat, d: nat)
    requires a < 64 && b < 64 && c < 64 && d < 64
    ensures (var n := a * 0x4_0000 + b * 0x1000 + c * 64 + d;
      n / 0x4_0000 == a && n / 0x1000 % 64 == b && n / 64 % 64 == c && n % 64 == d)
  {
    var n := a * 0x4_0000 + b * 0x1000 + c * 64 + d;
    assert n / 64 == a * 0x1000 + b * 64 + c;
    assert n / 0x1000 == a * 64 + b;
  }

  lemma EncodeOne(st: EncodeState, x: byte)
    requires EncodeOk(st)
    ensures EncodeBytes(st, [x]) == EncodeByte(st, x)
  {
    assert [x][..0] == [];
  }

  lemma EncodeNone(st: EncodeState, s: seq<byte>)
    requires EncodeOk(st) && s == []
    ensures EncodeBytes(st, s) == Encoded(st, [])
  {
  }

  lemma EncodeStart(st: EncodeState, x: byte)
    requires EncodeOk(st) && st.step == StepA
    ensures EncodeBytes(st, [x]) == Encoded(EncodeState(StepB, x % 4 * 16, st.stepcount), [EncodeValue(x / 4)])
  {
    EncodeOne(st, x);
  }

  lemma EncodeTwo(st: EncodeState, x: byte, y: byte)
    requires EncodeOk(st) && st.step == StepA
    ensures (EncodeBytes(st, [x, y]) ==
      Encoded(EncodeState(StepC, y % 16 * 4, st.stepcount), [EncodeValue(x / 4), EncodeValue(x % 4 * 16 + y / 16)]))
  {
    hide EncodeValue;
    EncodeOne(st, x);
    assert [x, y][..1] == [x];
  }

  lemma EncodeClose(st: EncodeState, z: byte)
    requires EncodeOk(st) && st.step == StepC
    ensures 0 <= st.result + z / 64 < 64
    ensures (EncodeBytes(st, [z]) ==
      Encoded(EncodeState(StepA, z % 64, NextCount(st.stepcount)),
              [EncodeValue(st.result + z / 64), EncodeValue(z % 64)] + Line(st.stepcount)))
  {
    hide EncodeValue;
    EncodeOne(st, z);
  }

  lemma EncodeThree(st: EncodeState, x: byte, y: byte, z: byte)
    requires EncodeOk(st) && st.step == StepA
    ensures (EncodeBytes(st, [x, y, z]) ==
      Encoded(EncodeState(StepA, z % 64, NextCount(st.stepcount)), Group(x, y, z) + Line(st.stepcount)))
  {
    hide EncodeValue, EncodeBytes, Group, Line, NextCount;
    EncodeTwo(st, x, y);
    EncodeChunks(st, [x, y], [z]);
    assert [x, y] + [z] == [x, y, z];
    EncodeClose(EncodeState(StepC, y % 16 * 4, st.stepcount), z);
    GroupOf(x, y, z);
    var head, tail := [EncodeValue(x / 4), EncodeValue(x % 4 * 16 + y / 16)],
                      [EncodeValue(y % 16 * 4 + z / 64), EncodeValue(z % 64)];
    assert head + tail == Group(x, y, z);
    Associate(head, tail, Line(st.stepcount));
  }

  lemma GroupOf(x: byte, y: byte, z: byte)
    ensures Group(x, y, z) == [EncodeValue(x / 4), EncodeValue(x % 4 * 16 + y / 16),
                               EncodeValue(y % 16 * 4 + z / 64), EncodeValue(z % 64)]
  {
    hide EncodeValue, Digit;
    DigitsOf(x, y, z);
  }

  /** The state machine produces the reference encoding. */
  lemma {:induction false} EncodesReference(st: EncodeState, s: seq<byte>)
    requires EncodeOk(st) && st.step == StepA
    ensures EncodeBytes(st, s).out + EncodeEnd(EncodeBytes(st, s).state) == Reference(s, st.stepcount) + [NEWLINE]
    decreases |s|
  {
    hide EncodeBytes, EncodeEnd, Group, Line;
    if |s| < 3 {
      EncodesRest(st, s);
    } else {
      EncodeMore(st, s);
      var next := EncodeState(StepA, s[2] % 64, NextCount(st.stepcount));
      EncodesReference(next, s[3..]);
      var rest := EncodeBytes(next, s[3..]);
      Associate(Group(s[0], s[1], s[2]) + Line(st.stepcount), rest.out, EncodeEnd(rest.state));
      Associate(Group(s[0], s[1], s[2]) + Line(st.stepcount), Reference(s[3..], next.stepcount), [NEWLINE]);
    }
  }

  lemma ReferenceOne(x: byte, count: nat)
    ensures Reference([x], count) == [EncodeValue(x / 4), EncodeValue(x % 4 * 16), PAD, PAD]
  {
    hide EncodeValue, Digit;
    DigitsOf(x, 0, 0);
  }

  lemma ReferenceTwo(x: byte, y: byte, count: nat)
    ensures Reference([x, y], count) ==
            [EncodeValue(x / 4), EncodeValue(x % 4 * 16 + y / 16), EncodeValue(y % 16 * 4), PAD]
  {
    hide EncodeValue, Digit;
    DigitsOf(x, y, 0);
  }

  lemma ReferenceNone(count: nat)
    ensures Reference([], count) == []
  {
  }

  lemma EncodesRest(st: EncodeState, s: seq<byte>)
    requires EncodeOk(st) && st.step == StepA && |s| < 3
    ensures EncodeBytes(st, s).out + EncodeEnd(EncodeBytes(st, s).state) == Reference(s, st.stepcount) + [NEWLINE]
  {
    hide EncodeBytes, EncodeByte, EncodeValue, Group, Reference;
    if |s| == 0 {
      EncodeNone(st, s);
      ReferenceNone(st.stepcount);
    } else if |s| == 1 {
      assert s == [s[0]];
      EncodeStart(st, s[0]);
      ReferenceOne(s[0], st.stepcount);
    } else {
      assert s == [s[0], s[1]];
      EncodeTwo(st, s[0], s[1]);
      ReferenceTwo(s[0], s[1], st.stepcount);
    }
  }

  lemma EncodeMore(st: EncodeState, s: seq<byte>)
    requires EncodeOk(st) && st.step == StepA && |s| >= 3
    ensures (var next := EncodeState(StepA, s[2] % 64, NextCount(st.stepcount));
      EncodeOk(next) &&
      EncodeBytes(st, s) ==
        Encoded(EncodeBytes(next, s[3..]).state,
                Group(s[0], s[1], s[2]) + Line(st.stepcount) + EncodeBytes(next, s[3..]).out))
  {
    assert s == [s[0], s[1], s[2]] + s[3..];
    EncodeThree(st, s[0], s[1], s[2]);
    EncodeChunks(st, [s[0], s[1], s[2]], s[3..]);
  }

  /** Four characters for every group begun, and a line break for every eighteen full groups. */
  lemma {:induction false} ReferenceLength(s: seq<byte>, count: nat)
    requires count < 18
    ensures |Reference(s, count)| == 4 * ((|s| + 2) / 3) + (count + |s| / 3) / 18
    decreases |s|
  {
    hide Group;
    if |s| >= 3 {
      ReferenceLength(s[3..], NextCount(count));
      Groups(|s|, count);
    }
  }

  lemma Groups(n: nat, count: nat)
    requires count < 18 && n >= 3
    ensures (n + 2) / 3 == (n - 3 + 2) / 3 + 1
    ensures (count + n / 3) / 18 == (NextCount(count) + (n - 3) / 3) / 18 + if count + 1 == 18 then 1 else 0
  {
    var m := (n - 3) / 3;
    assert n / 3 == m + 1;
    if count + 1 == 18 { assert (18 + m) / 18 == 1 + m / 18; }
  }

  /** Line breaks stand after every 72 characters and nowhere else, counted from the start of the line. */
  lemma {:induction false} LineBreaks(s: seq<byte>, count: nat, p: nat)
    requires count < 18 && p < |Reference(s, count)|
    ensures Reference(s, count)[p] == '\n' as int <==> (4 * count + p) % 73 == 72
    decreases |s|
  {
    hide EncodeValue, Digit;
    var offset := 4 + |Line(count)|;
    if |s| >= 3 && p >= offset {
      assert Reference(s, count)[p] == Reference(s[3..], NextCount(count))[p - offset];
      LineBreaks(s[3..], NextCount(count), p - offset);
      if count + 1 == 18 { assert 4 * count + p == 73 + (p - offset); }
    } else if p < 4 {
      GroupLetter(s, count, p);
    }
  }

  lemma GroupLetter(s: seq<byte>, count: nat, p: nat)
    requires |s| > 0 && p < 4
    ensures |Reference(s, count)| >= 4 && Reference(s, count)[p] != NEWLINE
  {
  }

  /** Section 10 of RFC 4648. */
  lemma Answers()
    ensures Reference(Ascii("f"), 0) == Ascii("Zg==")
    ensures Reference(Ascii("fo"), 0) == Ascii("Zm8=")
    ensures Reference(Ascii("foobar"), 0) == Ascii("Zm9vYmFy")
  {
    hide EncodeValue, Digit, Group, Reference;
    ReferenceOne('f' as int, 0);
    ReferenceTwo('f' as int, 'o' as int, 0);
    ReferenceSix('f' as int, 'o' as int, 'o' as int, 'b' as int, 'a' as int, 'r' as int);
    GroupOf('f' as int, 'o' as int, 'o' as int);
    GroupOf('b' as int, 'a' as int, 'r' as int);
    Letters();
    assert Ascii("f") == ['f' as int] && Ascii("fo") == ['f' as int, 'o' as int];
    assert Ascii("foobar") == ['f' as int, 'o' as int, 'o' as int, 'b' as int, 'a' as int, 'r' as int];
  }

  lemma Letters()
    ensures EncodeValue(25) == 'Z' as int && EncodeValue(38) == 'm' as int && EncodeValue(61) == '9' as int
    ensures EncodeValue(47) == 'v' as int && EncodeValue(24) == 'Y' as int && EncodeValue(5) == 'F' as int
    ensures EncodeValue(50) == 'y' as int && EncodeValue(32) == 'g' as int && EncodeValue(60) == '8' as int
  {
  }

  lemma ReferenceSix(a: byte, b: byte, c: byte, d: byte, e: byte, f: byte)
    ensures Reference([a, b, c, d, e, f], 0) == Group(a, b, c) + Group(d, e, f)
  {
    hide Group;
    var s, t := [a, b, c, d, e, f], [d, e, f];
    assert s[3..] == t && t[3..] == [];
    assert Reference(s, 0) == Group(a, b, c) + [] + Reference(t, 1);
    assert Reference(t, 1) == Group(d, e, f) + [] + Reference([], 2);
    ReferenceNone(2);
  }

  // ---------------------------------------------------------------- decoding

  datatype DecodeStep = Step_a | Step_b | Step_c | Step_d

  /** `plainchar` is the byte under construction; before a group it means nothing. */
  datatype DecodeState = DecodeState(step: DecodeStep, plainchar: byte)

  ghost predicate DecodeOk(st: DecodeState) {
    match st.step
    case Step_a => true
    case Step_b => st.plainchar % 4 == 0
    case Step_c => st.plainchar % 16 == 0
    case Step_d => st.plainchar % 64 == 0
  }

  datatype Decoded = Decoded(state: DecodeState, out: seq<byte>)

  /** What one more character produces; those outside the alphabet are skipped. */
  function DecodeChar(st: DecodeState, c: byte): (r: Decoded)
    requires DecodeOk(st)
    ensures DecodeOk(r.state)
  {
    var v := DecodeValue(c);
    if v < 0 then Decoded(st, []) else DecodeDigit(st, v)
  }

  function DecodeDigit(st: DecodeState, v: nat): (r: Decoded)
    requires DecodeOk(st) && v < 64
    ensures DecodeOk(r.state)
  {
    match st.step
    case Step_a => Decoded(DecodeState(Step_b, v * 4), [])
    case Step_b => Decoded(DecodeState(Step_c, v % 16 * 16), [Or(st.plainchar, v / 16, 4)])
    case Step_c => Decoded(DecodeState(Step_d, v % 4 * 64), [Or(st.plainchar, v / 4, 16)])
    case Step_d => Decoded(DecodeState(Step_a, Or(st.plainchar, v, 64)), [Or(st.plainchar, v, 64)])
  }

  function DecodeChars(st: DecodeState, s: seq<byte>): (r: Decoded)
    requires DecodeOk(st)
    ensures DecodeOk(r.state)
    decreases |s|
  {
    if s == [] then Decoded(st, [])
    else
      var before := DecodeChars(st, s[..|s| - 1]);
      var last := DecodeChar(before.state, s[|s| - 1]);
      Decoded(last.state, before.out + last.out)
  }

  lemma {:induction false} DecodeChunks(st: DecodeState, a: seq<byte>, b: seq<byte>)
    requires DecodeOk(st)
    ensures (var one, two := DecodeChars(st, a), DecodeChars(DecodeChars(st, a).state, b);
      DecodeChars(st, a + b) == Decoded(two.state, one.out + two.out))
    decreases |b|
  {
    hide DecodeChar, DecodeOk;
    if b == [] {
      assert a + b == a;
    } else {
      DecodeChunks(st, a, b[..|b| - 1]);
      assert (a + b)[..|a + b| - 1] == a + b[..|b| - 1];
    }
  }

  function DecodeEach(st: DecodeState, chunks: seq<seq<byte>>): (r: Decoded)
    requires DecodeOk(st)
    ensures DecodeOk(r.state)
    decreases |chunks|
  {
    if chunks == [] then Decoded(st, [])
    else
      var before := DecodeEach(st, chunks[..|chunks| - 1]);
      var last := DecodeChars(before.state, chunks[|chunks| - 1]);
      Decoded(last.state, before.out + last.out)
  }

  /** However the text is cut, the bytes and the final state are those of one call. */
  lemma {:induction false} DecodeAnyCut(st: DecodeState, chunks: seq<seq<byte>>)
    requires DecodeOk(st)
    ensures DecodeEach(st, chunks) == DecodeChars(st, Flat(chunks))
    decreases |chunks|
  {
    if chunks != [] {
      DecodeAnyCut(st, chunks[..|chunks| - 1]);
      DecodeChunks(st, Flat(chunks[..|chunks| - 1]), chunks[|chunks| - 1]);
    }
  }

  // ---------------------------------------------------------------- round trip

  lemma DecodeOne(st: DecodeState, c: byte)
    requires DecodeOk(st)
    ensures DecodeChars(st, [c]) == DecodeChar(st, c)
  {
    assert [c][..0] == [];
  }

  /** The first two digits of a group give its first byte. */
  lemma DecodeFirst(st: DecodeState, x: byte, v: nat)
    requires st.step == Step_a && v < 16
    ensures (DecodeChars(st, [EncodeValue(x / 4), EncodeValue(x % 4 * 16 + v)]) ==
      Decoded(DecodeState(Step_c, v * 16), [x]))
  {
    var c, d := EncodeValue(x / 4), EncodeValue(x % 4 * 16 + v);
    ValueBack(x / 4);
    ValueBack(x % 4 * 16 + v);
    DecodeOne(st, c);
    assert [c, d][..1] == [c];
  }

  lemma DecodeSecond(st: DecodeState, y: byte, v: nat)
    requires st == DecodeState(Step_c, y / 16 * 16) && v < 4
    ensures DecodeChars(st, [EncodeValue(y % 16 * 4 + v)]) == Decoded(DecodeState(Step_d, v * 64), [y])
  {
    DecodeOne(st, EncodeValue(y % 16 * 4 + v));
    ValueBack(y % 16 * 4 + v);
  }

  lemma DecodeThird(st: DecodeState, z: byte)
    requires st == DecodeState(Step_d, z / 64 * 64)
    ensures DecodeChars(st, [EncodeValue(z % 64)]) == Decoded(DecodeState(Step_a, z), [z])
  {
    DecodeOne(st, EncodeValue(z % 64));
    ValueBack(z % 64);
  }

  lemma AnyPending(x: byte)
    ensures DecodeOk(DecodeState(Step_a, x))
  {
  }

  /** Before a group the pending byte does not matter: whatever it is, the bytes that follow are the same. */
  lemma {:induction false} PendingIgnored(x: byte, y: byte, s: seq<byte>)
    ensures (var a, b := DecodeChars(DecodeState(Step_a, x), s), DecodeChars(DecodeState(Step_a, y), s);
      a.out == b.out && a.state.step == b.state.step &&
      (a.state.step != Step_a || a.out != [] ==> a.state.plainchar == b.state.plainchar) &&
      (a.state.step == Step_a && a.out == [] ==> a.state.plainchar == x && b.state.plainchar == y))
    decreases |s|
  {
    hide DecodeValue, Or;
    if s != [] { PendingIgnored(x, y, s[..|s| - 1]); }
  }

  /** Padding and line breaks are skipped. */
  lemma {:induction false} DecodeSkips(st: DecodeState, s: seq<byte>)
    requires DecodeOk(st) && forall c :: c in s ==> DecodeValue(c) < 0
    ensures DecodeChars(st, s) == Decoded(st, [])
    decreases |s|
  {
    if s != [] { DecodeSkips(st, s[..|s| - 1]); }
  }

  lemma DecodePair(st: DecodeState, x: byte, y: byte, v: nat)
    requires st.step == Step_a && v < 4
    ensures (DecodeChars(st, [EncodeValue(x / 4), EncodeValue(x % 4 * 16 + y / 16), EncodeValue(y % 16 * 4 + v)]) ==
      Decoded(DecodeState(Step_d, v * 64), [x, y]))
  {
    var a, b := [EncodeValue(x / 4), EncodeValue(x % 4 * 16 + y / 16)], [EncodeValue(y % 16 * 4 + v)];
    DecodeChunks(st, a, b);
    DecodeFirst(st, x, y / 16);
    DecodeSecond(DecodeState(Step_c, y / 16 * 16), y, v);
    assert a + b == [EncodeValue(x / 4), EncodeValue(x % 4 * 16 + y / 16), EncodeValue(y % 16 * 4 + v)];
  }

  lemma DecodeGroup(st: DecodeState, x: byte, y: byte, z: byte)
    requires st.step == Step_a
    ensures DecodeChars(st, Group(x, y, z)) == Decoded(DecodeState(Step_a, z), [x, y, z])
  {
    hide EncodeValue, Digit, DecodeChars;
    DigitsOf(x, y, z);
    var a, b := Group(x, y, z)[..3], [EncodeValue(z % 64)];
    assert a == [EncodeValue(x / 4), EncodeValue(x % 4 * 16 + y / 16), EncodeValue(y % 16 * 4 + z / 64)];
    DecodeChunks(st, a, b);
    DecodePair(st, x, y, z / 64);
    DecodeThird(DecodeState(Step_d, z / 64 * 64), z);
    assert a + b == Group(x, y, z);
  }

  /** Decoding the reference encoding gives the bytes back. */
  lemma {:induction false} DecodesReference(st: DecodeState, s: seq<byte>, count: nat)
    requires st.step == Step_a
    ensures DecodeChars(st, Reference(s, count)).out == s
    decreases |s|
  {
    hide DecodeChars, Group;
    if |s| < 3 {
      DecodesRest(st, s, count);
    } else {
      var head, rest := Group(s[0], s[1], s[2]) + Line(count), Reference(s[3..], NextCount(count));
      DecodeGroup(st, s[0], s[1], s[2]);
      DecodeTail(st, Group(s[0], s[1], s[2]), Line(count));
      DecodeChunks(st, head, rest);
      DecodesReference(DecodeState(Step_a, s[2]), s[3..], NextCount(count));
      assert s == [s[0], s[1], s[2]] + s[3..];
      assert Reference(s, count) == head + rest;
    }
  }

  lemma DecodesRest(st: DecodeState, s: seq<byte>, count: nat)
    requires st.step == Step_a && |s| < 3
    ensures DecodeChars(st, Reference(s, count)).out == s
  {
    hide DecodeChars, EncodeValue, Group;
    if |s| == 0 {
      DecodeSkips(st, []);
    } else if |s| == 1 {
      assert s == [s[0]];
      ReferenceOne(s[0], count);
      DecodeFirst(st, s[0], 0);
      var digits := [EncodeValue(s[0] / 4), EncodeValue(s[0] % 4 * 16 + 0)];
      DecodeTail(st, digits, [PAD, PAD]);
      assert digits + [PAD, PAD] == Reference(s, count);
    } else {
      assert s == [s[0], s[1]];
      ReferenceTwo(s[0], s[1], count);
      DecodePair(st, s[0], s[1], 0);
      var digits := [EncodeValue(s[0] / 4), EncodeValue(s[0] % 4 * 16 + s[1] / 16), EncodeValue(s[1] % 16 * 4 + 0)];
      DecodeTail(st, digits, [PAD]);
      assert digits + [PAD] == Reference(s, count);
    }
  }

  lemma DecodeTail(st: DecodeState, a: seq<byte>, b: seq<byte>)
    requires DecodeOk(st) && forall c :: c in b ==> DecodeValue(c) < 0
    ensures DecodeChars(st, a + b) == DecodeChars(st, a)
  {
    DecodeChunks(st, a, b);
    DecodeSkips(DecodeChars(st, a).state, b);
  }

  // ---------------------------------------------------------------- the coders

  class Encoder {
    var step: EncodeStep
    var result: int
    var stepcount: int

    ghost function State(): EncodeState
      reads this
    {
      EncodeState(step, result, stepcount)
    }

    constructor ()
      ensures EncodeOk(State()) && State() == EncodeState(StepA, 0, 0)
    {
      step, result, stepcount := StepA, 0, 0;
    }

    method EncodeFragment(fragment: byte) returns (code: seq<byte>)
      requires EncodeOk(State())
      modifies this
      ensures EncodeOk(State()) && Encoded(State(), code) == EncodeByte(old(State()), fragment)
    {
      hide EncodeValue;
      match step {
        case StepA =>
          code := [EncodeValue(fragment / 4)];
          result, step := fragment % 4 * 16, StepB;
        case StepB =>
          result := Or(result, fragment / 16, 16);
          code := [EncodeValue(result)];
          result, step := fragment % 16 * 4, StepC;
        case StepC =>
          result := Or(result, fragment / 64, 4);
          code := [EncodeValue(result), EncodeValue(fragment % 64)];
          result, step := fragment % 64, StepA;
          stepcount := stepcount + 1;
          if stepcount == CHARS_PER_LINE / 4 {
            code := code + [NEWLINE];
            stepcount := 0;
          }
      }
    }

    method EncodeBlock(plaintext: seq<byte>) returns (code: seq<byte>)
      requires EncodeOk(State())
      modifies this
      ensures EncodeOk(State()) && Encoded(State(), code) == EncodeBytes(old(State()), plaintext)
    {
      hide EncodeByte, EncodeOk;
      code := [];
      var i := 0;
      while i < |plaintext|
        invariant 0 <= i <= |plaintext| && EncodeOk(State())
        invariant Encoded(State(), code) == EncodeBytes(old(State()), plaintext[..i])
      {
        assert plaintext[..i + 1][..i] == plaintext[..i];
        var more := EncodeFragment(plaintext[i]);
        code := code + more;
        i := i + 1;
      }
      assert plaintext[..i] == plaintext;
    }

    method EncodeBlockend() returns (code: seq<byte>)
      requires EncodeOk(State())
      ensures code == EncodeEnd(State())
    {
      code := [];
      match step {
        case StepA =>
        case StepB => code := [EncodeValue(result), PAD, PAD];
        case StepC => code := [EncodeValue(result), PAD];
      }
      code := code + [NEWLINE];
    }
  }

  class Decoder {
    var step: DecodeStep
    var plainchar: byte

    ghost function State(): DecodeState
      reads this
    {
      DecodeState(step, plainchar)
    }

    constructor ()
      ensures State() == DecodeState(Step_a, 0)
    {
      step, plainchar := Step_a, 0;
    }

    method DecodeFragment(c: byte) returns (plaintext: seq<byte>)
      requires DecodeOk(State())
      modifies this
      ensures DecodeOk(State()) && Decoded(State(), plaintext) == DecodeChar(old(State()), c)
    {
      plaintext := [];
      var fragment := DecodeValue(c);
      if fragment < 0 { return; }
      match step {
        case Step_a =>
          plainchar, step := fragment * 4, Step_b;
        case Step_b =>
          plaintext := [Or(plainchar, fragment / 16, 4)];
          plainchar, step := fragment % 16 * 16, Step_c;
        case Step_c =>
          plaintext := [Or(plainchar, fragment / 4, 16)];
          plainchar, step := fragment % 4 * 64, Step_d;
        case Step_d =>
          plainchar := Or(plainchar, fragment, 64);
          plaintext := [plainchar];
          step := Step_a;
      }
    }

    /** After a finished group the pending byte is whatever the next cell of the output holds, `next`. */
    method DecodeBlock(code: seq<byte>, next: byte) returns (plaintext: seq<byte>)
      requires DecodeOk(State())
      modifies this
      ensures DecodeOk(State())
      ensures (var r := DecodeChars(old(State()), code);
        plaintext == r.out && step == r.state.step &&
        plainchar == if step == Step_a && plaintext != [] then next else r.state.plainchar)
    {
      hide DecodeChar, DecodeOk;
      plaintext := [];
      var i := 0;
      while i < |code|
        invariant 0 <= i <= |code| && DecodeOk(State())
        invariant Decoded(State(), plaintext) == DecodeChars(old(State()), code[..i])
      {
        assert code[..i + 1][..i] == code[..i];
        var more := DecodeFragment(code[i]);
        plaintext := plaintext + more;
        i := i + 1;
      }
      assert code[..i] == code;
      if step == Step_a && plaintext != [] {
        plainchar := next;
        assert DecodeOk(State()) by { AnyPending(next); }
      }
    }
  }

  /** The whole text in one call, without the final line break. */
  method Encode(plaintext: seq<byte>) returns (length: int, code: seq<byte>)
    ensures plaintext == [] ==> length == -1 && code == []
    ensures plaintext != [] ==> code == Reference(plaintext, 0)
    ensures plaintext != [] ==> length == |code| == 4 * ((|plaintext| + 2) / 3) + |plaintext| / 54
  {
    if |plaintext| <= 0 { return -1, []; }
    var s := new Encoder();
    ghost var st := s.State();
    code := s.EncodeBlock(plaintext);
    var end := s.EncodeBlockend();
    EncodesReference(st, plaintext);
    ReferenceLength(plaintext, 0);
    ghost var all := code + end;
    code := code + end[..|end| - 1];
    assert code == all[..|all| - 1];
    length := |code|;
  }

  method Decode(code: seq<byte>) returns (length: int, plaintext: seq<byte>)
    ensures code == [] ==> length == -1 && plaintext == []
    ensures code != [] ==> length == |plaintext| && plaintext == DecodeChars(DecodeState(Step_a, 0), code).out
  {
    if |code| <= 0 { return -1, []; }
    var s := new Decoder();
    plaintext := s.DecodeBlock(code, 0);
    length := |plaintext|;
  }

  /** Encoding and then decoding gives back every non-empty byte string. */
  method RoundTrip(plaintext: seq<byte>) returns (back: seq<byte>)
    requires plaintext != []
    ensures back == plaintext
  {
    var n, code := Encode(plaintext);
    var m;
    m, back := Decode(code);
    DecodesReference(DecodeState(Step_a, 0), plaintext, 0);
  }
}
