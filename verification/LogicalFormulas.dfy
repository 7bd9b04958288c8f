/** Formulas of literals joined by `&` and `|`: what the evaluator makes of them, and when that is their value. */
module LogicalFormulas {
  import opened LogicalParser

  // ---------------------------------------------------------------- formulas and their value

  /** An atom behind any number of negations. */
  datatype Literal = Literal(negations: nat, atom: string)

  /** Literals joined by `&` and `|`, read from the left. */
  datatype Formula = One(literal: Literal) | And(left: Formula, literal: Literal) | Or(left: Formula, literal: Literal)

  /** An atom is a non-empty word without operators. */
  predicate IsAtom(a: string) {
    a != [] && forall i :: 0 <= i < |a| ==> !IsOperator(a[i])
  }

  predicate Proper(f: Formula) {
    IsAtom(f.literal.atom) && (f.One? || Proper(f.left))
  }

  function Bangs(n: nat): string { if n == 0 then "" else "!" + Bangs(n - 1) }

  function Prefix(l: Literal): string { Bangs(l.negations) }

  function Text(f: Formula): string {
    match f
    case One(l) => Prefix(l) + l.atom
    case And(left, l) => Text(left) + "&" + Prefix(l) + l.atom
    case Or(left, l) => Text(left) + "|" + Prefix(l) + l.atom
  }

  /** The alternatives of the formula, each a list of literals to hold together. */
  function Groups(f: Formula): (g: seq<seq<Literal>>)
    ensures g != []
  {
    match f
    case One(l) => [[l]]
    case And(left, l) =>
      var g := Groups(left);
      g[..|g| - 1] + [g[|g| - 1] + [l]]
    case Or(left, l) => Groups(left) + [[l]]
  }

  predicate Holds(l: Literal, key: string, meanings: seq<string>) {
    Truth(l.atom, key, meanings) != (l.negations % 2 == 1)
  }

  predicate AllHold(g: seq<Literal>, key: string, meanings: seq<string>) {
    forall i :: 0 <= i < |g| ==> Holds(g[i], key, meanings)
  }

  predicate SomeHold(g: seq<seq<Literal>>, key: string, meanings: seq<string>) {
    exists i :: 0 <= i < |g| && AllHold(g[i], key, meanings)
  }

  /** `!` binds tighter than `&`, and `&` tighter than `|`. */
  predicate Value(f: Formula, key: string, meanings: seq<string>) {
    SomeHold(Groups(f), key, meanings)
  }

  // ---------------------------------------------------------------- what scanning a formula leaves

  /** Operators waiting after the formula: at most one of each kind, loosest first. */
  function Waiting(f: Formula): seq<char> {
    (if HasOr(f) then ['|'] else []) + (if f.And? then ['&'] else []) + (if f.literal.negations > 0 then ['!'] else [])
  }

  predicate HasOr(f: Formula) {
    match f case One(_) => false case And(left, _) => HasOr(left) case Or(_, _) => true
  }

  /** The operators that a new `&` or `|` moves to the output. */
  function Moved(c: char, f: Formula): seq<string> {
    (if f.literal.negations > 0 then ["!"] else []) + (if f.And? then ["&"] else []) +
    (if c == '|' && HasOr(f) then ["|"] else [])
  }

  /** Every negation pushes the one before it to the output, ahead of the atom. */
  function Early(n: nat): seq<string> { if n <= 1 then [] else ["!"] + Early(n - 1) }

  function Output(f: Formula): seq<string> {
    match f
    case One(l) => Early(l.negations) + [l.atom]
    case And(left, l) => Output(left) + Moved('&', left) + Early(l.negations) + [l.atom]
    case Or(left, l) => Output(left) + Moved('|', left) + Early(l.negations) + [l.atom]
  }

  lemma PopsWaiting(c: char, f: Formula, out: seq<string>)
    requires c == '&' || c == '|'
    ensures (Pops(c, Waiting(f), out) ==
      Scanner([], if c == '&' && HasOr(f) then ['|'] else [], out + Moved(c, f)))
  {
    hide Pops;
    var low, mid := if HasOr(f) then ['|'] else [], if f.And? then ['&'] else [];
    var out1 := out + if f.literal.negations > 0 then ["!"] else [];
    var out2 := out1 + if f.And? then ["&"] else [];
    PopOne(c, low + mid, '!', f.literal.negations > 0, out);
    PopOne(c, low, '&', f.And?, out1);
    PopLast(c, HasOr(f), out2);
  }

  lemma PopLast(c: char, there: bool, out: seq<string>)
    requires c == '&' || c == '|'
    ensures (Pops(c, if there then ['|'] else [], out) ==
      Scanner([], if c == '&' && there then ['|'] else [], out + if c == '|' && there then ["|"] else []))
  {
    assert ['|'][..0] == [];
    assert out + [] == out;
  }

  lemma PopOne(c: char, rest: seq<char>, top: char, there: bool, out: seq<string>)
    requires Priority(c) <= Priority(top)
    ensures (Pops(c, rest + (if there then [top] else []), out) ==
      Pops(c, rest, out + if there then [[top]] else []))
  {
    if there { assert (rest + [top])[..|rest|] == rest; } else { assert rest + [] == rest && out + [] == out; }
  }

  /** An atom goes to the output whole. */
  lemma {:induction false} ScanAtom(a: string, k: string, t: string, stack: seq<char>, out: seq<string>)
    requires IsAtom(a) && Ends(k)
    ensures Scan(a + k, Scanner(t, stack, out)) == Scan(k, Scanner([], stack, out + [t + a]))
    decreases |a|
  {
    assert (a + k)[1..] == a[1..] + k;
    if |a| == 1 {
      assert a[1..] + k == k && t + [a[0]] == t + a;
    } else {
      ScanAtom(a[1..], k, t + [a[0]], stack, out);
      assert t + [a[0]] + a[1..] == t + a;
    }
  }

  lemma ScanStep(c: char, rest: string, s: Scanner)
    ensures Scan([c] + rest, s) == Scan(rest, Read(c, Ends(rest), s))
  {
    assert ([c] + rest)[1..] == rest;
  }

  lemma BangFirst(n: nat, rest: string)
    requires n > 0
    ensures Bangs(n) + rest == ['!'] + (Bangs(n - 1) + rest)
  {
  }

  /** A negation on top of the stack goes to the output before the next one takes its place. */
  lemma {:induction false} ScanBangs(n: nat, rest: string, stack: seq<char>, out: seq<string>)
    requires stack == [] || Priority(stack[|stack| - 1]) < 3
    ensures (Scan(Bangs(n) + rest, Scanner([], stack + ['!'], out)) ==
      Scan(rest, Scanner([], stack + ['!'], out + Early(n + 1))))
    decreases n
  {
    hide Scan, Pops, Bangs, Early;
    EarlyStep(n, out);
    if n == 0 {
      NoBangs(rest);
    } else {
      BangFirst(n, rest);
      ScanStep('!', Bangs(n - 1) + rest, Scanner([], stack + ['!'], out));
      PopBang(stack, out);
      ScanBangs(n - 1, rest, stack, out + ["!"]);
    }
  }

  lemma EarlyStep(n: nat, out: seq<string>)
    ensures out + Early(n + 1) == if n == 0 then out else out + ["!"] + Early(n)
  {
  }

  lemma PopBang(stack: seq<char>, out: seq<string>)
    requires stack == [] || Priority(stack[|stack| - 1]) < 3
    ensures Pops('!', stack + ['!'], out) == Scanner([], stack, out + ["!"])
  {
    assert (stack + ['!'])[..|stack|] == stack;
  }

  lemma ScanLiteral(l: Literal, k: string, stack: seq<char>, out: seq<string>)
    requires IsAtom(l.atom) && Ends(k) && (stack == [] || Priority(stack[|stack| - 1]) < 3)
    ensures (Scan(Prefix(l) + l.atom + k, Scanner([], stack, out)) ==
      Scan(k, Scanner([], stack + (if l.negations > 0 then ['!'] else []), out + Early(l.negations) + [l.atom])))
  {
    hide Scan, Bangs, Early;
    var n, rest := l.negations, l.atom + k;
    NoBangs(rest);
    assert Prefix(l) + l.atom + k == Bangs(n) + rest;
    assert [] + l.atom == l.atom;
    if n > 0 {
      FirstBang(n, rest, stack, out);
      ScanBangs(n - 1, rest, stack, out);
      ScanAtom(l.atom, k, [], stack + ['!'], out + Early(n));
    } else {
      assert stack + [] == stack && out + [] == out;
      ScanAtom(l.atom, k, [], stack, out);
    }
  }

  lemma NoBangs(rest: string)
    ensures Bangs(0) + rest == rest && Early(0) == []
  {
  }

  lemma FirstBang(n: nat, rest: string, stack: seq<char>, out: seq<string>)
    requires n > 0 && (stack == [] || Priority(stack[|stack| - 1]) < 3)
    ensures Scan(Bangs(n) + rest, Scanner([], stack, out)) == Scan(Bangs(n - 1) + rest, Scanner([], stack + ['!'], out))
  {
    hide Scan;
    BangFirst(n, rest);
    ScanStep('!', Bangs(n - 1) + rest, Scanner([], stack, out));
  }

  /** Scanning an operator and a literal after `f`. */
  lemma ScanMore(c: char, f: Formula, l: Literal, k: string)
    requires (c == '&' || c == '|') && IsAtom(l.atom) && Ends(k)
    ensures (Scan([c] + Prefix(l) + l.atom + k, Scanner([], Waiting(f), Output(f))) ==
      Scan(k, Scanner([], (if c == '&' && HasOr(f) then ['|'] else []) + [c] + (if l.negations > 0 then ['!'] else []),
                      Output(f) + Moved(c, f) + Early(l.negations) + [l.atom])))
  {
    hide Waiting, Output, Moved, Early, Bangs;
    var rest := [c] + Prefix(l) + l.atom + k;
    assert rest[0] == c && rest[1..] == Prefix(l) + l.atom + k;
    PopsWaiting(c, f, Output(f));
    ScanLiteral(l, k, (if c == '&' && HasOr(f) then ['|'] else []) + [c], Output(f) + Moved(c, f));
  }

  lemma {:induction false} ScanFormula(f: Formula, k: string)
    requires Proper(f) && Ends(k)
    ensures Scan(Text(f) + k, Scanner([], [], [])) == Scan(k, Scanner([], Waiting(f), Output(f)))
    decreases f
  {
    hide Scan, Moved, Early, Bangs;
    var l := f.literal;
    match f
    case One(_) =>
      ScanLiteral(l, k, [], []);
      assert [] + (if l.negations > 0 then ['!'] else []) == Waiting(f);
      assert [] + Early(l.negations) + [l.atom] == Output(f);
    case And(left, _) =>
      ScanFormula(left, "&" + Prefix(l) + l.atom + k);
      ScanMore('&', left, l, k);
      Regroup(Text(left), "&", Prefix(l), l.atom, k);
    case Or(left, _) =>
      ScanFormula(left, "|" + Prefix(l) + l.atom + k);
      ScanMore('|', left, l, k);
      assert [] + ['|'] + (if l.negations > 0 then ['!'] else []) == Waiting(f);
      Regroup(Text(left), "|", Prefix(l), l.atom, k);
  }

  lemma Regroup(a: string, b: string, c: string, d: string, e: string)
    ensures a + b + c + d + e == a + (b + c + d + e)
  {
  }

  // ---------------------------------------------------------------- running the output

  lemma {:induction false} RunCat(a: seq<string>, b: seq<string>, key: string, meanings: seq<string>, m: Machine)
    ensures Run(a + b, key, meanings, m) == Run(b, key, meanings, Run(a, key, meanings, m))
    decreases |b|
  {
    if b == [] {
      assert a + b == a;
    } else {
      RunCat(a, b[..|b| - 1], key, meanings, m);
      assert (a + b)[..|a + b| - 1] == a + b[..|b| - 1];
    }
  }

  lemma RunOne(token: string, key: string, meanings: seq<string>, m: Machine)
    ensures Run([token], key, meanings, m) == Step(token, key, meanings, m)
  {
    assert [token][..0] == [];
  }

  /** The finished alternatives, and the finished part of the last one. */
  predicate Before(f: Formula, key: string, meanings: seq<string>) {
    match f case One(_) => true case And(left, _) => Before(left, key, meanings) && Holds(left.literal, key, meanings)
    case Or(_, _) => true
  }

  predicate Earlier(f: Formula, key: string, meanings: seq<string>)
    decreases f, 0
  {
    match f case One(_) => false case And(left, _) => Earlier(left, key, meanings)
    case Or(left, _) => Total(left, key, meanings)
  }

  predicate Total(f: Formula, key: string, meanings: seq<string>)
    decreases f, 1
  {
    Earlier(f, key, meanings) || (Before(f, key, meanings) && Holds(f.literal, key, meanings))
  }

  // The machine applies the last negation to the atom, and each earlier one to the operand before it, if there is any.

  predicate Spills(l: Literal) { l.negations > 0 && l.negations % 2 == 0 }

  predicate Taken(l: Literal, key: string, meanings: seq<string>) {
    Truth(l.atom, key, meanings) != (l.negations > 0)
  }

  predicate TakenBefore(f: Formula, key: string, meanings: seq<string>) {
    match f
    case One(_) => true
    case And(left, l) => (TakenBefore(left, key, meanings) && Taken(left.literal, key, meanings)) != Spills(l)
    case Or(_, _) => true
  }

  predicate TakenEarlier(f: Formula, key: string, meanings: seq<string>)
    decreases f, 0
  {
    match f
    case One(_) => false
    case And(left, _) => TakenEarlier(left, key, meanings)
    case Or(left, l) => TakenTotal(left, key, meanings) != Spills(l)
  }

  /** What the machine computes for a formula with any numbers of negations. */
  predicate TakenTotal(f: Formula, key: string, meanings: seq<string>)
    decreases f, 1
  {
    TakenEarlier(f, key, meanings) || (TakenBefore(f, key, meanings) && Taken(f.literal, key, meanings))
  }

  /** Operands on the stack after the output of `f`: one for each waiting binary operator, and the last atom. */
  function Operands(f: Formula, key: string, meanings: seq<string>): seq<int> {
    (if HasOr(f) then [Bit(TakenEarlier(f, key, meanings))] else []) +
    (if f.And? then [Bit(TakenBefore(f, key, meanings))] else []) + [Bit(Truth(f.literal.atom, key, meanings))]
  }

  lemma RunMoved(c: char, f: Formula, key: string, meanings: seq<string>, m: Machine)
    requires (c == '&' || c == '|') && m.stack == Operands(f, key, meanings)
    ensures (Run(Moved(c, f), key, meanings, m).stack ==
      if c == '|' then [Bit(TakenTotal(f, key, meanings))]
      else (if HasOr(f) then [Bit(TakenEarlier(f, key, meanings))] else []) +
           [Bit(TakenBefore(f, key, meanings) && Taken(f.literal, key, meanings))])
  {
    hide Run, Operate, Step;
    var low := if HasOr(f) then [Bit(TakenEarlier(f, key, meanings))] else [];
    var mid := if f.And? then [Bit(TakenBefore(f, key, meanings))] else [];
    var a, b, d := if f.literal.negations > 0 then ["!"] else [], if f.And? then ["&"] else [],
                   if c == '|' && HasOr(f) then ["|"] else [];
    RunCat(a + b, d, key, meanings, m);
    RunCat(a, b, key, meanings, m);
    RunNot(f.literal.negations > 0, low + mid, Truth(f.literal.atom, key, meanings), key, meanings, m);
    var m1 := Run(a, key, meanings, m);
    RunBinary("&", f.And?, low, TakenBefore(f, key, meanings), Taken(f.literal, key, meanings), key, meanings, m1);
    var m2 := Run(b, key, meanings, m1);
    var group := if f.And? then TakenBefore(f, key, meanings) && Taken(f.literal, key, meanings)
                 else Taken(f.literal, key, meanings);
    if c == '|' { RunBinary("|", HasOr(f), [], TakenEarlier(f, key, meanings), group, key, meanings, m2); }
    RunNone(key, meanings, m2);
    NoOr(f, key, meanings);
  }

  lemma RunNone(key: string, meanings: seq<string>, m: Machine)
    ensures Run([], key, meanings, m) == m
  {
  }

  lemma RunNot(there: bool, rest: seq<int>, x: bool, key: string, meanings: seq<string>, m: Machine)
    requires m.stack == rest + [Bit(x)]
    ensures Run(if there then ["!"] else [], key, meanings, m).stack == rest + [Bit(x != there)]
  {
    RunOne("!", key, meanings, m);
    assert m.stack[..|m.stack| - 1] == rest;
  }

  lemma RunBinary(op: string, there: bool, rest: seq<int>, x: bool, y: bool, key: string, meanings: seq<string>,
                  m: Machine)
    requires op == "&" || op == "|"
    requires m.stack == rest + (if there then [Bit(x)] else []) + [Bit(y)]
    ensures (Run(if there then [op] else [], key, meanings, m).stack ==
      rest + [Bit(if !there then y else if op == "&" then x && y else x || y)])
  {
    RunOne(op, key, meanings, m);
    if there { assert m.stack[..|m.stack| - 2] == rest; } else { assert rest + [] == rest; }
  }

  lemma {:induction false} NoOr(f: Formula, key: string, meanings: seq<string>)
    ensures !HasOr(f) ==> !TakenEarlier(f, key, meanings)
  {
    if f.And? { NoOr(f.left, key, meanings); }
  }

  /** Negations run with operands on the stack turn the last one over as often as there are. */
  lemma {:induction false} RunEarly(n: nat, rest: seq<int>, x: bool, key: string, meanings: seq<string>, m: Machine)
    requires m.stack == rest + [Bit(x)]
    ensures Run(Early(n), key, meanings, m).stack == rest + [Bit(x != (n > 0 && n % 2 == 0))]
    decreases n
  {
    hide Run, Operate, Step;
    if n <= 1 {
      RunNone(key, meanings, m);
    } else {
      RunCat(["!"], Early(n - 1), key, meanings, m);
      RunNot(true, rest, x, key, meanings, m);
      RunEarly(n - 1, rest, !x, key, meanings, Run(["!"], key, meanings, m));
    }
  }

  /** Negations run on an empty stack leave it empty. */
  lemma {:induction false} RunEarlyAlone(n: nat, key: string, meanings: seq<string>, m: Machine)
    requires m.stack == []
    ensures Run(Early(n), key, meanings, m).stack == []
    decreases n
  {
    hide Run;
    if n <= 1 {
      RunNone(key, meanings, m);
    } else {
      RunCat(["!"], Early(n - 1), key, meanings, m);
      RunOne("!", key, meanings, m);
      RunEarlyAlone(n - 1, key, meanings, Run(["!"], key, meanings, m));
    }
  }

  lemma {:induction false} RunOutput(f: Formula, key: string, meanings: seq<string>)
    requires Proper(f)
    ensures Run(Output(f), key, meanings, Machine([], 0)).stack == Operands(f, key, meanings)
    decreases f
  {
    hide Run, Moved, Early;
    var l := f.literal;
    var start := Machine([], 0);
    if f.One? {
      RunEarlyAlone(l.negations, key, meanings, start);
      RunAtom(Early(l.negations), l.atom, key, meanings, start);
    } else {
      var c := if f.And? then '&' else '|';
      var v := Output(f.left) + Moved(c, f.left);
      RunOutput(f.left, key, meanings);
      RunCat(Output(f.left), Moved(c, f.left), key, meanings, start);
      RunMoved(c, f.left, key, meanings, Run(Output(f.left), key, meanings, start));
      RunCat(v, Early(l.negations), key, meanings, start);
      RunSpill(c, f.left, l, key, meanings, Run(v, key, meanings, start));
      RunAtom(v + Early(l.negations), l.atom, key, meanings, start);
    }
  }

  /** The early negations of a literal turn over the operand before it. */
  lemma RunSpill(c: char, f: Formula, l: Literal, key: string, meanings: seq<string>, m: Machine)
    requires (m.stack ==
      if c == '|' then [Bit(TakenTotal(f, key, meanings))]
      else (if HasOr(f) then [Bit(TakenEarlier(f, key, meanings))] else []) +
           [Bit(TakenBefore(f, key, meanings) && Taken(f.literal, key, meanings))])
    ensures (Run(Early(l.negations), key, meanings, m).stack ==
      if c == '|' then [Bit(TakenTotal(f, key, meanings) != Spills(l))]
      else (if HasOr(f) then [Bit(TakenEarlier(f, key, meanings))] else []) +
           [Bit((TakenBefore(f, key, meanings) && Taken(f.literal, key, meanings)) != Spills(l))])
  {
    hide Run, Early;
    var low := if c != '|' && HasOr(f) then [Bit(TakenEarlier(f, key, meanings))] else [];
    var x := if c == '|' then TakenTotal(f, key, meanings)
             else TakenBefore(f, key, meanings) && Taken(f.literal, key, meanings);
    RunEarly(l.negations, low, x, key, meanings, m);
  }

  lemma RunAtom(v: seq<string>, atom: string, key: string, meanings: seq<string>, m: Machine)
    requires IsAtom(atom)
    ensures (Run(v + [atom], key, meanings, m).stack ==
      Run(v, key, meanings, m).stack + [Bit(Truth(atom, key, meanings))])
  {
    RunCat(v, [atom], key, meanings, m);
    RunOne(atom, key, meanings, Run(v, key, meanings, m));
    assert !IsOperator(atom[0]);
  }

  // ---------------------------------------------------------------- the value is right

  lemma {:induction false} TotalIsValue(f: Formula, key: string, meanings: seq<string>)
    ensures (var g := Groups(f);
      Earlier(f, key, meanings) == SomeHold(g[..|g| - 1], key, meanings) && g[|g| - 1] != [] &&
      Before(f, key, meanings) == AllHold(g[|g| - 1][..|g[|g| - 1]| - 1], key, meanings) &&
      g[|g| - 1][|g[|g| - 1]| - 1] == f.literal)
    ensures Total(f, key, meanings) == Value(f, key, meanings)
    decreases f
  {
    hide AllHold, SomeHold, Holds;
    var g := Groups(f);
    if f.One? {
      NoLiterals(key, meanings);
      assert g[..0] == [] && g[0][..0] == [];
    } else {
      TotalIsValue(f.left, key, meanings);
      var h := Groups(f.left);
      if f.And? {
        assert g[..|g| - 1] == h[..|h| - 1] && g[|g| - 1][..|g[|g| - 1]| - 1] == h[|h| - 1];
        LastHolds(h[|h| - 1], key, meanings);
      } else {
        NoLiterals(key, meanings);
        assert g[..|g| - 1] == h && g[|g| - 1] == [f.literal] && [f.literal][..0] == [];
      }
    }
    LastHolds(g[|g| - 1], key, meanings);
    LastGroup(g, key, meanings);
  }

  lemma NoLiterals(key: string, meanings: seq<string>)
    ensures AllHold([], key, meanings) && !SomeHold([], key, meanings)
  {
  }

  lemma LastHolds(g: seq<Literal>, key: string, meanings: seq<string>)
    requires g != []
    ensures AllHold(g, key, meanings) == (AllHold(g[..|g| - 1], key, meanings) && Holds(g[|g| - 1], key, meanings))
  {
    if AllHold(g[..|g| - 1], key, meanings) {
      forall i | 0 <= i < |g| - 1 ensures Holds(g[i], key, meanings) { assert g[..|g| - 1][i] == g[i]; }
    }
  }

  lemma LastGroup(g: seq<seq<Literal>>, key: string, meanings: seq<string>)
    requires g != []
    ensures SomeHold(g, key, meanings) == (SomeHold(g[..|g| - 1], key, meanings) || AllHold(g[|g| - 1], key, meanings))
  {
    if SomeHold(g, key, meanings) {
      var i :| 0 <= i < |g| && AllHold(g[i], key, meanings);
      assert i < |g| - 1 ==> AllHold(g[..|g| - 1][i], key, meanings);
    }
    if SomeHold(g[..|g| - 1], key, meanings) {
      var i :| 0 <= i < |g| - 1 && AllHold(g[..|g| - 1][i], key, meanings);
      assert AllHold(g[i], key, meanings);
    }
  }

  /** Draining the operators that wait is what a final `|` would do. */
  lemma DrainWaiting(f: Formula, out: seq<string>)
    ensures Drain(Waiting(f), out) == out + Moved('|', f)
  {
    hide Drain;
    var low, mid := if HasOr(f) then ['|'] else [], if f.And? then ['&'] else [];
    var out1 := out + if f.literal.negations > 0 then ["!"] else [];
    var out2 := out1 + if f.And? then ["&"] else [];
    DrainOne(low + mid, '!', f.literal.negations > 0, out);
    DrainOne(low, '&', f.And?, out1);
    DrainOne([], '|', HasOr(f), out2);
    DrainNone(out2 + if HasOr(f) then ["|"] else []);
    assert [] + low == low;
  }

  lemma DrainNone(out: seq<string>)
    ensures Drain([], out) == out
  {
  }

  lemma DrainOne(rest: seq<char>, top: char, there: bool, out: seq<string>)
    ensures Drain(rest + (if there then [top] else []), out) == Drain(rest, out + if there then [[top]] else [])
  {
    if there { assert (rest + [top])[..|rest|] == rest; } else { assert rest + [] == rest && out + [] == out; }
  }

  /** Converting any formula to postfix and running it leaves one operand, the value as the machine takes it. */
  lemma Evaluates(f: Formula, key: string, meanings: seq<string>)
    requires Proper(f)
    ensures Run(Postfix(Text(f)), key, meanings, Machine([], 0)).stack == [Bit(TakenTotal(f, key, meanings))]
    ensures Outcome(Text(f), key, meanings) == TakenTotal(f, key, meanings)
  {
    hide Run, Moved, Output, Waiting, Scan;
    var start := Machine([], 0);
    assert Text(f) + [] == Text(f);
    ScanFormula(f, []);
    ScanNothing(Scanner([], Waiting(f), Output(f)));
    DrainWaiting(f, Output(f));
    RunCat(Output(f), Moved('|', f), key, meanings, start);
    RunOutput(f, key, meanings);
    RunMoved('|', f, key, meanings, Run(Output(f), key, meanings, start));
  }

  lemma ScanNothing(s: Scanner)
    ensures Scan([], s) == s
  {
  }

  // ---------------------------------------------------------------- when the value is right

  /** Every atom is negated not at all or an odd number of times. */
  predicate OddlyNegated(f: Formula) {
    !Spills(f.literal) && (f.One? || OddlyNegated(f.left))
  }

  lemma {:induction false} OddIsTaken(f: Formula, key: string, meanings: seq<string>)
    requires OddlyNegated(f)
    ensures TakenBefore(f, key, meanings) == Before(f, key, meanings)
    ensures TakenEarlier(f, key, meanings) == Earlier(f, key, meanings)
    ensures TakenTotal(f, key, meanings) == Total(f, key, meanings)
    decreases f
  {
    if !f.One? { OddIsTaken(f.left, key, meanings); }
  }

  /** Such a formula evaluates to its value under every key and all meanings. */
  lemma EvaluatesRight(f: Formula, key: string, meanings: seq<string>)
    requires Proper(f) && OddlyNegated(f)
    ensures Run(Postfix(Text(f)), key, meanings, Machine([], 0)).stack == [Bit(Value(f, key, meanings))]
    ensures Outcome(Text(f), key, meanings) == Value(f, key, meanings)
  {
    hide Run, Postfix, Value, Total, TakenTotal, Outcome;
    Evaluates(f, key, meanings);
    OddIsTaken(f, key, meanings);
    TotalIsValue(f, key, meanings);
  }

  // ---------------------------------------------------------------- and when it is not

  function Atoms(f: Formula): set<string> {
    (if f.One? then {} else Atoms(f.left)) + {f.literal.atom}
  }

  /** No atom occurs twice, and none is the wildcard. */
  predicate Independent(f: Formula) {
    f.literal.atom != "UK" && (f.One? || (f.literal.atom !in Atoms(f.left) && Independent(f.left)))
  }

  /** The atom, if taking it for true gives the literal the value `wanted`. */
  function Pick(l: Literal, wanted: bool): seq<string> {
    if wanted != (l.negations % 2 == 1) then [l.atom] else []
  }

  /** Meanings under which no literal holds. */
  function NoneHold(f: Formula): seq<string> {
    (if f.One? then [] else NoneHold(f.left)) + Pick(f.literal, false)
  }

  /** Meanings under which the literals of the last alternative hold and no others. */
  function LastHold(f: Formula): seq<string> {
    match f
    case One(l) => Pick(l, true)
    case And(left, l) => LastHold(left) + Pick(l, true)
    case Or(left, l) => NoneHold(left) + Pick(l, true)
  }

  /** Meanings that the formula is evaluated wrongly under. */
  function Misleading(f: Formula): seq<string>
    requires !OddlyNegated(f)
  {
    match f
    case One(_) => []
    case And(left, l) =>
      if !Spills(l) then Misleading(left) + Pick(l, true)
      else if TakenEarlier(left, "UK", LastHold(left)) then LastHold(left) else LastHold(left) + [l.atom]
    case Or(left, l) => if Spills(l) then NoneHold(left) else Misleading(left) + Pick(l, false)
  }

  /** The key "UK" alone makes no atom true. */
  lemma PickedTruth(m: seq<string>, l: Literal, wanted: bool)
    requires l.atom != "UK" && l.atom !in m
    ensures Holds(l, "UK", m + Pick(l, wanted)) == wanted
    ensures !Spills(l) ==> Taken(l, "UK", m + Pick(l, wanted)) == wanted
  {
  }

  /** Only the formula's own atoms matter. */
  lemma {:induction false} OtherAtoms(f: Formula, m: seq<string>, more: seq<string>)
    requires forall a :: a in more ==> a !in Atoms(f)
    ensures Holds(f.literal, "UK", m + more) == Holds(f.literal, "UK", m)
    ensures Taken(f.literal, "UK", m + more) == Taken(f.literal, "UK", m)
    ensures Before(f, "UK", m + more) == Before(f, "UK", m) && Earlier(f, "UK", m + more) == Earlier(f, "UK", m)
    ensures TakenBefore(f, "UK", m + more) == TakenBefore(f, "UK", m)
    ensures TakenEarlier(f, "UK", m + more) == TakenEarlier(f, "UK", m)
    ensures Total(f, "UK", m + more) == Total(f, "UK", m) && TakenTotal(f, "UK", m + more) == TakenTotal(f, "UK", m)
    decreases f
  {
    assert f.literal.atom in Atoms(f);
    assert f.literal.atom in m + more <==> f.literal.atom in m;
    if !f.One? { OtherAtoms(f.left, m, more); }
  }

  lemma {:induction false} ChosenAtoms(f: Formula)
    ensures forall a :: a in NoneHold(f) || a in LastHold(f) ==> a in Atoms(f)
    ensures !OddlyNegated(f) ==> forall a :: a in Misleading(f) ==> a in Atoms(f)
    decreases f
  {
    if !f.One? { ChosenAtoms(f.left); }
  }

  lemma {:induction false} NoneHolds(f: Formula)
    requires Independent(f)
    ensures !Holds(f.literal, "UK", NoneHold(f)) && !Earlier(f, "UK", NoneHold(f))
    decreases f
  {
    if f.One? {
      PickedTruth([], f.literal, false);
      assert [] + Pick(f.literal, false) == Pick(f.literal, false);
    } else {
      NoneHolds(f.left);
      ChosenAtoms(f.left);
      PickedTruth(NoneHold(f.left), f.literal, false);
      OtherAtoms(f.left, NoneHold(f.left), Pick(f.literal, false));
    }
  }

  lemma {:induction false} LastHoldHolds(f: Formula)
    requires Independent(f)
    ensures Holds(f.literal, "UK", LastHold(f)) && Before(f, "UK", LastHold(f)) && !Earlier(f, "UK", LastHold(f))
    decreases f
  {
    if f.One? {
      PickedTruth([], f.literal, true);
      assert [] + Pick(f.literal, true) == Pick(f.literal, true);
    } else {
      var m := if f.And? then LastHold(f.left) else NoneHold(f.left);
      if f.And? { LastHoldHolds(f.left); } else { NoneHolds(f.left); }
      ChosenAtoms(f.left);
      PickedTruth(m, f.literal, true);
      OtherAtoms(f.left, m, Pick(f.literal, true));
    }
  }

  lemma Totals(f: Formula, m: seq<string>)
    ensures Total(f, "UK", m) == (Earlier(f, "UK", m) || (Before(f, "UK", m) && Holds(f.literal, "UK", m)))
    ensures TakenTotal(f, "UK", m) ==
            (TakenEarlier(f, "UK", m) || (TakenBefore(f, "UK", m) && Taken(f.literal, "UK", m)))
    ensures f.Or? ==> Earlier(f, "UK", m) == Total(f.left, "UK", m)
    ensures f.Or? ==> TakenEarlier(f, "UK", m) == (TakenTotal(f.left, "UK", m) != Spills(f.literal))
  {
  }

  /** An even number of negations is told apart by the meanings chosen. */
  lemma {:induction false} Misleads(f: Formula)
    requires Independent(f) && !OddlyNegated(f)
    ensures TakenTotal(f, "UK", Misleading(f)) != Total(f, "UK", Misleading(f))
    decreases f
  {
    var l := f.literal;
    Totals(f, Misleading(f));
    if f.One? { return; }
    ChosenAtoms(f.left);
    if !Spills(l) {
      Misleads(f.left);
      Totals(f.left, Misleading(f.left));
      PickedTruth(Misleading(f.left), l, f.And?);
      OtherAtoms(f.left, Misleading(f.left), Pick(l, f.And?));
    } else if f.And? {
      LastHoldHolds(f.left);
      OtherAtoms(f.left, LastHold(f.left), [l.atom]);
    } else {
      NoneHolds(f.left);
      assert l.atom !in NoneHold(f.left);
      Totals(f.left, NoneHold(f.left));
    }
  }

  ghost predicate AlwaysRight(f: Formula) {
    forall key, meanings :: Outcome(Text(f), key, meanings) == Value(f, key, meanings)
  }

  /** A formula of independent atoms is evaluated right under every key and all meanings if and only if
      no atom is negated an even number of times, other than not at all. */
  lemma RightExactly(f: Formula)
    requires Proper(f) && Independent(f)
    ensures AlwaysRight(f) <==> OddlyNegated(f)
  {
    hide Outcome, Value, Text, TakenTotal, Total;
    if OddlyNegated(f) {
      forall key, meanings ensures Outcome(Text(f), key, meanings) == Value(f, key, meanings) {
        EvaluatesRight(f, key, meanings);
      }
    } else {
      Misleads(f);
      Evaluates(f, "UK", Misleading(f));
      TotalIsValue(f, "UK", Misleading(f));
    }
  }

  /** The parser returns the value of every oddly negated formula, ready for the next call. */
  method ParseFormula(p: QLogicalParser, f: Formula, key: string, meanings: seq<string>) returns (r: bool)
    requires p.s == [] && Proper(f)
    modifies p
    ensures p.s == [] && r == TakenTotal(f, key, meanings)
    ensures OddlyNegated(f) ==> r == Value(f, key, meanings)
  {
    hide Run, Postfix, Value, Outcome, TakenTotal;
    Evaluates(f, key, meanings);
    if OddlyNegated(f) { EvaluatesRight(f, key, meanings); }
    r := p.Parse(Text(f), key, meanings);
  }

  /** The extra negation of `b&!!a` falls on `b`: with `b` true and `a` not, the answer is false and so is `!b&!a`,
      while `b&!a` is true. */
  lemma DoubleNegation()
    ensures (var f := And(One(Literal(0, "b")), Literal(2, "a"));
      Text(f) == "b&!!a" && !OddlyNegated(f) && !Outcome("b&!!a", "b", []))
    ensures Value(And(One(Literal(0, "b")), Literal(1, "a")), "b", [])
  {
    var l, g := One(Literal(0, "b")), And(One(Literal(0, "b")), Literal(1, "a"));
    var f := And(l, Literal(2, "a"));
    assert Bangs(1) == "!" && Bangs(2) == "!!";
    assert Text(l) == "b";
    assert Text(f) == "b&!!a";
    Evaluates(f, "b", []);
    TotalIsValue(g, "b", []);
  }

  /** A single word is true exactly when it is the wildcard, the key or a meaning, and its negation otherwise. */
  lemma OneWord(a: string, key: string, meanings: seq<string>)
    requires IsAtom(a)
    ensures (Outcome(a, key, meanings) <==>
      a == "UK" || a == key || exists i :: 0 <= i < |meanings| && meanings[i] == a)
    ensures Outcome("!" + a, key, meanings) <==> !Outcome(a, key, meanings)
  {
    hide Outcome;
    OneValue(Literal(0, a), key, meanings);
    OneValue(Literal(1, a), key, meanings);
    assert "" + a == a && Bangs(1) == "!" + Bangs(0) && "!" + "" == "!";
  }

  lemma OneValue(l: Literal, key: string, meanings: seq<string>)
    requires IsAtom(l.atom) && (l.negations == 0 || l.negations % 2 == 1)
    ensures Outcome(Prefix(l) + l.atom, key, meanings) <==> Holds(l, key, meanings)
  {
    hide Outcome;
    EvaluatesRight(One(l), key, meanings);
    assert Groups(One(l))[0][0] == l;
  }
}
