/** The keyword formula evaluator: infix to postfix with an operator stack, then a stack machine. */
module LogicalParser {

  predicate IsOperator(c: char) { c == '&' || c == '|' || c == '!' }

  function Priority(c: char): int {
    if c == '|' then 1 else if c == '&' then 2 else if c == '!' then 3 else -1
  }

  // ---------------------------------------------------------------- infix to postfix

  /** The atom begun, the operator stack (top last) and the output. */
  datatype Scanner = Scanner(t: string, stack: seq<char>, out: seq<string>)

  /** Moves operators that bind at least as tightly as `c` to the output. */
  function Pops(c: char, stack: seq<char>, out: seq<string>): Scanner
    decreases |stack|
  {
    if stack != [] && Priority(c) <= Priority(stack[|stack| - 1])
    then Pops(c, stack[..|stack| - 1], out + [[stack[|stack| - 1]]])
    else Scanner([], stack, out)
  }

  /** One character; an atom is complete when an operator or the end follows. */
  function Read(c: char, ends: bool, s: Scanner): Scanner {
    if IsOperator(c) then
      var p := Pops(c, s.stack, s.out);
      Scanner(s.t, p.stack + [c], p.out)
    else if ends then Scanner([], s.stack, s.out + [s.t + [c]])
    else Scanner(s.t + [c], s.stack, s.out)
  }

  function Ends(rest: string): bool { rest == [] || IsOperator(rest[0]) }

  function Scan(rest: string, s: Scanner): Scanner
    decreases |rest|
  {
    if rest == [] then s else Scan(rest[1..], Read(rest[0], Ends(rest[1..]), s))
  }

  function Drain(stack: seq<char>, out: seq<string>): seq<string>
    decreases |stack|
  {
    if stack == [] then out else Drain(stack[..|stack| - 1], out + [[stack[|stack| - 1]]])
  }

  function Postfix(gram: string): seq<string> {
    var s := Scan(gram, Scanner([], [], []));
    Drain(s.stack, s.out)
  }

  // ---------------------------------------------------------------- the stack machine

  /** An atom counts as true when it is the wildcard, the key, or one of the meanings. */
  predicate Truth(atom: string, key: string, meanings: seq<string>) {
    atom == "UK" || atom == key || atom in meanings
  }

  function Bit(b: bool): int { if b then 1 else 0 }

  /** Operand stack, top last, and the last value an operator returned. */
  datatype Machine = Machine(stack: seq<int>, result: int)

  function Operate(op: string, m: Machine): Machine {
    var n := |m.stack|;
    if op == "!" then
      if n < 1 then Machine([], 0)
      else
        var v := if m.stack[n - 1] == 1 then 0 else 1;
        Machine(m.stack[..n - 1] + [v], v)
    else if n < 2 then Machine([], 0)
    else
      var left, right := m.stack[n - 2], m.stack[n - 1];
      var v := if op == "&" then Bit(left == 1 && right == 1) else Bit(left == 1 || right == 1);
      Machine(m.stack[..n - 2] + [v], v)
  }

  function Step(token: string, key: string, meanings: seq<string>, m: Machine): Machine {
    if token == "&" || token == "|" || token == "!" then Operate(token, m)
    else Machine(m.stack + [Bit(Truth(token, key, meanings))], m.result)
  }

  function Run(v: seq<string>, key: string, meanings: seq<string>, m: Machine): Machine
    decreases |v|
  {
    if v == [] then m else Step(v[|v| - 1], key, meanings, Run(v[..|v| - 1], key, meanings, m))
  }

  /** What the parser answers for a text: the bottom of the operand stack, or the last result when it is empty. */
  predicate Outcome(gram: string, key: string, meanings: seq<string>) {
    var m := Run(Postfix(gram), key, meanings, Machine([], 0));
    (if m.stack == [] then m.result else m.stack[0]) != 0
  }

  // ---------------------------------------------------------------- the parser object

  class QLogicalParser {
    var s: seq<int>

    constructor ()
      ensures s == []
    {
      s := [];
    }

    /** Whatever the formula, the operand stack is empty again afterwards. */
    method Parse(gram: string, key: string, meanings: seq<string>) returns (r: bool)
      requires s == []
      modifies this
      ensures s == []
      ensures r == Outcome(gram, key, meanings)
    {
      var v := InToPost(gram);
      var result := CalRun(key, meanings, v);
      r := result != 0;
    }

    method InToPost(gram: string) returns (v: seq<string>)
      ensures v == Postfix(gram)
    {
      v := [];
      var t, stk: seq<char> := [], [];
      var pos := 0;
      ghost var all := Scan(gram, Scanner([], [], []));
      assert gram[0..] == gram;
      while pos != |gram|
        invariant 0 <= pos <= |gram| && Scan(gram[pos..], Scanner(t, stk, v)) == all
        decreases |gram| - pos
      {
        var c := gram[pos];
        ghost var s0 := Scanner(t, stk, v);
        assert gram[pos..][1..] == gram[pos + 1..];
        if IsOperator(c) {
          while stk != [] && Priority(c) <= Priority(stk[|stk| - 1])
            invariant Pops(c, stk, v) == Pops(c, s0.stack, s0.out)
            decreases |stk|
          {
            v := v + [[stk[|stk| - 1]]];
            stk := stk[..|stk| - 1];
          }
          stk := stk + [c];
        } else if pos == |gram| - 1 || IsOperator(gram[pos + 1]) {
          v := v + [t + [c]];
          t := [];
        } else {
          t := t + [c];
        }
        pos := pos + 1;
      }
      while stk != []
        invariant Drain(stk, v) == Drain(all.stack, all.out)
        decreases |stk|
      {
        v := v + [[stk[|stk| - 1]]];
        stk := stk[..|stk| - 1];
      }
    }

    method CalRun(key: string, meanings: seq<string>, v: seq<string>) returns (result: int)
      requires s == []
      modifies this
      ensures s == []
      ensures (var m := Run(v, key, meanings, Machine([], 0)); result == if m.stack == [] then m.result else m.stack[0])
    {
      result := 0;
      var i := 0;
      while i != |v|
        invariant 0 <= i <= |v| && Machine(s, result) == Run(v[..i], key, meanings, Machine([], 0))
        decreases |v| - i
      {
        assert v[..i + 1][..i] == v[..i];
        if v[i] == "&" || v[i] == "|" || v[i] == "!" {
          result := DoOperator(v[i], result);
        } else {
          s := s + [if Truth(v[i], key, meanings) then 1 else 0];
        }
        i := i + 1;
      }
      assert v[..i] == v;
      ghost var m := Machine(s, result);
      while s != []
        invariant s <= m.stack && ((s == m.stack && result == m.result) || (s < m.stack && result == m.stack[|s|]))
        decreases |s|
      {
        result := s[|s| - 1];
        s := s[..|s| - 1];
      }
    }

    method DoOperator(op: string, ghost before: int) returns (v: int)
      requires op == "&" || op == "|" || op == "!"
      modifies this
      ensures Machine(s, v) == Operate(op, old(Machine(s, before)))
    {
      var left, right := 0, 0;
      v := 0;
      var res := true;
      if s == [] {
        res := false;
      } else {
        right := s[|s| - 1];
        s := s[..|s| - 1];
        if op != "!" {
          if s == [] {
            res := false;
          } else {
            left := s[|s| - 1];
            s := s[..|s| - 1];
          }
        }
      }
      if res {
        if op == "!" {
          v := if right == 1 then 0 else 1;
        } else if op == "&" {
          v := if left == 1 && right == 1 then 1 else 0;
        } else {
          v := if left == 1 || right == 1 then 1 else 0;
        }
        s := s + [v];
      } else {
        s := [];
      }
    }
  }
}
