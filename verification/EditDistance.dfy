/** The recursive edit distance, and edits as such. */
module EditDistance {

  /** Equal heads are skipped; otherwise the best of replacing, inserting and deleting. */
  function MinEditDistance(a: string, b: string): nat
    decreases |a| + |b|
  {
    if a == [] || b == [] then |a| + |b|
    else if a[0] == b[0] then MinEditDistance(a[1..], b[1..])
    else
      var dis1, dis2, dis3 := MinEditDistance(a[1..], b[1..]), MinEditDistance(a, b[1..]), MinEditDistance(a[1..], b);
      Min(Min(dis1, dis2), dis3) + 1
  }

  function Min(x: nat, y: nat): nat { if x < y then x else y }

  // ---------------------------------------------------------------- single edits and sequences of them

  /** `t` is `s` with one character inserted, deleted or replaced at position `i`. */
  ghost predicate EditedAt(s: string, t: string, i: nat) {
    || (i < |t| && i <= |s| && t == s[..i] + [t[i]] + s[i..])
    || (i < |s| && t == s[..i] + s[i + 1..])
    || (i < |s| && i < |t| && t == s[..i] + [t[i]] + s[i + 1..])
  }

  ghost predicate Edited(s: string, t: string) {
    exists i :: EditedAt(s, t, i)
  }

  /** A way from `a` to `b` by single edits. */
  ghost predicate Edits(path: seq<string>, a: string, b: string) {
    && |path| > 0 && path[0] == a && path[|path| - 1] == b
    && forall k :: 0 <= k < |path| - 1 ==> Edited(path[k], path[k + 1])
  }

  // ---------------------------------------------------------------- distance laws

  lemma {:induction false} Symmetric(a: string, b: string)
    ensures MinEditDistance(a, b) == MinEditDistance(b, a)
    decreases |a| + |b|
  {
    if a != [] && b != [] {
      Symmetric(a[1..], b[1..]);
      Symmetric(a, b[1..]);
      Symmetric(a[1..], b);
    }
  }

  lemma {:induction false} ZeroOnEqual(a: string, b: string)
    ensures MinEditDistance(a, b) == 0 <==> a == b
    decreases |a| + |b|
  {
    if a != [] && b != [] && a[0] == b[0] {
      ZeroOnEqual(a[1..], b[1..]);
      assert a == [a[0]] + a[1..] && b == [b[0]] + b[1..];
    }
  }

  /** One more character in front changes the distance by at most one. */
  lemma {:induction false} Prepend(x: char, s: string, t: string)
    ensures MinEditDistance([x] + s, t) <= MinEditDistance(s, t) + 1
    ensures MinEditDistance(s, t) <= MinEditDistance([x] + s, t) + 1
    decreases |s| + |t|
  {
    if t != [] {
      var xs, y, t' := [x] + s, t[0], t[1..];
      assert xs[1..] == s && t == [y] + t';
      Prepend(y, t', s);
      Symmetric(s, t');
      Symmetric(s, t);
      Prepend(x, s, t');
    }
  }

  lemma PrependRight(x: char, s: string, t: string)
    ensures MinEditDistance(s, [x] + t) <= MinEditDistance(s, t) + 1
    ensures MinEditDistance(s, t) <= MinEditDistance(s, [x] + t) + 1
  {
    Prepend(x, t, s);
    Symmetric(s, t);
    Symmetric(s, [x] + t);
  }

  // ---------------------------------------------------------------- alignments

  datatype Op = Keep | Replace | Insert | Delete

  datatype Script = Done | Step(op: Op, rest: Script)

  function Cost(p: Script): nat {
    match p case Done => 0 case Step(op, rest) => Cost(rest) + if op == Keep then 0 else 1
  }

  /** `p` reads `a` and writes `b`. */
  predicate Turns(p: Script, a: string, b: string) {
    match p
    case Done => a == [] && b == []
    case Step(Keep, rest) => a != [] && b != [] && a[0] == b[0] && Turns(rest, a[1..], b[1..])
    case Step(Replace, rest) => a != [] && b != [] && Turns(rest, a[1..], b[1..])
    case Step(Insert, rest) => b != [] && Turns(rest, a, b[1..])
    case Step(Delete, rest) => a != [] && Turns(rest, a[1..], b)
  }

  /** No script is cheaper than the distance. */
  lemma {:induction false} DistanceLeast(p: Script, a: string, b: string)
    requires Turns(p, a, b)
    ensures MinEditDistance(a, b) <= Cost(p)
    decreases p
  {
    if p.Step? {
      match p.op {
        case Keep => DistanceLeast(p.rest, a[1..], b[1..]);
        case Replace => DistanceLeast(p.rest, a[1..], b[1..]);
        case Insert =>
          DistanceLeast(p.rest, a, b[1..]);
          PrependRight(b[0], a, b[1..]);
          assert b == [b[0]] + b[1..];
        case Delete =>
          DistanceLeast(p.rest, a[1..], b);
          Prepend(a[0], a[1..], b);
          assert a == [a[0]] + a[1..];
      }
    }
  }

  /** Some script costs exactly the distance. */
  lemma {:induction false} DistanceMet(a: string, b: string) returns (p: Script)
    ensures Turns(p, a, b) && Cost(p) == MinEditDistance(a, b)
    decreases |a| + |b|
  {
    if a == [] && b == [] {
      p := Done;
    } else if a == [] {
      var q := DistanceMet(a, b[1..]);
      p := Step(Insert, q);
    } else if b == [] {
      var q := DistanceMet(a[1..], b);
      p := Step(Delete, q);
    } else if a[0] == b[0] {
      var q := DistanceMet(a[1..], b[1..]);
      p := Step(Keep, q);
    } else {
      var q1 := DistanceMet(a[1..], b[1..]);
      var q2 := DistanceMet(a, b[1..]);
      var q3 := DistanceMet(a[1..], b);
      p := if Cost(q1) + 1 == MinEditDistance(a, b) then Step(Replace, q1)
           else if Cost(q2) + 1 == MinEditDistance(a, b) then Step(Insert, q2) else Step(Delete, q3);
    }
  }

  /** Two scripts in a row make one that costs no more. */
  lemma {:induction false} Compose(p: Script, q: Script, a: string, b: string, c: string) returns (r: Script)
    requires Turns(p, a, b) && Turns(q, b, c)
    ensures Turns(r, a, c) && Cost(r) <= Cost(p) + Cost(q)
    decreases p, q
  {
    if p.Step? && p.op == Delete {
      var s := Compose(p.rest, q, a[1..], b, c);
      r := Step(Delete, s);
    } else if q.Step? && q.op == Insert {
      var s := Compose(p, q.rest, a, b, c[1..]);
      r := Step(Insert, s);
    } else if p == Done {
      r := Done;
    } else if p.op == Insert {
      if q.op == Delete {
        r := Compose(p.rest, q.rest, a, b[1..], c);
      } else {
        var s := Compose(p.rest, q.rest, a, b[1..], c[1..]);
        r := Step(Insert, s);
      }
    } else if q.op == Delete {
      var s := Compose(p.rest, q.rest, a[1..], b[1..], c);
      r := Step(Delete, s);
    } else {
      var s := Compose(p.rest, q.rest, a[1..], b[1..], c[1..]);
      r := Step(if p.op == Keep && q.op == Keep then Keep else Replace, s);
    }
  }

  lemma Triangle(a: string, b: string, c: string)
    ensures MinEditDistance(a, c) <= MinEditDistance(a, b) + MinEditDistance(b, c)
  {
    var p := DistanceMet(a, b);
    var q := DistanceMet(b, c);
    var r := Compose(p, q, a, b, c);
    DistanceLeast(r, a, c);
  }

  // ---------------------------------------------------------------- the least number of edits

  lemma {:induction false} EditCostsOne(s: string, t: string, i: nat)
    requires EditedAt(s, t, i)
    ensures MinEditDistance(s, t) <= 1
    decreases i
  {
    ZeroOnEqual(s, s);
    ZeroOnEqual(t, t);
    if i > 0 {
      assert s != [] && t != [] && s[0] == t[0];
      EditedTails(s, t, i);
      EditCostsOne(s[1..], t[1..], i - 1);
    } else if t != [] && t == [t[0]] + s {
      PrependRight(t[0], s, s);
    } else if s != [] && t == s[1..] {
      assert s == [s[0]] + t;
      Prepend(s[0], t, t);
    } else {
      assert t[1..] == s[1..];
      ZeroOnEqual(s[1..], t[1..]);
    }
  }

  lemma EditedTails(s: string, t: string, i: nat)
    requires EditedAt(s, t, i) && i > 0
    ensures s != [] && t != [] && s[0] == t[0] && EditedAt(s[1..], t[1..], i - 1)
  {
    assert s[1..][..i - 1] == s[1..i] && s[1..][i - 1..] == s[i..];
    if i < |s| { assert s[1..][i..] == s[i + 1..]; }
  }

  /** No sequence of edits is shorter than the distance. */
  lemma {:induction false} EditsAtLeast(path: seq<string>, a: string, b: string)
    requires Edits(path, a, b)
    ensures MinEditDistance(a, b) <= |path| - 1
    decreases |path|
  {
    ZeroOnEqual(a, a);
    if |path| > 1 {
      assert Edited(path[0], path[1]);
      var i :| EditedAt(path[0], path[1], i);
      EditCostsOne(path[0], path[1], i);
      forall k | 0 <= k < |path[1..]| - 1 ensures Edited(path[1..][k], path[1..][k + 1]) {
        assert Edited(path[k + 1], path[k + 2]);
      }
      EditsAtLeast(path[1..], path[1], b);
      Triangle(a, path[1], b);
    }
  }

  /** `x` in front of every string of the path. */
  function Fronted(x: char, path: seq<string>): seq<string> {
    seq(|path|, k requires 0 <= k < |path| => [x] + path[k])
  }

  lemma FrontedEdits(x: char, path: seq<string>, a: string, b: string)
    requires Edits(path, a, b)
    ensures Edits(Fronted(x, path), [x] + a, [x] + b)
  {
    var longer := Fronted(x, path);
    forall k | 0 <= k < |longer| - 1 ensures Edited(longer[k], longer[k + 1]) {
      assert Edited(path[k], path[k + 1]);
      var i :| EditedAt(path[k], path[k + 1], i);
      EditedFronted(x, path[k], path[k + 1], i);
    }
  }

  lemma EditedFronted(x: char, s: string, t: string, i: nat)
    requires EditedAt(s, t, i)
    ensures EditedAt([x] + s, [x] + t, i + 1)
  {
    var xs, xt := [x] + s, [x] + t;
    if i <= |s| { assert xs[..i + 1] == [x] + s[..i] && xs[i + 1..] == s[i..]; }
    if i < |s| { assert xs[i + 2..] == s[i + 1..]; }
  }

  lemma EditFirst(path: seq<string>, a: string, m: string, b: string)
    requires Edits(path, m, b) && Edited(a, m)
    ensures Edits([a] + path, a, b)
  {
    var longer := [a] + path;
    forall k | 0 <= k < |longer| - 1 ensures Edited(longer[k], longer[k + 1]) {
      if k > 0 { assert Edited(path[k - 1], path[k]); }
    }
  }

  /** The distance is reached by some sequence of edits. */
  lemma {:induction false} EditsReach(a: string, b: string) returns (path: seq<string>)
    ensures Edits(path, a, b) && |path| - 1 == MinEditDistance(a, b)
    decreases |a| + |b|
  {
    if a == [] && b == [] {
      path := [a];
    } else if b == [] {
      var rest := EditsReach(a[1..], b);
      assert EditedAt(a, a[1..], 0);
      EditFirst(rest, a, a[1..], b);
      path := [a] + rest;
    } else if a == [] {
      path := InsertFirst(a, b);
    } else if a[0] == b[0] {
      var rest := EditsReach(a[1..], b[1..]);
      FrontedEdits(a[0], rest, a[1..], b[1..]);
      assert a == [a[0]] + a[1..] && b == [b[0]] + b[1..];
      path := Fronted(a[0], rest);
    } else if MinEditDistance(a, b) == MinEditDistance(a[1..], b[1..]) + 1 {
      var rest := EditsReach(a[1..], b[1..]);
      FrontedEdits(b[0], rest, a[1..], b[1..]);
      var m := [b[0]] + a[1..];
      assert EditedAt(a, m, 0);
      assert b == [b[0]] + b[1..];
      EditFirst(Fronted(b[0], rest), a, m, b);
      path := [a] + Fronted(b[0], rest);
    } else if MinEditDistance(a, b) == MinEditDistance(a, b[1..]) + 1 {
      path := InsertFirst(a, b);
    } else {
      var rest := EditsReach(a[1..], b);
      assert EditedAt(a, a[1..], 0);
      EditFirst(rest, a, a[1..], b);
      path := [a] + rest;
    }
  }

  lemma InsertFirst(a: string, b: string) returns (path: seq<string>)
    requires b != []
    ensures Edits(path, a, b) && |path| - 1 == MinEditDistance(a, b[1..]) + 1
    decreases |a| + |b|, 0
  {
    var rest := EditsReach(a, b[1..]);
    FrontedEdits(b[0], rest, a, b[1..]);
    var m := [b[0]] + a;
    assert EditedAt(a, m, 0);
    assert b == [b[0]] + b[1..];
    EditFirst(Fronted(b[0], rest), a, m, b);
    path := [a] + Fronted(b[0], rest);
  }
}
