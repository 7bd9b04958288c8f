/** File names of stored images: directory, three digits of the id, the id in hexadecimal, and the type. */
module ImagePath {
  import opened Common

  function TypeName(kind: int): string {
    match kind case 0 => "jpg" case 1 => "png" case 2 => "bmp" case 3 => "gif" case 4 => "tif" case _ => "jpg"
  }

  /** Without leading zeros, as `%lx` prints it. */
  function Hex(n: nat): string {
    if n < 16 then [HexDigit(n)] else Hex(n / 16) + [HexDigit(n % 16)]
  }

  function Decimal3(n: nat): (s: string)
    requires n < 1000
    ensures |s| == 3
  {
    ['0' + (n / 100) as char, '0' + (n / 10 % 10) as char, '0' + (n % 10) as char]
  }

  function PathOf(dir: string, id: nat, kind: int): string {
    dir + "/" + Decimal3(id % 1000) + "/" + Hex(id) + "." + TypeName(kind)
  }

  lemma TypeNames()
    ensures [TypeName(0), TypeName(1), TypeName(2), TypeName(3), TypeName(4)] == ["jpg", "png", "bmp", "gif", "tif"]
  {
  }

  /** Id 3987 in folder 987 under its hexadecimal name f93. */
  lemma SamplePath(dir: string, kind: int)
    ensures PathOf(dir, 3987, kind) == dir + "/987/f93." + TypeName(kind)
  {
    hide TypeName;
    assert Hex(3987) == Hex(249) + ['3'] && Hex(249) == Hex(15) + ['9'] && Hex(15) == "f" && Decimal3(987) == "987";
    assert PathOf(dir, 3987, kind) == dir + ("/" + "987" + "/" + "f93" + ".") + TypeName(kind);
    assert "/" + "987" + "/" + "f93" + "." == "/987/f93.";
  }

  lemma {:induction false} HexInjective(m: nat, n: nat)
    requires Hex(m) == Hex(n)
    ensures m == n
    decreases m
  {
    var a, b := Hex(m), Hex(n);
    HexLength(m);
    HexLength(n);
    assert a[|a| - 1] == HexDigit(m % 16) && b[|b| - 1] == HexDigit(n % 16);
    DigitInjective(m % 16, n % 16);
    if m >= 16 && n >= 16 {
      assert a[..|a| - 1] == Hex(m / 16) && b[..|b| - 1] == Hex(n / 16);
      HexInjective(m / 16, n / 16);
    }
  }

  lemma HexLength(n: nat)
    ensures |Hex(n)| >= 1 && (n >= 16 <==> |Hex(n)| >= 2)
  {
    if n >= 16 { HexLength(n / 16); }
  }

  lemma DigitInjective(x: nat, y: nat)
    requires x < 16 && y < 16 && HexDigit(x) == HexDigit(y)
    ensures x == y
  {
  }

  lemma {:induction false} HexHasNoDot(n: nat, i: nat)
    requires i < |Hex(n)|
    ensures Hex(n)[i] != '.'
    decreases n
  {
    if n >= 16 && i < |Hex(n / 16)| { HexHasNoDot(n / 16, i); }
  }

  /** Two paths in one directory are equal only if they name the same id. */
  lemma PathNamesId(dir: string, m: nat, k: int, n: nat, l: int)
    requires PathOf(dir, m, k) == PathOf(dir, n, l)
    ensures m == n
  {
    FileName(dir, m, k);
    FileName(dir, n, l);
    hide PathOf, Hex, TypeName;
    SameHead(Hex(m), TypeName(k), Hex(n), TypeName(l), m, n);
    HexInjective(m, n);
  }

  lemma FileName(dir: string, id: nat, kind: int)
    ensures |PathOf(dir, id, kind)| >= |dir| + 5
    ensures PathOf(dir, id, kind)[|dir| + 5..] == Hex(id) + "." + TypeName(kind)
  {
    hide Hex, TypeName, Decimal3;
    assert |dir + "/" + Decimal3(id % 1000) + "/"| == |dir| + 5;
    assert PathOf(dir, id, kind) == dir + "/" + Decimal3(id % 1000) + "/" + (Hex(id) + "." + TypeName(kind));
  }

  lemma SameHead(a: string, x: string, b: string, y: string, m: nat, n: nat)
    requires a == Hex(m) && b == Hex(n) && a + "." + x == b + "." + y
    ensures a == b
  {
    var s, t := a + "." + x, b + "." + y;
    assert s[|a|] == '.' && t[|b|] == '.';
    if |a| < |b| { HexHasNoDot(n, |a|); }
    if |b| < |a| { HexHasNoDot(m, |b|); }
    assert a == s[..|a|] && b == t[..|b|];
  }
}
