/** Small types and facts that several modules share. */
module Common {

  datatype Option<+T> = None | Some(value: T)

  type byte = b: int | 0 <= b < 256

  /** The numbers below `n`, in order. */
  function Numbers(n: nat): seq<nat> {
    seq(n, i => i)
  }

  /** Chunks joined in order. */
  function Flat<T>(chunks: seq<seq<T>>): seq<T> {
    if chunks == [] then [] else Flat(chunks[..|chunks| - 1]) + chunks[|chunks| - 1]
  }

  lemma Associate<T>(a: seq<T>, b: seq<T>, c: seq<T>)
    ensures a + b + c == a + (b + c)
  {
  }

  /** A hexadecimal digit, in small letters. */
  function HexDigit(n: int): char
    requires 0 <= n < 16
  {
    if n < 10 then ('0' as int + n) as char else ('a' as int + n - 10) as char
  }

  lemma HexDigits(n: int)
    requires 0 <= n < 16
    ensures HexDigit(n) == "0123456789abcdef"[n]
  {
  }

  /** The bytes of a text in ASCII. */
  function Ascii(s: string): (t: seq<byte>)
    requires forall i :: 0 <= i < |s| ==> s[i] < 128 as char
    ensures |t| == |s| && forall i :: 0 <= i < |s| ==> t[i] == s[i] as int
  {
    seq(|s|, i requires 0 <= i < |s| => s[i] as int)
  }

  /** Sets that a one-to-one relation pairs have the same size. */
  lemma {:induction false} PairedCount<A, B>(s: set<A>, t: set<B>, f: map<A, B>)
    requires f.Keys == s && (forall b :: b in t ==> exists a :: a in s && f[a] == b)
    requires forall a :: a in s ==> f[a] in t
    requires forall a, b :: a in s && b in s && a != b ==> f[a] != f[b]
    ensures |s| == |t|
    decreases |s|
  {
    if s == {} {
      assert t == {};
    } else {
      var a :| a in s;
      forall b | b in t - {f[a]} ensures exists c :: c in s - {a} && (f - {a})[c] == b {
        var c :| c in s && f[c] == b;
        assert c in s - {a} && (f - {a})[c] == b;
      }
      PairedCount(s - {a}, t - {f[a]}, f - {a});
    }
  }
}
