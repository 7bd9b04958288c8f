/** Word segmentation of UTF-16LE text by shortest path (include/common/qwordtokenizer.cc).
    The dictionary is arbitrary: for each offset, the positions of the last characters of the words starting there. */
module WordTokenizer {
  import opened Common
  import opened Graphs

  type Dictionary = nat -> seq<nat>

  const UBYTES := 2
  const SEPARATOR: seq<byte> := [0x2F, 0x00]

  /** What the word lookup promises about the positions it returns. */
  ghost predicate DictionaryFits(dict: Dictionary, len: nat) {
    forall i, k :: 0 <= i < len && 0 <= k < |dict(i)| ==>
      i <= dict(i)[k] < len && (i % 2 == 0 ==> dict(i)[k] % 2 == 0)
  }

  function Ucs(text: seq<byte>, i: nat): nat
    requires i + 1 < |text|
  {
    text[i] as int + 256 * text[i + 1] as int
  }

  predicate IsDigit(c: nat) { 0x30 <= c <= 0x39 }
  predicate IsLetter(c: nat) { 0x41 <= c <= 0x5a || 0x61 <= c <= 0x7a }

  predicate RunMark(c: nat) { c in {0x5f, 0x2d, 0x2e, 0x2f, 0x7e, 0x40, 0xff0d, 0x33A1} }

  /** May continue a run that started with a letter or digit; a comma only after a digit. */
  predicate RunChar(text: seq<byte>, pos: nat)
    requires UBYTES <= pos && pos + 1 < |text|
  {
    var c := Ucs(text, pos);
    IsDigit(c) || IsLetter(c) || RunMark(c) ||
    (c == 0x2c && IsDigit(Ucs(text, pos - UBYTES)))
  }

  /** `e` ends the longest run of run characters that starts after the character at `i`. */
  ghost predicate RunEnd(text: seq<byte>, i: nat, e: nat) {
    i + UBYTES <= e <= |text| && e % 2 == 0 &&
    (forall k :: i + UBYTES <= k < e && k % 2 == 0 && k + 1 < |text| ==> RunChar(text, k)) &&
    (e + 1 < |text| ==> !RunChar(text, e))
  }

  predicate TagChar(c: nat) { IsLetter(c) || c == 0x2f }

  /** The classes in ASCII; the full-width hyphen and the square metre sign continue a run as well. */
  lemma CharacterClasses(c: nat)
    ensures IsDigit(c) <==> c < 128 && '0' <= c as char <= '9'
    ensures IsLetter(c) <==> c < 128 && ('A' <= c as char <= 'Z' || 'a' <= c as char <= 'z')
    ensures RunMark(c) <==> (c < 128 && c as char in {'_', '-', '.', '/', '~', '@'}) || c == 0xff0d || c == 0x33a1
    ensures TagChar(c) <==> c < 128 && ('A' <= c as char <= 'Z' || 'a' <= c as char <= 'z' || c as char == '/')
  {
  }

  /** The character at `k`, where there is one. */
  ghost predicate Has(text: seq<byte>, k: nat, c: char) { k + 1 < |text| && Ucs(text, k) == c as int }

  ghost predicate TagGoesOn(text: seq<byte>, k: nat) { k + 1 < |text| && TagChar(Ucs(text, k)) }

  /** An HTML tag opened just before `pos` is taken to end at `e`: at `pos` itself where neither a letter nor '/'
      follows, and else just past a '>' or at the end of the text, where every '>' inside the tag is followed by a
      letter or '/', and the tag by neither. */
  ghost predicate TagEnd(text: seq<byte>, pos: nat, e: nat) {
    pos <= e <= |text| && e % 2 == 0 &&
    if !TagGoesOn(text, pos) then e == pos
    else
      pos < e && !TagGoesOn(text, e) &&
      (e < |text| ==> Has(text, e - UBYTES, '>')) &&
      forall k {:trigger Has(text, k, '>')} ::
        pos <= k < e - UBYTES && k % 2 == 0 && Has(text, k, '>') ==> TagGoesOn(text, k + UBYTES)
  }

  /** The tag "<b>" ends before the Chinese character that follows it. */
  lemma SampleTag()
    ensures TagEnd([0x3c, 0, 0x62, 0, 0x3e, 0, 0x2d, 0x4e], 2, 6)
  {
  }

  /** A tag goes on past '>' where '/' follows: "<b>/>" before "." ends after the second '>'. */
  lemma SampleTags()
    ensures TagEnd([0x3c, 0, 0x62, 0, 0x3e, 0, 0x2f, 0, 0x3e, 0, 0x2e, 0], 2, 10)
  {
  }

  /** In "1,5a,b" the comma after the digit belongs to the run, and the one after the letter ends it. */
  lemma SampleRun()
    ensures RunEnd([0x31, 0, 0x2c, 0, 0x35, 0, 0x61, 0, 0x2c, 0, 0x62, 0], 0, 8)
  {
  }

  /** The word graph: a single character, a dictionary word, an alphanumeric run or a tag spans `i` to `j`. */
  ghost predicate WordEdge(text: seq<byte>, dict: Dictionary, i: nat, j: nat)
    requires |text| % 2 == 0
  {
    i % 2 == 0 && i < |text| &&
    (j == i + UBYTES
     || (exists k :: 0 <= k < |dict(i)| && j == dict(i)[k] + UBYTES)
     || ((IsDigit(Ucs(text, i)) || IsLetter(Ucs(text, i))) && RunEnd(text, i, j))
     || (Has(text, i, '<') && TagEnd(text, i + UBYTES, j)))
  }

  /** Whatever the dictionary: "1a" and "a1" before a Chinese character are one piece each, "<b>" is one, and the
      Chinese character is one by itself. */
  lemma SampleEdges(dict: Dictionary)
    ensures WordEdge([0x31, 0, 0x61, 0, 0x2d, 0x4e], dict, 0, 4)
    ensures WordEdge([0x61, 0, 0x31, 0, 0x2d, 0x4e], dict, 0, 4)
    ensures WordEdge([0x3c, 0, 0x62, 0, 0x3e, 0, 0x2d, 0x4e], dict, 0, 6)
    ensures WordEdge([0x3c, 0, 0x62, 0, 0x3e, 0, 0x2d, 0x4e], dict, 6, 8)
  {
    assert RunEnd([0x31, 0, 0x61, 0, 0x2d, 0x4e], 0, 4);
    assert RunEnd([0x61, 0, 0x31, 0, 0x2d, 0x4e], 0, 4);
    SampleTag();
  }

  lemma WordEdgeForward(text: seq<byte>, dict: Dictionary, i: nat, j: nat)
    requires |text| % 2 == 0 && DictionaryFits(dict, |text|) && WordEdge(text, dict, i, j)
    ensures i < j <= |text| && j % 2 == 0
  {
  }

  /** The graph has exactly the word edges of the first `n` bytes, each of cost one. */
  ghost predicate GraphOf(g: Adjacency<(nat, nat)>, text: seq<byte>, dict: Dictionary, n: nat)
    requires |text| % 2 == 0
  {
    forall u: nat, v: nat :: Weight(g, u, v) == if u < n && WordEdge(text, dict, u, v) then Some(1.0) else None
  }

  method AlnumRun(text: seq<byte>, i: nat) returns (pos: nat)
    requires |text| % 2 == 0 && i % 2 == 0 && i < |text|
    ensures RunEnd(text, i, pos)
  {
    pos := i + UBYTES;
    while pos < |text|
      invariant i + UBYTES <= pos <= |text| && pos % 2 == 0
      invariant forall k :: i + UBYTES <= k < pos && k % 2 == 0 && k + 1 < |text| ==> RunChar(text, k)
    {
      if RunChar(text, pos) { pos := pos + UBYTES; } else { break; }
    }
  }

  lemma RunEndUnique(text: seq<byte>, i: nat, e: nat, f: nat)
    requires |text| % 2 == 0 && RunEnd(text, i, e) && RunEnd(text, i, f)
    ensures e == f
  {
  }

  /** Just past the first '>' at or after `start`, or the end of the text. */
  method SkipPastGt(text: seq<byte>, start: nat) returns (pos: nat)
    requires |text| % 2 == 0 && start % 2 == 0 && start < |text|
    ensures start < pos <= |text| && pos % 2 == 0 && (pos < |text| ==> Has(text, pos - UBYTES, '>'))
    ensures forall k :: start <= k < pos - UBYTES && k % 2 == 0 ==> !Has(text, k, '>')
  {
    pos := start;
    while pos < |text|
      invariant start <= pos <= |text| && pos % 2 == 0
      invariant forall k :: start <= k < pos && k % 2 == 0 ==> !Has(text, k, '>')
    {
      if Ucs(text, pos) == 0x3e {
        pos := pos + UBYTES;
        break;
      }
      pos := pos + UBYTES;
    }
  }

  method TagRun(text: seq<byte>, i: nat) returns (pos: nat)
    requires |text| % 2 == 0 && i % 2 == 0 && i < |text|
    ensures TagEnd(text, i + UBYTES, pos)
  {
    ghost var start := i + UBYTES;
    pos := i + UBYTES;
    while pos < |text|
      invariant start <= pos <= |text| && pos % 2 == 0
      invariant pos > start ==> TagGoesOn(text, start) && (pos < |text| ==> Has(text, pos - UBYTES, '>'))
      invariant forall k {:trigger Has(text, k, '>')} ::
                  start <= k < pos - UBYTES && k % 2 == 0 && Has(text, k, '>') ==> TagGoesOn(text, k + UBYTES)
    {
      if TagChar(Ucs(text, pos)) {
        pos := SkipPastGt(text, pos);
      } else {
        break;
      }
    }
  }

  lemma TagEndUnique(text: seq<byte>, pos: nat, e: nat, f: nat)
    requires |text| % 2 == 0 && TagEnd(text, pos, e) && TagEnd(text, pos, f)
    ensures e == f
  {
  }

  method GenerateWordGraph(text: seq<byte>, dict: Dictionary, graph: AdjGraph<(nat, nat)>)
    requires 0 < |text| && |text| % 2 == 0 && DictionaryFits(dict, |text|)
    requires graph.Valid() && |graph.nodeTable| == |text| + 1 && GraphOf(graph.nodeTable, text, dict, 0)
    modifies graph
    ensures graph.Valid() && |graph.nodeTable| == |text| + 1
    ensures GraphOf(graph.nodeTable, text, dict, |text|)
  {
    var i := 0;
    while i != |text|
      invariant i <= |text| && i % 2 == 0
      invariant graph.Valid() && |graph.nodeTable| == |text| + 1 && GraphOf(graph.nodeTable, text, dict, i)
      decreases |text| - i
    {
      InsertWordEdges(text, dict, graph, i);
      i := i + UBYTES;
    }
  }

  /** `g` is `before` with unit edges from `i` to each of `ends`. */
  ghost predicate EdgesAdded(before: Adjacency<(nat, nat)>, g: Adjacency<(nat, nat)>, i: nat, ends: set<nat>) {
    forall u: nat, v: nat :: Weight(g, u, v) == if u == i && v in ends then Some(1.0) else Weight(before, u, v)
  }

  method AddUnitEdge(graph: AdjGraph<(nat, nat)>, i: nat, end: nat,
                     ghost before: Adjacency<(nat, nat)>, ghost ends: set<nat>)
    requires graph.Valid() && i <= end < |graph.nodeTable|
    requires EdgesAdded(before, graph.nodeTable, i, ends) && Weight(before, i, end) == None
    modifies graph
    ensures graph.Valid() && |graph.nodeTable| == old(|graph.nodeTable|)
    ensures EdgesAdded(before, graph.nodeTable, i, ends + {end})
  {
    var _ := graph.InsertEdge(i, end, (i, end - i), 1.0);
  }

  lemma GraphGrows(before: Adjacency<(nat, nat)>, g: Adjacency<(nat, nat)>, text: seq<byte>, dict: Dictionary,
                   i: nat, ends: set<nat>)
    requires |text| % 2 == 0 && i % 2 == 0 && GraphOf(before, text, dict, i) && EdgesAdded(before, g, i, ends)
    requires forall v: nat :: v in ends <==> WordEdge(text, dict, i, v)
    ensures GraphOf(g, text, dict, i + UBYTES)
  {
  }

  /** The ends of the words that the dictionary starts at `i`, up to the `n`-th. */
  ghost function WordEnds(dict: Dictionary, i: nat, n: nat): set<nat>
    requires n <= |dict(i)|
  {
    set k | 0 <= k < n :: dict(i)[k] + UBYTES
  }

  method InsertDictionaryEdges(dict: Dictionary, graph: AdjGraph<(nat, nat)>, i: nat,
                               ghost before: Adjacency<(nat, nat)>)
    requires graph.Valid() && forall k :: 0 <= k < |dict(i)| ==> i <= dict(i)[k] + UBYTES < |graph.nodeTable|
    requires EdgesAdded(before, graph.nodeTable, i, {} + {i + UBYTES}) && forall v: nat :: Weight(before, i, v) == None
    modifies graph
    ensures graph.Valid() && |graph.nodeTable| == old(|graph.nodeTable|)
    ensures EdgesAdded(before, graph.nodeTable, i, {i + UBYTES} + WordEnds(dict, i, |dict(i)|))
  {
    var posVec := dict(i);
    assert {i + UBYTES} + WordEnds(dict, i, 0) == {} + {i + UBYTES};
    for j := 0 to |posVec|
      invariant graph.Valid() && |graph.nodeTable| == old(|graph.nodeTable|)
      invariant EdgesAdded(before, graph.nodeTable, i, {i + UBYTES} + WordEnds(dict, i, j))
    {
      AddUnitEdge(graph, i, posVec[j] + UBYTES, before, {i + UBYTES} + WordEnds(dict, i, j));
      assert {i + UBYTES} + WordEnds(dict, i, j + 1) == {i + UBYTES} + WordEnds(dict, i, j) + {posVec[j] + UBYTES};
    }
  }

  /** One pass of the loop: all edges that leave position `i`. */
  method InsertWordEdges(text: seq<byte>, dict: Dictionary, graph: AdjGraph<(nat, nat)>, i: nat)
    requires |text| % 2 == 0 && DictionaryFits(dict, |text|) && i < |text| && i % 2 == 0
    requires graph.Valid() && |graph.nodeTable| == |text| + 1 && GraphOf(graph.nodeTable, text, dict, i)
    modifies graph
    ensures graph.Valid() && |graph.nodeTable| == |text| + 1
    ensures GraphOf(graph.nodeTable, text, dict, i + UBYTES)
  {
    ghost var before := graph.nodeTable;
    assert forall v: nat :: Weight(before, i, v) == None;
    AddUnitEdge(graph, i, i + UBYTES, before, {});
    InsertDictionaryEdges(dict, graph, i, before);
    ghost var ends := {i + UBYTES} + WordEnds(dict, i, |dict(i)|);
    var ucs := Ucs(text, i);
    ghost var runs, tags: set<nat> := {}, {};
    if IsDigit(ucs) || IsLetter(ucs) {
      var pos := AlnumRun(text, i);
      AddUnitEdge(graph, i, pos, before, ends);
      runs := {pos};
    }
    if ucs == 0x3c {
      var pos := TagRun(text, i);
      AddUnitEdge(graph, i, pos, before, ends + runs);
      tags := {pos};
    }
    assert ends + {} == ends && ends + runs + {} == ends + runs;
    EndsAreWordEdges(text, dict, i, runs, tags);
    GraphGrows(before, graph.nodeTable, text, dict, i, ends + runs + tags);
  }

  lemma EndsAreWordEdges(text: seq<byte>, dict: Dictionary, i: nat, runs: set<nat>, tags: set<nat>)
    requires |text| % 2 == 0 && i < |text| && i % 2 == 0
    requires if IsDigit(Ucs(text, i)) || IsLetter(Ucs(text, i))
             then exists e: nat :: RunEnd(text, i, e) && runs == {e} else runs == {}
    requires if Has(text, i, '<') then exists e: nat :: TagEnd(text, i + UBYTES, e) && tags == {e} else tags == {}
    ensures forall v: nat ::
              v in {i + UBYTES} + WordEnds(dict, i, |dict(i)|) + runs + tags <==> WordEdge(text, dict, i, v)
  {
    forall e: nat, f: nat | RunEnd(text, i, e) && RunEnd(text, i, f) ensures e == f { RunEndUnique(text, i, e, f); }
    var start := i + UBYTES;
    forall e: nat, f: nat | TagEnd(text, start, e) && TagEnd(text, start, f) ensures e == f {
      TagEndUnique(text, start, e, f);
    }
  }

  // ---- Segmentations

  /** Cut positions from 0 to the end of the text, each piece an edge of the word graph. */
  ghost predicate Segmentation(text: seq<byte>, dict: Dictionary, cuts: seq<nat>)
    requires |text| % 2 == 0
  {
    |cuts| > 0 && cuts[0] == 0 && cuts[|cuts| - 1] == |text| &&
    forall k :: 0 <= k < |cuts| - 1 ==> WordEdge(text, dict, cuts[k], cuts[k + 1])
  }

  ghost predicate Minimal(text: seq<byte>, dict: Dictionary, cuts: seq<nat>)
    requires |text| % 2 == 0
  {
    Segmentation(text, dict, cuts) &&
    forall other :: Segmentation(text, dict, other) ==> |cuts| <= |other|
  }

  /** Some segmentation has at most 99,999,999 pieces, the most the graph search can count. */
  ghost predicate Countable(text: seq<byte>, dict: Dictionary)
    requires |text| % 2 == 0
  {
    exists cuts :: Segmentation(text, dict, cuts) && |cuts| - 1 <= 99_999_999
  }

  lemma {:induction false} UnitCost(g: Adjacency<(nat, nat)>, p: seq<nat>)
    requires IsPath(g, p) && forall u: nat, v: nat :: Weight(g, u, v).Some? ==> Weight(g, u, v).value == 1.0
    ensures Cost(g, p) == (|p| - 1) as real
    decreases |p|
  {
    if |p| > 1 { UnitCost(g, p[..|p| - 1]); }
  }

  /** Paths of the word graph are segmentations, and their cost counts the pieces. */
  lemma PathsAreSegmentations(g: Adjacency<(nat, nat)>, text: seq<byte>, dict: Dictionary, p: seq<nat>)
    requires |text| % 2 == 0 && GraphOf(g, text, dict, |text|)
    ensures PathBetween(g, p, 0, |text|) <==> Segmentation(text, dict, p)
    ensures IsPath(g, p) ==> Cost(g, p) == (|p| - 1) as real
  {
    if IsPath(g, p) { UnitCost(g, p); }
  }

  lemma ShortestIsMinimal(g: Adjacency<(nat, nat)>, text: seq<byte>, dict: Dictionary, p: seq<nat>)
    requires |text| % 2 == 0 && GraphOf(g, text, dict, |text|)
    ensures Reachable(g, 0, |text|) <==> Countable(text, dict)
    ensures Shortest(g, p, 0, |text|) ==> Minimal(text, dict, p)
  {
    forall q ensures PathBetween(g, q, 0, |text|) <==> Segmentation(text, dict, q)
             ensures IsPath(g, q) ==> Cost(g, q) == (|q| - 1) as real
    {
      PathsAreSegmentations(g, text, dict, q);
    }
  }

  /** Cutting after every character is always a segmentation. */
  lemma SingleCharacters(text: seq<byte>, dict: Dictionary)
    requires |text| % 2 == 0
    ensures |text| <= 199_999_998 ==> Countable(text, dict)
    ensures WordEdge(text, dict, 0, |text|) ==> Countable(text, dict)
  {
    var whole := [0, |text|];
    assert WordEdge(text, dict, 0, |text|) ==> Segmentation(text, dict, whole);
    var cuts := seq(|text| / 2 + 1, k => 2 * k);
    assert Segmentation(text, dict, cuts);
  }

  ghost predicate Ascending(text: seq<byte>, cuts: seq<nat>) {
    |cuts| > 0 && cuts[0] == 0 && cuts[|cuts| - 1] == |text| &&
    forall k :: 0 <= k < |cuts| - 1 ==> cuts[k] <= cuts[k + 1]
  }

  lemma AscendingBound(text: seq<byte>, cuts: seq<nat>, k: nat)
    requires Ascending(text, cuts) && k < |cuts|
    ensures cuts[k] <= |text|
    decreases |cuts| - k
  {
    if k < |cuts| - 1 { AscendingBound(text, cuts, k + 1); }
  }

  /** The `k`-th piece of the cut text. */
  function Piece(text: seq<byte>, cuts: seq<nat>, k: nat): seq<byte>
    requires k + 1 < |cuts| && cuts[k] <= cuts[k + 1] <= |text|
  {
    text[cuts[k]..cuts[k + 1]]
  }

  /** The first `n` pieces glued together, with `sep` before every piece but the first. */
  ghost function Glue(text: seq<byte>, cuts: seq<nat>, sep: seq<byte>, n: nat): seq<byte>
    requires Ascending(text, cuts) && n < |cuts|
  {
    if n == 0 then []
    else
      AscendingBound(text, cuts, n);
      Glue(text, cuts, sep, n - 1) + (if n == 1 then [] else sep) + Piece(text, cuts, n - 1)
  }

  /** Pieces glued with nothing between them give back the text. */
  lemma {:induction false} PiecesCoverText(text: seq<byte>, cuts: seq<nat>, n: nat)
    requires Ascending(text, cuts) && n < |cuts|
    ensures cuts[n] <= |text| && Glue(text, cuts, [], n) == text[..cuts[n]]
  {
    AscendingBound(text, cuts, n);
    if n > 0 {
      PiecesCoverText(text, cuts, n - 1);
      assert Glue(text, cuts, [], n) == Glue(text, cuts, [], n - 1) + Piece(text, cuts, n - 1);
    }
  }

  /** Writes the pieces separated by '/'. Room for one more separator is demanded after every piece. */
  method ShortestPath2String(text: seq<byte>, pathVec: seq<nat>, resultSize: nat)
    returns (code: int, result: seq<byte>)
    requires 0 < |text| && Ascending(text, pathVec)
    ensures |text| + UBYTES * (|pathVec| - 1) <= resultSize ==>
              code == |result| && result == Glue(text, pathVec, ['/' as int, 0], |pathVec| - 1)
    ensures |text| + UBYTES * (|pathVec| - 1) > resultSize ==> code == -11
  {
    var lastPos := 0;
    result := [];
    assert |pathVec| > 1;
    for i := 1 to |pathVec|
      invariant lastPos == pathVec[i - 1] <= |text|
      invariant var glued := Glue(text, pathVec, SEPARATOR, i - 1);
                result == if 1 < i < |pathVec| then glued + SEPARATOR else glued
      invariant |result| == lastPos + UBYTES * (if i < |pathVec| then i - 1 else i - 2)
      invariant i > 1 ==> lastPos + UBYTES * (i - 1) <= resultSize
    {
      AscendingBound(text, pathVec, i);
      var key := Piece(text, pathVec, i - 1);
      if |result| + |key| + UBYTES > resultSize {
        TooSmall(text, pathVec, i);
        return -11, result;
      }
      result := result + key;
      if i != |pathVec| - 1 {
        if |result| + UBYTES > resultSize { return -12, result; }
        result := result + SEPARATOR;
      }
      lastPos := pathVec[i];
    }
    code := |result|;
  }

  lemma TooSmall(text: seq<byte>, cuts: seq<nat>, i: nat)
    requires Ascending(text, cuts) && i < |cuts|
    ensures cuts[i] + UBYTES * i <= |text| + UBYTES * (|cuts| - 1)
  {
    AscendingBound(text, cuts, i);
  }

  /** The private word_tokenize: on any even-length text whose least number of pieces the search can count,
      the output is a segmentation into word-graph edges with as few pieces as any; texts of up to
      199,999,998 bytes always qualify. Otherwise the whole text comes out as one piece that is no edge. */
  method WordTokenize(text: seq<byte>, dict: Dictionary, resultSize: nat)
    returns (code: int, result: seq<byte>, cuts: seq<nat>)
    requires 0 < |text| && |text| % 2 == 0 && DictionaryFits(dict, |text|)
    ensures Ascending(text, cuts) && Glue(text, cuts, [], |cuts| - 1) == text
    ensures |text| <= 199_999_998 ==> Minimal(text, dict, cuts)
    ensures Countable(text, dict) ==> Minimal(text, dict, cuts)
    ensures !Countable(text, dict) ==> cuts == [0, |text|] && !WordEdge(text, dict, 0, |text|)
    ensures |text| + UBYTES * (|cuts| - 1) <= resultSize ==>
              code == |result| && result == Glue(text, cuts, ['/' as int, 0], |cuts| - 1)
    ensures |text| + UBYTES * (|cuts| - 1) > resultSize ==> code == -11
  {
    var adjGraph := new AdjGraph<(nat, nat)>(|text| + 1);
    GenerateWordGraph(text, dict, adjGraph);
    ghost var g := adjGraph.nodeTable;
    var shortestPath := adjGraph.Dijkstra(0, |text|);
    cuts := shortestPath;
    ShortestIsMinimal(g, text, dict, cuts);
    SingleCharacters(text, dict);
    if Countable(text, dict) {
      forall k | 0 <= k < |cuts| - 1 ensures cuts[k] <= cuts[k + 1] {
        WordEdgeForward(text, dict, cuts[k], cuts[k + 1]);
      }
    }
    PiecesCoverText(text, cuts, |cuts| - 1);
    code, result := ShortestPath2String(text, shortestPath, resultSize);
  }
}
