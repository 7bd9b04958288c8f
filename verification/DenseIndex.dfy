/** The dense index: three parallel arrays over an append-only data file, sorted on demand. */
module DenseIndex {
  import opened Common
  import opened IndexFile
  import opened SortSpec
  import opened PayloadSort

  /** What one index entry stands for. */
  datatype Row = Row(key: int, bytes: seq<byte>, deleted: bool)

  /** The calls that took effect. `sorted` tells whether the keys were in order when the entry was deleted. */
  datatype Event = Add(key: int, bytes: seq<byte>) | Delete(key: int, sorted: bool) | Rearrange

  const BEGIN_MARK: seq<byte> := [0xBB, 0xBB, 0xBB, 0xBB, 0xBB, 0xBB, 0xBB, 0xBB]
  const END_MARK: seq<byte> := [0xEE, 0xEE, 0xEE, 0xEE, 0xEE, 0xEE, 0xEE, 0xEE]

  // ---------------------------------------------------------------- records in the data file

  function Record(bytes: seq<byte>): (r: seq<byte>)
    requires |bytes| < 0x8000_0000
    ensures |r| == |bytes| + 20
  {
    BEGIN_MARK + Int32(|bytes|) + bytes + END_MARK
  }

  /** The file holds the record of `bytes` at `offset`. */
  ghost predicate Stored(data: seq<byte>, offset: int, bytes: seq<byte>) {
    && 0 < |bytes| < 0x8000_0000 && 0 <= offset && offset + |bytes| + 20 <= |data|
    && data[offset..offset + |bytes| + 20] == Record(bytes)
  }

  lemma StoredParts(data: seq<byte>, o: int, bytes: seq<byte>)
    requires Stored(data, o, bytes)
    ensures data[o..o + 8] == BEGIN_MARK && ReadInt32(data[o + 8..o + 12]) == |bytes|
    ensures data[o + 12..o + 12 + |bytes|] == bytes
    ensures data[o + 12 + |bytes|..o + 20 + |bytes|] == END_MARK
  {
    var r := Record(bytes);
    ReadInt32Back(|bytes|);
    assert r[..8] == BEGIN_MARK && r[8..12] == Int32(|bytes|) && r[12..12 + |bytes|] == bytes;
    assert r[12 + |bytes|..] == END_MARK;
    Slice(data, o, |r|, 0, 8);
    Slice(data, o, |r|, 8, 12);
    Slice(data, o, |r|, 12, 12 + |bytes|);
    Slice(data, o, |r|, 12 + |bytes|, |r|);
  }

  lemma Slice<T>(s: seq<T>, o: int, n: nat, a: nat, b: nat)
    requires 0 <= o && o + n <= |s| && a <= b <= n
    ensures s[o..o + n][a..b] == s[o + a..o + b]
  {
    var l, r := s[o..o + n][a..b], s[o + a..o + b];
    forall i | 0 <= i < |l| ensures l[i] == r[i] { }
  }

  lemma StoredStays(data: seq<byte>, more: seq<byte>, o: int, bytes: seq<byte>)
    requires Stored(data, o, bytes)
    ensures Stored(data + more, o, bytes)
  {
    assert (data + more)[o..o + |bytes| + 20] == data[o..o + |bytes| + 20];
  }

  lemma StoredNew(data: seq<byte>, bytes: seq<byte>)
    requires 0 < |bytes| < 0x8000_0000
    ensures Stored(data + Record(bytes), |data|, bytes)
  {
  }

  // ---------------------------------------------------------------- rows and histories

  function Keys(rows: seq<Row>): (s: seq<int>)
    ensures |s| == |rows|
  {
    seq(|rows|, i requires 0 <= i < |rows| => rows[i].key)
  }

  ghost predicate KeysSorted(rows: seq<Row>) {
    SortedRange(Keys(rows), 0, |rows| - 1)
  }

  /** The keys ever added. */
  ghost function Used(h: seq<Event>): set<int> {
    if h == [] then {}
    else
      var before, last := h[..|h| - 1], h[|h| - 1];
      if last.Add? then Used(before) + {last.key} else Used(before)
  }

  /** The keys present and not deleted, with the bytes added for them. */
  ghost function Live(h: seq<Event>): map<int, seq<byte>> {
    if h == [] then map[]
    else
      var before, last := h[..|h| - 1], h[|h| - 1];
      match last
      case Add(k, bytes) => Live(before)[k := bytes]
      case Delete(k, _) => Live(before) - {k}
      case Rearrange => Live(before)
  }

  /** No key is added twice, and entries are deleted only while the index is sorted. */
  ghost predicate Proper(h: seq<Event>) {
    h == [] ||
    var before, last := h[..|h| - 1], h[|h| - 1];
    Proper(before) && (last.Add? ==> last.key !in Used(before)) && (last.Delete? ==> last.sorted)
  }

  /** The rows say of every key what the history says of it. */
  ghost predicate Agrees(rows: seq<Row>, live: map<int, seq<byte>>, used: set<int>) {
    && (forall k :: multiset(Keys(rows))[k] == if k in used then 1 else 0)
    && (forall r :: r in rows ==>
         r.key in used && (r.deleted <==> r.key !in live) && (!r.deleted ==> live[r.key] == r.bytes))
    && live.Keys <= used
  }

  lemma AddAgrees(rows: seq<Row>, live: map<int, seq<byte>>, used: set<int>, k: int, bytes: seq<byte>)
    requires Agrees(rows, live, used) && k !in used
    ensures Agrees(rows + [Row(k, bytes, false)], live[k := bytes], used + {k})
  {
    assert Keys(rows + [Row(k, bytes, false)]) == Keys(rows) + [k];
  }

  lemma Once(s: seq<int>, i: nat, j: nat)
    requires i < j < |s| && s[i] == s[j]
    ensures multiset(s)[s[i]] >= 2
  {
    assert s == s[..j] + [s[j]] + s[j + 1..];
    assert s[i] in s[..j];
  }

  lemma DeleteAgrees(rows: seq<Row>, live: map<int, seq<byte>>, used: set<int>, i: nat)
    requires Agrees(rows, live, used) && i < |rows|
    ensures Agrees(rows[i := rows[i].(deleted := true)], live - {rows[i].key}, used)
  {
    var k, after := rows[i].key, rows[i := rows[i].(deleted := true)];
    assert Keys(after) == Keys(rows);
    forall r | r in after
      ensures r.key in used && (r.deleted <==> r.key !in live - {k}) && (!r.deleted ==> (live - {k})[r.key] == r.bytes)
    {
      var j :| 0 <= j < |after| && after[j] == r;
      if j != i && r.key == k {
        if i < j { Once(Keys(rows), i, j); } else { Once(Keys(rows), j, i); }
      }
      assert j != i ==> rows[j] in rows;
      assert rows[i] in rows;
    }
  }

  lemma AbsentAgrees(rows: seq<Row>, live: map<int, seq<byte>>, used: set<int>, k: int)
    requires Agrees(rows, live, used) && k !in Keys(rows)
    ensures k !in used && live - {k} == live
  {
    assert k !in multiset(Keys(rows));
    assert multiset(Keys(rows))[k] == if k in used then 1 else 0;
  }

  lemma RearrangeAgrees(rows: seq<Row>, live: map<int, seq<byte>>, used: set<int>, p: seq<nat>)
    requires Agrees(rows, live, used) && Rearranges(p, |rows|, 0, |rows| - 1)
    ensures Agrees(Apply(rows, p), live, used)
  {
    var after := Apply(rows, p);
    SameElements(rows, p, 0, |rows| - 1);
    SameElements(Keys(rows), p, 0, |rows| - 1);
    assert Keys(after) == Apply(Keys(rows), p);
    forall r | r in after ensures r in rows { assert r in multiset(after); }
  }

  ghost predicate Faithful(rows: seq<Row>, h: seq<Event>) {
    Proper(h) ==> Agrees(rows, Live(h), Used(h))
  }

  lemma HistoryAdd(rows: seq<Row>, h: seq<Event>, k: int, bytes: seq<byte>)
    requires Faithful(rows, h)
    ensures Faithful(rows + [Row(k, bytes, false)], h + [Add(k, bytes)])
  {
    hide Agrees;
    assert (h + [Add(k, bytes)])[..|h|] == h;
    if Proper(h + [Add(k, bytes)]) { AddAgrees(rows, Live(h), Used(h), k, bytes); }
  }

  lemma HistoryRearrange(rows: seq<Row>, h: seq<Event>, p: seq<nat>)
    requires Faithful(rows, h) && Rearranges(p, |rows|, 0, |rows| - 1)
    ensures Faithful(Apply(rows, p), h + [Rearrange])
  {
    hide Agrees;
    assert (h + [Rearrange])[..|h|] == h;
    if Proper(h) { RearrangeAgrees(rows, Live(h), Used(h), p); }
  }

  lemma HistoryDelete(rows: seq<Row>, h: seq<Event>, k: int, index: int)
    requires Faithful(rows, h) && index < |rows|
    requires if index < 0 then KeysSorted(rows) ==> k !in Keys(rows) else rows[index].key == k
    ensures Faithful(if index < 0 then rows else rows[index := rows[index].(deleted := true)],
              h + [Delete(k, KeysSorted(rows))])
  {
    hide Agrees, KeysSorted, Keys;
    var h' := h + [Delete(k, KeysSorted(rows))];
    assert h'[..|h|] == h;
    if Proper(h') {
      if index < 0 { AbsentAgrees(rows, Live(h), Used(h), k); } else { DeleteAgrees(rows, Live(h), Used(h), index); }
    }
  }

  /** What a proper history says of one key. */
  lemma Lookup(rows: seq<Row>, h: seq<Event>, key: int)
    requires Faithful(rows, h) && Proper(h)
    ensures key in Live(h) ==> key in Keys(rows)
    ensures (forall r :: r in rows && r.key == key ==>
      (r.deleted <==> key !in Live(h)) && (!r.deleted ==> r.bytes == Live(h)[key]))
  {
    if key in Live(h) {
      assert multiset(Keys(rows))[key] == if key in Used(h) then 1 else 0;
      assert key in multiset(Keys(rows));
    }
  }

  /** A rearrangement of the first `k` positions, seen on those alone. */
  lemma Prefix(p: seq<nat>, n: nat, k: nat)
    requires Rearranges(p, n, 0, k - 1) && k <= n
    ensures Rearranges(p[..k], k, 0, k - 1)
  {
    assert p == p[..k] + p[k..];
    assert Numbers(n) == Numbers(k) + p[k..];
    Cancel(multiset(p[..k]), multiset(Numbers(k)), multiset(p[k..]));
  }

  lemma SortedKeys(keys: seq<int>, rows: seq<Row>, n: nat)
    requires n == |rows| <= |keys| && SortedRange(keys, 0, n - 1) && forall i :: 0 <= i < n ==> keys[i] == rows[i].key
    ensures KeysSorted(rows)
  {
  }

  // ---------------------------------------------------------------- the index object

  /** Entry `i` of the three arrays describes `row`, and the file holds its bytes. */
  ghost predicate Entry(data: seq<byte>, key: int, offset: int, flag: int, row: Row) {
    key == row.key && flag == (if row.deleted then 1 else 0) && Stored(data, offset, row.bytes)
  }

  /** Rearranging the arrays rearranges the rows they describe. */
  lemma RowsMoved(data: seq<byte>, s: seq<int>, x: seq<int>, y: seq<int>, s': seq<int>, x': seq<int>, y': seq<int>,
                  p: seq<nat>, rows: seq<Row>)
    requires |rows| <= |s| && Rearranged(p, 0, |rows| - 1, s, x, y, s', x', y') && SortedRange(s', 0, |rows| - 1)
    requires forall i :: 0 <= i < |rows| ==> Entry(data, s[i], x[i], y[i], rows[i])
    ensures |p| == |s| == |s'| == |x'| == |y'| && Rearranges(p[..|rows|], |rows|, 0, |rows| - 1)
    ensures (var after := Apply(rows, p[..|rows|]);
      (forall i :: 0 <= i < |rows| ==> Entry(data, s'[i], x'[i], y'[i], after[i])) &&
      KeysSorted(after) && multiset(after) == multiset(rows))
  {
    hide Stored;
    var n := |rows|;
    Prefix(p, |s|, n);
    var after := Apply(rows, p[..n]);
    SameElements(rows, p[..n], 0, n - 1);
    forall i | 0 <= i < n ensures Entry(data, s'[i], x'[i], y'[i], after[i]) {
      assert Entry(data, s[p[i]], x[p[i]], y[p[i]], rows[p[i]]);
    }
    SortedKeys(s', after, n);
  }

  /** A file operation that fails, named by the code it makes the caller return, and the bytes a torn write leaves. */
  datatype Fault = NoFault | Fault(code: int, torn: seq<byte>)

  class QDenseIndexManager {
    var keys: array<int>
    var offsets: array<int>
    var flags: array<int>
    var maxIndexSize: int
    var nowIndexNum: int
    var data: seq<byte>
    var indexFile: seq<byte>
    var isInitSystem: bool
    ghost var rows: seq<Row>
    ghost var history: seq<Event>

    ghost predicate Formed()
      reads this
    {
      && Columns(keys, offsets, flags) && keys.Length == maxIndexSize
      && 0 <= nowIndexNum <= maxIndexSize < 0x8000_0000 && |rows| == nowIndexNum
    }

    ghost predicate Entries()
      requires Formed()
      reads this, keys, offsets, flags
    {
      forall i :: 0 <= i < nowIndexNum ==> Entry(data, keys[i], offsets[i], flags[i], rows[i])
    }

    ghost predicate Valid()
      reads this, keys, offsets, flags
    {
      Formed() && Entries() && Faithful(rows, history)
    }

    /** A new index over an empty data file. */
    constructor (maxIndexSize: nat)
      requires maxIndexSize < 0x8000_0000
      ensures Valid() && isInitSystem && rows == [] && history == [] && this.maxIndexSize == maxIndexSize
      ensures fresh(keys) && fresh(offsets) && fresh(flags)
    {
      keys, offsets, flags := new int[maxIndexSize], new int[maxIndexSize], new int[maxIndexSize];
      this.maxIndexSize, nowIndexNum, data, isInitSystem := maxIndexSize, 0, [], true;
      indexFile, rows, history := [], [], [];
      new;
      assert Keys([]) == [];
    }

    /** The index that was read from the file, over the same data file. */
    constructor Reopened(index: Index, indexFile: seq<byte>, data: seq<byte>, ghost rows: seq<Row>,
                         ghost history: seq<Event>)
      requires index.Loaded? && |index.keys| == |index.offsets| == |index.flags| == |rows|
      requires |rows| <= index.max < 0x8000_0000 && Faithful(rows, history)
      requires forall i :: 0 <= i < |rows| ==> Entry(data, index.keys[i], index.offsets[i], index.flags[i], rows[i])
      ensures Valid() && isInitSystem && this.rows == rows && this.history == history
      ensures this.indexFile == indexFile && this.data == data && maxIndexSize == index.max
    {
      var n := |index.keys|;
      keys := new int[index.max](i => if 0 <= i < n then index.keys[i] else 0);
      offsets := new int[index.max](i => if 0 <= i < n then index.offsets[i] else 0);
      flags := new int[index.max](i => if 0 <= i < n then index.flags[i] else 0);
      maxIndexSize, nowIndexNum, this.data, this.indexFile, isInitSystem := index.max, n, data, indexFile, true;
      this.rows, this.history := rows, history;
      new;
      hide Entry, Faithful;
    }

    /** Appends a record and an entry; a file error leaves every entry as it was. */
    method AddKey(key: int, bytes: seq<byte>, fault: Fault) returns (code: int)
      requires Valid() && |bytes| < 0x8000_0000 && (fault.Fault? ==> -7 <= fault.code <= -3)
      modifies this`nowIndexNum, this`data, this`rows, this`history, keys, offsets, flags
      ensures Valid()
      ensures (code ==
        if bytes == [] || !isInitSystem then -1 else if old(nowIndexNum) + 1 >= maxIndexSize then -2
        else if fault.Fault? then fault.code else 0)
      ensures code == 0 ==> rows == old(rows) + [Row(key, bytes, false)] && history == old(history) + [Add(key, bytes)]
      ensures code != 0 ==> rows == old(rows) && history == old(history)
    {
      hide Stored, Faithful;
      if bytes == [] || !isInitSystem { return -1; }
      if nowIndexNum + 1 >= maxIndexSize { return -2; }
      if fault.Fault? {
        if fault.code < -3 { AppendData(fault.torn); }
        return fault.code;
      }
      var offset := |data|;
      StoredNew(data, bytes);
      AppendData(Record(bytes));
      keys[nowIndexNum], offsets[nowIndexNum], flags[nowIndexNum] := key, offset, 0;
      nowIndexNum := nowIndexNum + 1;
      HistoryAdd(rows, history, key, bytes);
      rows, history := rows + [Row(key, bytes, false)], history + [Add(key, bytes)];
      code := 0;
    }

    method AppendData(more: seq<byte>)
      requires Valid()
      modifies this`data
      ensures Valid() && data == old(data) + more
    {
      hide Stored, Faithful;
      forall i | 0 <= i < nowIndexNum ensures Entry(data + more, keys[i], offsets[i], flags[i], rows[i]) {
        assert Entry(data, keys[i], offsets[i], flags[i], rows[i]);
        StoredStays(data, more, offsets[i], rows[i].bytes);
      }
      data := data + more;
    }

    /** Sorts the entries by key, whatever becomes of the index file. `fault` names the step of its rewriting that
        fails, if any; an empty index always fails at the keys, since nothing is written there. */
    method RearrangeIndex(fault: Fault) returns (code: int)
      requires Valid() && (fault.Fault? ==> -9 <= fault.code <= -2)
      modifies this`rows, this`history, this`indexFile, keys, offsets, flags
      ensures Valid()
      ensures !isInitSystem ==> code == -1 && rows == old(rows) && history == old(history)
      ensures code == 0 ==> (indexFile == Overwritten(old(indexFile),
        IndexBytes(maxIndexSize, keys[..nowIndexNum], offsets[..nowIndexNum], flags[..nowIndexNum])))
      ensures code == -2 || code == -1 ==> indexFile == old(indexFile)
      ensures isInitSystem ==> KeysSorted(rows) && multiset(rows) == multiset(old(rows))
      ensures isInitSystem ==>
        code == if fault.Fault? && (rows != [] || fault.code > -6) then fault.code else if rows == [] then -6 else 0
      ensures isInitSystem ==> history == old(history) + [Rearrange]
    {
      hide Faithful, Stored, Entry, KeysSorted;
      if !isInitSystem { return -1; }
      SortEntries();
      code := RewriteIndex(fault);
    }

    method SortEntries()
      requires Valid()
      modifies this`rows, this`history, keys, offsets, flags
      ensures Valid() && KeysSorted(rows) && multiset(rows) == multiset(old(rows))
      ensures history == old(history) + [Rearrange]
    {
      hide Faithful, Stored, Entry, Rearranged, KeysSorted, SortedRange;
      ghost var s, x, y := keys[..], offsets[..], flags[..];
      ghost var p := RecursionSortRows(keys, offsets, flags, 0, nowIndexNum - 1);
      RowsMoved(data, s, x, y, keys[..], offsets[..], flags[..], p, rows);
      HistoryRearrange(rows, history, p[..nowIndexNum]);
      rows, history := Apply(rows, p[..nowIndexNum]), history + [Rearrange];
    }

    /** Writes the index over the front of its file. */
    method RewriteIndex(fault: Fault) returns (code: int)
      requires Formed() && (fault.Fault? ==> -9 <= fault.code <= -2)
      modifies this`indexFile
      ensures code ==
              if fault.Fault? && (rows != [] || fault.code > -6) then fault.code else if rows == [] then -6 else 0
      ensures code == 0 ==> (indexFile == Overwritten(old(indexFile),
        IndexBytes(maxIndexSize, keys[..nowIndexNum], offsets[..nowIndexNum], flags[..nowIndexNum])))
      ensures code == -2 ==> indexFile == old(indexFile)
    {
      if fault.Fault? && fault.code > -6 {
        if fault.code < -2 { indexFile := Overwritten(indexFile, fault.torn); }
        return fault.code;
      }
      if nowIndexNum == 0 {
        indexFile := Overwritten(indexFile, Header(maxIndexSize, 0));
        return -6;
      }
      if fault.Fault? {
        indexFile := Overwritten(indexFile, fault.torn);
        return fault.code;
      }
      indexFile := Overwritten(indexFile,
                               IndexBytes(maxIndexSize, keys[..nowIndexNum], offsets[..nowIndexNum],
                                          flags[..nowIndexNum]));
      code := 0;
    }

    /** Looks the key up in the index and reads its record back. `fault` names a file error, if any. */
    method SearchKey(key: int, maxDataSize: int, fault: Fault) returns (code: int, out: seq<byte>)
      requires Valid() && (fault.Fault? ==> fault.code in {-4, -5, -8, -9})
      ensures maxDataSize <= 0 || !isInitSystem ==> code == -1
      ensures maxDataSize > 0 && isInitSystem && KeysSorted(rows) && key !in Keys(rows) ==> code == -2
      ensures maxDataSize > 0 && isInitSystem && code != -2 ==>
                exists r :: r in rows && Reads(r, key, maxDataSize, fault, code, out)
      ensures maxDataSize > 0 && isInitSystem && KeysSorted(rows) && key in Keys(rows) ==> code != -2
      // After any proper history, in a sorted index and without file errors:
      ensures maxDataSize > 0 && isInitSystem && KeysSorted(rows) && Proper(history) && fault.NoFault? ==>
                if key in Live(history) && |Live(history)[key]| <= maxDataSize
                then code == |out| && out == Live(history)[key] else code < 0
    {
      hide Faithful, Proper, Stored, Live, Used;
      out := [];
      if maxDataSize <= 0 || !isInitSystem { return -1, []; }
      var index := BinarySearch(keys, 0, nowIndexNum - 1, key);
      assert KeysSorted(rows) ==> SortedRange(keys[..], 0, nowIndexNum - 1) by {
        if KeysSorted(rows) { SortedEntries(); }
      }
      if Proper(history) { Lookup(rows, history, key); }
      if index < 0 {
        forall i | 0 <= i < |rows| ensures KeysSorted(rows) ==> Keys(rows)[i] != key {
          assert Entry(data, keys[i], offsets[i], flags[i], rows[i]);
        }
        return -2, [];
      }
      ghost var row := rows[index];
      assert Entry(data, keys[index], offsets[index], flags[index], row);
      assert row in rows && Keys(rows)[index] == key;
      code, out := ReadRecord(index, maxDataSize, fault, row);
      assert Reads(row, key, maxDataSize, fault, code, out);
    }

    /** From the entry to the bytes, with every check the source makes. */
    method ReadRecord(index: int, maxDataSize: int, fault: Fault, ghost row: Row) returns (code: int, out: seq<byte>)
      requires Formed() && 0 <= index < nowIndexNum && maxDataSize > 0
      requires Entry(data, keys[index], offsets[index], flags[index], row)
      requires fault.Fault? ==> fault.code in {-4, -5, -8, -9}
      ensures Reads(row, row.key, maxDataSize, fault, code, out)
    {
      if flags[index] == 1 { return -3, []; }
      var o := offsets[index];
      StoredParts(data, o, row.bytes);
      if fault.Fault? && fault.code == -4 { return -4, []; }
      if fault.Fault? && fault.code == -5 { return -5, []; }
      if data[o..o + 8] != BEGIN_MARK { return -6, []; }
      var len := ReadInt32(data[o + 8..o + 12]);
      if len > maxDataSize || len <= 0 { return -7, []; }
      if fault.Fault? && fault.code == -8 { return -8, []; }
      if fault.Fault? && fault.code == -9 { return -9, []; }
      if data[o + 12 + len..o + 20 + len] != END_MARK { return -9, []; }
      code, out := len, data[o + 12..o + 12 + len];
    }

    lemma SortedEntries()
      requires Formed() && Entries() && KeysSorted(rows)
      ensures SortedRange(keys[..], 0, nowIndexNum - 1)
    {
      forall i, j | 0 <= i < j <= nowIndexNum - 1 ensures keys[..][i] <= keys[..][j] {
        assert Entry(data, keys[i], offsets[i], flags[i], rows[i]);
        assert Entry(data, keys[j], offsets[j], flags[j], rows[j]);
        assert Keys(rows)[i] <= Keys(rows)[j];
      }
    }

    /** Marks the entry found for the key as deleted. */
    method DeleteKey(key: int) returns (code: int)
      requires Valid()
      modifies this`rows, this`history, flags
      ensures Valid()
      ensures !isInitSystem ==> code == -1 && rows == old(rows) && history == old(history)
      ensures isInitSystem ==> code == -2 || code == 0
      ensures isInitSystem && KeysSorted(old(rows)) ==> (code == 0 <==> key in Keys(old(rows)))
      ensures isInitSystem ==> history == old(history) + [Delete(key, KeysSorted(old(rows)))]
      ensures code == -2 ==> rows == old(rows)
      ensures code == 0 ==> exists i: nat :: MarksRow(old(rows), i, key, rows)
    {
      hide Faithful, Stored;
      if !isInitSystem { return -1; }
      var index := BinarySearch(keys, 0, nowIndexNum - 1, key);
      assert KeysSorted(rows) ==> SortedRange(keys[..], 0, nowIndexNum - 1) by {
        if KeysSorted(rows) { SortedEntries(); }
      }
      if index < 0 {
        forall i | 0 <= i < |rows| ensures KeysSorted(rows) ==> Keys(rows)[i] != key {
          assert Entry(data, keys[i], offsets[i], flags[i], rows[i]);
        }
        HistoryDelete(rows, history, key, index);
        history := history + [Delete(key, KeysSorted(rows))];
        return -2;
      }
      assert Entry(data, keys[index], offsets[index], flags[index], rows[index]);
      assert Keys(rows)[index] == key;
      HistoryDelete(rows, history, key, index);
      assert MarksRow(rows, index, key, rows[index := rows[index].(deleted := true)]);
      flags[index] := 1;
      history := history + [Delete(key, KeysSorted(rows))];
      rows := rows[index := rows[index].(deleted := true)];
      code := 0;
    }
  }

  ghost predicate MarksRow(rows: seq<Row>, i: nat, key: int, after: seq<Row>) {
    i < |rows| && rows[i].key == key && after == rows[i := rows[i].(deleted := true)]
  }

  /** What `SearchKey` returns for the row it found. */
  ghost predicate Reads(r: Row, key: int, maxDataSize: int, fault: Fault, code: int, out: seq<byte>) {
    && r.key == key
    && (code ==
        if r.deleted then -3
        else if fault.Fault? && fault.code >= -5 then fault.code
        else if |r.bytes| > maxDataSize then -7
        else if fault.Fault? then fault.code
        else |r.bytes|)
    && (code >= 0 ==> out == r.bytes)
  }

  /** Opening the files again after a successful rewrite gives an index of the same rows and the same history. */
  method RearrangeAndReopen(m: QDenseIndexManager, fault: Fault) returns (code: int, again: QDenseIndexManager?)
    requires m.Valid() && m.isInitSystem && (fault.Fault? ==> -9 <= fault.code <= -2)
    requires |m.data| < Bound(8) && forall r :: r in m.rows ==> 0 <= r.key < Bound(8)
    modifies m`rows, m`history, m`indexFile, m.keys, m.offsets, m.flags
    ensures m.Valid() && (code == 0 <==> again != null)
    ensures again != null ==> again.Valid() && again.isInitSystem && again.maxIndexSize == m.maxIndexSize
    ensures again != null ==> again.rows == m.rows && again.history == m.history && KeysSorted(again.rows)
  {
    hide Faithful, Stored, KeysSorted, ReadIndex, IndexBytes, Bound, Entry;
    ghost var before := m.rows;
    code := m.RearrangeIndex(fault);
    again := null;
    if code == 0 {
      ghost var n := m.nowIndexNum;
      ghost var keys, offsets, flags := m.keys[..n], m.offsets[..n], m.flags[..n];
      forall r | r in m.rows ensures 0 <= r.key < Bound(8) { assert r in multiset(m.rows); assert r in before; }
      EntriesFit(m.data, keys, offsets, flags, m.rows);
      ghost var written := IndexBytes(m.maxIndexSize, keys, offsets, flags);
      Reopens(m.maxIndexSize, keys, offsets, flags, m.indexFile[|written|..]);
      assert m.indexFile == written + m.indexFile[|written|..];
      again := new QDenseIndexManager.Reopened(ReadIndex(m.indexFile), m.indexFile, m.data, m.rows, m.history);
    }
  }

  lemma EntriesFit(data: seq<byte>, keys: seq<int>, offsets: seq<int>, flags: seq<int>, rows: seq<Row>)
    requires |keys| == |offsets| == |flags| == |rows| && |data| < Bound(8)
    requires forall i :: 0 <= i < |rows| ==> Entry(data, keys[i], offsets[i], flags[i], rows[i])
    requires forall r :: r in rows ==> 0 <= r.key < Bound(8)
    ensures Fits(keys, 8) && Fits(offsets, 8) && Fits(flags, 1)
  {
    assert Bound(1) == 256 * Bound(0);
    forall i | 0 <= i < |rows|
      ensures 0 <= keys[i] < Bound(8) && 0 <= offsets[i] < Bound(8) && 0 <= flags[i] < Bound(1)
    {
      assert rows[i] in rows && Entry(data, keys[i], offsets[i], flags[i], rows[i]);
    }
  }
}
