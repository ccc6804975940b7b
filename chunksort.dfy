/**
 * The per-chunk stage of SortFileHandler.Handle: ReadLinesWithKeysAsync parses every line of a chunk
 * file into a record, Array.Sort orders the records by CompareByKeys, and the sorted lines are
 * written to the chunk's sorted file.
 */
module ChunkSort {
  import opened Wrappers
  import opened Seqs
  import opened SortKey

  /** The handler's private record LineWithKey(Line, Key). */
  datatype LineWithKey = LineWithKey(line: string, key: Key)

  /** A record whose key is the key of its line. */
  predicate Consistent(r: LineWithKey) {
    GetSortKey(r.line) == Some(r.key)
  }

  function LineOf(r: LineWithKey): string {
    r.line
  }

  function LinesOf(records: seq<LineWithKey>): seq<string> {
    MapSeq(LineOf, records)
  }

  lemma LinesOfIndex(records: seq<LineWithKey>)
    ensures |LinesOf(records)| == |records|
    ensures forall k :: 0 <= k < |records| ==> LinesOf(records)[k] == records[k].line
  {
    forall k | 0 <= k < |records| ensures LinesOf(records)[k] == records[k].line {
      assert MapSeq(LineOf, records)[k] == LineOf(records[k]);
    }
  }

  /** Neighbouring records are in CompareByKeys order. */
  predicate KeysSorted(records: seq<LineWithKey>) {
    forall k :: 0 < k < |records| ==> KeyLe(records[k - 1].key, records[k].key)
  }

  /** records is lines, each with its key. */
  predicate Parsed(lines: seq<string>, records: seq<LineWithKey>) {
    && |records| == |lines|
    && forall k :: 0 <= k < |lines| ==> records[k].line == lines[k] && Consistent(records[k])
  }

  lemma ParsedAppend(lines: seq<string>, records: seq<LineWithKey>, i: nat, key: Key)
    requires i < |lines| && Parsed(lines[..i], records) && GetSortKey(lines[i]) == Some(key)
    ensures Parsed(lines[..i + 1], records + [LineWithKey(lines[i], key)])
  {
  }

  lemma ParsedFacts(lines: seq<string>, records: seq<LineWithKey>)
    requires Parsed(lines, records)
    ensures LinesOf(records) == lines && AllKeyed(lines)
  {
    LinesOfIndex(records);
    assert LinesOf(records) == lines;
    forall line | line in lines ensures '.' in line {
      var k :| 0 <= k < |lines| && lines[k] == line;
      assert Consistent(records[k]);
    }
  }

  /**
   * ReadLinesWithKeysAsync over the lines of one chunk file. The source throws when GetSortKey
   * throws on a line without '.'; that outcome is None.
   */
  method ReadLinesWithKeys(lines: seq<string>) returns (r: Option<seq<LineWithKey>>)
    ensures r.Some? <==> AllKeyed(lines)
    ensures r.Some? ==> LinesOf(r.value) == lines
    ensures r.Some? ==> forall k :: 0 <= k < |r.value| ==> Consistent(r.value[k])
  {
    var list: seq<LineWithKey> := [];
    var i := 0;
    while i < |lines|
      invariant 0 <= i <= |lines|
      invariant Parsed(lines[..i], list)
    {
      var key := GetSortKey(lines[i]);
      if key.None? {
        assert lines[i] in lines;
        return None;
      }
      ParsedAppend(lines, list, i, key.value);
      list := list + [LineWithKey(lines[i], key.value)];
      i := i + 1;
    }
    assert lines[..i] == lines;
    ParsedFacts(lines, list);
    return Some(list);
  }

  /** CompareByKeys on two records: their keys compared. */
  function CompareRecords(x: LineWithKey, y: LineWithKey): (r: int)
    ensures r <= 0 <==> KeyLe(x.key, y.key)
    ensures r > 0 ==> CompareByKeys(y.key, x.key) < 0
  {
    CompareByKeysAntisymmetric(x.key, y.key);
    CompareByKeys(x.key, y.key)
  }

  /** The comparison never puts two elements each strictly after the other. */
  ghost predicate AfterIsAsymmetric<T(!new)>(cmp: (T, T) -> int) {
    forall x, y :: cmp(x, y) > 0 ==> cmp(y, x) <= 0
  }

  lemma Flip<T(!new)>(cmp: (T, T) -> int, x: T, y: T)
    requires AfterIsAsymmetric(cmp) && cmp(x, y) > 0
    ensures cmp(y, x) <= 0
  {
  }

  /** The first n elements of a are in cmp order. */
  ghost predicate SortedPrefix<T>(a: seq<T>, cmp: (T, T) -> int, n: int) {
    forall k :: 0 < k < n && k < |a| ==> cmp(a[k - 1], a[k]) <= 0
  }

  /**
   * Array.Sort(array, comparison), as an insertion sort by adjacent swaps. The comparison must not
   * put two elements each strictly after the other.
   */
  method SortArray<T(!new)>(a: array<T>, cmp: (T, T) -> int)
    requires AfterIsAsymmetric(cmp)
    modifies a
    ensures multiset(a[..]) == multiset(old(a[..]))
    ensures forall k :: 0 < k < a.Length ==> cmp(a[k - 1], a[k]) <= 0
  {
    var i := 0;
    while i < a.Length
      invariant 0 <= i <= a.Length
      invariant multiset(a[..]) == multiset(old(a[..]))
      invariant SortedPrefix(a[..], cmp, i)
    {
      Insert(a, i, cmp);
      i := i + 1;
    }
  }

  /** The state of an insertion step: a[..i + 1] is in order except around the gap at j. */
  ghost predicate InsertState<T>(s: seq<T>, cmp: (T, T) -> int, i: int, j: int) {
    && 0 <= j <= i < |s|
    && (forall k :: 0 < k <= i && k != j ==> cmp(s[k - 1], s[k]) <= 0)
    && (0 < j < i ==> cmp(s[j - 1], s[j + 1]) <= 0)
  }

  /** Swapping the out-of-order pair at the gap moves the gap one place left. */
  lemma SwapStep<T(!new)>(s: seq<T>, cmp: (T, T) -> int, i: int, j: int)
    requires AfterIsAsymmetric(cmp) && InsertState(s, cmp, i, j) && j > 0 && cmp(s[j - 1], s[j]) > 0
    ensures InsertState(s[j - 1 := s[j]][j := s[j - 1]], cmp, i, j - 1)
    ensures multiset(s[j - 1 := s[j]][j := s[j - 1]]) == multiset(s)
  {
    Flip(cmp, s[j - 1], s[j]);
    var t := s[j - 1 := s[j]][j := s[j - 1]];
    assert forall k :: 0 <= k < |s| && k != j - 1 && k != j ==> t[k] == s[k];
  }

  /** One insertion step: a[i] moves left past every element that compares after it. */
  method Insert<T(!new)>(a: array<T>, i: int, cmp: (T, T) -> int)
    requires AfterIsAsymmetric(cmp) && 0 <= i < a.Length && SortedPrefix(a[..], cmp, i)
    modifies a
    ensures multiset(a[..]) == multiset(old(a[..]))
    ensures SortedPrefix(a[..], cmp, i + 1)
  {
    var j := i;
    while j > 0 && cmp(a[j - 1], a[j]) > 0
      invariant InsertState(a[..], cmp, i, j)
      invariant multiset(a[..]) == multiset(old(a[..]))
    {
      ghost var before := a[..];
      SwapStep(before, cmp, i, j);
      a[j - 1], a[j] := a[j], a[j - 1];
      assert a[..] == before[j - 1 := before[j]][j := before[j - 1]];
      j := j - 1;
    }
  }

  /** Array.Sort(array, CompareByKeys) on the records of one chunk. */
  method SortChunk(a: array<LineWithKey>)
    modifies a
    ensures multiset(a[..]) == multiset(old(a[..]))
    ensures KeysSorted(a[..])
  {
    SortArray(a, CompareRecords);
  }

  /** The lines of a sorted permutation of consistent records are a sorted permutation of their lines. */
  lemma SortedRecordLines(records: seq<LineWithKey>, sorted: seq<LineWithKey>)
    requires multiset(sorted) == multiset(records) && KeysSorted(sorted)
    requires forall k :: 0 <= k < |records| ==> Consistent(records[k])
    ensures multiset(LinesOf(sorted)) == multiset(LinesOf(records))
    ensures LinesSorted(KeyLe, LinesOf(sorted))
  {
    MapPermutation(LineOf, sorted, records);
    forall k | 0 <= k < |sorted| ensures Consistent(sorted[k]) {
      assert sorted[k] in multiset(records);
      var j :| 0 <= j < |records| && records[j] == sorted[k];
    }
    var out := LinesOf(sorted);
    LinesOfIndex(sorted);
    forall line | line in out ensures '.' in line {
      var k :| 0 <= k < |out| && out[k] == line;
      assert Consistent(sorted[k]);
    }
    assert forall k :: 0 <= k < |out| ==> KeyOf(out[k]) == sorted[k].key;
  }

  /**
   * The chunk-sort step for one chunk: read the records, sort them, keep their lines.
   * None is the exception thrown for a line without '.'.
   */
  method SortChunkLines(lines: seq<string>) returns (r: Option<seq<string>>)
    ensures r.Some? <==> AllKeyed(lines)
    ensures r.Some? ==> multiset(r.value) == multiset(lines)
    ensures r.Some? ==> LinesSorted(KeyLe, r.value)
  {
    var records := ReadLinesWithKeys(lines);
    if records.None? {
      return None;
    }
    var recs := records.value;
    var arr := new LineWithKey[|recs|](k requires 0 <= k < |recs| => recs[k]);
    assert arr[..] == recs;
    SortChunk(arr);
    var out := LinesOf(arr[..]);
    SortedRecordLines(recs, arr[..]);
    return Some(out);
  }
}
