/**
 * SortFileHandler.MergeSortedChunksAsync: a k-way merge of the sorted chunk files through a
 * PriorityQueue that holds at most one pending line per chunk reader.
 */
module Merge {
  import opened Wrappers
  import opened Orders
  import opened Seqs
  import opened SortKey

  /** The queue element (Line, ReaderIndex, Key). */
  datatype Entry = Entry(line: string, reader: nat, key: Key)

  /** Some entry has a key at most every entry's key. */
  lemma {:induction false} MinExists(entries: seq<Entry>, le: (Key, Key) -> bool)
    requires TotalPreorder(le) && entries != []
    ensures exists m :: 0 <= m < |entries| && forall x :: x in entries ==> le(entries[m].key, x.key)
  {
    if |entries| == 1 {
      assert le(entries[0].key, entries[0].key);
      assert forall x :: x in entries ==> x == entries[0];
    } else {
      var tail := entries[1..];
      MinExists(tail, le);
      var t :| 0 <= t < |tail| && forall x :: x in tail ==> le(tail[t].key, x.key);
      assert forall x :: x in entries ==> x == entries[0] || x in tail;
      if le(entries[0].key, tail[t].key) {
        assert le(entries[0].key, entries[0].key);
        assert forall x :: x in entries ==> le(entries[0].key, x.key);
      } else {
        assert entries[t + 1] == tail[t];
        assert forall x :: x in entries ==> le(entries[t + 1].key, x.key);
      }
    }
  }

  /**
   * System.Collections.Generic.PriorityQueue with the key as priority, compared by le. Dequeue
   * removes an entry of minimal key; which one among equal keys is left unspecified.
   */
  class PriorityQueue {
    const le: (Key, Key) -> bool
    var entries: seq<Entry>

    constructor (le: (Key, Key) -> bool)
      ensures this.le == le && entries == []
    {
      this.le := le;
      entries := [];
    }

    method Enqueue(e: Entry)
      modifies this
      ensures entries == old(entries) + [e]
    {
      entries := entries + [e];
    }

    method Dequeue() returns (e: Entry, ghost m: nat)
      requires TotalPreorder(le) && entries != []
      modifies this
      ensures m < |old(entries)| && e == old(entries)[m]
      ensures entries == old(entries)[..m] + old(entries)[m + 1..]
      ensures forall x :: x in old(entries) ==> le(e.key, x.key)
    {
      MinExists(entries, le);
      var i :| 0 <= i < |entries| && forall x :: x in entries ==> le(entries[i].key, x.key);
      e, m := entries[i], i;
      entries := entries[..i] + entries[i + 1..];
    }
  }

  function EntryLine(e: Entry): string {
    e.line
  }

  /** Every chunk file is sorted under le. */
  predicate ChunksSorted(le: (Key, Key) -> bool, chunks: seq<seq<string>>) {
    forall i :: 0 <= i < |chunks| ==> LinesSorted(le, chunks[i])
  }

  /** pos[i] is how many lines reader i has returned. */
  predicate ValidPos(chunks: seq<seq<string>>, pos: seq<nat>) {
    |pos| == |chunks| && forall i :: 0 <= i < |pos| ==> pos[i] <= |chunks[i]|
  }

  /** The lines the readers have returned so far. */
  function Prefixes(chunks: seq<seq<string>>, pos: seq<nat>): seq<seq<string>>
    requires ValidPos(chunks, pos)
  {
    seq(|chunks|, i requires 0 <= i < |chunks| => chunks[i][..pos[i]])
  }

  /** The lines the readers have still to return. */
  function Suffixes(chunks: seq<seq<string>>, pos: seq<nat>): seq<seq<string>>
    requires ValidPos(chunks, pos)
  {
    seq(|chunks|, i requires 0 <= i < |chunks| => chunks[i][pos[i]..])
  }

  lemma PrefixesAdvance(chunks: seq<seq<string>>, pos: seq<nat>, r: nat)
    requires ValidPos(chunks, pos) && r < |chunks| && pos[r] < |chunks[r]|
    ensures ValidPos(chunks, pos[r := pos[r] + 1])
    ensures var p := Prefixes(chunks, pos);
      Prefixes(chunks, pos[r := pos[r] + 1]) == p[r := p[r] + [chunks[r][pos[r]]]]
  {
    var p := Prefixes(chunks, pos);
    assert chunks[r][..pos[r] + 1] == p[r] + [chunks[r][pos[r]]];
  }

  lemma SuffixesAdvance(chunks: seq<seq<string>>, pos: seq<nat>, r: nat)
    requires ValidPos(chunks, pos) && r < |chunks| && pos[r] < |chunks[r]|
    ensures ValidPos(chunks, pos[r := pos[r] + 1])
    ensures var s := Suffixes(chunks, pos);
      Suffixes(chunks, pos[r := pos[r] + 1]) == s[r := s[r][1..]]
  {
    var s := Suffixes(chunks, pos);
    assert chunks[r][pos[r] + 1..] == s[r][1..];
  }

  /** ReadLineAsync on reader r: the line moves from the unread to the read part. */
  lemma ReadStep(chunks: seq<seq<string>>, pos: seq<nat>, r: nat)
    requires ValidPos(chunks, pos) && r < |chunks| && pos[r] < |chunks[r]|
    ensures ValidPos(chunks, pos[r := pos[r] + 1])
    ensures multiset(Flatten(Prefixes(chunks, pos[r := pos[r] + 1])))
            == multiset(Flatten(Prefixes(chunks, pos))) + multiset{chunks[r][pos[r]]}
    ensures |Flatten(Suffixes(chunks, pos[r := pos[r] + 1]))| + 1 == |Flatten(Suffixes(chunks, pos))|
  {
    var p := Prefixes(chunks, pos);
    var s := Suffixes(chunks, pos);
    PrefixesAdvance(chunks, pos, r);
    FlattenUpdate(p, r, p[r] + [chunks[r][pos[r]]]);
    SuffixesAdvance(chunks, pos, r);
    FlattenUpdate(s, r, s[r][1..]);
  }

  /** The entry holds the line reader e.reader returned last, with its key. */
  predicate Current(chunks: seq<seq<string>>, pos: seq<nat>, started: int, e: Entry)
    requires ValidPos(chunks, pos)
  {
    && e.reader < started && e.reader < |chunks| && 0 < pos[e.reader]
    && e.line == chunks[e.reader][pos[e.reader] - 1]
    && GetSortKey(e.line) == Some(e.key)
  }

  predicate DistinctReaders(entries: seq<Entry>) {
    forall a, b :: 0 <= a < b < |entries| ==> entries[a].reader != entries[b].reader
  }

  /** Readers from started on are untouched. */
  predicate PosOk(chunks: seq<seq<string>>, pos: seq<nat>, started: int) {
    && ValidPos(chunks, pos) && 0 <= started <= |chunks|
    && forall i :: started <= i < |chunks| ==> pos[i] == 0
  }

  predicate AllCurrent(chunks: seq<seq<string>>, pos: seq<nat>, started: int, entries: seq<Entry>)
    requires ValidPos(chunks, pos)
  {
    forall e :: e in entries ==> Current(chunks, pos, started, e)
  }

  /** Every started reader other than except with lines left has its entry in the queue. */
  predicate Covered(chunks: seq<seq<string>>, pos: seq<nat>, entries: seq<Entry>, started: int, except: int)
    requires ValidPos(chunks, pos) && started <= |chunks|
  {
    forall i :: 0 <= i < started && i != except && pos[i] < |chunks[i]| ==>
      exists e :: e in entries && e.reader == i
  }

  /** Every line read so far had a key. */
  predicate ReadKeyed(chunks: seq<seq<string>>, pos: seq<nat>)
    requires ValidPos(chunks, pos)
  {
    forall i, k :: 0 <= i < |chunks| && 0 <= k < pos[i] ==> '.' in chunks[i][k]
  }

  /** The output and the queue hold exactly the lines read. */
  predicate Accounted(chunks: seq<seq<string>>, pos: seq<nat>, out: seq<string>, entries: seq<Entry>)
    requires ValidPos(chunks, pos)
  {
    multiset(out) + multiset(MapSeq(EntryLine, entries)) == multiset(Flatten(Prefixes(chunks, pos)))
  }

  /** When every chunk is sorted, so is the output, and no queued key is below the last key written. */
  predicate Ordered(le: (Key, Key) -> bool, chunks: seq<seq<string>>, out: seq<string>, entries: seq<Entry>) {
    ChunksSorted(le, chunks) ==> LinesSorted(le, out) && (out != [] ==> AtLeastLast(le, out, entries))
  }

  predicate AtLeastLast(le: (Key, Key) -> bool, out: seq<string>, entries: seq<Entry>)
    requires out != [] && '.' in out[|out| - 1]
  {
    forall e :: e in entries ==> le(KeyOf(out[|out| - 1]), e.key)
  }

  /**
   * The merge loop's state: readers below started have been opened, those above are untouched;
   * each queued entry is its reader's last line; every opened reader other than except with lines
   * left has its entry in the queue; every line read had a key; the output and the queue hold
   * exactly the lines read; and the output is in order when the chunks are.
   */
  ghost predicate MergeState(chunks: seq<seq<string>>, le: (Key, Key) -> bool, pos: seq<nat>,
                             out: seq<string>, entries: seq<Entry>, started: int, except: int) {
    && PosOk(chunks, pos, started)
    && AllCurrent(chunks, pos, started, entries)
    && DistinctReaders(entries)
    && Covered(chunks, pos, entries, started, except)
    && ReadKeyed(chunks, pos)
    && Accounted(chunks, pos, out, entries)
    && Ordered(le, chunks, out, entries)
  }

  lemma StartState(chunks: seq<seq<string>>, le: (Key, Key) -> bool)
    ensures MergeState(chunks, le, seq(|chunks|, _ => 0), [], [], 0, -1)
  {
    var pos: seq<nat> := seq(|chunks|, _ => 0);
    FlattenEmpty(Prefixes(chunks, pos));
  }

  /** Opening reader i: it joins the started readers, with its first line still to be queued. */
  lemma StartReader(chunks: seq<seq<string>>, le: (Key, Key) -> bool, pos: seq<nat>,
                    out: seq<string>, entries: seq<Entry>, i: int)
    requires MergeState(chunks, le, pos, out, entries, i, -1) && i < |chunks|
    ensures MergeState(chunks, le, pos, out, entries, i + 1, i)
  {
    assert forall e :: Current(chunks, pos, i, e) ==> Current(chunks, pos, i + 1, e);
  }

  /** A reader with no lines left needs no entry. */
  lemma Exhausted(chunks: seq<seq<string>>, le: (Key, Key) -> bool, pos: seq<nat>,
                  out: seq<string>, entries: seq<Entry>, started: int, r: int)
    requires MergeState(chunks, le, pos, out, entries, started, r)
    requires 0 <= r < |chunks| && pos[r] == |chunks[r]|
    ensures MergeState(chunks, le, pos, out, entries, started, -1)
  {
  }

  /** What is left after taking entry m out of the queue. */
  lemma RemoveFacts(entries: seq<Entry>, m: nat)
    requires m < |entries| && DistinctReaders(entries)
    ensures var rest := entries[..m] + entries[m + 1..];
      && (forall x :: x in rest ==> x in entries && x.reader != entries[m].reader)
      && DistinctReaders(rest)
      && (forall x :: x in entries && x != entries[m] ==> x in rest)
  {
    var rest := entries[..m] + entries[m + 1..];
    forall j | 0 <= j < |rest| ensures rest[j] == entries[if j < m then j else j + 1] {
    }
    forall x | x in rest ensures x in entries && x.reader != entries[m].reader {
      var j :| 0 <= j < |rest| && rest[j] == x;
    }
    forall a, b | 0 <= a < b < |rest| ensures rest[a].reader != rest[b].reader {
      assert rest[a] == entries[if a < m then a else a + 1];
      assert rest[b] == entries[if b < m then b else b + 1];
    }
    forall x | x in entries && x != entries[m] ensures x in rest {
      var j :| 0 <= j < |entries| && entries[j] == x;
      if j < m {
        assert rest[j] == x;
      } else {
        assert rest[j - 1] == x;
      }
    }
  }

  /** Writing the least queued line keeps the output in order. */
  lemma DequeueOrdered(le: (Key, Key) -> bool, chunks: seq<seq<string>>, out: seq<string>,
                       entries: seq<Entry>, m: nat)
    requires Ordered(le, chunks, out, entries) && m < |entries|
    requires GetSortKey(entries[m].line) == Some(entries[m].key)
    requires forall x :: x in entries ==> le(entries[m].key, x.key)
    ensures Ordered(le, chunks, out + [entries[m].line], entries[..m] + entries[m + 1..])
  {
    var e := entries[m];
    var out' := out + [e.line];
    var rest := entries[..m] + entries[m + 1..];
    if ChunksSorted(le, chunks) {
      assert e in entries;
      assert KeyOf(e.line) == e.key;
      forall line | line in out' ensures '.' in line {
        assert line in out || line == e.line;
      }
      forall k | 0 < k < |out'| ensures le(KeyOf(out'[k - 1]), KeyOf(out'[k])) {
        if k == |out'| - 1 {
          assert out'[k - 1] == out[|out| - 1];
        } else {
          assert out'[k - 1] == out[k - 1] && out'[k] == out[k];
        }
      }
      assert forall x :: x in rest ==> x in entries;
    }
  }

  /**
   * Dequeue and WriteLineAsync: the least entry leaves the queue for the output. Its reader is then
   * the one reader that may lack an entry.
   */
  lemma DequeueStep(chunks: seq<seq<string>>, le: (Key, Key) -> bool, pos: seq<nat>,
                    out: seq<string>, entries: seq<Entry>, m: nat)
    requires MergeState(chunks, le, pos, out, entries, |chunks|, -1)
    requires m < |entries| && forall x :: x in entries ==> le(entries[m].key, x.key)
    ensures var e := entries[m];
      && e.reader < |chunks| && 0 < pos[e.reader] && e.line == chunks[e.reader][pos[e.reader] - 1]
      && MergeState(chunks, le, pos, out + [e.line], entries[..m] + entries[m + 1..], |chunks|, e.reader)
      && forall x :: x in entries[..m] + entries[m + 1..] ==> x.reader != e.reader
  {
    var e := entries[m];
    var rest := entries[..m] + entries[m + 1..];
    assert e in entries;
    assert Current(chunks, pos, |chunks|, e);
    RemoveFacts(entries, m);
    forall i | 0 <= i < |chunks| && i != e.reader && pos[i] < |chunks[i]|
      ensures exists x :: x in rest && x.reader == i
    {
      var x :| x in entries && x.reader == i;
      assert x in rest;
    }
    MapSeqRemove(EntryLine, entries, m);
    DequeueOrdered(le, chunks, out, entries, m);
  }

  /** Queueing r's next line keeps the output in order. */
  lemma EnqueueOrdered(le: (Key, Key) -> bool, chunks: seq<seq<string>>, pos: seq<nat>, out: seq<string>,
                       entries: seq<Entry>, r: nat, key: Key)
    requires Ordered(le, chunks, out, entries) && ValidPos(chunks, pos)
    requires r < |chunks| && pos[r] < |chunks[r]| && GetSortKey(chunks[r][pos[r]]) == Some(key)
    requires out != [] ==> 0 < pos[r] && out[|out| - 1] == chunks[r][pos[r] - 1]
    ensures Ordered(le, chunks, out, entries + [Entry(chunks[r][pos[r]], r, key)])
  {
    if ChunksSorted(le, chunks) && out != [] {
      var c := chunks[r];
      assert LinesSorted(le, c);
      assert le(KeyOf(c[pos[r] - 1]), KeyOf(c[pos[r]]));
      assert forall x :: x in entries + [Entry(chunks[r][pos[r]], r, key)] ==> x in entries || x.key == key;
    }
  }

  /** Another reader advancing leaves an entry current. */
  lemma CurrentAdvance(chunks: seq<seq<string>>, pos: seq<nat>, started: int, x: Entry, r: nat)
    requires ValidPos(chunks, pos) && r < |chunks| && pos[r] < |chunks[r]|
    requires ValidPos(chunks, pos[r := pos[r] + 1])
    requires Current(chunks, pos, started, x) && x.reader != r
    ensures Current(chunks, pos[r := pos[r] + 1], started, x)
  {
  }

  /** After reader r advances, the queue with r's new entry holds every reader's last line. */
  lemma EnqueueCurrent(chunks: seq<seq<string>>, pos: seq<nat>, entries: seq<Entry>, started: int,
                       r: nat, e: Entry)
    requires ValidPos(chunks, pos) && AllCurrent(chunks, pos, started, entries)
    requires r < started && r < |chunks| && pos[r] < |chunks[r]| && forall x :: x in entries ==> x.reader != r
    requires ValidPos(chunks, pos[r := pos[r] + 1])
    requires Current(chunks, pos[r := pos[r] + 1], started, e)
    ensures AllCurrent(chunks, pos[r := pos[r] + 1], started, entries + [e])
  {
    forall x | x in entries + [e] ensures Current(chunks, pos[r := pos[r] + 1], started, x) {
      if x in entries {
        CurrentAdvance(chunks, pos, started, x, r);
      }
    }
  }

  lemma AppendDistinct(entries: seq<Entry>, e: Entry)
    requires DistinctReaders(entries) && forall x :: x in entries ==> x.reader != e.reader
    ensures DistinctReaders(entries + [e])
  {
    var entries' := entries + [e];
    forall a, b | 0 <= a < b < |entries'| ensures entries'[a].reader != entries'[b].reader {
      assert entries'[a] in entries;
    }
  }

  /** After reader r advances and queues its line, every reader with lines left has an entry. */
  lemma EnqueueCovered(chunks: seq<seq<string>>, pos: seq<nat>, entries: seq<Entry>, started: int,
                       r: nat, e: Entry)
    requires ValidPos(chunks, pos) && started <= |chunks| && Covered(chunks, pos, entries, started, r)
    requires r < |chunks| && pos[r] < |chunks[r]| && e.reader == r
    requires ValidPos(chunks, pos[r := pos[r] + 1])
    ensures Covered(chunks, pos[r := pos[r] + 1], entries + [e], started, -1)
  {
    var next := pos[r := pos[r] + 1];
    forall i | 0 <= i < started && next[i] < |chunks[i]| ensures exists x :: x in entries + [e] && x.reader == i {
      if i == r {
        assert e in entries + [e];
      } else {
        var x :| x in entries && x.reader == i;
        assert x in entries + [e];
      }
    }
  }

  lemma EnqueueReadKeyed(chunks: seq<seq<string>>, pos: seq<nat>, r: nat, key: Key)
    requires ValidPos(chunks, pos) && ReadKeyed(chunks, pos)
    requires r < |chunks| && pos[r] < |chunks[r]| && GetSortKey(chunks[r][pos[r]]) == Some(key)
    requires ValidPos(chunks, pos[r := pos[r] + 1])
    ensures ReadKeyed(chunks, pos[r := pos[r] + 1])
  {
    var next := pos[r := pos[r] + 1];
    forall i, k | 0 <= i < |chunks| && 0 <= k < next[i] ensures '.' in chunks[i][k] {
      if i == r && k == pos[r] {
        assert GetSortKey(chunks[i][k]).Some?;
      }
    }
  }

  /**
   * ReadLineAsync on reader r, GetSortKey and Enqueue: the reader's next line joins the queue.
   * Before the first Dequeue the output is empty; afterwards its last line is r's previous line.
   */
  lemma EnqueueStep(chunks: seq<seq<string>>, le: (Key, Key) -> bool, pos: seq<nat>,
                    out: seq<string>, entries: seq<Entry>, started: int, r: nat, key: Key)
    requires MergeState(chunks, le, pos, out, entries, started, r)
    requires r < started && pos[r] < |chunks[r]| && forall x :: x in entries ==> x.reader != r
    requires GetSortKey(chunks[r][pos[r]]) == Some(key)
    requires out != [] ==> 0 < pos[r] && out[|out| - 1] == chunks[r][pos[r] - 1]
    ensures MergeState(chunks, le, pos[r := pos[r] + 1], out,
                       entries + [Entry(chunks[r][pos[r]], r, key)], started, -1)
  {
    var e := Entry(chunks[r][pos[r]], r, key);
    ReadStep(chunks, pos, r);
    MapSeqAppend(EntryLine, entries, e);
    assert Current(chunks, pos[r := pos[r] + 1], started, e);
    EnqueueCurrent(chunks, pos, entries, started, r, e);
    AppendDistinct(entries, e);
    EnqueueCovered(chunks, pos, entries, started, r, e);
    EnqueueReadKeyed(chunks, pos, r, key);
    EnqueueOrdered(le, chunks, pos, out, entries, r, key);
  }

  /** Once the queue is empty every reader is exhausted, so every line has been written. */
  lemma Finish(chunks: seq<seq<string>>, le: (Key, Key) -> bool, pos: seq<nat>, out: seq<string>)
    requires ValidPos(chunks, pos) && Covered(chunks, pos, [], |chunks|, -1) && ReadKeyed(chunks, pos)
    requires Accounted(chunks, pos, out, []) && Ordered(le, chunks, out, [])
    ensures multiset(out) == multiset(Flatten(chunks))
    ensures forall i :: 0 <= i < |chunks| ==> AllKeyed(chunks[i])
    ensures ChunksSorted(le, chunks) ==> LinesSorted(le, out)
  {
    assert forall i :: 0 <= i < |chunks| ==> pos[i] == |chunks[i]|;
    assert forall i :: 0 <= i < |chunks| ==> Prefixes(chunks, pos)[i] == chunks[i][..|chunks[i]|] == chunks[i];
    assert Prefixes(chunks, pos) == chunks;
    assert MapSeq(EntryLine, []) == [];
    forall i | 0 <= i < |chunks| ensures AllKeyed(chunks[i]) {
      forall line | line in chunks[i] ensures '.' in line {
        var k :| 0 <= k < |chunks[i]| && chunks[i][k] == line;
      }
    }
  }

  /** The first loop of MergeSortedChunksAsync: each reader's first line, if it has one, is queued. */
  method FillQueue(pq: PriorityQueue, chunks: seq<seq<string>>) returns (pos: seq<nat>, ok: bool)
    requires TotalPreorder(pq.le) && pq.entries == []
    modifies pq
    ensures ok ==> MergeState(chunks, pq.le, pos, [], pq.entries, |chunks|, -1)
    ensures !ok ==> exists i :: 0 <= i < |chunks| && !AllKeyed(chunks[i])
  {
    pos := seq(|chunks|, _ => 0);
    StartState(chunks, pq.le);
    var i := 0;
    while i < |chunks|
      invariant 0 <= i <= |chunks|
      invariant MergeState(chunks, pq.le, pos, [], pq.entries, i, -1)
    {
      StartReader(chunks, pq.le, pos, [], pq.entries, i);
      if pos[i] < |chunks[i]| {
        var line := chunks[i][pos[i]];
        var key := GetSortKey(line);
        if key.None? {
          assert line in chunks[i];
          return pos, false;
        }
        assert forall x :: x in pq.entries ==> Current(chunks, pos, i + 1, x) && x.reader != i;
        EnqueueStep(chunks, pq.le, pos, [], pq.entries, i + 1, i, key.value);
        pos := pos[i := pos[i] + 1];
        pq.Enqueue(Entry(line, i, key.value));
      } else {
        Exhausted(chunks, pq.le, pos, [], pq.entries, i + 1, i);
      }
      i := i + 1;
    }
    return pos, true;
  }

  /** The measure the second loop decreases: lines still unread plus lines still queued. */
  ghost function Remaining(chunks: seq<seq<string>>, pos: seq<nat>, entries: seq<Entry>): nat
    requires ValidPos(chunks, pos)
  {
    |Flatten(Suffixes(chunks, pos))| + |entries|
  }

  /**
   * The second half of one pass of the second loop: queue the next line of the reader whose line was
   * just written, if it has one. ok is false when that line has no '.'.
   */
  method Refill(pq: PriorityQueue, chunks: seq<seq<string>>, pos: seq<nat>, out: seq<string>, reader: nat)
    returns (pos': seq<nat>, ok: bool)
    requires MergeState(chunks, pq.le, pos, out, pq.entries, |chunks|, reader)
    requires reader < |chunks| && 0 < pos[reader] && out != [] && out[|out| - 1] == chunks[reader][pos[reader] - 1]
    requires forall x :: x in pq.entries ==> x.reader != reader
    modifies pq
    ensures ok ==> MergeState(chunks, pq.le, pos', out, pq.entries, |chunks|, -1)
    ensures ok ==> Remaining(chunks, pos', pq.entries) == Remaining(chunks, pos, old(pq.entries))
    ensures !ok ==> exists i :: 0 <= i < |chunks| && !AllKeyed(chunks[i])
  {
    if pos[reader] < |chunks[reader]| {
      var line := chunks[reader][pos[reader]];
      var key := GetSortKey(line);
      if key.None? {
        assert line in chunks[reader];
        return pos, false;
      }
      EnqueueStep(chunks, pq.le, pos, out, pq.entries, |chunks|, reader, key.value);
      ReadStep(chunks, pos, reader);
      pos' := pos[reader := pos[reader] + 1];
      pq.Enqueue(Entry(line, reader, key.value));
    } else {
      Exhausted(chunks, pq.le, pos, out, pq.entries, |chunks|, reader);
      pos' := pos;
    }
    ok := true;
  }

  /**
   * One pass of the second loop of MergeSortedChunksAsync: write the least line and queue its reader's
   * next line. ok is false when that next line has no '.'.
   */
  method MergeStep(pq: PriorityQueue, chunks: seq<seq<string>>, pos: seq<nat>, out: seq<string>)
    returns (pos': seq<nat>, out': seq<string>, ok: bool)
    requires TotalPreorder(pq.le) && MergeState(chunks, pq.le, pos, out, pq.entries, |chunks|, -1)
    requires |pq.entries| > 0
    modifies pq
    ensures ok ==> MergeState(chunks, pq.le, pos', out', pq.entries, |chunks|, -1)
    ensures ok ==> Remaining(chunks, pos', pq.entries) < Remaining(chunks, pos, old(pq.entries))
    ensures !ok ==> exists i :: 0 <= i < |chunks| && !AllKeyed(chunks[i])
  {
    ghost var before := pq.entries;
    var e, m := pq.Dequeue();
    DequeueStep(chunks, pq.le, pos, out, before, m);
    out' := out + [e.line];
    pos', ok := Refill(pq, chunks, pos, out', e.reader);
  }

  /** The second loop of MergeSortedChunksAsync, until the queue is empty. */
  method DrainQueue(pq: PriorityQueue, chunks: seq<seq<string>>, pos0: seq<nat>) returns (r: Option<seq<string>>)
    requires TotalPreorder(pq.le) && MergeState(chunks, pq.le, pos0, [], pq.entries, |chunks|, -1)
    modifies pq
    ensures r.Some? <==> forall i :: 0 <= i < |chunks| ==> AllKeyed(chunks[i])
    ensures r.Some? ==> multiset(r.value) == multiset(Flatten(chunks))
    ensures r.Some? && ChunksSorted(pq.le, chunks) ==> LinesSorted(pq.le, r.value)
  {
    var pos: seq<nat> := pos0;
    var out: seq<string> := [];
    while |pq.entries| > 0
      invariant MergeState(chunks, pq.le, pos, out, pq.entries, |chunks|, -1)
      decreases Remaining(chunks, pos, pq.entries)
    {
      var ok;
      pos, out, ok := MergeStep(pq, chunks, pos, out);
      if !ok {
        return None;
      }
    }
    Finish(chunks, pq.le, pos, out);
    return Some(out);
  }

  /**
   * MergeSortedChunksAsync over the contents of the sorted chunk files, with the queue's priorities
   * compared by le. None is the exception GetSortKey throws for a line without '.'.
   */
  method MergeSortedChunks(chunks: seq<seq<string>>, le: (Key, Key) -> bool) returns (r: Option<seq<string>>)
    requires TotalPreorder(le)
    ensures r.Some? <==> forall i :: 0 <= i < |chunks| ==> AllKeyed(chunks[i])
    ensures r.Some? ==> multiset(r.value) == multiset(Flatten(chunks))
    ensures r.Some? && ChunksSorted(le, chunks) ==> LinesSorted(le, r.value)
  {
    var pq := new PriorityQueue(le);
    var pos, ok := FillQueue(pq, chunks);
    if !ok {
      return None;
    }
    r := DrainQueue(pq, chunks, pos);
  }

  /** Distinct readers below n number at most n. */
  lemma {:induction false} DistinctBound(rs: seq<nat>, n: nat)
    decreases |rs|
    requires forall a, b :: 0 <= a < b < |rs| ==> rs[a] != rs[b]
    requires forall a :: 0 <= a < |rs| ==> rs[a] < n
    ensures |rs| <= n
  {
    if rs != [] {
      var last := rs[|rs| - 1];
      var front := rs[..|rs| - 1];
      var moved := seq(|front|, k requires 0 <= k < |front| => if front[k] == n - 1 then last else front[k]);
      forall a, b | 0 <= a < b < |moved| ensures moved[a] != moved[b] {
        assert front[a] != front[b] && front[a] != last && front[b] != last;
      }
      forall a | 0 <= a < |moved| ensures moved[a] < n - 1 {
        assert front[a] != last;
        if front[a] == n - 1 {
          assert last != n - 1;
        }
      }
      DistinctBound(moved, n - 1);
    }
  }

  /** The queue holds at most one line per chunk. */
  lemma QueueBound(chunks: seq<seq<string>>, le: (Key, Key) -> bool, pos: seq<nat>,
                   out: seq<string>, entries: seq<Entry>, started: int, except: int)
    requires MergeState(chunks, le, pos, out, entries, started, except)
    ensures |entries| <= |chunks|
  {
    var rs := seq(|entries|, k requires 0 <= k < |entries| => entries[k].reader);
    forall a | 0 <= a < |rs| ensures rs[a] < |chunks| {
      assert entries[a] in entries;
    }
    DistinctBound(rs, |chunks|);
  }

  /** Four lines whose keys are strictly increasing under le. */
  predicate StrictlyIncreasing(le: (Key, Key) -> bool, a: string, b: string, c: string, d: string) {
    && '.' in a && '.' in b && '.' in c && '.' in d
    && StrictlyBefore(le, KeyOf(a), KeyOf(b))
    && StrictlyBefore(le, KeyOf(b), KeyOf(c))
    && StrictlyBefore(le, KeyOf(c), KeyOf(d))
  }

  /** Each line's key strictly after its predecessor's. */
  predicate StrictlySorted(le: (Key, Key) -> bool, lines: seq<string>)
    requires AllKeyed(lines)
  {
    forall k :: 0 < k < |lines| ==> StrictlyBefore(le, KeyOf(lines[k - 1]), KeyOf(lines[k]))
  }

  /** Under a total preorder a strictly sorted sequence is sorted and has no ties. */
  lemma StrictlySortedFacts(le: (Key, Key) -> bool, lines: seq<string>)
    requires TotalPreorder(le) && AllKeyed(lines) && StrictlySorted(le, lines)
    ensures LinesSorted(le, lines) && NoTies(le, lines)
  {
    forall x, y | x in lines && y in lines && le(KeyOf(x), KeyOf(y)) && le(KeyOf(y), KeyOf(x))
      ensures x == y
    {
      var i :| 0 <= i < |lines| && lines[i] == x;
      var j :| 0 <= j < |lines| && lines[j] == y;
      if i < j {
        LinesSortedPairwise(le, lines, i + 1, j);
      } else if j < i {
        LinesSortedPairwise(le, lines, j + 1, i);
      }
    }
  }

  lemma FourStrictlySorted(le: (Key, Key) -> bool, a: string, b: string, c: string, d: string)
    requires StrictlyIncreasing(le, a, b, c, d)
    ensures AllKeyed([a, b, c, d]) && StrictlySorted(le, [a, b, c, d])
  {
    var lines := [a, b, c, d];
    assert AllKeyed(lines);
    forall k | 0 < k < |lines| ensures StrictlyBefore(le, KeyOf(lines[k - 1]), KeyOf(lines[k])) {
      if k == 1 {
        assert lines[0] == a && lines[1] == b;
      } else if k == 2 {
        assert lines[1] == b && lines[2] == c;
      } else {
        assert lines[2] == c && lines[3] == d;
      }
    }
  }

  lemma StrictlyIncreasingSorted(le: (Key, Key) -> bool, a: string, b: string, c: string, d: string)
    requires TotalPreorder(le) && StrictlyIncreasing(le, a, b, c, d)
    ensures LinesSorted(le, [a, b, c, d]) && NoTies(le, [a, b, c, d])
  {
    FourStrictlySorted(le, a, b, c, d);
    StrictlySortedFacts(le, [a, b, c, d]);
  }

  lemma InterleavedChunksSorted(le: (Key, Key) -> bool, a: string, b: string, c: string, d: string)
    requires TotalPreorder(le) && StrictlyIncreasing(le, a, b, c, d)
    ensures ChunksSorted(le, [[a, c], [b, d]])
  {
    StrictlyBeforeTransitive(le, KeyOf(a), KeyOf(b), KeyOf(c));
    StrictlyBeforeTransitive(le, KeyOf(b), KeyOf(c), KeyOf(d));
    assert LinesSorted(le, [a, c]) && LinesSorted(le, [b, d]);
  }

  lemma InterleavedLines(a: string, b: string, c: string, d: string)
    ensures multiset(Flatten([[a, c], [b, d]])) == multiset([a, b, c, d])
  {
    var chunks := [[a, c], [b, d]];
    assert Flatten(chunks) == [a, c] + ([b, d] + Flatten(chunks[2..]));
  }

  /** Two sorted chunks whose lines interleave with strictly increasing keys merge into key order. */
  method MergeInterleaved(le: (Key, Key) -> bool, a: string, b: string, c: string, d: string)
    returns (r: Option<seq<string>>)
    requires TotalPreorder(le) && StrictlyIncreasing(le, a, b, c, d)
    ensures r == Some([a, b, c, d])
  {
    StrictlyIncreasingSorted(le, a, b, c, d);
    InterleavedChunksSorted(le, a, b, c, d);
    InterleavedLines(a, b, c, d);
    r := MergeSortedChunks([[a, c], [b, d]], le);
    SortedUnique(le, [a, b, c, d], r.value);
  }

  /** The queue order puts a key before another whose text the comparer puts strictly later. */
  lemma TextDecides(textLe: (string, string) -> bool, x: Key, y: Key)
    requires StrictlyBefore(textLe, x.text, y.text)
    ensures StrictlyBefore(MergeOrder(textLe), x, y)
  {
  }

  lemma AppleKey()
    ensures GetSortKey(FormatLine(1, "Apple")) == Some(Key("Apple", 1))
  {
    FormatLineKey(1, "Apple");
  }

  lemma BananaKey()
    ensures GetSortKey(FormatLine(2, "Banana")) == Some(Key("Banana", 2))
  {
    FormatLineKey(2, "Banana");
  }

  lemma CherryKey()
    ensures GetSortKey(FormatLine(3, "Cherry")) == Some(Key("Cherry", 3))
  {
    FormatLineKey(3, "Cherry");
  }

  lemma DateKey()
    ensures GetSortKey(FormatLine(4, "Date")) == Some(Key("Date", 4))
  {
    FormatLineKey(4, "Date");
  }

  /** The comparer orders Apple, Banana, Cherry, Date strictly. */
  predicate FruitsInOrder(textLe: (string, string) -> bool) {
    && StrictlyBefore(textLe, "Apple", "Banana")
    && StrictlyBefore(textLe, "Banana", "Cherry")
    && StrictlyBefore(textLe, "Cherry", "Date")
  }

  /** The merge of ["1. Apple", "3. Cherry"] and ["2. Banana", "4. Date"] is 1, 2, 3, 4. */
  method MergeExample(textLe: (string, string) -> bool) returns (r: Option<seq<string>>)
    requires TotalPreorder(textLe) && FruitsInOrder(textLe)
    ensures r == Some([FormatLine(1, "Apple"), FormatLine(2, "Banana"), FormatLine(3, "Cherry"), FormatLine(4, "Date")])
  {
    AppleKey();
    BananaKey();
    CherryKey();
    DateKey();
    TextDecides(textLe, Key("Apple", 1), Key("Banana", 2));
    TextDecides(textLe, Key("Banana", 2), Key("Cherry", 3));
    TextDecides(textLe, Key("Cherry", 3), Key("Date", 4));
    TupleLeIsTotalPreorder(textLe);
    r := MergeInterleaved(MergeOrder(textLe), FormatLine(1, "Apple"), FormatLine(2, "Banana"),
                          FormatLine(3, "Cherry"), FormatLine(4, "Date"));
  }
}
