/**
 * SortFileHandler.SplitFileIntoChunksAsync: one pass over the input lines that buffers them and
 * writes the buffer to a new chunk file as soon as its UTF-8 size reaches chunkSizeBytes.
 * A file is modelled as its sequence of lines; a chunk file as its path and its lines.
 */
module Splitter {
  import opened Text
  import opened Numbers
  import opened Seqs

  /** Encoding.UTF8.GetByteCount(line + "\n"): what one line adds to the running size. */
  function LineByteCount(line: string): (n: nat)
    ensures n == Utf8ByteCount(line) + 1 && n >= |line| + 1
  {
    Utf8ByteCountConcat(line, "\n");
    Utf8ByteCount(line + "\n")
  }

  /** The running size of a buffer of lines. */
  function BufferBytes(buffer: seq<string>): nat {
    if buffer == [] then 0
    else BufferBytes(buffer[..|buffer| - 1]) + LineByteCount(buffer[|buffer| - 1])
  }

  lemma BufferBytesAppend(buffer: seq<string>, line: string)
    ensures BufferBytes(buffer + [line]) == BufferBytes(buffer) + LineByteCount(line)
  {
    assert (buffer + [line])[..|buffer|] == buffer;
  }

  /**
   * The chunks the loop still produces from the state (buffer, size) when rest is the unread input.
   * Each line is appended and counted; the buffer is flushed once the size is >= limit, and a
   * non-empty buffer left at the end of the input is the last chunk.
   */
  function SplitFrom(buffer: seq<string>, size: int, rest: seq<string>, limit: int): seq<seq<string>>
    decreases |rest|
  {
    if rest == [] then
      if buffer == [] then [] else [buffer]
    else
      var next := buffer + [rest[0]];
      var nextSize := size + LineByteCount(rest[0]);
      if nextSize >= limit then [next] + SplitFrom([], 0, rest[1..], limit)
      else SplitFrom(next, nextSize, rest[1..], limit)
  }

  /** The contents of the chunk files the splitter writes for the given input. */
  function Split(lines: seq<string>, limit: int): seq<seq<string>> {
    SplitFrom([], 0, lines, limit)
  }

  /** The loop's state: the size is the running size of the buffer, which has not reached the limit. */
  predicate BufferState(buffer: seq<string>, size: int, limit: int) {
    size == BufferBytes(buffer) && (buffer == [] || size < limit)
  }

  /** A chunk without its last line: empty, or still below the limit. */
  predicate BelowLimitBeforeLastLine(chunk: seq<string>, limit: int) {
    chunk != [] && (|chunk| == 1 || BufferBytes(chunk[..|chunk| - 1]) < limit)
  }

  /** Chunking loses, duplicates and reorders nothing. */
  lemma {:induction false} SplitFromFlatten(buffer: seq<string>, size: int, rest: seq<string>, limit: int)
    ensures Flatten(SplitFrom(buffer, size, rest, limit)) == buffer + rest
    decreases |rest|
  {
    if rest == [] {
      assert buffer + rest == buffer;
      if buffer != [] {
        assert Flatten([buffer]) == buffer + Flatten([buffer][1..]);
      }
    } else {
      var next := buffer + [rest[0]];
      var nextSize := size + LineByteCount(rest[0]);
      SplitFromFlatten(if nextSize >= limit then [] else next,
                       if nextSize >= limit then 0 else nextSize, rest[1..], limit);
      assert buffer + rest == next + rest[1..];
      if nextSize >= limit {
        var tail := SplitFrom([], 0, rest[1..], limit);
        assert ([next] + tail)[1..] == tail;
        assert [] + rest[1..] == rest[1..];
      }
    }
  }

  /** Every chunk is non-empty and was still below the limit before its last line was added. */
  lemma {:induction false} SplitFromBelow(buffer: seq<string>, size: int, rest: seq<string>, limit: int)
    requires BufferState(buffer, size, limit)
    ensures forall k :: 0 <= k < |SplitFrom(buffer, size, rest, limit)| ==>
      BelowLimitBeforeLastLine(SplitFrom(buffer, size, rest, limit)[k], limit)
    decreases |rest|
  {
    if rest != [] {
      var next := buffer + [rest[0]];
      var nextSize := size + LineByteCount(rest[0]);
      BufferBytesAppend(buffer, rest[0]);
      assert next[..|next| - 1] == buffer;
      var chunks := SplitFrom(buffer, size, rest, limit);
      if nextSize >= limit {
        var tail := SplitFrom([], 0, rest[1..], limit);
        SplitFromBelow([], 0, rest[1..], limit);
        assert chunks == [next] + tail;
        assert BelowLimitBeforeLastLine(next, limit);
        forall k | 0 < k < |chunks| ensures BelowLimitBeforeLastLine(chunks[k], limit) {
          assert chunks[k] == tail[k - 1];
        }
      } else {
        assert BufferState(next, nextSize, limit);
        SplitFromBelow(next, nextSize, rest[1..], limit);
        assert chunks == SplitFrom(next, nextSize, rest[1..], limit);
      }
    }
  }

  /** Every chunk but the last reached the limit. */
  predicate AllButLastReached(chunks: seq<seq<string>>, limit: int) {
    forall k :: 0 <= k < |chunks| - 1 ==> BufferBytes(chunks[k]) >= limit
  }

  /** The step that flushes: the grown buffer is the next chunk. */
  lemma SplitFromFlushes(buffer: seq<string>, size: int, rest: seq<string>, limit: int)
    requires rest != [] && size + LineByteCount(rest[0]) >= limit
    ensures SplitFrom(buffer, size, rest, limit) == [buffer + [rest[0]]] + SplitFrom([], 0, rest[1..], limit)
  {
  }

  /** The step that does not flush: the line joins the buffer. */
  lemma SplitFromGrows(buffer: seq<string>, size: int, rest: seq<string>, limit: int)
    requires rest != [] && size + LineByteCount(rest[0]) < limit
    ensures SplitFrom(buffer, size, rest, limit)
            == SplitFrom(buffer + [rest[0]], size + LineByteCount(rest[0]), rest[1..], limit)
  {
  }

  lemma ReachedCons(chunk: seq<string>, tail: seq<seq<string>>, limit: int)
    requires BufferBytes(chunk) >= limit && AllButLastReached(tail, limit)
    ensures AllButLastReached([chunk] + tail, limit)
  {
    var chunks := [chunk] + tail;
    forall k | 0 <= k < |chunks| - 1 ensures BufferBytes(chunks[k]) >= limit {
      if k > 0 {
        assert chunks[k] == tail[k - 1];
      }
    }
  }

  /** A flushed buffer reached the limit, so it may come before the chunks that follow it. */
  lemma ReachedFlush(buffer: seq<string>, size: int, rest: seq<string>, limit: int)
    requires BufferState(buffer, size, limit) && rest != []
    requires size + LineByteCount(rest[0]) >= limit
    requires AllButLastReached(SplitFrom([], 0, rest[1..], limit), limit)
    ensures AllButLastReached(SplitFrom(buffer, size, rest, limit), limit)
  {
    BufferBytesAppend(buffer, rest[0]);
    SplitFromFlushes(buffer, size, rest, limit);
    ReachedCons(buffer + [rest[0]], SplitFrom([], 0, rest[1..], limit), limit);
  }

  lemma {:induction false} SplitFromReached(buffer: seq<string>, size: int, rest: seq<string>, limit: int)
    requires BufferState(buffer, size, limit)
    ensures AllButLastReached(SplitFrom(buffer, size, rest, limit), limit)
    decreases |rest|
  {
    if rest != [] {
      var next := buffer + [rest[0]];
      var nextSize := size + LineByteCount(rest[0]);
      if nextSize >= limit {
        SplitFromReached([], 0, rest[1..], limit);
        ReachedFlush(buffer, size, rest, limit);
      } else {
        BufferBytesAppend(buffer, rest[0]);
        SplitFromReached(next, nextSize, rest[1..], limit);
        assert SplitFrom(buffer, size, rest, limit) == SplitFrom(next, nextSize, rest[1..], limit);
      }
    }
  }

  /**
   * Every chunk is non-empty; every chunk but the last reached the limit; and every chunk was
   * still below the limit before its last line was added.
   */
  lemma SplitFromSizes(buffer: seq<string>, size: int, rest: seq<string>, limit: int)
    requires BufferState(buffer, size, limit)
    ensures forall k :: 0 <= k < |SplitFrom(buffer, size, rest, limit)| ==>
      BelowLimitBeforeLastLine(SplitFrom(buffer, size, rest, limit)[k], limit)
    ensures forall k :: 0 <= k < |SplitFrom(buffer, size, rest, limit)| - 1 ==>
      BufferBytes(SplitFrom(buffer, size, rest, limit)[k]) >= limit
  {
    SplitFromBelow(buffer, size, rest, limit);
    SplitFromReached(buffer, size, rest, limit);
  }

  /** The splitter produces no chunk exactly when the input has no lines. */
  lemma SplitEmptyIff(lines: seq<string>, limit: int)
    ensures Split(lines, limit) == [] <==> lines == []
  {
    SplitFromFlatten([], 0, lines, limit);
    assert [] + lines == lines;
  }

  /** With a limit of at most one byte every line is a chunk of its own (a line is at least one byte). */
  lemma SplitSmallLimit(lines: seq<string>, limit: int)
    requires limit <= 1
    ensures forall k :: 0 <= k < |Split(lines, limit)| ==> |Split(lines, limit)[k]| == 1
  {
    SplitFromSizes([], 0, lines, limit);
    var chunks := Split(lines, limit);
    forall k | 0 <= k < |chunks| ensures |chunks[k]| == 1 {
      var c := chunks[k];
      assert BelowLimitBeforeLastLine(c, limit);
    }
  }

  /** Lines of at least eight characters take at least nine bytes each. */
  lemma {:induction false} BufferBytesLowerBound(buffer: seq<string>)
    requires forall line :: line in buffer ==> |line| >= 8
    ensures BufferBytes(buffer) >= 9 * |buffer|
  {
    if buffer != [] {
      var front := buffer[..|buffer| - 1];
      assert forall line :: line in front ==> line in buffer;
      BufferBytesLowerBound(front);
      assert buffer[|buffer| - 1] in buffer;
    }
  }

  /** When the lines before the last already reach the limit, there is more than one chunk. */
  lemma MoreThanOneChunk(lines: seq<string>, limit: int)
    requires |lines| >= 2 && BufferBytes(lines[..|lines| - 1]) >= limit
    ensures |Split(lines, limit)| >= 2
  {
    var chunks := Split(lines, limit);
    SplitEmptyIff(lines, limit);
    SplitFromFlatten([], 0, lines, limit);
    assert [] + lines == lines;
    SplitFromSizes([], 0, lines, limit);
    FlattenSingleton(chunks);
  }

  /** 100 lines "1. Apple" ... "100. Apple" and a limit of 100 bytes give more than one chunk. */
  lemma HundredApplesExample()
    ensures |Split(seq(100, i requires 0 <= i < 100 => FormatApple(i + 1)), 100)| > 1
  {
    var lines := seq(100, i requires 0 <= i < 100 => FormatApple(i + 1));
    var front := lines[..99];
    forall line | line in front ensures |line| >= 8 {
      var i :| 0 <= i < 99 && front[i] == line;
      assert line == FormatApple(i + 1);
    }
    BufferBytesLowerBound(front);
    MoreThanOneChunk(lines, 100);
  }

  /** The generator's line "<n>. Apple". */
  function FormatApple(n: nat): (line: string)
    ensures |line| >= 8
  {
    NatToDigits(n) + ". Apple"
  }

  /** A chunk file: Path.Combine(tempFolder, $"chunk_{index}.txt") and the lines written to it. */
  datatype ChunkFile = ChunkFile(path: string, lines: seq<string>)

  /** The name of chunk number index inside the job's temporary folder. */
  function ChunkPath(index: nat): string {
    "chunk_" + NatToDigits(index) + ".txt"
  }

  /** Different indexes name different chunk files. */
  lemma ChunkPathInjective(i: nat, j: nat)
    requires ChunkPath(i) == ChunkPath(j)
    ensures i == j
  {
    var di, dj := NatToDigits(i), NatToDigits(j);
    assert ChunkPath(i)[6..|ChunkPath(i)| - 4] == di;
    assert ChunkPath(j)[6..|ChunkPath(j)| - 4] == dj;
    NatToDigitsInjective(i, j);
  }

  function Contents(chunks: seq<ChunkFile>): seq<seq<string>> {
    seq(|chunks|, k requires 0 <= k < |chunks| => chunks[k].lines)
  }

  lemma ContentsAppend(chunks: seq<ChunkFile>, c: ChunkFile)
    ensures Contents(chunks + [c]) == Contents(chunks) + [c.lines]
  {
  }

  /** The properties of the chunking that the splitter's caller relies on. */
  lemma SplitFacts(lines: seq<string>, limit: int)
    ensures Flatten(Split(lines, limit)) == lines
    ensures Split(lines, limit) == [] <==> lines == []
    ensures forall k :: 0 <= k < |Split(lines, limit)| ==> BelowLimitBeforeLastLine(Split(lines, limit)[k], limit)
    ensures forall k :: 0 <= k < |Split(lines, limit)| - 1 ==> BufferBytes(Split(lines, limit)[k]) >= limit
  {
    SplitFromFlatten([], 0, lines, limit);
    assert [] + lines == lines;
    SplitEmptyIff(lines, limit);
    SplitFromSizes([], 0, lines, limit);
  }

  /** SplitFacts for the chunk files that hold the chunks. */
  lemma ChunkFilesFacts(lines: seq<string>, limit: int, chunks: seq<ChunkFile>)
    requires Contents(chunks) == Split(lines, limit)
    ensures Flatten(Contents(chunks)) == lines
    ensures chunks == [] <==> lines == []
    ensures forall k :: 0 <= k < |chunks| ==> BelowLimitBeforeLastLine(chunks[k].lines, limit)
    ensures forall k :: 0 <= k < |chunks| - 1 ==> BufferBytes(chunks[k].lines) >= limit
  {
    SplitFacts(lines, limit);
    assert forall k :: 0 <= k < |chunks| ==> Contents(chunks)[k] == chunks[k].lines;
  }

  /** SplitFileIntoChunksAsync over the lines of the input file, with the given chunk size in bytes. */
  method SplitFileIntoChunks(lines: seq<string>, chunkSizeBytes: int) returns (chunks: seq<ChunkFile>)
    ensures Contents(chunks) == Split(lines, chunkSizeBytes)
    ensures forall k :: 0 <= k < |chunks| ==> chunks[k].path == ChunkPath(k)
    ensures Flatten(Contents(chunks)) == lines
    ensures chunks == [] <==> lines == []
    ensures forall k :: 0 <= k < |chunks| ==> BelowLimitBeforeLastLine(chunks[k].lines, chunkSizeBytes)
    ensures forall k :: 0 <= k < |chunks| - 1 ==> BufferBytes(chunks[k].lines) >= chunkSizeBytes
  {
    chunks := [];
    var buffer: seq<string> := [];
    var currentSize := 0;
    var index := 0;
    var i := 0;
    while i < |lines|
      invariant 0 <= i <= |lines|
      invariant index == |chunks|
      invariant forall k :: 0 <= k < |chunks| ==> chunks[k].path == ChunkPath(k)
      invariant Contents(chunks) + SplitFrom(buffer, currentSize, lines[i..], chunkSizeBytes)
                == Split(lines, chunkSizeBytes)
    {
      var line := lines[i];
      assert lines[i..][0] == line && lines[i..][1..] == lines[i + 1..];
      if currentSize + LineByteCount(line) >= chunkSizeBytes {
        SplitFromFlushes(buffer, currentSize, lines[i..], chunkSizeBytes);
      } else {
        SplitFromGrows(buffer, currentSize, lines[i..], chunkSizeBytes);
      }
      i := i + 1;
      buffer := buffer + [line];
      currentSize := currentSize + LineByteCount(line);
      if currentSize >= chunkSizeBytes {
        ContentsAppend(chunks, ChunkFile(ChunkPath(index), buffer));
        chunks := chunks + [ChunkFile(ChunkPath(index), buffer)];
        index := index + 1;
        buffer := [];
        currentSize := 0;
      }
    }
    assert lines[i..] == [];
    if |buffer| > 0 {
      ContentsAppend(chunks, ChunkFile(ChunkPath(index), buffer));
      chunks := chunks + [ChunkFile(ChunkPath(index), buffer)];
      index := index + 1;
    } else {
      assert Contents(chunks) + [] == Contents(chunks);
    }
    ChunkFilesFacts(lines, chunkSizeBytes, chunks);
  }
}
