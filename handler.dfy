/**
 * SortFileHandler.Handle: split the input file into chunk files, sort every chunk into its own sorted
 * file, merge the sorted files into the output file, and return whether all of that succeeded.
 * Exceptions thrown inside the try block become the result false; the two Directory.CreateDirectory
 * calls before it and the Directory.Delete in its finally block may throw out of Handle.
 */
module Handler {
  import opened Wrappers
  import opened Orders
  import opened Seqs
  import opened Text
  import opened Numbers
  import opened SortKey
  import opened Splitter
  import opened ChunkSort
  import opened Merge

  /** How Handle ends: it returns a result, or an exception propagates to its caller. */
  datatype Outcome = Returned(success: bool) | Propagated

  /** The path of the sorted file the chunk stage writes for a chunk file. */
  function SortedPath(chunkPath: string): (p: string)
    ensures |p| > |chunkPath| && p[..|chunkPath|] == chunkPath
  {
    chunkPath + "_sorted.txt"
  }

  /** Every line of every chunk file has a '.'. */
  predicate ChunksKeyed(chunks: seq<ChunkFile>) {
    forall k :: 0 <= k < |chunks| ==> AllKeyed(chunks[k].lines)
  }

  /** sorted[k] is chunk k's sorted file: same lines, ordered by CompareByKeys. */
  predicate SortedFiles(chunks: seq<ChunkFile>, sorted: seq<ChunkFile>) {
    && |sorted| == |chunks|
    && forall k :: 0 <= k < |chunks| ==>
         && sorted[k].path == SortedPath(chunks[k].path)
         && multiset(sorted[k].lines) == multiset(chunks[k].lines)
         && LinesSorted(KeyLe, sorted[k].lines)
  }

  /**
   * The Parallel.ForEachAsync stage: every chunk file is read, parsed, sorted and written to its
   * sorted file. The chunks are taken one after the other; None is the exception a line without '.'
   * raises, which ends the whole stage.
   */
  method SortChunks(chunks: seq<ChunkFile>) returns (r: Option<seq<ChunkFile>>)
    ensures r.Some? <==> ChunksKeyed(chunks)
    ensures r.Some? ==> SortedFiles(chunks, r.value)
  {
    var sorted: seq<ChunkFile> := [];
    var k := 0;
    while k < |chunks|
      invariant 0 <= k <= |chunks|
      invariant ChunksKeyed(chunks[..k]) && SortedFiles(chunks[..k], sorted)
    {
      var lines := SortChunkLines(chunks[k].lines);
      if lines.None? {
        return None;
      }
      sorted := sorted + [ChunkFile(SortedPath(chunks[k].path), lines.value)];
      k := k + 1;
    }
    assert chunks[..k] == chunks;
    return Some(sorted);
  }

  /** ConcurrentBag.ToList(): the bag's items in an order the bag does not promise. */
  method BagToList(bag: seq<ChunkFile>) returns (list: seq<ChunkFile>)
    ensures multiset(list) == multiset(bag)
  {
    list := bag;
  }

  /** The lines of one chunk file. */
  function ChunkLines(c: ChunkFile): seq<string> {
    c.lines
  }

  lemma ContentsIsMap(chunks: seq<ChunkFile>)
    ensures Contents(chunks) == MapSeq(ChunkLines, chunks)
  {
    var m := MapSeq(ChunkLines, chunks);
    assert forall k :: 0 <= k < |chunks| ==> m[k] == ChunkLines(chunks[k]);
  }

  /** Sorted files taken in any order hold the lines of the chunks they came from. */
  lemma ListedFiles(chunks: seq<ChunkFile>, sorted: seq<ChunkFile>, list: seq<ChunkFile>)
    requires SortedFiles(chunks, sorted) && multiset(list) == multiset(sorted)
    ensures multiset(Flatten(Contents(list))) == multiset(Flatten(Contents(chunks)))
    ensures forall k :: 0 <= k < |list| ==> LinesSorted(KeyLe, list[k].lines)
  {
    ContentsIsMap(list);
    ContentsIsMap(sorted);
    MapPermutation(ChunkLines, list, sorted);
    FlattenPermutation(Contents(list), Contents(sorted));
    FlattenPointwise(Contents(sorted), Contents(chunks));
    forall k | 0 <= k < |list| ensures LinesSorted(KeyLe, list[k].lines) {
      assert list[k] in multiset(sorted);
      var j :| 0 <= j < |sorted| && sorted[j] == list[k];
    }
  }

  /** The lines of the input all have a '.' exactly when the lines of every chunk do. */
  lemma KeyedChunks(lines: seq<string>, chunks: seq<ChunkFile>)
    requires Flatten(Contents(chunks)) == lines
    ensures ChunksKeyed(chunks) <==> AllKeyed(lines)
  {
    var c := Contents(chunks);
    if ChunksKeyed(chunks) {
      forall x | x in lines ensures '.' in x {
        FlattenMemberOf(c, x);
        var i :| 0 <= i < |c| && x in c[i];
        assert AllKeyed(chunks[i].lines);
      }
    }
    if AllKeyed(lines) {
      forall k, x | 0 <= k < |chunks| && x in chunks[k].lines ensures '.' in x {
        assert c[k] == chunks[k].lines;
        FlattenMember(c, k, x);
      }
    }
  }

  /** Chunk files of one line each are sorted under any order. */
  lemma SingleLineChunksSorted(chunks: seq<seq<string>>, le: (Key, Key) -> bool)
    requires forall k :: 0 <= k < |chunks| ==> AllKeyed(chunks[k]) && |chunks[k]| == 1
    ensures ChunksSorted(le, chunks)
  {
  }

  /** An order that holds wherever KeyLe holds. */
  ghost predicate ExtendsKeyLe(le: (Key, Key) -> bool) {
    forall x, y :: KeyLe(x, y) ==> le(x, y)
  }

  lemma SortedUnderExtension(le: (Key, Key) -> bool, lines: seq<string>)
    requires ExtendsKeyLe(le) && LinesSorted(KeyLe, lines)
    ensures LinesSorted(le, lines)
  {
    forall k | 0 < k < |lines| ensures le(KeyOf(lines[k - 1]), KeyOf(lines[k])) {
      assert KeyLe(KeyOf(lines[k - 1]), KeyOf(lines[k]));
    }
  }

  /** Sorting and listing keep chunk files of one line each at one line each. */
  lemma SingleLineChunksListed(chunks: seq<ChunkFile>, sorted: seq<ChunkFile>, list: seq<ChunkFile>)
    requires forall k :: 0 <= k < |chunks| ==> |chunks[k].lines| == 1
    requires SortedFiles(chunks, sorted) && multiset(list) == multiset(sorted)
    ensures forall k :: 0 <= k < |list| ==> |list[k].lines| == 1
  {
    forall k | 0 <= k < |list| ensures |list[k].lines| == 1 {
      assert list[k] in multiset(sorted);
      var j :| 0 <= j < |sorted| && sorted[j] == list[k];
      assert |multiset(sorted[j].lines)| == |multiset(chunks[j].lines)|;
    }
  }

  /**
   * What the merge receives: sorted files whose lines all have keys, sorted under the queue's order
   * when that order extends CompareByKeys's or when every chunk holds one line.
   */
  lemma ListedChunksSorted(lines: seq<string>, limit: int, chunks: seq<ChunkFile>, sorted: seq<ChunkFile>,
                           list: seq<ChunkFile>, mergeLe: (Key, Key) -> bool)
    requires Contents(chunks) == Split(lines, limit)
    requires SortedFiles(chunks, sorted) && multiset(list) == multiset(sorted)
    ensures forall k :: 0 <= k < |list| ==> AllKeyed(Contents(list)[k])
    ensures ExtendsKeyLe(mergeLe) || limit <= 1 ==> ChunksSorted(mergeLe, Contents(list))
  {
    var contents := Contents(list);
    ListedFiles(chunks, sorted, list);
    assert forall k :: 0 <= k < |list| ==> contents[k] == list[k].lines;
    if ExtendsKeyLe(mergeLe) {
      forall k | 0 <= k < |list| ensures LinesSorted(mergeLe, contents[k]) {
        SortedUnderExtension(mergeLe, list[k].lines);
      }
    }
    if limit <= 1 {
      SplitSmallLimit(lines, limit);
      assert forall k :: 0 <= k < |chunks| ==> Contents(chunks)[k] == chunks[k].lines;
      SingleLineChunksListed(chunks, sorted, list);
      SingleLineChunksSorted(contents, mergeLe);
    }
  }

  /** The try block of Handle, from the input file's lines to the output file's lines. */
  method RunStages(lines: seq<string>, chunkSizeBytes: int, mergeLe: (Key, Key) -> bool)
    returns (r: Option<seq<string>>)
    requires TotalPreorder(mergeLe)
    ensures r.Some? <==> AllKeyed(lines)
    ensures r.Some? ==> multiset(r.value) == multiset(lines)
    ensures r.Some? && ExtendsKeyLe(mergeLe) ==> LinesSorted(mergeLe, r.value)
    ensures r.Some? && chunkSizeBytes <= 1 ==> LinesSorted(mergeLe, r.value)
  {
    var chunks := SplitFileIntoChunks(lines, chunkSizeBytes);
    KeyedChunks(lines, chunks);
    var sorted := SortChunks(chunks);
    if sorted.None? {
      return None;
    }
    var list := BagToList(sorted.value);
    ListedFiles(chunks, sorted.value, list);
    var contents := Contents(list);
    ListedChunksSorted(lines, chunkSizeBytes, chunks, sorted.value, list, mergeLe);
    r := MergeSortedChunks(contents, mergeLe);
  }

  /** _options.ChunkSizeMb * 1024L * 1024L, computed in 64 bits, where no int value overflows. */
  function ChunkSizeBytes(chunkSizeMb: int32): (n: int)
    ensures n <= 1 <==> chunkSizeMb <= 0
    ensures n % 0x10_0000 == 0
  {
    chunkSizeMb * 1024 * 1024
  }

  /** The input file exists and every one of its lines has a '.'. */
  predicate Sortable(input: Option<seq<string>>) {
    input.Some? && AllKeyed(input.value)
  }

  /**
   * The try block runs to its end: the input file exists, every line has a '.', and the request is
   * not cancelled before the split loop's first ThrowIfCancellationRequested, which only an input
   * without lines never reaches.
   */
  predicate Completes(input: Option<seq<string>>, cancelled: bool) {
    Sortable(input) && (!cancelled || input.value == [])
  }

  /**
   * Handle with the merge queue ordered by mergeLe. input is None when the input file cannot be
   * opened; cancelled says whether the request's token is cancelled when Handle starts;
   * directoriesCreated says whether Directory.CreateDirectory succeeded for the temp and output
   * folders, tempFolderDeleted whether the finally block's Directory.Delete did. output is what the
   * merge writes to the output file; it is meaningful only when Handle returns true.
   */
  method HandleWith(input: Option<seq<string>>, chunkSizeMb: int32, cancelled: bool, mergeLe: (Key, Key) -> bool,
                    directoriesCreated: bool, tempFolderDeleted: bool)
    returns (outcome: Outcome, output: seq<string>)
    requires TotalPreorder(mergeLe)
    ensures outcome == Propagated <==> !directoriesCreated || !tempFolderDeleted
    ensures outcome == Returned(true) <==> directoriesCreated && tempFolderDeleted && Completes(input, cancelled)
    ensures outcome == Returned(false) <==> directoriesCreated && tempFolderDeleted && !Completes(input, cancelled)
    ensures cancelled && input.Some? && input.value != [] ==> output == []
    ensures directoriesCreated && Completes(input, cancelled) ==> multiset(output) == multiset(input.value)
    ensures directoriesCreated && Completes(input, cancelled) && ExtendsKeyLe(mergeLe) ==> LinesSorted(mergeLe, output)
    ensures directoriesCreated && Completes(input, cancelled) && chunkSizeMb <= 0 ==> LinesSorted(mergeLe, output)
  {
    output := [];
    if !directoriesCreated {
      return Propagated, output;
    }
    var success := false;
    if input.Some? && !(cancelled && input.value != []) {
      var r := RunStages(input.value, ChunkSizeBytes(chunkSizeMb), mergeLe);
      if r.Some? {
        output := r.value;
        success := true;
      }
    }
    if !tempFolderDeleted {
      return Propagated, output;
    }
    return Returned(success), output;
  }

  /** Handle as written: the queue compares keys as (string, int) tuples under the culture's textLe. */
  method Handle(input: Option<seq<string>>, chunkSizeMb: int32, cancelled: bool, textLe: (string, string) -> bool,
                directoriesCreated: bool, tempFolderDeleted: bool)
    returns (outcome: Outcome, output: seq<string>)
    requires TotalPreorder(textLe)
    ensures outcome == Propagated <==> !directoriesCreated || !tempFolderDeleted
    ensures outcome == Returned(true) <==> directoriesCreated && tempFolderDeleted && Completes(input, cancelled)
    ensures outcome == Returned(false) <==> directoriesCreated && tempFolderDeleted && !Completes(input, cancelled)
    ensures cancelled && input.Some? && input.value != [] ==> output == []
    ensures directoriesCreated && Completes(input, cancelled) ==> multiset(output) == multiset(input.value)
    ensures directoriesCreated && Completes(input, cancelled) && chunkSizeMb <= 0
            ==> LinesSorted(MergeOrder(textLe), output)
  {
    TupleLeIsTotalPreorder(textLe);
    outcome, output := HandleWith(input, chunkSizeMb, cancelled, MergeOrder(textLe), directoriesCreated, tempFolderDeleted);
  }

  /** Handle with the queue ordered by CompareByKeys, as the chunks are: the output is sorted. */
  method HandleIntended(input: Option<seq<string>>, chunkSizeMb: int32, cancelled: bool,
                        directoriesCreated: bool, tempFolderDeleted: bool)
    returns (outcome: Outcome, output: seq<string>)
    ensures outcome == Propagated <==> !directoriesCreated || !tempFolderDeleted
    ensures outcome == Returned(true) <==> directoriesCreated && tempFolderDeleted && Completes(input, cancelled)
    ensures outcome == Returned(false) <==> directoriesCreated && tempFolderDeleted && !Completes(input, cancelled)
    ensures cancelled && input.Some? && input.value != [] ==> output == []
    ensures directoriesCreated && Completes(input, cancelled) ==> multiset(output) == multiset(input.value)
    ensures directoriesCreated && Completes(input, cancelled) ==> LinesSorted(KeyLe, output)
  {
    KeyLeIsTotalPreorder();
    outcome, output := HandleWith(input, chunkSizeMb, cancelled, KeyLe, directoriesCreated, tempFolderDeleted);
  }

  /**
   * Two lines, each with a '.', whose texts are equal ignoring case, the first with the larger number
   * and the text the culture comparer puts strictly first.
   */
  predicate CaseClash(textLe: (string, string) -> bool, x: string, y: string) {
    && '.' in x && '.' in y
    && SameText(KeyOf(x), KeyOf(y))
    && KeyOf(x).number > KeyOf(y).number
    && StrictlyBefore(textLe, KeyOf(x).text, KeyOf(y).text)
  }

  /** The two orders of such lines: the queue's order accepts only [x, y], CompareByKeys only [y, x]. */
  lemma CaseClashOrders(textLe: (string, string) -> bool, x: string, y: string)
    requires CaseClash(textLe, x, y)
    ensures LinesSorted(MergeOrder(textLe), [x, y]) && !LinesSorted(MergeOrder(textLe), [y, x])
    ensures !LinesSorted(KeyLe, [x, y])
  {
    assert KeyOf([x, y][0]) == KeyOf(x) && KeyOf([x, y][1]) == KeyOf(y);
    assert KeyOf([y, x][0]) == KeyOf(y) && KeyOf([y, x][1]) == KeyOf(x);
  }

  /** Sorting two lines that tie under no order of the pair leaves one outcome. */
  lemma TwoLines(le: (Key, Key) -> bool, x: string, y: string, out: seq<string>)
    requires multiset(out) == multiset([x, y]) && x != y
    requires LinesSorted(le, out) && !LinesSorted(le, [y, x])
    ensures out == [x, y]
  {
    assert |out| == |multiset(out)| == 2;
    assert out[0] in multiset(out) && out[1] in multiset(out);
  }

  /**
   * Handle's output need not be sorted by CompareByKeys: with one-line chunks (ChunkSizeMb 0) the
   * queue alone orders "5. apple" and "3. Apple", and a culture that puts "apple" first writes them
   * in that order although CompareByKeys puts "3. Apple" first.
   */
  method HandleCounterexample(textLe: (string, string) -> bool, x: string, y: string)
    returns (outcome: Outcome, output: seq<string>)
    requires TotalPreorder(textLe) && CaseClash(textLe, x, y)
    ensures outcome == Returned(true) && output == [x, y] && !LinesSorted(KeyLe, output)
  {
    outcome, output := Handle(Some([x, y]), 0, false, textLe, true, true);
    CaseClashOrders(textLe, x, y);
    assert x != y;
    TwoLines(MergeOrder(textLe), x, y, output);
  }

  /** Generated lines whose words differ only in case clash when the larger number comes first. */
  lemma GeneratedLinesClash(textLe: (string, string) -> bool, n1: int32, w1: string, n2: int32, w2: string)
    requires IsTrimmed(w1, IsWhiteSpace) && IsTrimmed(w2, IsWhiteSpace)
    requires ToUpper(w1) == ToUpper(w2) && n1 > n2 && StrictlyBefore(textLe, w1, w2)
    ensures CaseClash(textLe, FormatLine(n1, w1), FormatLine(n2, w2))
  {
    FormatLineKey(n1, w1);
    FormatLineKey(n2, w2);
  }

  lemma AppleWords()
    ensures IsTrimmed("apple", IsWhiteSpace) && IsTrimmed("Apple", IsWhiteSpace)
    ensures ToUpper("apple") == ToUpper("Apple")
  {
    assert ToUpper("apple") == "APPLE" == ToUpper("Apple");
  }

  /** "5. apple" and "3. Apple" clash under every comparer that puts "apple" strictly first. */
  lemma AppleClash(textLe: (string, string) -> bool)
    requires StrictlyBefore(textLe, "apple", "Apple")
    ensures CaseClash(textLe, FormatLine(5, "apple"), FormatLine(3, "Apple"))
  {
    AppleWords();
    GeneratedLinesClash(textLe, 5, "apple", 3, "Apple");
  }

  /** Handle on ["5. apple", "3. Apple"] with ChunkSizeMb 0 writes them in that order. */
  method AppleCounterexample(textLe: (string, string) -> bool) returns (outcome: Outcome, output: seq<string>)
    requires TotalPreorder(textLe) && StrictlyBefore(textLe, "apple", "Apple")
    ensures outcome == Returned(true)
    ensures output == [FormatLine(5, "apple"), FormatLine(3, "Apple")] && !LinesSorted(KeyLe, output)
  {
    AppleClash(textLe);
    outcome, output := HandleCounterexample(textLe, FormatLine(5, "apple"), FormatLine(3, "Apple"));
  }
}
