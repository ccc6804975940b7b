# External sort of "<number>. <text>" files, and the file status store

This project models the core of a two-service system. A generator writes large text files whose lines read
`<number>. <text>`. A sorter orders each file by text first, ignoring case, and then by number. The sorter
is `SortFileHandler`: it splits the input file into chunk files of about `ChunkSizeMb` megabytes, sorts every
chunk in memory, and merges the sorted chunks through a priority queue into the output file. An in-memory
store holds each job's status under the file's id.

A file is modelled as its sequence of lines. A chunk file is its path together with its lines. Logging and
timing are left out. Cancellation is modelled as a request token that is already cancelled when Handle starts. The modules follow the stages of the handler:

- `SortKey`: `GetSortKey`, `CompareByKeys` and the tuple order the merge queue uses.
- `Text` and `Numbers`: `string.Trim`, ordinal ignore-case comparison, the UTF-8 byte count,
  `int.TryParse` and `Int32.ToString`.
- `Splitter`: `SplitFileIntoChunksAsync`.
- `ChunkSort`: `ReadLinesWithKeysAsync` and the `Array.Sort` call of the chunk-sorting lambda.
- `Merge`: `MergeSortedChunksAsync` and its `PriorityQueue`.
- `Handler`: `Handle`, which runs the stages and owns the try/catch/finally.
- `StatusStore`: `InMemoryFileStatusStore`.

Where an exception escapes a stage, the model returns `None`. `Handle` turns `None` into `false`, the way the
catch block does. A throwing `Directory.CreateDirectory` or `Directory.Delete` is an exception that `Handle`
itself propagates; the model takes whether they succeed as boolean parameters.

The merge queue orders its priorities with `Comparer<(string, int)>.Default`. For strings that is the current
culture's comparison, which the model takes as a parameter `textLe`: any total preorder on strings.

Where one might expect otherwise, the model follows the code:

- A line without a '.' is not skipped. `line[..-1]` throws in `GetSortKey`, so the whole job returns `false`.
- The chunk sort is not stable. `Array.Sort` is an introspective sort, so the model promises only a sorted
  permutation.

## Model

| member | source | states |
|---|---|---|
| SortKey.GetSortKey | Sorter/Application/Handlers/SortFileHandler.cs:218-225 | Fails exactly when the line has no '.'. The text it returns is trimmed and shorter than the line. |
| SortKey.IndexOf | Sorter/Application/Handlers/SortFileHandler.cs:220 | Returns -1 exactly when the character is absent. Otherwise it returns the position of its first occurrence. |
| SortKey.SortKeyOfParts | Sorter/Application/Handlers/SortFileHandler.cs:218-225 | A line split at its first '.' has the part before as its number (0 if it does not parse) and the trimmed part after as its text. |
| SortKey.FormatLineKey | Sorter/Application/Handlers/SortFileHandler.cs:218-225 | The key of a generated line "n. word" is (word, n), for every 32-bit n. This is the round trip against Int32.ToString. |
| SortKey.ExampleWellFormedLine | Sorter/Application/Handlers/SortFileHandler.cs:218-225 | "123. Banana" has key ("Banana", 123). |
| SortKey.ExampleNumberDoesNotParse | Sorter/Application/Handlers/SortFileHandler.cs:223 | "NotANumber. Cherry" has key ("Cherry", 0), because TryParse leaves 0. |
| SortKey.ExampleNoDot | Sorter/Application/Handlers/SortFileHandler.cs:220-221 | "Banana" has no key: the slice throws. |
| SortKey.CompareByKeys | Sorter/Application/Handlers/SortFileHandler.cs:150-154 | The result is -1, 0 or 1, and 0 exactly when the texts are equal ignoring case and the numbers are equal. Differing texts decide by the ordinal ignore-case comparison; equal texts decide by the number. |
| SortKey.CompareByKeysAntisymmetric | Sorter/Application/Handlers/SortFileHandler.cs:150-154 | Swapping the arguments negates the result. |
| SortKey.KeyLeTransitive | Sorter/Application/Handlers/SortFileHandler.cs:150-154 | The order the comparer defines is transitive. |
| SortKey.KeyLeIsTotalPreorder | Sorter/Application/Handlers/SortFileHandler.cs:150-154 | The order the comparer defines is total and transitive, so it is valid for Array.Sort. |
| SortKey.TupleLeIsTotalPreorder | Sorter/Application/Handlers/SortFileHandler.cs:181 | The default (string, int) tuple order is a total preorder whenever the string order is one. |
| SortKey.LinesSortedPairwise | Sorter/Application/Handlers/SortFileHandler.cs:194-206 | Non-decreasing neighbours make every earlier key at most every later one. |
| SortKey.SortedUnique | Sorter/Application/Handlers/SortFileHandler.cs:194-206 | Two sorted sequences with the same lines and no tied keys are equal. |
| Text.TrimOfPadded | Sorter/Application/Handlers/SortFileHandler.cs:224 | Trim removes exactly the white space around a trimmed middle. |
| Text.TrimBySpec | Sorter/Application/Handlers/SortFileHandler.cs:224 | Trim's result is a contiguous slice of its input, with only white space cut on either side. |
| Text.CompareOrdinalIgnoreCase | Sorter/Application/Handlers/SortFileHandler.cs:152 | The result is -1, 0 or 1, and 0 exactly when the upper-cased strings are equal. |
| Text.CompareOrdinalIgnoreCaseAntisymmetric | Sorter/Application/Handlers/SortFileHandler.cs:152 | Swapping the arguments negates the result. |
| Text.CompareOrdinalIgnoreCaseTransitive | Sorter/Application/Handlers/SortFileHandler.cs:152 | "At most" is transitive. |
| Text.Utf8ByteCountConcat | Sorter/Application/Handlers/SortFileHandler.cs:103 | The UTF-8 byte count of a concatenation is the sum of the parts' counts. |
| Numbers.ParseIntToString | Sorter/Application/Handlers/SortFileHandler.cs:223 | int.TryParse of Int32.ToString(n) gives n back. |
| Numbers.TryParseAlphabet | Sorter/Application/Handlers/SortFileHandler.cs:223 | In the model's parser, a character other than a digit, sign or white space makes parsing fail and leaves 0. |
| Numbers.NatToDigitsInjective | Sorter/Application/Handlers/SortFileHandler.cs:107 | Different numbers print differently. |
| Splitter.LineByteCount | Sorter/Application/Handlers/SortFileHandler.cs:103 | What a line adds to the running size is its UTF-8 size plus one byte for the newline, so at least its length plus one. |
| Splitter.SplitFileIntoChunks | Sorter/Application/Handlers/SortFileHandler.cs:88-128 | The loop writes exactly the chunks Split defines, and chunk k is named chunk_k.txt. The chunks concatenate to the input, and there are none exactly when the input is empty. Every chunk is non-empty and below the limit before its last line. Every chunk but the last reached the limit. |
| Splitter.SplitFromFlatten | Sorter/Application/Handlers/SortFileHandler.cs:96-125 | The chunks concatenate to the buffer followed by the unread lines. |
| Splitter.SplitFromSizes | Sorter/Application/Handlers/SortFileHandler.cs:102-115 | Every chunk is non-empty and below the limit before its last line. Every chunk but the last has reached the limit. |
| Splitter.SplitFacts | Sorter/Application/Handlers/SortFileHandler.cs:88-128 | Split preserves the lines in order, gives no chunk exactly for an empty input, and keeps both size bounds. |
| Splitter.SplitEmptyIff | Sorter/Application/Handlers/SortFileHandler.cs:118 | There is no chunk exactly when the input has no lines. |
| Splitter.SplitSmallLimit | Sorter/Application/Handlers/SortFileHandler.cs:105 | A limit of at most one byte (ChunkSizeMb <= 0) gives one line per chunk. |
| Splitter.MoreThanOneChunk | Sorter/Application/Handlers/SortFileHandler.cs:105-115 | When the lines before the last reach the limit, there are at least two chunks. |
| Splitter.HundredApplesExample | Sorter/Application/Handlers/SortFileHandler.cs:88-128 | "1. Apple" … "100. Apple" with a 100-byte limit give more than one chunk. |
| Splitter.ChunkPathInjective | Sorter/Application/Handlers/SortFileHandler.cs:107 | Different chunk indexes give different file names. |
| ChunkSort.ReadLinesWithKeys | Sorter/Application/Handlers/SortFileHandler.cs:133-145 | Succeeds exactly when every line has a '.'. It gives one record per line, in order, each holding that line and that line's key. |
| ChunkSort.CompareRecords | Sorter/Application/Handlers/SortFileHandler.cs:150-154 | A result of at most 0 means the keys are in order. A positive result means the comparer puts the second key strictly first. |
| ChunkSort.SortArray | Sorter/Application/Handlers/SortFileHandler.cs:56 | Sorts the array in place: the result is a permutation, and neighbours compare at most 0. |
| ChunkSort.SortChunk | Sorter/Application/Handlers/SortFileHandler.cs:55-56 | Array.Sort(array, CompareByKeys) leaves a permutation of the array whose keys do not decrease. |
| ChunkSort.SortedRecordLines | Sorter/Application/Handlers/SortFileHandler.cs:55-59 | The lines of the sorted records are a permutation of the chunk's lines, and they are sorted by CompareByKeys. |
| ChunkSort.SortChunkLines | Sorter/Application/Handlers/SortFileHandler.cs:54-59 | Succeeds exactly when every line has a '.'. The result is a permutation of the chunk's lines, sorted by CompareByKeys. |
| Merge.MinExists | Sorter/Application/Handlers/SortFileHandler.cs:197 | A non-empty queue has an entry whose key is at most every key in it. |
| Merge.PriorityQueue.Enqueue | Sorter/Application/Handlers/SortFileHandler.cs:190 | Adds the entry and nothing else. |
| Merge.PriorityQueue.Dequeue | Sorter/Application/Handlers/SortFileHandler.cs:197 | Removes exactly one entry, and its key is at most every queued key. |
| Merge.FillQueue | Sorter/Application/Handlers/SortFileHandler.cs:183-192 | Queues each reader's first line. It fails exactly on a chunk line without '.', and otherwise establishes the merge invariant. |
| Merge.MergeStep | Sorter/Application/Handlers/SortFileHandler.cs:194-206 | One pass keeps the merge invariant and strictly decreases the lines left. |
| Merge.DrainQueue | Sorter/Application/Handlers/SortFileHandler.cs:194-206 | The output is a permutation of all chunk lines, and it is sorted when the chunks are sorted under the queue's order. |
| Merge.MergeSortedChunks | Sorter/Application/Handlers/SortFileHandler.cs:172-213 | Succeeds exactly when every chunk line has a '.'. The output is a permutation of the concatenated chunks, and sorted chunks give a sorted output under the queue's order. |
| Merge.QueueBound | Sorter/Application/Handlers/SortFileHandler.cs:181-206 | The queue never holds more entries than there are chunks. |
| Merge.MergeInterleaved | Sorter/Application/Handlers/SortFileHandler.cs:172-213 | Chunks [a, c] and [b, d] with strictly increasing keys merge to [a, b, c, d]. |
| Merge.MergeExample | Sorter/Application/Handlers/SortFileHandler.cs:172-213 | ["1. Apple", "3. Cherry"] and ["2. Banana", "4. Date"] merge to the four lines in order. |
| Handler.SortedPath | Sorter/Application/Handlers/SortFileHandler.cs:58 | A chunk file's sorted path extends its path. |
| Handler.SortChunks | Sorter/Application/Handlers/SortFileHandler.cs:52-62 | Succeeds exactly when every chunk line has a '.'. Each sorted file holds a sorted permutation of its chunk. |
| Handler.BagToList | Sorter/Application/Handlers/SortFileHandler.cs:50-66 | The list holds the bag's sorted files, in some order. |
| Handler.ListedFiles | Sorter/Application/Handlers/SortFileHandler.cs:50-66 | The listed sorted files together hold the chunks' lines, and each is sorted by CompareByKeys. |
| Handler.KeyedChunks | Sorter/Application/Handlers/SortFileHandler.cs:47-56 | The chunks' lines all have a '.' exactly when the input's lines all do. |
| Handler.SortedUnderExtension | Sorter/Application/Handlers/SortFileHandler.cs:56-66 | Lines sorted by CompareByKeys are sorted under any order that extends it. |
| Handler.SingleLineChunksSorted | Sorter/Application/Handlers/SortFileHandler.cs:52-66 | Single-line chunks are sorted under every order. |
| Handler.RunStages | Sorter/Application/Handlers/SortFileHandler.cs:45-66 | Split, sort and merge succeed exactly when every line has a '.'. The output is a permutation of the input. It is sorted under the queue's order when that order extends CompareByKeys or the chunk limit is at most one byte. |
| Handler.ChunkSizeBytes | Sorter/Application/Handlers/SortFileHandler.cs:45 | The chunk size is a multiple of 1 MiB, and at most one byte exactly when ChunkSizeMb <= 0. |
| Handler.HandleWith | Sorter/Application/Handlers/SortFileHandler.cs:31-83 | A failure to create or delete the folders propagates. Otherwise Handle returns true exactly when the input exists, every line has a '.', and the request is not cancelled, or the input is empty. The output is then a permutation of the input. A cancelled request with a non-empty input writes nothing. |
| Handler.Handle | Sorter/Application/Handlers/SortFileHandler.cs:31-83 | Handle as written: the same outcomes, including cancellation, and the same permutation. The output is sorted by the queue's tuple order when ChunkSizeMb <= 0. |
| Handler.HandleIntended | Sorter/Application/Handlers/SortFileHandler.cs:31-83 | With the queue ordered by CompareByKeys, the same outcomes hold, and a successful run's output is a permutation of the input sorted by CompareByKeys. |
| Handler.CaseClashOrders | Sorter/Application/Handlers/SortFileHandler.cs:181 | Under a case clash, the queue's order accepts [x, y] and rejects [y, x], while CompareByKeys rejects [x, y]. |
| Handler.HandleCounterexample | Sorter/Application/Handlers/SortFileHandler.cs:181 | Two clashing lines in one-line chunks are written in the queue's order, which is not CompareByKeys order. |
| Handler.AppleCounterexample | Sorter/Application/Handlers/SortFileHandler.cs:181 | Handle writes ["5. apple", "3. Apple"], which CompareByKeys does not consider sorted, under any culture that puts "apple" before "Apple". |
| StatusStore.Name | Common/Models/FileStatusEnum.cs:6-12 | Every status prints as a non-empty name. |
| StatusStore.NameInjective | Common/Models/FileStatusEnum.cs:6-12 | Two statuses print the same exactly when they are equal. |
| StatusStore.InMemoryFileStatusStore.constructor | Common/Infrastructure/FileStatusStore/InMemoryFileStatusStore.cs:12 | A new store is empty. |
| StatusStore.InMemoryFileStatusStore.SetStatus | Common/Infrastructure/FileStatusStore/InMemoryFileStatusStore.cs:17-20 | The dictionary maps the id to the new status, and every other entry is unchanged. |
| StatusStore.InMemoryFileStatusStore.GetStatus | Common/Infrastructure/FileStatusStore/InMemoryFileStatusStore.cs:25-30 | The answer is what Lookup defines: the stored status's name, or "NotFound" for an id not in the dictionary. The store is unchanged. |
| StatusStore.LastWriteWins | Common/Infrastructure/FileStatusStore/InMemoryFileStatusStore.cs:17-30 | After two writes to an id, the second status is what GetStatus answers. |
| StatusStore.OtherIdsUnchanged | Common/Infrastructure/FileStatusStore/InMemoryFileStatusStore.cs:17-30 | A write to one id leaves every other id's answer as it was. |
| StatusStore.NeverSet | Common/Infrastructure/FileStatusStore/InMemoryFileStatusStore.cs:25-30 | Every id is "NotFound" in a new store. |
| StatusStore.NotFoundAmbiguous | Common/Infrastructure/FileStatusStore/InMemoryFileStatusStore.cs:25-30 | Setting NotFound for an unknown id cannot be told apart from never setting it. |
| StatusStore.ApplyLookup | Common/Infrastructure/FileStatusStore/InMemoryFileStatusStore.cs:17-30 | After any sequence of writes, an id answers its last write's status, or its old answer if no write named it. |

## Left out

- File I/O, StreamReader/StreamWriter buffering, byte-order-mark detection and the UTF-8 encoder are left out: a file is its sequence of lines.
- ReadLineAsync returning null is left out: while EndOfStream is false it never does.
- WriteLinesAsync (SortFileHandler.cs:159-167) is left out. It becomes the sorted file value that SortChunks returns.
- Path.Combine and the folder options are left out. Paths are the file names the code builds (chunk_k.txt and the "_sorted.txt" suffix), not full paths.
- File.Delete of the chunk files and reader disposal are left out, because they do not change what is written.
- Directory.CreateDirectory, Directory.Exists and Directory.Delete are left out. Whether they succeed is an input of HandleWith.
- The logger and the stopwatch are left out, because they do not affect the result.
- Handler.HandleWith: models cancellation only as a token already cancelled when Handle starts. A token cancelled later makes a ThrowIfCancellationRequested at SortFileHandler.cs:98, :185 or :196 throw, and the catch makes Handle return false. When that happens in the merge (:185 or :196), part of the output file is already written. The model does not produce that partial file. The chunk-sorting lambda's ReadLinesWithKeysAsync receives the ParallelOptions token (SortFileHandler.cs:52, :139), not the request's, so the request cannot cancel it.
- Parallel.ForEachAsync is modelled as a sequential loop: no interleaving of the chunk tasks is modelled. The bag's order is left to BagToList.
- Handler.BagToList: promises only a permutation, because ConcurrentBag has no order.
- ChunkSort.SortArray: models Array.Sort as an insertion sort. It is not introsort, and only sortedness and permutation are claimed, with no stability.
- The culture-sensitive comparison of Comparer<string>.Default is left out: it is the parameter textLe, of which only a total preorder is assumed.
- Text.CompareOrdinalIgnoreCase: compares Unicode scalar values, not UTF-16 code units. Outside the Basic Multilingual Plane the orders differ: .NET puts "\U{1F600}" (surrogate 0xD83D) before "\U{FFFD}", while the model puts it after.
- Numbers.TryParseInt32: trailing NUL characters, which NumberStyles.Integer accepts ("12\0" parses to 12), are left out. Culture-specific sign symbols are also left out: the model knows only '-' and '+'.
- Text.Upper: maps only ASCII letters. The invariant culture's full Unicode upper-case table is left out.
- Text.IsWhiteSpace: uses a fixed table of white-space code points. Char.IsWhiteSpace's full Unicode category lookup is left out.
- Text.Utf8ByteCount: counts Unicode scalar values (a surrogate pair is one 4-byte character). A lone UTF-16 surrogate, which the encoder replaces with U+FFFD, cannot occur in a Dafny string and is left out.
- SortKey.TupleLe: the tie between strings is "each at most the other" under textLe, not string.CompareTo == 0.
- Handler.Handle: claims sortedness of the output only when ChunkSizeMb <= 0. With larger chunks, the output need not be sorted under either order; see Findings.
- StatusStore.InMemoryFileStatusStore: the ConcurrentDictionary's thread safety is left out, because calls are modelled one at a time.
- A Guid is modelled as a number below 2^128.
- The controllers, MediatR wiring, the generator service and the options binding are not part of this model. FileSortingOptions.ChunkSizeMb is the parameter chunkSizeMb, an int32 defaulting to 100 (Sorter/Models/FileSortingOptions.cs:26).

## Findings

| source | as written | input that shows it | evidently intended | confidence | as-written member | corrected member |
|---|---|---|---|---|---|---|
| Sorter/Application/Handlers/SortFileHandler.cs:181 | The merge queue orders its (Text, Number) priorities with the default tuple comparer. That comparer compares the texts culture-sensitively and case-sensitively, while the chunks are sorted by CompareByKeys, which is ordinal and ignores case. | Input lines "5. apple" and "3. Apple" with ChunkSizeMb = 0, so each line is its own chunk, under a culture whose comparer puts "apple" before "Apple". The output is "5. apple", "3. Apple", but CompareByKeys puts "3. Apple" first. | The merge uses the same order as CompareByKeys, so that the output is sorted by it. | not executed | Handler.AppleCounterexample | Handler.HandleIntended |
