/**
 * The composite sort key of a line (SortFileHandler.GetSortKey), the comparer the chunk sort uses
 * (SortFileHandler.CompareByKeys) and the default tuple order the merge queue uses.
 */
module SortKey {
  import opened Wrappers
  import opened Orders
  import opened Text
  import opened Numbers

  /** The (Text, Number) tuple of a line. */
  datatype Key = Key(text: string, number: int32)

  /** string.IndexOf(char): the position of the first c in s, or -1. */
  function IndexOf(s: string, c: char): (r: int)
    ensures -1 <= r < |s|
    ensures r == -1 <==> c !in s
    ensures r >= 0 ==> s[r] == c && c !in s[..r]
  {
    if s == [] then -1
    else if s[0] == c then 0
    else
      var k := IndexOf(s[1..], c);
      assert k >= 0 ==> s[..k + 1] == [s[0]] + s[1..][..k];
      if k < 0 then -1 else k + 1
  }

  /**
   * GetSortKey: the text after the first '.', trimmed, and the number before it (0 when it does not
   * parse). A line without '.' makes line[..-1] throw; that is None.
   */
  function GetSortKey(line: string): (r: Option<Key>)
    ensures r.None? <==> '.' !in line
    ensures r.Some? ==> IsTrimmed(r.value.text, IsWhiteSpace) && |r.value.text| < |line|
  {
    var splitIndex := IndexOf(line, '.');
    if splitIndex < 0 then None
    else Some(Key(Trim(line[splitIndex + 1..]), ParseOrZero(line[..splitIndex])))
  }

  /** The key of a line split at its first '.': the part before is the number, the part after the text. */
  lemma SortKeyOfParts(prefix: string, suffix: string)
    requires '.' !in prefix
    ensures GetSortKey(prefix + "." + suffix) == Some(Key(Trim(suffix), ParseOrZero(prefix)))
  {
    var line := prefix + "." + suffix;
    var i := IndexOf(line, '.');
    assert line[|prefix|] == '.';
    assert i == |prefix|;
    assert line[..i] == prefix && line[i + 1..] == suffix;
  }

  /** A line "<prefix>. <word>" with no '.' in the prefix and no white space around the word. */
  lemma SortKeyOfSpacedParts(prefix: string, word: string)
    requires '.' !in prefix && IsTrimmed(word, IsWhiteSpace)
    ensures GetSortKey(prefix + ". " + word) == Some(Key(word, ParseOrZero(prefix)))
  {
    assert prefix + ". " + word == prefix + "." + (" " + word);
    SortKeyOfParts(prefix, " " + word);
    TrimAfterSpace(word);
  }

  lemma TrimAfterSpace(word: string)
    requires IsTrimmed(word, IsWhiteSpace)
    ensures Trim(" " + word) == word
  {
    assert " " + word == [' '] + word + [];
    TrimOfPadded([' '], word, [], IsWhiteSpace);
  }

  /** The lines the file generator writes: "<integer>. <word>". */
  function FormatLine(n: int32, word: string): string {
    IntToString(n) + ". " + word
  }

  /** The key extractor undoes FormatLine for every word without surrounding white space. */
  lemma FormatLineKey(n: int32, word: string)
    requires IsTrimmed(word, IsWhiteSpace)
    ensures GetSortKey(FormatLine(n, word)) == Some(Key(word, n))
  {
    assert '.' !in IntToString(n);
    SortKeyOfSpacedParts(IntToString(n), word);
    ParseIntToString(n);
  }

  lemma FormatLineExample()
    ensures FormatLine(123, "Banana") == "123. Banana"
  {
    assert NatToDigits(1) == "1";
    assert NatToDigits(12) == "12";
  }

  lemma ExampleWellFormedLine()
    ensures GetSortKey("123. Banana") == Some(Key("Banana", 123))
  {
    FormatLineExample();
    FormatLineKey(123, "Banana");
  }

  lemma NotANumberParts()
    ensures "NotANumber. Cherry" == "NotANumber" + ". " + "Cherry"
    ensures ParseOrZero("NotANumber") == 0
  {
    TryParseAlphabet("NotANumber", 0);
  }

  lemma ExampleNumberDoesNotParse()
    ensures GetSortKey("NotANumber. Cherry") == Some(Key("Cherry", 0))
  {
    NotANumberParts();
    SortKeyOfSpacedParts("NotANumber", "Cherry");
  }

  lemma ExampleNoDot()
    ensures GetSortKey("Banana").None?
  {
    assert '.' !in "Banana";
  }

  /** Int32.CompareTo, up to the sign of the result. */
  function CompareInt(a: int, b: int): int {
    if a < b then -1 else if a > b then 1 else 0
  }

  /** The texts are equal ignoring case. */
  predicate SameText(a: Key, b: Key) {
    ToUpper(a.text) == ToUpper(b.text)
  }

  /** CompareByKeys: text first (ordinal, ignoring case), the number only breaks ties. */
  function CompareByKeys(a: Key, b: Key): (r: int)
    ensures -1 <= r <= 1
    ensures r == 0 <==> SameText(a, b) && a.number == b.number
    ensures SameText(a, b) ==> (r < 0 <==> a.number < b.number)
    ensures !SameText(a, b) ==> r != 0 && r == CompareOrdinalIgnoreCase(a.text, b.text)
  {
    var cmp := CompareOrdinalIgnoreCase(a.text, b.text);
    if cmp != 0 then cmp else CompareInt(a.number, b.number)
  }

  lemma CompareByKeysAntisymmetric(a: Key, b: Key)
    ensures CompareByKeys(a, b) == -CompareByKeys(b, a)
  {
    CompareOrdinalIgnoreCaseAntisymmetric(a.text, b.text);
  }

  /** The order CompareByKeys defines on keys. */
  predicate KeyLe(a: Key, b: Key) {
    CompareByKeys(a, b) <= 0
  }

  lemma KeyLeTransitive(a: Key, b: Key, c: Key)
    requires KeyLe(a, b) && KeyLe(b, c)
    ensures KeyLe(a, c)
  {
    var ab := CompareOrdinalIgnoreCase(a.text, b.text);
    var bc := CompareOrdinalIgnoreCase(b.text, c.text);
    assert ab <= 0 && bc <= 0;
    CompareOrdinalIgnoreCaseTransitive(a.text, b.text, c.text);
    if SameText(a, c) && !(SameText(a, b) && SameText(b, c)) {
      CompareOrdinalIgnoreCaseAntisymmetric(a.text, b.text);
      CompareOrdinalIgnoreCaseTransitive(b.text, c.text, a.text);
    }
  }

  /** CompareByKeys is a comparer Array.Sort can use: a total preorder. */
  lemma KeyLeIsTotalPreorder()
    ensures TotalPreorder(KeyLe)
  {
    forall a, b ensures KeyLe(a, b) || KeyLe(b, a) {
      CompareByKeysAntisymmetric(a, b);
    }
    forall a, b, c | KeyLe(a, b) && KeyLe(b, c) ensures KeyLe(a, c) {
      KeyLeTransitive(a, b, c);
    }
  }

  /**
   * The order of Comparer<(string, int)>.Default, which the merge queue uses: the strings by a
   * string comparer textLe (culture-sensitive in .NET, so a parameter here), then the numbers.
   */
  predicate TupleLe(textLe: (string, string) -> bool, a: Key, b: Key) {
    || (textLe(a.text, b.text) && !textLe(b.text, a.text))
    || (textLe(a.text, b.text) && textLe(b.text, a.text) && a.number <= b.number)
  }

  /** The merge queue's order as a relation on keys. */
  function MergeOrder(textLe: (string, string) -> bool): (Key, Key) -> bool {
    (a, b) => TupleLe(textLe, a, b)
  }

  lemma TupleLeIsTotalPreorder(textLe: (string, string) -> bool)
    requires TotalPreorder(textLe)
    ensures TotalPreorder(MergeOrder(textLe))
  {
  }

  /** Every line has a key. */
  predicate AllKeyed(lines: seq<string>) {
    forall line :: line in lines ==> '.' in line
  }

  function KeyOf(line: string): Key
    requires '.' in line
  {
    GetSortKey(line).value
  }

  /** Every line has a key and the keys do not decrease under le. */
  predicate LinesSorted(le: (Key, Key) -> bool, lines: seq<string>) {
    && AllKeyed(lines)
    && forall k :: 0 < k < |lines| ==> le(KeyOf(lines[k - 1]), KeyOf(lines[k]))
  }

  /** Under a total preorder, non-decreasing neighbours make every earlier key at most every later one. */
  lemma {:induction false} LinesSortedPairwise(le: (Key, Key) -> bool, lines: seq<string>, i: nat, j: nat)
    requires TotalPreorder(le) && LinesSorted(le, lines) && i <= j < |lines|
    ensures le(KeyOf(lines[i]), KeyOf(lines[j]))
    decreases j - i
  {
    if i == j {
      assert le(KeyOf(lines[i]), KeyOf(lines[i]));
    } else {
      LinesSortedPairwise(le, lines, i, j - 1);
    }
  }

  lemma LinesSortedTail(le: (Key, Key) -> bool, lines: seq<string>)
    requires LinesSorted(le, lines) && lines != []
    ensures LinesSorted(le, lines[1..])
  {
    assert forall line :: line in lines[1..] ==> line in lines;
    assert forall k :: 0 < k < |lines| - 1 ==> lines[1..][k - 1] == lines[k] && lines[1..][k] == lines[k + 1];
  }

  /** No two different lines of the sequence have equivalent keys under le. */
  predicate NoTies(le: (Key, Key) -> bool, lines: seq<string>)
    requires AllKeyed(lines)
  {
    forall x, y :: x in lines && y in lines && le(KeyOf(x), KeyOf(y)) && le(KeyOf(y), KeyOf(x)) ==> x == y
  }

  lemma SortedHeads(le: (Key, Key) -> bool, a: seq<string>, b: seq<string>)
    requires TotalPreorder(le) && LinesSorted(le, a) && LinesSorted(le, b) && multiset(a) == multiset(b)
    requires NoTies(le, a) && a != []
    ensures b != [] && a[0] == b[0]
  {
    assert |b| == |multiset(b)| == |multiset(a)| == |a|;
    assert a[0] in multiset(b) && b[0] in multiset(a);
    var i :| 0 <= i < |a| && a[i] == b[0];
    var j :| 0 <= j < |b| && b[j] == a[0];
    LinesSortedPairwise(le, a, 0, i);
    LinesSortedPairwise(le, b, 0, j);
    assert a[0] in a && b[0] in a;
  }

  lemma SortedTails(le: (Key, Key) -> bool, a: seq<string>, b: seq<string>)
    requires LinesSorted(le, a) && LinesSorted(le, b) && multiset(a) == multiset(b)
    requires NoTies(le, a) && a != [] && b != [] && a[0] == b[0]
    ensures LinesSorted(le, a[1..]) && LinesSorted(le, b[1..]) && multiset(a[1..]) == multiset(b[1..])
    ensures NoTies(le, a[1..])
  {
    assert a == [a[0]] + a[1..] && b == [b[0]] + b[1..];
    assert multiset(a[1..]) == multiset(a) - multiset{a[0]};
    assert multiset(b[1..]) == multiset(b) - multiset{b[0]};
    LinesSortedTail(le, a);
    LinesSortedTail(le, b);
    assert forall x :: x in a[1..] ==> x in a;
  }

  /**
   * Two sequences sorted under the same total preorder with the same lines are equal, provided no
   * two different lines have equivalent keys.
   */
  lemma {:induction false} SortedUnique(le: (Key, Key) -> bool, a: seq<string>, b: seq<string>)
    requires TotalPreorder(le) && LinesSorted(le, a) && LinesSorted(le, b) && multiset(a) == multiset(b)
    requires NoTies(le, a)
    ensures a == b
    decreases |a|
  {
    if a == [] {
      assert |b| == |multiset(b)| == 0;
    } else {
      SortedHeads(le, a, b);
      SortedTails(le, a, b);
      SortedUnique(le, a[1..], b[1..]);
      assert a == [a[0]] + a[1..] && b == [b[0]] + b[1..];
    }
  }
}
