/** Sequences of sequences: a file split into chunks is modelled as a seq<seq<string>>. */
module Seqs {

  /** The concatenation of all chunks, in order. */
  function Flatten<T>(chunks: seq<seq<T>>): seq<T> {
    if chunks == [] then [] else chunks[0] + Flatten(chunks[1..])
  }

  lemma {:induction false} FlattenConcat<T>(a: seq<seq<T>>, b: seq<seq<T>>)
    ensures Flatten(a + b) == Flatten(a) + Flatten(b)
  {
    if a == [] {
      assert a + b == b;
    } else {
      assert (a + b)[1..] == a[1..] + b;
      FlattenConcat(a[1..], b);
    }
  }

  lemma {:induction false} FlattenMember<T>(chunks: seq<seq<T>>, i: nat, x: T)
    requires i < |chunks| && x in chunks[i]
    ensures x in Flatten(chunks)
  {
    if i > 0 {
      FlattenMember(chunks[1..], i - 1, x);
    }
  }

  lemma FlattenSingleton<T>(chunks: seq<seq<T>>)
    ensures |chunks| == 1 ==> Flatten(chunks) == chunks[0]
  {
    if |chunks| == 1 {
      assert chunks[1..] == [];
    }
  }

  lemma {:induction false} FlattenEmpty<T>(chunks: seq<seq<T>>)
    requires forall i :: 0 <= i < |chunks| ==> chunks[i] == []
    ensures Flatten(chunks) == []
  {
    if chunks != [] {
      FlattenEmpty(chunks[1..]);
    }
  }

  /** Every element of the concatenation comes from some chunk. */
  lemma {:induction false} FlattenMemberOf<T>(chunks: seq<seq<T>>, x: T)
    requires x in Flatten(chunks)
    ensures exists i :: 0 <= i < |chunks| && x in chunks[i]
  {
    if x !in chunks[0] {
      FlattenMemberOf(chunks[1..], x);
      var i :| 0 <= i < |chunks[1..]| && x in chunks[1..][i];
      assert x in chunks[i + 1];
    }
  }

  /** Chunks with the same elements, position by position, flatten to the same multiset. */
  lemma {:induction false} FlattenPointwise<T>(a: seq<seq<T>>, b: seq<seq<T>>)
    requires |a| == |b| && forall i :: 0 <= i < |a| ==> multiset(a[i]) == multiset(b[i])
    ensures multiset(Flatten(a)) == multiset(Flatten(b))
  {
    if a != [] {
      FlattenPointwise(a[1..], b[1..]);
    }
  }

  /** Flatten around one chunk: what comes before it, the chunk, and what comes after it. */
  lemma {:induction false} FlattenAround<T>(chunks: seq<seq<T>>, r: nat)
    requires r < |chunks|
    ensures Flatten(chunks) == Flatten(chunks[..r]) + chunks[r] + Flatten(chunks[r + 1..])
    decreases r
  {
    if r == 0 {
      assert chunks[..0] == [];
    } else {
      var tail := chunks[1..];
      FlattenAround(tail, r - 1);
      assert tail[..r - 1] == chunks[..r][1..];
      assert tail[r - 1] == chunks[r];
      assert tail[r..] == chunks[r + 1..];
    }
  }

  /** Replacing one chunk by v replaces its elements in the flattening. */
  lemma FlattenUpdate<T>(chunks: seq<seq<T>>, r: nat, v: seq<T>)
    requires r < |chunks|
    ensures multiset(Flatten(chunks[r := v])) == multiset(Flatten(chunks)) - multiset(chunks[r]) + multiset(v)
    ensures |Flatten(chunks[r := v])| == |Flatten(chunks)| - |chunks[r]| + |v|
  {
    var u := chunks[r := v];
    FlattenAround(chunks, r);
    FlattenAround(u, r);
    assert u[..r] == chunks[..r] && u[r + 1..] == chunks[r + 1..];
  }

  lemma RemoveOne<T>(b: seq<T>, j: nat)
    requires j < |b|
    ensures multiset(b[..j] + b[j + 1..]) == multiset(b) - multiset{b[j]}
  {
    assert b == b[..j] + [b[j]] + b[j + 1..];
  }

  /** Reordering the chunks does not change the multiset of their elements. */
  lemma {:induction false} FlattenPermutation<T>(a: seq<seq<T>>, b: seq<seq<T>>)
    requires multiset(a) == multiset(b)
    ensures multiset(Flatten(a)) == multiset(Flatten(b))
    decreases |a|
  {
    if a == [] {
      assert |b| == |multiset(b)| == 0;
    } else {
      var x := a[0];
      assert x in multiset(b);
      var j :| 0 <= j < |b| && b[j] == x;
      var rest := b[..j] + b[j + 1..];
      RemoveOne(b, j);
      assert a == [x] + a[1..];
      assert multiset(a[1..]) == multiset(a) - multiset{x};
      FlattenPermutation(a[1..], rest);
      FlattenAround(b, j);
      FlattenConcat(b[..j], b[j + 1..]);
    }
  }

  /** Applies f to every element, keeping the order. */
  function MapSeq<A, B>(f: A -> B, s: seq<A>): seq<B>
  {
    seq(|s|, k requires 0 <= k < |s| => f(s[k]))
  }

  lemma MapSeqAppend<A, B>(f: A -> B, s: seq<A>, x: A)
    ensures MapSeq(f, s + [x]) == MapSeq(f, s) + [f(x)]
  {
    assert forall k :: 0 <= k < |s| ==> (s + [x])[k] == s[k];
  }

  /** Taking element j out of s takes f(s[j]) out of the mapped multiset. */
  lemma MapSeqRemove<A, B>(f: A -> B, s: seq<A>, j: nat)
    requires j < |s|
    ensures multiset(MapSeq(f, s)) == multiset(MapSeq(f, s[..j] + s[j + 1..])) + multiset{f(s[j])}
  {
    var t := s[..j] + s[j + 1..];
    var m, r := MapSeq(f, s), MapSeq(f, t);
    assert forall k :: 0 <= k < j ==> t[k] == s[k];
    assert forall k :: j <= k < |t| ==> t[k] == s[k + 1];
    assert m == r[..j] + [f(s[j])] + r[j..];
    assert r == r[..j] + r[j..];
  }

  /** Mapping two permutations of each other gives two permutations of each other. */
  lemma {:induction false} MapPermutation<A, B>(f: A -> B, a: seq<A>, b: seq<A>)
    requires multiset(a) == multiset(b)
    ensures multiset(MapSeq(f, a)) == multiset(MapSeq(f, b))
    decreases |a|
  {
    if a == [] {
      assert |b| == |multiset(b)| == 0;
    } else {
      var x := a[0];
      assert x in multiset(b);
      var j :| 0 <= j < |b| && b[j] == x;
      var rest := b[..j] + b[j + 1..];
      assert b == b[..j] + [x] + b[j + 1..];
      assert a == [x] + a[1..];
      assert multiset(a[1..]) == multiset(a) - multiset{x};
      assert multiset(rest) == multiset(b) - multiset{x};
      MapPermutation(f, a[1..], rest);
      MapSeqRemove(f, a, 0);
      assert a[..0] + a[1..] == a[1..];
      MapSeqRemove(f, b, j);
    }
  }
}
