/**
 * The .NET string operations the sorter relies on: string.Trim(), ordinal case-insensitive
 * comparison and the UTF-8 byte count of a line.
 */
module Text {

  /** The characters for which .NET's char.IsWhiteSpace holds: those string.Trim() strips. */
  predicate IsWhiteSpace(c: char) {
    || c == ' ' || '\t' <= c <= '\r'
    || c == '\U{85}' || c == '\U{A0}' || c == '\U{1680}'
    || '\U{2000}' <= c <= '\U{200A}'
    || c == '\U{2028}' || c == '\U{2029}' || c == '\U{202F}' || c == '\U{205F}' || c == '\U{3000}'
  }

  predicate AllSatisfy(s: string, p: char -> bool) {
    forall i :: 0 <= i < |s| ==> p(s[i])
  }

  /** Neither end of s is white space. */
  predicate IsTrimmed(s: string, ws: char -> bool) {
    s == [] || (!ws(s[0]) && !ws(s[|s| - 1]))
  }

  /** s without its leading white space. */
  function TrimStart(s: string, ws: char -> bool): (r: string)
    ensures |r| <= |s|
  {
    if s != [] && ws(s[0]) then TrimStart(s[1..], ws) else s
  }

  /** TrimStart removes a white prefix and stops at the first other character. */
  lemma {:induction false} TrimStartSpec(s: string, ws: char -> bool)
    ensures var r := TrimStart(s, ws);
      && r == s[|s| - |r|..] && AllSatisfy(s[..|s| - |r|], ws) && (r == [] || !ws(r[0]))
  {
    if s != [] && ws(s[0]) {
      var p := s[1..];
      TrimStartSpec(p, ws);
      var r := TrimStart(p, ws);
      assert TrimStart(s, ws) == r;
      assert r == s[|s| - |r|..] by {
        assert p[|p| - |r|..] == s[|s| - |r|..];
      }
      var white := s[..|s| - |r|];
      assert white == [s[0]] + p[..|p| - |r|];
      forall i | 0 <= i < |white| ensures ws(white[i]) {
        if i > 0 {
          assert white[i] == p[..|p| - |r|][i - 1];
        }
      }
    }
  }

  /** s without its trailing white space. */
  function TrimEnd(s: string, ws: char -> bool): (r: string)
    ensures |r| <= |s|
  {
    if s != [] && ws(s[|s| - 1]) then TrimEnd(s[..|s| - 1], ws) else s
  }

  /** TrimEnd removes a white suffix and stops at the last other character. */
  lemma {:induction false} TrimEndSpec(s: string, ws: char -> bool)
    ensures var r := TrimEnd(s, ws);
      && r == s[..|r|] && AllSatisfy(s[|r|..], ws) && (r == [] || !ws(r[|r| - 1]))
  {
    if s != [] && ws(s[|s| - 1]) {
      var p := s[..|s| - 1];
      TrimEndSpec(p, ws);
      var r := TrimEnd(p, ws);
      assert TrimEnd(s, ws) == r;
      assert r == s[..|r|] by {
        assert p[..|r|] == s[..|r|];
      }
      var white := s[|r|..];
      assert white == p[|r|..] + [s[|s| - 1]];
      forall i | 0 <= i < |white| ensures ws(white[i]) {
        if i < |p| - |r| {
          assert white[i] == p[|r|..][i];
        }
      }
    }
  }

  /** s without the white space at either end. */
  function TrimBy(s: string, ws: char -> bool): (r: string)
    ensures IsTrimmed(r, ws) && |r| <= |s|
  {
    var t := TrimStart(s, ws);
    TrimStartSpec(s, ws);
    TrimEndSpec(t, ws);
    TrimEnd(t, ws)
  }

  /** Trimming keeps a middle part: s == s[..k] + r + s[k + |r|..] with both outer parts white. */
  lemma TrimBySpec(s: string, ws: char -> bool)
    ensures var r := TrimBy(s, ws); var k := |s| - |TrimStart(s, ws)|;
      && k + |r| <= |s| && r == s[k..k + |r|]
      && AllSatisfy(s[..k], ws) && AllSatisfy(s[k + |r|..], ws)
  {
    var t := TrimStart(s, ws);
    var r := TrimEnd(t, ws);
    var k := |s| - |t|;
    TrimStartSpec(s, ws);
    TrimEndSpec(t, ws);
    assert t == s[k..];
    assert r == t[..|r|] == s[k..k + |r|];
    assert s[k + |r|..] == t[|r|..];
  }

  /** string.Trim(). */
  function Trim(s: string): string {
    TrimBy(s, IsWhiteSpace)
  }

  lemma {:induction false} TrimStartPadded(a: string, t: string, ws: char -> bool)
    requires AllSatisfy(a, ws)
    requires t == [] || !ws(t[0])
    ensures TrimStart(a + t, ws) == t
  {
    if a != [] {
      assert (a + t)[1..] == a[1..] + t;
      TrimStartPadded(a[1..], t, ws);
    } else {
      assert a + t == t;
    }
  }

  lemma {:induction false} TrimEndPadded(t: string, b: string, ws: char -> bool)
    requires AllSatisfy(b, ws)
    requires t == [] || !ws(t[|t| - 1])
    ensures TrimEnd(t + b, ws) == t
  {
    if b != [] {
      assert (t + b)[..|t + b| - 1] == t + b[..|b| - 1];
      TrimEndPadded(t, b[..|b| - 1], ws);
    } else {
      assert t + b == t;
    }
  }

  /** The characterisation of trimming: white space around a trimmed middle is exactly what goes. */
  lemma TrimOfPadded(a: string, m: string, b: string, ws: char -> bool)
    requires AllSatisfy(a, ws) && AllSatisfy(b, ws) && IsTrimmed(m, ws)
    ensures TrimBy(a + m + b, ws) == m
  {
    if m == [] {
      var t := TrimStart(a + m + b, ws);
      assert AllSatisfy(a + m + b, ws);
      TrimStartSpec(a + m + b, ws);
      assert t == [];
    } else {
      assert a + m + b == a + (m + b);
      TrimStartPadded(a, m + b, ws);
      TrimEndPadded(m, b, ws);
    }
  }

  /** The simple upper-case mapping that OrdinalIgnoreCase applies (ASCII letters only). */
  function Upper(c: char): char {
    if 'a' <= c <= 'z' then (c as int - 32) as char else c
  }

  function ToUpper(s: string): (r: string)
    ensures |r| == |s| && forall i :: 0 <= i < |s| ==> r[i] == Upper(s[i])
  {
    if s == [] then [] else [Upper(s[0])] + ToUpper(s[1..])
  }

  /**
   * string.Compare(a, b, StringComparison.OrdinalIgnoreCase), up to the sign of the result:
   * the upper-cased strings compared lexicographically by character code.
   */
  function CompareOrdinalIgnoreCase(a: string, b: string): (r: int)
    ensures -1 <= r <= 1
    ensures r == 0 <==> ToUpper(a) == ToUpper(b)
  {
    if a == [] && b == [] then 0
    else if a == [] then -1
    else if b == [] then 1
    else if Upper(a[0]) < Upper(b[0]) then -1
    else if Upper(b[0]) < Upper(a[0]) then 1
    else
      assert ToUpper(a) == [Upper(a[0])] + ToUpper(a[1..]);
      assert ToUpper(b) == [Upper(b[0])] + ToUpper(b[1..]);
      CompareOrdinalIgnoreCase(a[1..], b[1..])
  }

  lemma {:induction false} CompareOrdinalIgnoreCaseAntisymmetric(a: string, b: string)
    ensures CompareOrdinalIgnoreCase(a, b) == -CompareOrdinalIgnoreCase(b, a)
  {
    if a != [] && b != [] && Upper(a[0]) == Upper(b[0]) {
      CompareOrdinalIgnoreCaseAntisymmetric(a[1..], b[1..]);
    }
  }

  lemma {:induction false} CompareOrdinalIgnoreCaseTransitive(a: string, b: string, c: string)
    requires CompareOrdinalIgnoreCase(a, b) <= 0 && CompareOrdinalIgnoreCase(b, c) <= 0
    ensures CompareOrdinalIgnoreCase(a, c) <= 0
  {
    if a != [] && b != [] && c != [] && Upper(a[0]) == Upper(b[0]) == Upper(c[0]) {
      CompareOrdinalIgnoreCaseTransitive(a[1..], b[1..], c[1..]);
    }
  }

  /** Number of bytes of c in UTF-8. */
  function Utf8Length(c: char): nat {
    if c as int < 0x80 then 1
    else if c as int < 0x800 then 2
    else if c as int < 0x1_0000 then 3
    else 4
  }

  /** Encoding.UTF8.GetByteCount(s). */
  function Utf8ByteCount(s: string): (n: nat)
    ensures |s| <= n <= 4 * |s|
  {
    if s == [] then 0 else Utf8Length(s[0]) + Utf8ByteCount(s[1..])
  }

  lemma {:induction false} Utf8ByteCountConcat(a: string, b: string)
    ensures Utf8ByteCount(a + b) == Utf8ByteCount(a) + Utf8ByteCount(b)
  {
    if a == [] {
      assert a + b == b;
    } else {
      assert (a + b)[1..] == a[1..] + b;
      Utf8ByteCountConcat(a[1..], b);
    }
  }
}
