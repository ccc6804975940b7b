/** Decimal integers as .NET writes them (Int32.ToString) and reads them (int.TryParse). */
module Numbers {
  import opened Wrappers
  import opened Text

  const MinInt32: int := -0x8000_0000
  const MaxInt32: int := 0x7FFF_FFFF

  /** System.Int32. */
  type int32 = x: int | -0x8000_0000 <= x <= 0x7FFF_FFFF

  predicate IsDigit(c: char) {
    '0' <= c <= '9'
  }

  function DigitValue(c: char): nat
    requires IsDigit(c)
  {
    c as int - '0' as int
  }

  function DigitChar(d: nat): (c: char)
    requires d < 10
    ensures IsDigit(c) && DigitValue(c) == d
  {
    ('0' as int + d) as char
  }

  /** The value of a string of decimal digits, most significant first. */
  function DigitsValue(ds: string): nat
    requires AllSatisfy(ds, IsDigit)
  {
    if ds == [] then 0 else DigitsValue(ds[..|ds| - 1]) * 10 + DigitValue(ds[|ds| - 1])
  }

  /** The decimal digits of n, without leading zeros. */
  function NatToDigits(n: nat): (ds: string)
    ensures ds != [] && AllSatisfy(ds, IsDigit)
    ensures DigitsValue(ds) == n
  {
    if n < 10 then [DigitChar(n)]
    else
      var front := NatToDigits(n / 10);
      var ds := front + [DigitChar(n % 10)];
      assert ds[..|ds| - 1] == front;
      ds
  }

  lemma NatToDigitsInjective(i: nat, j: nat)
    requires NatToDigits(i) == NatToDigits(j)
    ensures i == j
  {
  }

  /** Int32.ToString(): a minus sign for negative values, then the digits. */
  function IntToString(n: int): (s: string)
    ensures s != [] && (IsDigit(s[0]) || s[0] == '-') && IsDigit(s[|s| - 1])
    ensures forall i :: 0 <= i < |s| ==> IsDigit(s[i]) || s[i] == '-'
  {
    if n < 0 then "-" + NatToDigits(-(n as int)) else NatToDigits(n)
  }

  /** The white space int.TryParse skips around the number (NumberStyles.Integer). */
  predicate IsParseWhiteSpace(c: char) {
    c == ' ' || '\t' <= c <= '\r'
  }

  /**
   * int.TryParse(s, out n): optional white space, an optional sign, at least one digit,
   * optional white space, and a value that fits in 32 bits; None where TryParse returns false.
   */
  function TryParseInt32(s: string): Option<int32> {
    var t := TrimBy(s, IsParseWhiteSpace);
    if t == [] then None
    else
      var negative := t[0] == '-';
      var digits := if t[0] == '-' || t[0] == '+' then t[1..] else t;
      if digits == [] || !AllSatisfy(digits, IsDigit) then None
      else
        var v: int := if negative then -(DigitsValue(digits) as int) else DigitsValue(digits);
        if MinInt32 <= v <= MaxInt32 then Some(v) else None
  }

  /** The number int.TryParse leaves in its out parameter: 0 when parsing fails. */
  function ParseOrZero(s: string): int32 {
    match TryParseInt32(s)
    case Some(v) => v
    case None => 0
  }

  /** TryParse succeeds only on strings made of digits, signs and white space. */
  lemma TryParseAlphabet(s: string, i: nat)
    requires i < |s| && !IsDigit(s[i]) && !IsParseWhiteSpace(s[i]) && s[i] != '-' && s[i] != '+'
    ensures TryParseInt32(s) == None && ParseOrZero(s) == 0
  {
    var t := TrimBy(s, IsParseWhiteSpace);
    var k := |s| - |TrimStart(s, IsParseWhiteSpace)|;
    TrimBySpec(s, IsParseWhiteSpace);
    if t != [] {
      assert !IsParseWhiteSpace(s[i]);
      assert k <= i < k + |t|;
      assert t[i - k] == s[i];
      var digits := if t[0] == '-' || t[0] == '+' then t[1..] else t;
      if i == k {
        assert t[0] == s[i];
        assert digits == t && !IsDigit(digits[0]);
      } else {
        assert digits[i - k - (|t| - |digits|)] == s[i];
      }
    }
  }

  /** Reading back what Int32.ToString wrote gives the number again. */
  lemma ParseIntToString(n: int32)
    ensures TryParseInt32(IntToString(n)) == Some(n)
    ensures ParseOrZero(IntToString(n)) == n
  {
    var s := IntToString(n);
    assert IsTrimmed(s, IsParseWhiteSpace);
    assert s == [] + s + [];
    TrimOfPadded([], s, [], IsParseWhiteSpace);
    assert TrimBy(s, IsParseWhiteSpace) == s;
    if n < 0 {
      var ds := NatToDigits(-(n as int));
      assert s[0] == '-' && s[1..] == ds;
      assert DigitsValue(ds) == -(n as int);
    } else {
      var ds := NatToDigits(n);
      assert s == ds && !(s[0] == '-' || s[0] == '+');
    }
  }
}
