/**
 * The fragment of JavaScript numbers the core touches: integers produced by
 * `parseInt(s, 10)`, and `NaN` when no digit is found.
 */
module JsNumber {
  import opened Text

  datatype Number = Int(v: int) | NaN

  /** End of the maximal run of decimal digits starting at `i`. */
  function DigitRunEnd(s: string, i: nat): (j: nat)
    requires i <= |s|
    ensures i <= j <= |s|
    ensures AllDigits(s[i..j])
    ensures j == |s| || !IsDigit(s[j])
    decreases |s| - i
  {
    if i == |s| || !IsDigit(s[i]) then i
    else
      var j := DigitRunEnd(s, i + 1);
      assert s[i..j] == [s[i]] + s[i + 1..j];
      j
  }

  /**
   * `parseInt(s, 10)`: leading whitespace is skipped, one optional sign is
   * read, then the longest run of decimal digits; no digit gives `NaN`.
   */
  function ParseInt(s: string): (r: Number)
    ensures r.Int? <==>
      var i := SkipWhitespace(s, 0);
      var k := if i < |s| && (s[i] == '+' || s[i] == '-') then i + 1 else i;
      k < |s| && IsDigit(s[k])
  {
    var i := SkipWhitespace(s, 0);
    var negative := i < |s| && s[i] == '-';
    var k := if i < |s| && (s[i] == '+' || s[i] == '-') then i + 1 else i;
    var j := DigitRunEnd(s, k);
    if j == k then NaN
    else
      var magnitude: int := DigitsValue(s[k..j]);
      Int(if negative then -magnitude else magnitude)
  }

  /** On a non-empty string of digits `parseInt` is the decimal value. */
  lemma ParseIntDigits(s: string)
    requires s != [] && AllDigits(s)
    ensures ParseInt(s) == Int(DigitsValue(s))
  {
    assert SkipWhitespace(s, 0) == 0;
    assert DigitRunEnd(s, 0) == |s|;
    assert s[0..|s|] == s;
  }

  /** `parseInt(String(n), 10) == n`: a natural written out reads back unchanged. */
  lemma ParseIntNatToString(n: nat)
    ensures ParseInt(NatToString(n)) == Int(n)
  {
    ParseIntDigits(NatToString(n));
    NatToStringRoundTrip(n);
  }

  /** `parseInt` of a single character: its digit value, or `NaN`. */
  lemma ParseIntOneChar(c: char)
    ensures ParseInt([c]) == if IsDigit(c) then Int(DigitValue(c)) else NaN
  {
    if IsDigit(c) {
      ParseIntDigits([c]);
    } else {
      var s := [c];
      var i := SkipWhitespace(s, 0);
      assert i == 1 || !IsWhitespace(c);
    }
  }

  /** `parseInt` of two digits: their two-digit decimal value. */
  lemma ParseIntTwoDigits(a: char, b: char)
    requires IsDigit(a) && IsDigit(b)
    ensures ParseInt([a, b]) == Int(10 * DigitValue(a) + DigitValue(b))
  {
    ParseIntDigits([a, b]);
    assert [a, b][..1] == [a] && [a][..0] == [];
    assert DigitsValue([a]) == DigitValue(a);
    assert DigitsValue([a, b]) == DigitsValue([a]) * 10 + DigitValue(b);
  }
}
