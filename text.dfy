/** The string handling the backend relies on: Python's `str.strip()`,
    decimal formatting of an index and the integer parsing done by `int()`. */
module Text {
  import opened Common

  /** The characters Python's `str.isspace()` accepts. */
  predicate IsSpace(c: char)
  {
    || c == ' ' || c == '\t' || c == '\n' || c == '\r' || c == '\U{b}' || c == '\U{c}'
    || ('\U{1c}' <= c <= '\U{1f}') || c == '\U{85}' || c == '\U{a0}' || c == '\U{1680}'
    || ('\U{2000}' <= c <= '\U{200a}') || c == '\U{2028}' || c == '\U{2029}'
    || c == '\U{202f}' || c == '\U{205f}' || c == '\U{3000}'
  }

  predicate AllSpace(s: string)
  {
    forall i :: 0 <= i < |s| ==> IsSpace(s[i])
  }

  /** Index of the first character at or after `i` that is not white space. */
  function SkipSpaces(s: string, i: nat): (k: nat)
    requires i <= |s|
    ensures i <= k <= |s|
    decreases |s| - i
  {
    if i < |s| && IsSpace(s[i]) then SkipSpaces(s, i + 1) else i
  }

  /** Index just past the last character before `j` that is not white space. */
  function BackSpaces(s: string, j: nat): (k: nat)
    requires j <= |s|
    ensures k <= j
  {
    if j > 0 && IsSpace(s[j - 1]) then BackSpaces(s, j - 1) else j
  }

  /** `s.lstrip()`: drops leading white space only. */
  function TrimStart(s: string): string
  {
    s[SkipSpaces(s, 0)..]
  }

  /** `s.rstrip()`: drops trailing white space only. */
  function TrimEnd(s: string): string
  {
    s[..BackSpaces(s, |s|)]
  }

  /** Everything skipped is white space, and the skipping stops at a
      character that is not. */
  lemma {:induction false} SkipSpacesSpec(s: string, i: nat)
    requires i <= |s|
    ensures forall j :: i <= j < SkipSpaces(s, i) ==> IsSpace(s[j])
    ensures SkipSpaces(s, i) == |s| || !IsSpace(s[SkipSpaces(s, i)])
    decreases |s| - i
  {
    if i < |s| && IsSpace(s[i]) {
      SkipSpacesSpec(s, i + 1);
    }
  }

  lemma {:induction false} BackSpacesSpec(s: string, j: nat)
    requires j <= |s|
    ensures forall k :: BackSpaces(s, j) <= k < j ==> IsSpace(s[k])
    ensures BackSpaces(s, j) == 0 || !IsSpace(s[BackSpaces(s, j) - 1])
  {
    if j > 0 && IsSpace(s[j - 1]) {
      BackSpacesSpec(s, j - 1);
    }
  }

  /** `lstrip()` keeps a suffix, cuts only white space and leaves none in front. */
  lemma TrimStartSpec(s: string)
    ensures var r := TrimStart(s);
            |r| <= |s| && r == s[|s| - |r|..] && (r == [] || !IsSpace(r[0])) && AllSpace(s[..|s| - |r|])
  {
    SkipSpacesSpec(s, 0);
    var k := SkipSpaces(s, 0);
    assert forall j :: 0 <= j < k ==> s[..k][j] == s[j];
  }

  /** `rstrip()` keeps a prefix, cuts only white space and leaves none behind. */
  lemma TrimEndSpec(s: string)
    ensures var r := TrimEnd(s);
            |r| <= |s| && r == s[..|r|] && (r == [] || !IsSpace(r[|r| - 1])) && AllSpace(s[|r|..])
  {
    BackSpacesSpec(s, |s|);
    var k := BackSpaces(s, |s|);
    assert forall j :: 0 <= j < |s| - k ==> s[k..][j] == s[k + j];
  }

  /** `s.strip()`. */
  function Strip(s: string): (r: string)
  {
    TrimEnd(TrimStart(s))
  }

  /** What `strip()` returns: a contiguous piece of the input, with neither end
      white space, and only white space cut away on either side. */
  lemma StripIsTrimmedSlice(s: string)
    ensures exists a, b :: 0 <= a <= b <= |s| && Strip(s) == s[a..b]
                           && AllSpace(s[..a]) && AllSpace(s[b..])
    ensures Strip(s) == [] || (!IsSpace(Strip(s)[0]) && !IsSpace(Strip(s)[|Strip(s)| - 1]))
  {
    var t := TrimStart(s);
    var r := TrimEnd(t);
    TrimStartSpec(s);
    TrimEndSpec(t);
    var a := |s| - |t|;
    var b := a + |r|;
    assert t == s[a..];
    assert r == s[a..b];
    assert AllSpace(s[..a]);
    assert s[b..] == t[|r|..];
    assert AllSpace(s[b..]);
    if r != [] {
      assert r[0] == t[0];
    }
  }

  /** A string strips to nothing exactly when it is blank, which is what
      `not name.strip()` tests. */
  lemma {:induction false} StripEmptyIffBlank(s: string)
    ensures Strip(s) == [] <==> AllSpace(s)
  {
    var t := TrimStart(s);
    TrimStartSpec(s);
    TrimEndSpec(t);
    assert s == s[..|s| - |t|] + t;
    if t == [] {
      assert s[..|s|] == s;
    } else {
      assert t[0..] == t;
      assert !IsSpace(s[|s| - |t|]);
    }
  }

  /** `strip()` is idempotent. */
  lemma StripIdempotent(s: string)
    ensures Strip(Strip(s)) == Strip(s)
  {
    var r := Strip(s);
    StripIsTrimmedSlice(s);
    assert SkipSpaces(r, 0) == 0;
    assert r[0..] == r;
    assert BackSpaces(r, |r|) == |r|;
    assert r[..|r|] == r;
  }

  // ----- decimal digits -----

  predicate IsDigit(c: char)
  {
    '0' <= c <= '9'
  }

  function DigitChar(d: nat): (c: char)
    requires d < 10
    ensures IsDigit(c)
  {
    "0123456789"[d]
  }

  /** Decimal spelling of a natural number, as `str(n)` / an f-string prints it. */
  function Decimal(n: nat): (s: string)
    ensures |s| >= 1
    ensures forall i :: 0 <= i < |s| ==> IsDigit(s[i])
    ensures n < 10 <==> |s| == 1
  {
    if n < 10 then [DigitChar(n)] else Decimal(n / 10) + [DigitChar(n % 10)]
  }

  /** Value of a string of decimal digits. */
  function DigitsValue(ds: string): (v: nat)
    requires forall i :: 0 <= i < |ds| ==> IsDigit(ds[i])
  {
    if ds == [] then 0
    else DigitsValue(ds[..|ds| - 1]) * 10 + DigitValue(ds[|ds| - 1])
  }

  function DigitValue(c: char): (d: nat)
    requires IsDigit(c)
    ensures d < 10
  {
    c as int - '0' as int
  }

  lemma DigitCharValue(d: nat)
    requires d < 10
    ensures DigitValue(DigitChar(d)) == d
  {
  }

  lemma DigitIsNotSpace(c: char)
    requires IsDigit(c)
    ensures !IsSpace(c)
  {
  }

  lemma {:induction false} DecimalValue(n: nat)
    ensures DigitsValue(Decimal(n)) == n
  {
    if n >= 10 {
      var s := Decimal(n);
      assert s[..|s| - 1] == Decimal(n / 10);
      DecimalValue(n / 10);
    }
  }

  /** Different numbers are spelled differently. */
  lemma DecimalInjective(m: nat, n: nat)
    requires Decimal(m) == Decimal(n)
    ensures m == n
  {
    DecimalValue(m);
    DecimalValue(n);
  }

  predicate AllDigits(ds: string)
  {
    forall i :: 0 <= i < |ds| ==> IsDigit(ds[i])
  }

  /** An optional sign followed by one or more ASCII digits. */
  function ParseSigned(t: string): (r: Option<int>)
  {
    if t == [] then None
    else
      var digits := if t[0] == '-' || t[0] == '+' then t[1..] else t;
      if digits == [] || !AllDigits(digits) then None
      else if t[0] == '-' then Some(-(DigitsValue(digits) as int))
      else Some(DigitsValue(digits))
  }

  /** Python's `int(s)` on a string: surrounding white space is ignored, then an
      optional sign and one or more ASCII digits. */
  function ParseInt(s: string): (r: Option<int>)
  {
    ParseSigned(Strip(s))
  }

  /** `str(i)` for any integer. */
  function IntToString(i: int): (s: string)
  {
    if i < 0 then "-" + Decimal(-i) else Decimal(i)
  }

  /** A string with no white space at either end is left alone by `strip()`. */
  lemma StripUnpadded(s: string)
    requires s != [] && !IsSpace(s[0]) && !IsSpace(s[|s| - 1])
    ensures Strip(s) == s
  {
  }

  lemma ParseSignedDecimal(n: nat)
    ensures ParseSigned(Decimal(n)) == Some(n)
  {
    var ds := Decimal(n);
    DecimalValue(n);
    assert AllDigits(ds);
    assert ds[0] != '-' && ds[0] != '+';
  }

  lemma ParseSignedNegative(n: nat)
    ensures ParseSigned("-" + Decimal(n)) == Some(-(n as int))
  {
    DecimalValue(n);
    MinusDigits(Decimal(n), n);
  }

  lemma MinusDigits(ds: string, n: nat)
    requires ds != [] && AllDigits(ds) && DigitsValue(ds) == n
    ensures ParseSigned("-" + ds) == Some(-(n as int))
  {
    var t := "-" + ds;
    assert t[0] == '-';
    assert t[1..] == ds;
  }

  lemma DecimalUnpadded(n: nat)
    ensures Strip(Decimal(n)) == Decimal(n)
  {
    var ds := Decimal(n);
    DigitIsNotSpace(ds[|ds| - 1]);
    DigitIsNotSpace(ds[0]);
    StripUnpadded(ds);
  }

  lemma NegativeDecimalUnpadded(n: nat)
    ensures Strip("-" + Decimal(n)) == "-" + Decimal(n)
  {
    var ds := Decimal(n);
    var t := "-" + ds;
    DigitIsNotSpace(ds[|ds| - 1]);
    assert t[0] == '-' && t[|t| - 1] == ds[|ds| - 1];
    StripUnpadded(t);
  }

  /** `int(str(i)) == i`: parsing undoes formatting. */
  lemma ParseIntRoundTrip(i: int)
    ensures ParseInt(IntToString(i)) == Some(i)
  {
    var d: nat := if i < 0 then -i else i;
    if i < 0 {
      ParseSignedNegative(d);
      NegativeDecimalUnpadded(d);
    } else {
      ParseSignedDecimal(d);
      DecimalUnpadded(d);
    }
  }
}
