/**
 * The few .NET base-library operations the handlers call, restricted to what
 * the handlers can observe: `char.IsDigit`, ordinal case-insensitive string
 * equality, `string.Substring` and `int.TryParse`. A Dafny char is a Unicode
 * scalar value; only the ASCII range is given its .NET meaning.
 */
module DotNet {
  import opened Wrappers

  /** The exceptions a modelled call can raise. */
  datatype Fault = ArgumentOutOfRange | NullReference

  const Int32Max: int := 0x7FFF_FFFF

  /** `char.IsDigit`, restricted to the ASCII decimal digits. */
  predicate IsDigit(c: char) {
    '0' <= c <= '9'
  }

  /** The digits are exactly the ten characters "0123456789". */
  lemma DigitCharacters(c: char)
    ensures IsDigit(c) <==> c in "0123456789"
  {
  }

  /** 10 to the power `k`. */
  function Pow10(k: nat): (p: nat)
    ensures p >= 1
  {
    if k == 0 then 1 else 10 * Pow10(k - 1)
  }

  function DigitValue(c: char): (d: nat)
    requires IsDigit(c)
    ensures d < 10
  {
    c as int - '0' as int
  }

  function DigitChar(d: nat): (c: char)
    requires d < 10
    ensures IsDigit(c) && DigitValue(c) == d
  {
    ('0' as int + d) as char
  }

  /**
   * `s.All(char.IsDigit)`: the enumeration stops at the first non-digit,
   * and the empty string passes.
   */
  function AllDigits(s: string): (r: bool)
    ensures r <==> forall i :: 0 <= i < |s| ==> IsDigit(s[i])
  {
    if |s| == 0 then true
    else if !IsDigit(s[0]) then false
    else
      var rest := AllDigits(s[1..]);
      assert forall i :: 1 <= i < |s| ==> s[i] == s[1..][i - 1];
      rest
  }

  /** The value of a string of decimal digits, most significant first. */
  function DigitsValue(s: string): (v: nat)
    requires AllDigits(s)
  {
    if |s| == 0 then 0
    else DigitsValue(s[..|s| - 1]) * 10 + DigitValue(s[|s| - 1])
  }

  /** The shortest decimal representation of `n`. */
  function ToDecimal(n: nat): (s: string)
    ensures |s| > 0 && AllDigits(s)
  {
    if n < 10 then [DigitChar(n)]
    else ToDecimal(n / 10) + [DigitChar(n % 10)]
  }

  /** Decimal formatting and digit evaluation are inverse. */
  lemma {:induction false} DigitsValueOfToDecimal(n: nat)
    ensures DigitsValue(ToDecimal(n)) == n
  {
    var s := ToDecimal(n);
    if n >= 10 {
      DigitsValueOfToDecimal(n / 10);
      assert s[..|s| - 1] == ToDecimal(n / 10);
    }
  }

  /** Leading zeros do not change the value of a digit string. */
  lemma {:induction false} DigitsValueLeadingZero(s: string)
    requires AllDigits(s)
    ensures AllDigits("0" + s) && DigitsValue("0" + s) == DigitsValue(s)
  {
    if |s| > 0 {
      var t := "0" + s;
      assert t[..|t| - 1] == "0" + s[..|s| - 1];
      DigitsValueLeadingZero(s[..|s| - 1]);
    }
  }

  /**
   * `int.TryParse` on an unsigned string of ASCII digits: it succeeds exactly
   * when the string is a non-empty run of digits whose value fits in an
   * `Int32`. Leading and trailing white space and a sign are not modelled.
   */
  function TryParseInt32(s: string): (r: Option<int>)
    ensures r.Some? <==> |s| > 0 && AllDigits(s) && DigitsValue(s) <= Int32Max
    ensures r.Some? ==> 0 <= r.value <= Int32Max
  {
    if |s| > 0 && AllDigits(s) && DigitsValue(s) <= Int32Max then Some(DigitsValue(s)) else None
  }

  /** A leading zero on a non-empty string does not change what `int.TryParse` answers. */
  lemma LeadingZeroIgnored(s: string)
    requires |s| > 0
    ensures TryParseInt32("0" + s) == TryParseInt32(s)
  {
    if AllDigits(s) {
      DigitsValueLeadingZero(s);
    } else {
      assert !AllDigits("0" + s) by {
        var i :| 0 <= i < |s| && !IsDigit(s[i]);
        assert ("0" + s)[i + 1] == s[i];
      }
    }
  }

  /** Every value of an `Int32` written in decimal parses back to itself. */
  lemma TryParseOfToDecimal(n: nat)
    requires n <= Int32Max
    ensures TryParseInt32(ToDecimal(n)) == Some(n)
  {
    DigitsValueOfToDecimal(n);
  }

  /**
   * `s.Substring(start, length)`: the `length` characters from `start`, or
   * `ArgumentOutOfRangeException` when that range is not inside `s`.
   */
  function Substring(s: string, start: int, length: int): (r: Result<string, Fault>)
    ensures r.Success? <==> 0 <= start && 0 <= length && start + length <= |s|
    ensures r.Failure? ==> r.error == ArgumentOutOfRange
    ensures r.Success? ==> |r.value| == length
    ensures r.Success? ==> forall i :: 0 <= i < length ==> r.value[i] == s[start + i]
  {
    if 0 <= start && 0 <= length && start <= |s| - length then Success(s[start..start + length])
    else Failure(ArgumentOutOfRange)
  }

  /** An ASCII letter of either case. */
  predicate IsAsciiLetter(c: char) {
    'a' <= c <= 'z' || 'A' <= c <= 'Z'
  }

  /** ASCII upper-casing, the folding `OrdinalIgnoreCase` applies to ASCII letters. */
  function ToUpper(c: char): (u: char)
    ensures !('a' <= u <= 'z')
    ensures IsAsciiLetter(u) <==> IsAsciiLetter(c)
    ensures !IsAsciiLetter(c) ==> u == c
    ensures IsAsciiLetter(c) ==> SameIgnoringCase(c, u)
  {
    if 'a' <= c <= 'z' then (c as int - 32) as char else c
  }

  /** Folding twice is folding once. */
  lemma ToUpperIdempotent(c: char)
    ensures ToUpper(ToUpper(c)) == ToUpper(c)
  {
  }

  /** `a.Equals(b, StringComparison.OrdinalIgnoreCase)` on ASCII text. */
  function EqualsIgnoreCase(a: string, b: string): (r: bool)
    ensures r ==> |a| == |b|
    ensures a == b ==> r
  {
    |a| == |b| && forall i :: 0 <= i < |a| ==> ToUpper(a[i]) == ToUpper(b[i])
  }

  /** Case-insensitive equality is an equivalence relation. */
  lemma EqualsIgnoreCaseIsEquivalence(a: string, b: string, c: string)
    ensures EqualsIgnoreCase(a, a)
    ensures EqualsIgnoreCase(a, b) ==> EqualsIgnoreCase(b, a)
    ensures EqualsIgnoreCase(a, b) && EqualsIgnoreCase(b, c) ==> EqualsIgnoreCase(a, c)
  {
  }

  /** `x` and `y` are the two cases of one ASCII letter, `x` the lower one. */
  predicate LowerOf(x: char, y: char) {
    'a' <= x <= 'z' && y as int == x as int - 32
  }

  /** Two characters agree ignoring case exactly when they are equal or are the two cases of one letter. */
  predicate SameIgnoringCase(x: char, y: char) {
    x == y || LowerOf(x, y) || LowerOf(y, x)
  }

  lemma ToUpperAgrees(x: char, y: char)
    ensures ToUpper(x) == ToUpper(y) <==> SameIgnoringCase(x, y)
  {
  }

  /**
   * Two strings are equal ignoring case exactly when they have the same
   * length and agree character by character, up to the case of ASCII letters.
   */
  lemma EqualsIgnoreCaseByCharacters(a: string, b: string)
    ensures EqualsIgnoreCase(a, b) <==>
      |a| == |b| && forall i :: 0 <= i < |a| ==> SameIgnoringCase(a[i], b[i])
  {
    if |a| == |b| {
      forall i | 0 <= i < |a|
        ensures ToUpper(a[i]) == ToUpper(b[i]) <==> SameIgnoringCase(a[i], b[i])
      {
        ToUpperAgrees(a[i], b[i]);
      }
    }
  }
}
