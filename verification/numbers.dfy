/**
 * Decimal number syntax as the application parses it: Python's `int()` and
 * `float()` on form fields, and pandas' `to_numeric` on CSV cells. Only the
 * plain decimal notation is modelled (see README, "Left out").
 */
module Numbers {
  import opened Wrappers
  import opened Text

  predicate IsDigit(c: char) {
    '0' <= c <= '9'
  }

  predicate AllDigits(s: string) {
    forall i :: 0 <= i < |s| ==> IsDigit(s[i])
  }

  function DigitValue(c: char): nat
    requires IsDigit(c)
  {
    c as int - '0' as int
  }

  /** The value of a string of decimal digits, most significant first. */
  function DigitsValue(s: string): nat
    requires AllDigits(s)
  {
    if s == [] then 0 else 10 * DigitsValue(s[..|s| - 1]) + DigitValue(s[|s| - 1])
  }

  function Pow10(k: nat): (p: nat)
    ensures p >= 1
  {
    if k == 0 then 1 else 10 * Pow10(k - 1)
  }

  /** The shortest decimal spelling of `n`. */
  function NatDigits(n: nat): (s: string)
    ensures s != [] && AllDigits(s)
  {
    var d := ['0' + (n % 10) as char];
    if n < 10 then d else NatDigits(n / 10) + d
  }

  lemma {:induction false} DigitsValueOfNatDigits(n: nat)
    ensures DigitsValue(NatDigits(n)) == n
  {
    if n >= 10 {
      DigitsValueOfNatDigits(n / 10);
      var s := NatDigits(n);
      assert s[..|s| - 1] == NatDigits(n / 10);
    }
  }

  /** Python's `int(s)` on a decimal literal: white space around it, an optional sign, digits. */
  function ParseInt(s: string): Option<int>
  {
    var t := Strip(s);
    if t != [] && (t[0] == '+' || t[0] == '-') then
      var body := t[1..];
      if body != [] && AllDigits(body) then
        var v: int := DigitsValue(body);
        Some(if t[0] == '-' then -v else v)
      else None
    else if t != [] && AllDigits(t) then Some(DigitsValue(t))
    else None
  }

  /** The position of the first `c` in `s`, or `|s|` when there is none. */
  function IndexOf(s: string, c: char): (k: nat)
    ensures k <= |s|
    ensures k < |s| ==> s[k] == c
    ensures c !in s[..k]
  {
    if s == [] then 0
    else if s[0] == c then 0
    else
      assert s[..1 + IndexOf(s[1..], c)] == [s[0]] + s[1..][..IndexOf(s[1..], c)];
      1 + IndexOf(s[1..], c)
  }

  /** The value of the decimal literal `whole.fraction`, both parts digit strings. */
  function DecimalValue(whole: string, fraction: string): real
    requires AllDigits(whole) && AllDigits(fraction)
  {
    DigitsValue(whole) as real + DigitsValue(fraction) as real / Pow10(|fraction|) as real
  }

  /** Digits with at most one decimal point and at least one digit: `12`, `12.5`, `.5`, `12.`. */
  function ParseUnsignedDecimal(t: string): Option<real>
  {
    var k := IndexOf(t, '.');
    var whole := t[..k];
    var fraction := if k < |t| then t[k + 1..] else [];
    if AllDigits(whole) && AllDigits(fraction) && |whole| + |fraction| > 0 then
      Some(DecimalValue(whole, fraction))
    else None
  }

  /** Python's `float(s)` (and pandas' `to_numeric` on one string) on a plain decimal literal. */
  function ParseDecimal(s: string): Option<real>
  {
    var t := Strip(s);
    if t != [] && (t[0] == '+' || t[0] == '-') then
      match ParseUnsignedDecimal(t[1..])
      case Some(v) => Some(if t[0] == '-' then -v else v)
      case None => None
    else ParseUnsignedDecimal(t)
  }

  /** A non-empty digit string has no sign, no decimal point and no white space to strip. */
  lemma {:induction false} DigitString(s: string)
    requires s != [] && AllDigits(s)
    ensures Strip(s) == s && s[0] != '+' && s[0] != '-' && IndexOf(s, '.') == |s|
  {
    assert IsDigit(s[0]) && IsDigit(s[|s| - 1]);
    StripTrimmed(s);
    assert '.' !in s by {
      forall i | 0 <= i < |s| ensures s[i] != '.' { assert IsDigit(s[i]); }
    }
  }

  /** Printing a natural number and parsing it back gives the number, as an integer and as a decimal. */
  lemma {:induction false} ParseNatDigits(n: nat)
    ensures ParseInt(NatDigits(n)) == Some(n)
    ensures ParseDecimal(NatDigits(n)) == Some(n as real)
  {
    var s := NatDigits(n);
    DigitString(s);
    DigitsValueOfNatDigits(n);
    assert s[..|s|] == s;
  }

  /** `whole.fraction` with digits on both sides parses to the exact decimal value. */
  lemma {:induction false} ParseDecimalPoint(whole: string, fraction: string)
    requires whole != [] && AllDigits(whole) && AllDigits(fraction)
    ensures ParseDecimal(whole + "." + fraction)
            == Some(DecimalValue(whole, fraction))
  {
    var s := whole + "." + fraction;
    DecimalPointTrimmed(whole, fraction);
    DecimalPointSplits(whole, fraction);
    assert s[..|whole|] == whole;
    assert s[|whole| + 1..] == fraction;
    UnsignedSplit(s, |whole|, whole, fraction);
    Unsigned(s);
  }

  /** A trimmed literal without a sign is parsed as an unsigned one. */
  lemma Unsigned(t: string)
    requires Strip(t) == t && t != [] && t[0] != '+' && t[0] != '-'
    ensures ParseDecimal(t) == ParseUnsignedDecimal(t)
  {
  }

  /** An unsigned literal split at its decimal point into two digit strings denotes their value. */
  lemma UnsignedSplit(t: string, k: nat, whole: string, fraction: string)
    requires IndexOf(t, '.') == k < |t| && t[..k] == whole && t[k + 1..] == fraction
    requires whole != [] && AllDigits(whole) && AllDigits(fraction)
    ensures ParseUnsignedDecimal(t) == Some(DecimalValue(whole, fraction))
  {
  }

  lemma {:induction false} DecimalPointTrimmed(whole: string, fraction: string)
    requires whole != [] && AllDigits(whole) && AllDigits(fraction)
    ensures Strip(whole + "." + fraction) == whole + "." + fraction
    ensures (whole + "." + fraction)[0] != '+' && (whole + "." + fraction)[0] != '-'
  {
    var s := whole + "." + fraction;
    assert s[0] == whole[0] && IsDigit(whole[0]);
    assert !IsSpace(s[|s| - 1]) by {
      if fraction == [] { assert s[|s| - 1] == '.'; } else { assert s[|s| - 1] == fraction[|fraction| - 1]; }
    }
    StripTrimmed(s);
  }

  lemma {:induction false} DecimalPointSplits(whole: string, fraction: string)
    requires AllDigits(whole)
    ensures IndexOf(whole + "." + fraction, '.') == |whole|
  {
    var s := whole + "." + fraction;
    assert '.' !in whole by {
      forall i | 0 <= i < |whole| ensures whole[i] != '.' { assert IsDigit(whole[i]); }
    }
    assert s[|whole|] == '.';
    assert s[..|whole|] == whole;
  }

  /** A string holding a character that cannot occur in a decimal literal never parses. */
  lemma {:induction false} ParseDecimalRejects(s: string, i: nat)
    requires i < |s| && !IsDigit(s[i]) && s[i] != '.' && s[i] != '+' && s[i] != '-' && !IsSpace(s[i])
    ensures ParseDecimal(s) == None
  {
    var t := Strip(s);
    assert s[i] in t by { StripKeeps(s, i); }
    var u := if t != [] && (t[0] == '+' || t[0] == '-') then t[1..] else t;
    assert s[i] in u;
    UnsignedRejects(u, s[i]);
  }

  lemma {:induction false} StripKeeps(s: string, i: nat)
    requires i < |s| && !IsSpace(s[i])
    ensures s[i] in Strip(s)
  {
    var t := TrimStart(s);
    TrimStartRules(s);
    TrimEndRules(t);
    var j := i - (|s| - |t|);
    assert 0 <= j < |t| && t[j] == s[i];
    var r := TrimEnd(t);
    assert j < |r|;
    assert r[j] == s[i];
  }

  lemma {:induction false} UnsignedRejects(u: string, c: char)
    requires c in u && !IsDigit(c) && c != '.'
    ensures ParseUnsignedDecimal(u) == None
  {
    var k := IndexOf(u, '.');
    var whole := u[..k];
    var fraction := if k < |u| then u[k + 1..] else [];
    var j :| 0 <= j < |u| && u[j] == c;
    if j < k {
      assert whole[j] == c;
    } else {
      assert j > k;
      assert fraction[j - k - 1] == c;
    }
  }
}
