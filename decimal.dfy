/**
 * The conversion `str::parse::<i32>()` applied to a level index, and the
 * decimal rendering of an index used to state the parser's round trip.
 */
module Decimal {
  import opened Wrappers

  const I32_MIN: int := -0x8000_0000
  const I32_MAX: int := 0x7fff_ffff

  predicate IsDigit(c: char) {
    '0' <= c <= '9'
  }

  /** Every character of `s` is a digit (checked from the end, as `DigitsValue` reads). */
  predicate AllDigits(s: string)
    decreases |s|
  {
    s == [] || (AllDigits(s[..|s| - 1]) && IsDigit(s[|s| - 1]))
  }

  function DigitValue(c: char): (d: nat)
    requires IsDigit(c)
    ensures d < 10
  {
    c as int - '0' as int
  }

  function DigitChar(d: nat): (c: char)
    requires d < 10
    ensures IsDigit(c) && DigitValue(c) == d
  {
    ('0' as int + d) as char
  }

  /** The value of a non-empty run of decimal digits, read most significant first. */
  function DigitsValue(s: string): nat
    requires AllDigits(s)
    decreases |s|
  {
    if s == [] then 0 else 10 * DigitsValue(s[..|s| - 1]) + DigitValue(s[|s| - 1])
  }

  /**
   * An i32 in decimal: an optional '+' or '-', then at least one ASCII
   * digit and nothing else, whose value lies in the i32 range. A sign with
   * no digits, an empty string, any other character and an out-of-range
   * value are rejected.
   */
  function ParseI32(s: string): (r: Option<int>)
    ensures r.Some? ==> I32_MIN <= r.value <= I32_MAX
  {
    var negative := |s| > 0 && s[0] == '-';
    var digits := if |s| > 0 && (s[0] == '-' || s[0] == '+') then s[1..] else s;
    if digits == [] || !AllDigits(digits) then None
    else
      var magnitude: int := DigitsValue(digits);
      var v := if negative then -magnitude else magnitude;
      if I32_MIN <= v <= I32_MAX then Some(v) else None
  }

  /**
   * What `ParseI32` accepts, for every text: write it as an optional sign
   * followed by the rest `d` (a text with no sign has `sign == ""`, and `d`
   * then does not start with one). It parses exactly when `d` is a non-empty
   * run of digits whose signed value is an i32, and then to that value. So
   * the empty string, a lone sign and a doubled sign are all rejected.
   */
  lemma {:induction false} ParseI32Signed(s: string, sign: string, d: string)
    requires sign == "" || sign == "+" || sign == "-"
    requires s == sign + d
    requires sign == "" && d != [] ==> d[0] != '+' && d[0] != '-'
    ensures ParseI32(s).Some? <==>
      d != [] && AllDigits(d) &&
      I32_MIN <= (if sign == "-" then -(DigitsValue(d) as int) else DigitsValue(d)) <= I32_MAX
    ensures ParseI32(s).Some? ==>
      ParseI32(s).value == (if sign == "-" then -(DigitsValue(d) as int) else DigitsValue(d))
  {
    if sign != "" {
      assert s[0] == sign[0] && s[1..] == d;
    } else {
      assert s == d;
    }
  }

  /** Decimal digits of `n`, most significant first, without leading zeros. */
  function FormatNat(n: nat): (s: string)
    ensures |s| >= 1 && AllDigits(s) && IsDigit(s[0])
    ensures |s| > 1 ==> s[0] != '0'
  {
    (if n < 10 then [] else FormatNat(n / 10)) + [DigitChar(n % 10)]
  }

  /** Decimal text of any integer: a '-' before the digits of a negative one. */
  function FormatInt(i: int): (s: string)
    ensures |s| >= 1
    ensures (i < 0) == (s[0] == '-')
  {
    if i < 0 then "-" + FormatNat(-i) else FormatNat(i)
  }

  /** Proof step, unfolding `DigitsValue`: appending a digit shifts the value one place. */
  lemma {:induction false} DigitsValueSnoc(p: string, c: char)
    requires AllDigits(p) && IsDigit(c)
    ensures AllDigits(p + [c]) && DigitsValue(p + [c]) == 10 * DigitsValue(p) + DigitValue(c)
  {
    var s := p + [c];
    assert s[..|s| - 1] == p;
  }

  lemma {:induction false} DigitsValueOfFormat(n: nat)
    ensures DigitsValue(FormatNat(n)) == n
  {
    var prefix := if n < 10 then [] else FormatNat(n / 10);
    var last := DigitChar(n % 10);
    assert FormatNat(n) == prefix + [last];
    DigitsValueSnoc(prefix, last);
    if n >= 10 {
      DigitsValueOfFormat(n / 10);
    }
    assert DigitsValue(prefix) == n / 10;
    assert n == 10 * (n / 10) + n % 10;
  }

  /** A run of digits, with a '-' before it or nothing, parses to its value with that sign. */
  lemma {:induction false} ParseSignedDigits(s: string, d: string, negative: bool)
    requires d != [] && AllDigits(d) && IsDigit(d[0])
    requires s == (if negative then "-" else "") + d
    requires I32_MIN <= (if negative then -(DigitsValue(d) as int) else DigitsValue(d)) <= I32_MAX
    ensures ParseI32(s) == Some(if negative then -(DigitsValue(d) as int) else DigitsValue(d))
  {
    if negative {
      assert s[0] == '-' && s[1..] == d;
    } else {
      assert s == d && s[0] != '-' && s[0] != '+';
    }
  }

  /** Every i32 survives being written in decimal and parsed back. */
  lemma {:induction false} ParseFormatInt(i: int)
    requires I32_MIN <= i <= I32_MAX
    ensures ParseI32(FormatInt(i)) == Some(i)
  {
    var magnitude := if i < 0 then -i else i;
    DigitsValueOfFormat(magnitude);
    ParseSignedDigits(FormatInt(i), FormatNat(magnitude), i < 0);
  }
}
