/**
 * Python's `int(text)` in base 10, for the decimal numerals the mode prompt
 * and the filename tag accept: an optional sign, then ASCII digits, with
 * single underscores allowed between two digits.
 */
module Numerals {
  import opened Wrappers

  predicate IsDigit(c: char)
  {
    '0' <= c <= '9'
  }

  function DigitValue(c: char): nat
    requires IsDigit(c)
  {
    c as int - '0' as int
  }

  /** `s` is a run of digits with single underscores between digits. */
  predicate WellFormedDigits(s: string)
  {
    && |s| > 0
    && IsDigit(s[0])
    && IsDigit(s[|s| - 1])
    && (forall i :: 0 <= i < |s| ==> IsDigit(s[i]) || s[i] == '_')
    && (forall i :: 0 <= i < |s| - 1 ==> s[i] == '_' ==> s[i + 1] != '_')
  }

  /** The value of the digits of `s`, underscores skipped. */
  function DigitsValue(s: string): nat
    requires forall i :: 0 <= i < |s| ==> IsDigit(s[i]) || s[i] == '_'
  {
    if s == [] then 0
    else if s[|s| - 1] == '_' then DigitsValue(s[..|s| - 1])
    else 10 * DigitsValue(s[..|s| - 1]) + DigitValue(s[|s| - 1])
  }

  /**
   * The most digits `int` converts from a decimal string: Python's default
   * `sys.int_info.default_max_str_digits`.
   */
  const MaxStrDigits := 4300

  /** The number of digits in `s`, underscores not counted. */
  function DigitCount(s: string): nat
  {
    if s == [] then 0
    else DigitCount(s[..|s| - 1]) + (if s[|s| - 1] == '_' then 0 else 1)
  }

  /** Digits that `int` converts: well formed and within the digit limit. */
  predicate Convertible(body: string)
  {
    WellFormedDigits(body) && DigitCount(body) <= MaxStrDigits
  }

  /**
   * `int(s)`: `None` stands for the `ValueError` Python raises, both for a
   * malformed numeral and for one longer than `MaxStrDigits` digits.
   */
  function ParseInt(s: string): Option<int>
  {
    if s != [] && (s[0] == '+' || s[0] == '-') then
      var body := s[1..];
      if Convertible(body) then
        Some(if s[0] == '-' then -(DigitsValue(body) as int) else DigitsValue(body))
      else None
    else if Convertible(s) then Some(DigitsValue(s))
    else None
  }

  /** A numeral `int` accepts holds no whitespace and is not empty. */
  lemma ParseIntShape(s: string)
    requires ParseInt(s).Some?
    ensures |s| > 0
    ensures forall i :: 0 <= i < |s| ==> IsDigit(s[i]) || s[i] in "_+-"
  {
    if s[0] == '+' || s[0] == '-' {
      assert forall i :: 1 <= i < |s| ==> s[i] == s[1..][i - 1];
    }
  }

  /** The usual decimal spelling of a natural number, no sign, no underscore. */
  function DecimalString(n: nat): (s: string)
    ensures |s| > 0
    ensures forall i :: 0 <= i < |s| ==> IsDigit(s[i])
  {
    if n < 10 then ['0' + n as char]
    else DecimalString(n / 10) + ['0' + (n % 10) as char]
  }

  /** Reading back the decimal spelling of `n` gives `n`. */
  lemma {:induction false} DigitsValueOfDecimal(n: nat)
    ensures DigitsValue(DecimalString(n)) == n
  {
    var s := DecimalString(n);
    if n >= 10 {
      DigitsValueOfDecimal(n / 10);
      assert s[..|s| - 1] == DecimalString(n / 10);
    }
  }

  /** In a string of digits alone, every character counts towards the limit. */
  lemma {:induction false} DigitCountOfDigits(s: string)
    requires forall i :: 0 <= i < |s| ==> IsDigit(s[i])
    ensures DigitCount(s) == |s|
  {
    if s != [] {
      DigitCountOfDigits(s[..|s| - 1]);
    }
  }

  /**
   * `int(str(n)) == n` for every integer `n` whose spelling has at most
   * `MaxStrDigits` digits, negative ones included; a longer spelling is
   * refused.
   */
  lemma ParseIntRoundTrip(n: int)
    ensures n >= 0 ==>
      ParseInt(DecimalString(n)) == (if |DecimalString(n)| <= MaxStrDigits then Some(n) else None)
    ensures n < 0 ==>
      ParseInt("-" + DecimalString(-n)) == (if |DecimalString(-n)| <= MaxStrDigits then Some(n) else None)
  {
    if n >= 0 {
      DigitsValueOfDecimal(n);
      DigitCountOfDigits(DecimalString(n));
    } else {
      var s := "-" + DecimalString(-n);
      assert s[1..] == DecimalString(-n);
      DigitsValueOfDecimal(-n);
      DigitCountOfDigits(DecimalString(-n));
    }
  }

  /** A sign alone, or a leading or doubled underscore, is refused. */
  lemma ParseIntRejects(d: string)
    requires WellFormedDigits(d)
    ensures ParseInt("+") == None && ParseInt("-") == None
    ensures ParseInt("_" + d) == None && ParseInt(d + "_") == None
    ensures ParseInt("") == None
  {
    assert ("_" + d)[0] == '_';
    assert (d + "_")[|d|] == '_';
  }
}
