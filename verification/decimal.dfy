/**
 * Decimal text of a Java `int`: `Integer.toString` (used by `String.valueOf`
 * and by `StringBuilder.append`) and `Integer.parseInt` / `Integer.valueOf`
 * in radix 10.
 */
module Decimal {
  import opened Wrappers
  import opened Records

  predicate IsDigit(c: char) { '0' <= c <= '9' }

  predicate AllDigits(s: string) { forall i :: 0 <= i < |s| ==> IsDigit(s[i]) }

  function DigitChar(d: nat): (c: char)
    requires d < 10
    ensures IsDigit(c) && c as int - '0' as int == d
  {
    ['0', '1', '2', '3', '4', '5', '6', '7', '8', '9'][d]
  }

  /** The value of a run of decimal digits, most significant first. */
  function DigitsValue(s: string): nat
    requires AllDigits(s)
    decreases |s|
  {
    if |s| == 0 then 0
    else DigitsValue(s[..|s| - 1]) * 10 + (s[|s| - 1] as int - '0' as int)
  }

  /** The shortest decimal digits of `n`. */
  function Digits(n: nat): (s: string)
    ensures |s| > 0 && AllDigits(s)
    decreases n
  {
    if n < 10 then [DigitChar(n)] else Digits(n / 10) + [DigitChar(n % 10)]
  }

  /** `Integer.toString(n)`: a minus sign for negatives, then the digits of the magnitude. */
  function ToDecimal(n: int): (s: string)
    ensures |s| > 0
    ensures ',' !in s
    ensures n >= 0 <==> AllDigits(s)
  {
    if n < 0 then
      var s := "-" + Digits(-n);
      assert !IsDigit(s[0]);
      s
    else Digits(n)
  }

  predicate HasSign(s: string)
  {
    |s| > 0 && (s[0] == '-' || s[0] == '+')
  }

  /** The text after an optional leading sign. */
  function Unsigned(s: string): string
  {
    if HasSign(s) then s[1..] else s
  }

  /** Text `Integer.parseInt` reads as a number, ignoring the range: an optional sign, then one digit or more. */
  predicate NumberShaped(s: string)
  {
    |Unsigned(s)| > 0 && AllDigits(Unsigned(s))
  }

  /** The number such text denotes. */
  function SignedValue(s: string): int
    requires NumberShaped(s)
  {
    if |s| > 0 && s[0] == '-' then 0 - DigitsValue(Unsigned(s)) else DigitsValue(Unsigned(s))
  }

  /**
   * `Integer.parseInt(s)`: an optional `-` or `+`, then at least one digit,
   * and the value must fit a Java `int`; anything else is a
   * `NumberFormatException`, here `None`.
   */
  function ParseInt(s: string): (r: Option<Int32>)
    ensures r.Some? <==> NumberShaped(s) && MinInt32 <= SignedValue(s) <= MaxInt32
    ensures r.Some? ==> r.value == SignedValue(s)
    ensures r.Some? ==> |s| > 0
    ensures r.Some? && AllDigits(s) ==> r.value == DigitsValue(s)
    ensures r.Some? && s[0] == '-' ==> r.value <= 0
  {
    if |s| == 0 then None
    else if s[0] == '-' || s[0] == '+' then
      if |s| == 1 || !AllDigits(s[1..]) then None
      else
        var magnitude := DigitsValue(s[1..]);
        var v: int := if s[0] == '-' then 0 - magnitude else magnitude;
        if MinInt32 <= v <= MaxInt32 then Some(v) else None
    else if !AllDigits(s) then None
    else
      var v := DigitsValue(s);
      if v <= MaxInt32 then Some(v) else None
  }

  lemma {:induction false} DigitsValueOfDigits(n: nat)
    ensures DigitsValue(Digits(n)) == n
    decreases n
  {
    if n >= 10 {
      var s := Digits(n);
      assert s[..|s| - 1] == Digits(n / 10);
      DigitsValueOfDigits(n / 10);
    }
  }

  /** Parsing what `Integer.toString` prints gives the number back. */
  lemma ParseToDecimal(n: Int32)
    ensures ParseInt(ToDecimal(n)) == Some(n)
  {
    var s := ToDecimal(n);
    if n < 0 {
      var d := Digits(0 - n as int);
      assert s == "-" + d;
      assert Unsigned(s) == d by {
        assert s[1..] == d;
      }
      DigitsValueOfDigits(0 - n as int);
      assert NumberShaped(s) && SignedValue(s) == n;
    } else {
      DigitsValueOfDigits(n as int);
      assert !HasSign(s) by {
        assert IsDigit(s[0]);
      }
      assert NumberShaped(s) && SignedValue(s) == n;
    }
  }
}
