/**
 * Decimal text of 32-bit integers, as Kotlin's `Int.toString()` writes it and
 * `String.toInt()` reads it back.
 */
module Decimal {
  import opened Wrappers

  const IntMin: int := -0x8000_0000
  const IntMax: int := 0x7fff_ffff

  /** A value of Kotlin's `Int`. */
  predicate IsInt(n: int)
  {
    IntMin <= n <= IntMax
  }

  predicate IsDigit(c: char)
  {
    '0' <= c <= '9'
  }

  predicate AllDigits(s: string)
  {
    forall i :: 0 <= i < |s| ==> IsDigit(s[i])
  }

  /** The value of a string of decimal digits, read from the last digit back. */
  function DigitsValue(s: string): (v: nat)
    requires AllDigits(s)
    decreases |s|
  {
    if s == [] then 0
    else DigitsValue(s[..|s| - 1]) * 10 + (s[|s| - 1] as int - '0' as int)
  }

  /**
   * `String.toInt()`: an optional '+' or '-', then at least one decimal digit, the
   * value within `Int`; anything else is a `NumberFormatException` (`None`).
   */
  function ParseInt(s: string): (r: Option<int>)
    ensures r.Some? ==> IsInt(r.value)
    ensures r.Some? ==> s != [] && AllDigits(if s[0] == '-' || s[0] == '+' then s[1..] else s)
  {
    if s == [] then None
    else
      var signed := s[0] == '-' || s[0] == '+';
      var digits := if signed then s[1..] else s;
      if digits == [] || !AllDigits(digits) then None
      else
        var d: int := DigitsValue(digits);
        var v := if s[0] == '-' then -d else d;
        if IsInt(v) then Some(v) else None
  }

  /** The decimal digits of a natural number, with no leading zero. */
  function ShowNat(n: nat): (s: string)
    ensures |s| >= 1 && AllDigits(s)
    ensures |s| > 1 ==> s[0] != '0'
  {
    if n < 10 then [('0' as int + n) as char]
    else ShowNat(n / 10) + [('0' as int + n % 10) as char]
  }

  /** `Int.toString()`: a '-' in front of a negative value. */
  function Show(n: int): (s: string)
    ensures s != [] && '.' !in s && ' ' !in s
  {
    if n < 0 then "-" + ShowNat(-n) else ShowNat(n)
  }

  /** Reading back the digits of `n` gives `n`. */
  lemma {:induction false} DigitsValueShowNat(n: nat)
    ensures DigitsValue(ShowNat(n)) == n
  {
    if n >= 10 {
      DigitsValueShowNat(n / 10);
      var s := ShowNat(n);
      assert s[..|s| - 1] == ShowNat(n / 10);
    }
  }

  /** `toInt` reads back what `toString` writes, for every `Int`. */
  lemma ParseShow(n: int)
    requires IsInt(n)
    ensures ParseInt(Show(n)) == Some(n)
  {
    var s := Show(n);
    if n < 0 {
      DigitsValueShowNat(-n);
      assert s[0] == '-' && s[1..] == ShowNat(-n);
    } else {
      DigitsValueShowNat(n);
      assert s == ShowNat(n) && IsDigit(s[0]);
    }
  }

  /** `toString` is one to one: different values have different texts. */
  lemma ShowInjective(a: int, b: int)
    requires IsInt(a) && IsInt(b) && Show(a) == Show(b)
    ensures a == b
  {
    ParseShow(a);
    ParseShow(b);
  }
}
