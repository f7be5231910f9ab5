/**
 * Positional numerals of natural numbers in bases 2 to 36 with the digits
 * `0-9a-z`, as Python's `str(n)` and JavaScript's `n.toString(b)` write them.
 */
module Numerals {

  predicate IsBaseDigit(c: char, base: nat)
  {
    ('0' <= c <= '9' && (c as int - '0' as int) < base)
    || ('a' <= c <= 'z' && (c as int - 'a' as int) + 10 < base)
  }

  function DigitChar(d: nat, base: nat): (c: char)
    requires 2 <= base <= 36 && d < base
    ensures IsBaseDigit(c, base)
  {
    if d < 10 then ('0' as int + d) as char else ('a' as int + d - 10) as char
  }

  /** The value of one digit character. */
  function DigitValue(c: char): int
  {
    if '0' <= c <= '9' then c as int - '0' as int else c as int - 'a' as int + 10
  }

  /** The numeral of `n` in base `base`, without sign or leading zeros. */
  function ToBase(n: nat, base: nat): (s: string)
    requires 2 <= base <= 36
    ensures s != [] && forall i :: 0 <= i < |s| ==> IsBaseDigit(s[i], base)
    ensures s[0] == '0' <==> n == 0
    ensures n == 0 ==> s == "0"
  {
    if n < base then [DigitChar(n, base)]
    else
      QuotientPositive(n, base);
      ToBase(n / base, base) + [DigitChar(n % base, base)]
  }

  /** Dividing a number of two digits or more leaves a smaller positive number. */
  lemma QuotientPositive(n: nat, base: nat)
    requires 2 <= base <= n
    ensures 1 <= n / base < n
  {
    var q := n / base;
    DivMod(n, base);
    AtLeastDouble(base, q);
  }

  lemma {:induction false} AtLeastDouble(base: nat, q: nat)
    requires base >= 2
    ensures base * q >= 2 * q
  {
    if q > 0 {
      AtLeastDouble(base, q - 1);
      assert base * q == base * (q - 1) + base;
    }
  }

  /** The value of a numeral. */
  function FromBase(s: string, base: nat): int
  {
    if s == [] then 0 else base * FromBase(s[..|s| - 1], base) + DigitValue(s[|s| - 1])
  }

  lemma DivMod(n: nat, base: nat)
    requires base >= 2
    ensures n == base * (n / base) + n % base
  {
  }

  /** One digit more: the numeral of `n` is that of `n / base` followed by the
      digit of `n % base`. */
  lemma ToBaseStep(n: nat, base: nat)
    requires 2 <= base <= 36 && n >= base
    ensures FromBase(ToBase(n, base), base) == base * FromBase(ToBase(n / base, base), base) + n % base
  {
    var s := ToBase(n, base);
    assert s[..|s| - 1] == ToBase(n / base, base);
    assert DigitValue(s[|s| - 1]) == n % base;
  }

  lemma OneDigit(n: nat, base: nat)
    requires 2 <= base <= 36 && n < base
    ensures FromBase(ToBase(n, base), base) == n
  {
    assert ToBase(n, base) == [DigitChar(n, base)];
    assert DigitValue(DigitChar(n, base)) == n;
    assert FromBase([DigitChar(n, base)], base) == base * FromBase([], base) + n;
  }

  /** Reading the numeral back gives the number. */
  lemma {:induction false} FromToBase(n: nat, base: nat)
    requires 2 <= base <= 36
    ensures FromBase(ToBase(n, base), base) == n
  {
    if n >= base {
      FromToBase(n / base, base);
      ToBaseStep(n, base);
      DivMod(n, base);
    } else {
      OneDigit(n, base);
    }
  }
}
