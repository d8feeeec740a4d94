/** `strconv.FormatInt` and `strconv.Itoa` in base ten. */
module Decimal {
  const DIGITS := "0123456789"

  function Digits(n: nat): (r: string)
    ensures r != []
  {
    if n < 10 then [DIGITS[n]] else Digits(n / 10) + [DIGITS[n % 10]]
  }

  function FormatInt(n: int): (r: string)
    ensures r != []
  {
    if n < 0 then ['-'] + Digits(-n) else Digits(n)
  }

  predicate Digit(c: char) {
    '0' <= c <= '9'
  }

  function Value(s: string): int {
    if s == [] then 0 else 10 * Value(s[..|s| - 1]) + (s[|s| - 1] as int - '0' as int)
  }

  lemma {:induction false} ValueOfDigits(n: nat)
    ensures Value(Digits(n)) == n
    ensures forall c :: c in Digits(n) ==> Digit(c)
  {
    if n >= 10 {
      ValueOfDigits(n / 10);
      assert (Digits(n / 10) + [DIGITS[n % 10]])[..|Digits(n / 10)|] == Digits(n / 10);
    } else {
      assert [DIGITS[n]][..0] == [];
    }
  }

  /** Different integers are written differently. */
  lemma FormatIntInjective(a: int, b: int)
    requires FormatInt(a) == FormatInt(b)
    ensures a == b
  {
    var x, y := if a < 0 then -a else a, if b < 0 then -b else b;
    ValueOfDigits(x);
    ValueOfDigits(y);
    assert Digits(x)[0] in Digits(x) && Digits(y)[0] in Digits(y);
    assert a < 0 ==> FormatInt(a)[1..] == Digits(x) && FormatInt(a)[0] == '-';
    assert b < 0 ==> FormatInt(b)[1..] == Digits(y) && FormatInt(b)[0] == '-';
  }

  lemma FormatIntDiffers(a: int, b: int)
    requires a != b
    ensures FormatInt(a) != FormatInt(b)
  {
    if FormatInt(a) == FormatInt(b) {
      FormatIntInjective(a, b);
    }
  }

  lemma FormatIntCharacters(n: int)
    ensures forall c :: c in FormatInt(n) ==> Digit(c) || c == '-'
  {
    ValueOfDigits(if n < 0 then -n else n);
  }

  /** An integer is written in digits that mean it, with a minus sign before them if it is negative, and
      without leading zeros. */
  lemma FormatIntMeans(n: int)
    ensures n >= 0 ==> Value(FormatInt(n)) == n && forall c :: c in FormatInt(n) ==> Digit(c)
    ensures n < 0 ==> FormatInt(n)[0] == '-' && Value(FormatInt(n)[1..]) == -n
                      && forall c :: c in FormatInt(n)[1..] ==> Digit(c)
    ensures n > 0 ==> FormatInt(n)[0] != '0'
    ensures n < 0 ==> |FormatInt(n)| > 1 && FormatInt(n)[1] != '0'
    ensures FormatInt(0) == "0"
  {
    var d := if n < 0 then -n else n;
    ValueOfDigits(d);
    if d > 0 {
      NoLeadingZero(d);
    }
    assert n < 0 ==> FormatInt(n)[1..] == Digits(d);
  }

  lemma {:induction false} NoLeadingZero(n: nat)
    requires n > 0
    ensures Digits(n)[0] != '0'
  {
    if n >= 10 {
      NoLeadingZero(n / 10);
    }
  }
}
