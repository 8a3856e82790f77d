/** Decimal numerals, as `str(n)` and `int(s)` write and read them. */
module Numerals {
  function Digit(d: nat): (c: char)
    requires d < 10
    ensures '0' <= c <= '9'
  {
    '0' + d as char
  }

  predicate IsDigit(c: char) { '0' <= c <= '9' }

  predicate AllDigits(s: string) { forall i | 0 <= i < |s| :: IsDigit(s[i]) }

  function DigitValue(c: char): (d: nat)
    requires IsDigit(c)
    ensures d < 10
  {
    c as int - '0' as int
  }

  function Numeral(n: nat): (s: string)
    ensures |s| > 0 && AllDigits(s)
    ensures s[0] == '0' ==> n == 0 && s == "0"
  {
    if n < 10 then [Digit(n)] else Numeral(n / 10) + [Digit(n % 10)]
  }

  /** The number a run of digits denotes; the empty run denotes zero. */
  function DigitsValue(s: string): nat
    requires AllDigits(s)
  {
    if |s| == 0 then 0
    else 10 * DigitsValue(s[..|s| - 1]) + DigitValue(s[|s| - 1])
  }

  lemma {:induction false} NumeralDenotes(n: nat)
    ensures DigitsValue(Numeral(n)) == n
  {
    var s := Numeral(n);
    if n < 10 {
      assert s[..0] == "";
    } else {
      NumeralDenotes(n / 10);
      assert s[..|s| - 1] == Numeral(n / 10);
    }
  }

  lemma NumeralInjective(m: nat, n: nat)
    requires Numeral(m) == Numeral(n)
    ensures m == n
  {
    NumeralDenotes(m);
    NumeralDenotes(n);
  }

  /** `f"{n:0{width}d}"`. */
  function Padded(n: nat, width: nat): string {
    Zeros(width - |Numeral(n)|) + Numeral(n)
  }

  function Zeros(k: int): (s: string)
    ensures AllDigits(s)
  {
    if k <= 0 then "" else "0" + Zeros(k - 1)
  }

  lemma {:induction false} ZerosDenoteNothing(k: int, s: string)
    requires AllDigits(s)
    ensures AllDigits(Zeros(k) + s) && DigitsValue(Zeros(k) + s) == DigitsValue(s)
  {
    var z := Zeros(k) + s;
    if |s| == 0 {
      assert z == Zeros(k);
      ZerosAreZero(k);
    } else {
      assert z[|z| - 1] == s[|s| - 1];
      assert z[..|z| - 1] == Zeros(k) + s[..|s| - 1];
      ZerosDenoteNothing(k, s[..|s| - 1]);
    }
  }

  lemma {:induction false} ZerosAreZero(k: int)
    ensures DigitsValue(Zeros(k)) == 0
  {
    if k > 0 {
      ZerosAreZero(k - 1);
      OneMoreZero(k - 1);
      var z := Zeros(k);
      assert z == Zeros(k - 1) + "0";
      assert z[..|z| - 1] == Zeros(k - 1);
    }
  }

  lemma {:induction false} OneMoreZero(k: int)
    requires k >= 0
    ensures Zeros(k) + "0" == "0" + Zeros(k)
  {
    if k > 0 {
      OneMoreZero(k - 1);
      assert ("0" + Zeros(k - 1)) + "0" == "0" + (Zeros(k - 1) + "0");
    }
  }

  lemma PaddedInjective(m: nat, n: nat, width: nat)
    requires Padded(m, width) == Padded(n, width)
    ensures m == n
  {
    ZerosDenoteNothing(width - |Numeral(m)|, Numeral(m));
    ZerosDenoteNothing(width - |Numeral(n)|, Numeral(n));
    NumeralDenotes(m);
    NumeralDenotes(n);
  }
}
