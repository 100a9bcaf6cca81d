/** Decimal numerals as they are written in a report: digits, and optionally a fraction. */
module Numerals {

  predicate IsDigit(c: char) {
    '0' <= c <= '9'
  }

  predicate AllDigits(s: string) {
    forall i :: 0 <= i < |s| ==> IsDigit(s[i])
  }

  function DigitValue(c: char): (d: nat)
    requires IsDigit(c)
    ensures d < 10
  {
    (c as int) - ('0' as int)
  }

  function Pow10(n: nat): (p: nat)
    ensures p >= 1
  {
    if n == 0 then 1 else 10 * Pow10(n - 1)
  }

  function Size(n: int): nat {
    if n < 0 then -n else n
  }

  function Abs(x: real): real {
    if x < 0.0 then -x else x
  }

  /** Rounding to a whole number, halves to the even neighbour. */
  function RoundHalfEven(x: real): int {
    var below := x.Floor;
    var over := x - below as real;
    if over < 0.5 || (over == 0.5 && below % 2 == 0) then below else below + 1
  }

  /** Rounding reaches an even number from exactly half a unit below it. */
  lemma {:induction false} RoundReachesEven(x: real, n: int)
    requires n % 2 == 0
    ensures RoundHalfEven(x) >= n <==> x >= n as real - 0.5
  {
  }

  /** The number a digit string denotes, most significant digit first. */
  function DigitsValue(s: string): nat
    requires AllDigits(s)
  {
    if s == "" then 0 else 10 * DigitsValue(s[..|s| - 1]) + DigitValue(s[|s| - 1])
  }

  lemma {:induction false} DigitsBelowPower(s: string)
    requires AllDigits(s)
    ensures DigitsValue(s) < Pow10(|s|)
  {
    if s != "" {
      DigitsBelowPower(s[..|s| - 1]);
    }
  }

  lemma {:induction false} Pow10Monotone(m: nat, n: nat)
    requires m <= n
    ensures Pow10(m) <= Pow10(n)
  {
    if m < n {
      Pow10Monotone(m, n - 1);
    }
  }

  lemma {:induction false} Pow10Add(a: nat, b: nat)
    ensures Pow10(a + b) == Pow10(a) * Pow10(b)
  {
    if a > 0 {
      Pow10Add(a - 1, b);
      assert 10 * (Pow10(a - 1) * Pow10(b)) == (10 * Pow10(a - 1)) * Pow10(b);
    }
  }

  /** The canonical decimal text of a number. */
  function Decimal(n: nat): (s: string)
    ensures s != "" && AllDigits(s)
  {
    var digit := [('0' as int + n % 10) as char];
    if n < 10 then digit else Decimal(n / 10) + digit
  }

  lemma {:induction false} DecimalValue(n: nat)
    ensures DigitsValue(Decimal(n)) == n
  {
    var s := Decimal(n);
    if n >= 10 {
      DecimalValue(n / 10);
      assert s[..|s| - 1] == Decimal(n / 10);
    } else {
      assert s[..0] == "";
    }
  }

  lemma {:induction false} DecimalLength(n: nat, k: nat)
    requires n < Pow10(k) && k > 0
    ensures |Decimal(n)| <= k
  {
    if n >= 10 {
      assert k > 1 by {
        assert Pow10(1) == 10 * Pow10(0);
      }
      DecimalLength(n / 10, k - 1);
    }
  }

  /** A literal: `whole`, or `whole.fraction` when the fraction is not empty. */
  datatype Numeral = Numeral(whole: string, fraction: string) {

    predicate Valid() {
      AllDigits(whole) && AllDigits(fraction) && whole != ""
    }

    // What the tokenizer lets through.
    predicate WithinLimits() {
      |whole| <= 18 && |fraction| <= 12
    }

    function Text(): string {
      if fraction == "" then whole else whole + "." + fraction
    }
  }

  type Number = n: Numeral | n.Valid() witness Numeral("0", "")

  function Unscaled(n: Number): nat {
    DigitsValue(n.whole + n.fraction)
  }

  function NumberValue(n: Number): (v: real)
    ensures v >= 0.0
  {
    Unscaled(n) as real / Pow10(|n.fraction|) as real
  }
}
