/**
 * The checker's own size limits (backend/ai_answer_quality.py, _bounded_exact and _bounded): the bits
 * of a rational in lowest terms, and the decimal exponent of its value rounded to 512 digits.
 */
module EquationLimits {
  import opened Expressions
  import opened Numerals

  const MAX_RATIONAL_BITS := 4096
  const MAX_MAGNITUDE := 128
  const PRECISION := 512

  function Pow2(n: nat): (p: nat)
    ensures p >= 1
  {
    if n == 0 then 1 else 2 * Pow2(n - 1)
  }

  predicate IsQuotient(x: real, n: int, d: int) {
    d > 0 && x * d as real == n as real
  }

  /** Both parts of some quotient that equals `x` have at most 4096 bits. */
  ghost predicate RationalFits(x: real) {
    exists n: int, d: int :: IsQuotient(x, n, d) && HasBits(n, d, MAX_RATIONAL_BITS)
  }

  predicate HasBits(n: int, d: int, bits: nat) {
    Size(n) < Pow2(bits) && Size(d) < Pow2(bits)
  }

  /** The quotient in lowest terms is the one with the smallest denominator. */
  ghost predicate LowestTerms(x: real, n: int, d: int) {
    IsQuotient(x, n, d) && forall m: int, e: int :: IsQuotient(x, m, e) ==> d <= e
  }

  /** How many binary digits a number has; none for zero. */
  function BitLength(n: nat): nat {
    if n == 0 then 0 else BitLength(n / 2) + 1
  }

  lemma {:induction false} BitLengthBound(n: nat, bits: nat)
    ensures BitLength(n) <= bits <==> n < Pow2(bits)
  {
    if n > 0 && bits > 0 {
      BitLengthBound(n / 2, bits - 1);
    }
  }

  /** So the bits of the lowest terms decide. */
  lemma {:induction false} LowestTermsDecide(x: real, n: int, d: int)
    requires LowestTerms(x, n, d)
    ensures RationalFits(x) <==> BitLength(Size(n)) <= 4096 && BitLength(Size(d)) <= 4096
  {
    BitLengthBound(Size(n), 4096);
    BitLengthBound(Size(d), 4096);
    hide BitLength, Pow2;
    if RationalFits(x) {
      var m: int, e: int :| IsQuotient(x, m, e) && HasBits(m, e, MAX_RATIONAL_BITS);
      SmallerQuotient(x, n, d, m, e);
    }
  }

  lemma SmallerQuotient(x: real, n: int, d: int, m: int, e: int)
    requires IsQuotient(x, n, d) && IsQuotient(x, m, e) && d <= e
    ensures Size(n) <= Size(m)
  {
    QuotientSize(x, n, d);
    QuotientSize(x, m, e);
    Ordered(d as real, e as real, Abs(x));
  }

  lemma QuotientSize(x: real, n: int, d: int)
    requires IsQuotient(x, n, d)
    ensures Abs(x) * d as real == Size(n) as real && (x != 0.0 ==> n != 0)
  {
    SizeOfMultiple(x, d as real);
  }

  /** Half a unit in the last of 512 digits, for numbers from 10^exponent on. */
  function HalfUnit(places: nat): real {
    0.5 / Pow10(places) as real
  }

  /**
   * The value, rounded to 512 digits with halves to the even neighbour, is zero or has a decimal
   * exponent from -128 to 128. Rounding lifts what is just below a power of ten up to it: the number
   * 10^129 is reached from half a unit of 10^(128-511) below it, and 10^-128 from half of 10^(-129-511).
   */
  predicate MagnitudeFits(x: real) {
    x == 0.0 || LeastMagnitude() <= Abs(x) < PastMagnitude()
  }

  function LeastMagnitude(): real {
    1.0 / Pow10(MAX_MAGNITUDE) as real - HalfUnit(MAX_MAGNITUDE + PRECISION)
  }

  function PastMagnitude(): real {
    Pow10(MAX_MAGNITUDE + 1) as real - HalfUnit(PRECISION - 1 - MAX_MAGNITUDE)
  }

  ghost const REPORT_LIMITS := Limits((x: real) => RationalFits(x), (x: real) => MagnitudeFits(x))

  // ---------------------------------------------------------------- rounding to 512 digits

  /** Powers of ten with any exponent. */
  function Power(k: int): (p: real)
    ensures p > 0.0
  {
    if k >= 0 then Pow10(k) as real else 1.0 / Pow10(-k) as real
  }

  lemma {:induction false} PowerMonotone(j: int, k: int)
    requires j <= k
    ensures Power(j) <= Power(k)
  {
    if 0 <= j {
      Pow10Monotone(j, k);
    } else if k < 0 {
      Pow10Monotone(-k, -j);
      InverseShrinks(Pow10(-k) as real, Pow10(-j) as real);
    } else {
      InverseShrinks(1.0, Pow10(-j) as real);
      assert Power(j) <= 1.0;
    }
  }

  /** The decimal exponent of `a` rounded to 512 digits, when `a` itself has the exponent `k`. */
  function RoundedExponent(a: real, k: int): int {
    if RoundHalfEven(a / Power(k - 511)) >= Pow10(512) then k + 1 else k
  }

  lemma RoundsUp(a: real, unit: real, top: int)
    requires unit > 0.0 && top % 2 == 0
    ensures RoundHalfEven(a / unit) >= top <==> a >= top as real * unit - 0.5 * unit
  {
    RoundReachesEven(a / unit, top);
    var q := a / unit;
    assert q * unit == a;
    if q >= top as real - 0.5 {
      Ordered(top as real - 0.5, q, unit);
    } else {
      StrictlyOrdered(q, top as real - 0.5, unit);
    }
  }

  lemma PowerIs(k: nat)
    ensures Power(k) == Pow10(k) as real && Power(0 - k) == 1.0 / Pow10(k) as real
  {
    assert Pow10(0) == 1;
  }

  lemma {:induction false} NextPower(k: nat)
    ensures Pow10(k + 1) == 10 * Pow10(k)
  {
  }

  lemma {:induction false} EvenPower(k: nat)
    requires k > 0
    ensures Pow10(k) % 2 == 0
  {
    hide Pow10;
    NextPower(k - 1);
    TenTimesIsEven(Pow10(k - 1));
  }

  lemma TenTimesIsEven(n: nat)
    ensures (10 * n) % 2 == 0
  {
  }

  lemma SplitPower(a: nat, b: nat)
    ensures Pow10(a + b) as real == Pow10(a) as real * Pow10(b) as real
  {
    Pow10Add(a, b);
    hide Pow10;
  }

  lemma SmallestRoundsUp(a: real)
    ensures RoundedExponent(a, -129) == if LeastMagnitude() <= a then -128 else -129
  {
    hide Pow10, Power, RoundHalfEven;
    PowerIs(640);
    EvenPower(512);
    SplitPower(512, 128);
    RoundsUp(a, Power(-640), Pow10(512));
    Reduced(Pow10(512) as real, Pow10(128) as real, Pow10(640) as real);
    Halved(Pow10(640) as real);
  }

  lemma LargestRoundsUp(a: real)
    ensures RoundedExponent(a, 128) == if PastMagnitude() <= a then 129 else 128
  {
    hide Pow10, Power, RoundHalfEven;
    PowerIs(383);
    EvenPower(512);
    SplitPower(383, 129);
    RoundsUp(a, Power(-383), Pow10(512));
    Reduced2(Pow10(383) as real, Pow10(129) as real, Pow10(512) as real);
    Halved(Pow10(383) as real);
  }

  lemma Halved(p: real)
    requires p > 0.0
    ensures 0.5 * (1.0 / p) == 0.5 / p
  {
  }

  lemma Reduced(a: real, b: real, ab: real)
    requires a > 0.0 && b > 0.0 && ab == a * b
    ensures a * (1.0 / ab) == 1.0 / b
  {
    Inverse(b);
    var x := a * (1.0 / ab);
    assert x * b == 1.0 by {
      Inverse(ab);
      assert x * b == (1.0 / ab) * (a * b);
    }
    assert (x - 1.0 / b) * b == 0.0;
  }

  lemma Reduced2(a: real, b: real, ab: real)
    requires a > 0.0 && b > 0.0 && ab == a * b
    ensures ab * (1.0 / a) == b
  {
    Inverse(a);
    assert ab * (1.0 / a) == b * (a * (1.0 / a));
  }

  /** The magnitude check is about the exponent of the value rounded to 512 digits: from -128 to 128. */
  lemma {:induction false} MagnitudeIsRoundedExponent(x: real, k: int)
    requires Power(k) <= Abs(x) < Power(k + 1)
    ensures MagnitudeFits(x) <==> -128 <= RoundedExponent(Abs(x), k) <= 128
  {
    hide Pow10, Power, RoundHalfEven, LeastMagnitude, PastMagnitude, RoundedExponent;
    var a := Abs(x);
    BelowLeast();
    RoundsByOne(a, k);
    SmallestRoundsUp(a);
    LargestRoundsUp(a);
    if k <= -130 {
      PowerMonotone(k + 1, -129);
    } else if k >= 129 {
      PowerMonotone(129, k);
    } else {
      if k >= -128 {
        PowerMonotone(-128, k);
      }
      if k <= 127 {
        PowerMonotone(k + 1, 128);
      }
    }
  }

  lemma RoundsByOne(a: real, k: int)
    ensures k <= RoundedExponent(a, k) <= k + 1
  {
  }

  lemma BelowLeast()
    ensures 0.0 < Power(-129) <= LeastMagnitude() <= Power(-128) && Power(128) <= PastMagnitude() <= Power(129)
  {
    hide Pow10, Power;
    Pow10Monotone(129, 640);
    NextPower(128);
    PowerIs(128);
    PowerIs(129);
    HalfUnitIsSmall(383);
    Between(Pow10(128) as real, Pow10(129) as real, Pow10(640) as real);
  }

  lemma Between(p: real, q: real, r: real)
    requires p >= 1.0 && q == 10.0 * p && q <= r
    ensures 0.0 < 1.0 / q <= 1.0 / p - 0.5 / r <= 1.0 / p
  {
    InverseShrinks(q, r);
    Halved(r);
    Inverse(r);
    Inverse(p);
    Inverse(q);
    assert (10.0 * (1.0 / q) - 1.0 / p) * p == 0.0;
  }

  // ---------------------------------------------------------------- what these limits let through

  lemma {:induction false} Pow10BelowPow2(p: nat, bits: nat)
    requires 4 * p < bits
    ensures Pow10(p) < Pow2(bits)
    decreases p, bits
  {
    if p == 0 {
      assert Pow2(bits) == 2 * Pow2(bits - 1);
    } else {
      Pow10BelowPow2(p - 1, bits - 4);
      FourDoublings(bits - 4);
    }
  }

  lemma {:induction false} FourDoublings(n: nat)
    ensures Pow2(n + 4) == 16 * Pow2(n)
  {
    assert Pow2(n + 4) == 2 * Pow2(n + 3);
    assert Pow2(n + 3) == 2 * Pow2(n + 2);
    assert Pow2(n + 2) == 2 * Pow2(n + 1);
  }

  lemma {:induction false} BoundedQuotientFits(x: real, n: int, d: int, p: nat, bits: nat)
    requires IsQuotient(x, n, d) && Size(n) <= Pow10(p) && d <= Pow10(p) && 4 * p < bits
    ensures HasBits(n, d, bits)
  {
    Pow10BelowPow2(p, bits);
  }

  lemma {:induction false} QuotientMagnitude(x: real, n: int, d: int, p: nat)
    requires IsQuotient(x, n, d) && Size(n) <= Pow10(p) && d <= Pow10(p)
    ensures Abs(x) <= Pow10(p) as real
    ensures x != 0.0 ==> Abs(x) >= 1.0 / Pow10(p) as real
  {
    var a, m, e, most := Abs(x), Size(n) as real, d as real, Pow10(p) as real;
    QuotientSize(x, n, d);
    hide *;
    AtMost(a, e, m);
    if x != 0.0 {
      AtLeast(a, e, m, most);
    }
  }

  lemma SizeOfMultiple(x: real, e: real)
    requires e > 0.0
    ensures Abs(x) * e == Abs(x * e) && (x != 0.0 ==> x * e != 0.0)
  {
    Inverse(e);
    assert x * e * (1.0 / e) == x * (e * (1.0 / e));
    if x < 0.0 {
      assert (-x) * e == -(x * e);
      StrictlyOrdered(x, 0.0, e);
    } else {
      Ordered(0.0, x, e);
    }
  }

  lemma AtMost(a: real, e: real, m: real)
    requires a >= 0.0 && e >= 1.0 && a * e == m
    ensures a <= m
  {
    Ordered(1.0, e, a);
  }

  lemma AtLeast(a: real, e: real, m: real, most: real)
    requires a > 0.0 && 1.0 <= e <= most && a * e == m && m >= 1.0
    ensures a >= 1.0 / most
  {
    Ordered(e, most, a);
    Inverse(most);
    if a < 1.0 / most {
      StrictlyOrdered(a, 1.0 / most, most);
      assert false;
    }
  }

  lemma Ordered(a: real, b: real, p: real)
    requires a <= b && p >= 0.0
    ensures p * a <= p * b && a * p <= b * p
  {
  }

  lemma StrictlyOrdered(a: real, b: real, p: real)
    requires a < b && p > 0.0
    ensures a * p < b * p
  {
  }

  lemma Inverse(p: real)
    requires p > 0.0
    ensures 1.0 / p > 0.0 && (1.0 / p) * p == 1.0
  {
  }

  lemma HalfUnitIsSmall(places: nat)
    ensures 0.0 < HalfUnit(places) <= 0.5
  {
    var p := Pow10(places) as real;
    assert (0.5 / p) * p == 0.5;
  }

  lemma InverseShrinks(p: real, q: real)
    requires 1.0 <= p <= q
    ensures 1.0 / q <= 1.0 / p
  {
    Inverse(p);
    Inverse(q);
    AtLeast(1.0 / p, p, 1.0, q);
  }

  lemma {:induction false} MagnitudesFit(a: real, p: nat, last: nat, below: nat, above: nat)
    requires p <= last && 1.0 / Pow10(p) as real <= a <= Pow10(p) as real
    ensures 1.0 / Pow10(last) as real - HalfUnit(below) <= a < Pow10(last + 1) as real - HalfUnit(above)
  {
    Pow10Monotone(p, last);
    InverseShrinks(Pow10(p) as real, Pow10(last) as real);
    HalfUnitIsSmall(below);
    HalfUnitIsSmall(above);
    assert Pow10(last + 1) == 10 * Pow10(last);
  }

  /** Every quotient of integers up to 10^128 passes both checks. */
  lemma {:induction false} QuotientsPass(x: real, n: int, d: int, p: nat)
    requires IsQuotient(x, n, d) && Size(n) <= Pow10(p) && d <= Pow10(p) && p <= MAX_MAGNITUDE
    ensures REPORT_LIMITS.Check(x).Success?
  {
    BoundedQuotientFits(x, n, d, p, MAX_RATIONAL_BITS);
    QuotientMagnitudeFits(x, n, d, p);
  }

  lemma {:induction false} QuotientMagnitudeFits(x: real, n: int, d: int, p: nat)
    requires IsQuotient(x, n, d) && Size(n) <= Pow10(p) && d <= Pow10(p) && p <= MAX_MAGNITUDE
    ensures MagnitudeFits(x)
  {
    hide Pow10, HalfUnit;
    QuotientMagnitude(x, n, d, p);
    if x != 0.0 {
      MagnitudesFit(Abs(x), p, MAX_MAGNITUDE, MAX_MAGNITUDE + PRECISION, PRECISION - 1 - MAX_MAGNITUDE);
    }
  }
}
