/**
 * When a compared text is consistent, in integers only: the exact fraction of the left side against the
 * stated digits (backend/ai_answer_quality.py, check_equation_candidate and _tolerance).
 */
module EquationRounding {
  import opened EquationFractions
  import opened EquationParser
  import opened EquationTokens
  import opened EquationVerdict
  import opened Expressions
  import opened Numerals
  import opened Options

  /** A fraction counted in the unit of the stated number: in 万, in 亿 and so on, or in hundredths. */
  function InUnitOf(f: Exact, q: Quantity): Exact
    requires f.Exact?
  {
    if q.suffix == Some(PercentSuffix) then Exact(100 * f.num, f.den) else Exact(f.num, f.den * PowerOf(q.scale))
  }

  function Hundredth(f: Exact): Exact
    requires f.Exact?
  {
    Exact(f.num, 100 * f.den)
  }

  /** `place` is the largest power of ten that divides the stated integer; for zero it is 1. */
  ghost predicate IsPlace(stated: int, place: nat) {
    && (exists k: nat :: place == Pow10(k) && (stated == 0 ==> k == 0))
    && stated % place == 0 && (stated != 0 ==> stated % (10 * place) != 0)
  }

  function Least(a: nat, b: nat): nat {
    if a < b then a else b
  }

  function Most(a: nat, b: nat): nat {
    if a < b then b else a
  }

  /**
   * How far off the stated number may be: half a unit of its last decimal, or, for an integer that is called
   * approximate, half of its place but no more than a twentieth of it, or one half if that is more.
   */
  function Margin(relation: Relation, q: Quantity, place: nat): Exact {
    if relation != Approximately || q.number.fraction != "" then Exact(1, 2 * Pow10(|q.number.fraction|))
    else Exact(Least(10 * place, Most(Size(DigitsOf(q)), 10)), 20)
  }

  /** |value - stated| <= margin, all denominators cleared. */
  predicate Within(value: Exact, q: Quantity, margin: Exact)
    requires value.Exact? && margin.Exact?
  {
    var p := Pow10(|q.number.fraction|);
    Size(value.num * p - DigitsOf(q) * value.den) * margin.den <= margin.num * (value.den * p)
  }

  // ---------------------------------------------------------------- units

  lemma UnitIs(x: real, f: Exact, q: Quantity)
    requires Is(x, f)
    ensures Is(x / q.Factor(), InUnitOf(f, q))
  {
    if q.suffix == Some(PercentSuffix) {
      assert (x / 0.01) * f.den as real == 100.0 * (x * f.den as real);
    } else {
      FactorIsPower(q);
      DividedIs(x, f, PowerOf(q.scale));
    }
  }

  lemma DividedIs(x: real, f: Exact, power: nat)
    requires Is(x, f) && power > 0
    ensures Is(x / power as real, Exact(f.num, f.den * power))
  {
    PositiveProduct(f.den, power);
    Product(f.den, power);
    var y, p := x / power as real, power as real;
    assert y * p == x;
    Regroup(y, f.den as real, p);
  }

  lemma Regroup(y: real, d: real, p: real)
    ensures y * (d * p) == (y * p) * d
  {
  }

  lemma HundredthIs(x: real, f: Exact)
    requires Is(x, f)
    ensures Is(x / 100.0, Hundredth(f))
  {
    assert (x / 100.0) * (100 * f.den) as real == x * f.den as real;
  }

  // ---------------------------------------------------------------- the margin

  lemma {:induction false} PlaceOf(digits: string) returns (m: nat)
    requires AllDigits(digits)
    ensures DigitsValue(digits) == m * Pow10(TrailingZeros(digits))
    ensures DigitsValue(digits) != 0 ==> m % 10 != 0
  {
    if digits != "" && digits[|digits| - 1] == '0' {
      var front := digits[..|digits| - 1];
      m := PlaceOf(front);
      TenTimes(m, Pow10(TrailingZeros(front)));
    } else {
      m := DigitsValue(digits);
      assert Pow10(0) == 1;
    }
  }

  lemma TenTimes(m: nat, p: nat)
    ensures 10 * (m * p) == m * (10 * p)
  {
  }

  lemma MultipleOf(m: int, p: nat)
    requires p > 0
    ensures (m * p) % p == 0 && (m % 10 != 0 ==> (m * p) % (10 * p) != 0)
  {
    Multiplied(m, p);
    if (m * p) % (10 * p) == 0 {
      var k := (m * p) / (10 * p);
      assert m * p == 10 * p * k;
      assert p * m == p * (10 * k);
      Cancelled(p, m, 10 * k);
    }
  }

  lemma {:induction false} Multiplied(m: int, p: nat)
    requires p > 0
    ensures (m * p) % p == 0
  {
    var r, k := (m * p) % p, (m * p) / p;
    assert m * p == k * p + r;
    assert (m - k) * p == r;
    Negated(m - k, p);
    if m - k >= 1 {
      AtLeastOnce(m - k, p);
      assert false;
    } else if m - k <= -1 {
      AtLeastOnce(-(m - k), p);
      assert false;
    }
  }

  lemma AtLeastOnce(m: int, p: nat)
    requires m >= 1
    ensures m * p >= p
  {
  }

  lemma Cancelled(p: nat, a: int, b: int)
    requires p > 0 && p * a == p * b
    ensures a == b
  {
    if a < b {
      AtLeastOnce(b - a, p);
      assert false;
    } else if b < a {
      AtLeastOnce(a - b, p);
      assert false;
    }
  }

  lemma {:induction false} SignificantPlaceIs(q: Quantity) returns (place: nat)
    requires q.number.fraction == ""
    ensures IsPlace(DigitsOf(q), place) && SignificantPlace(q) == place as real
  {
    StatedIs(q);
    assert Pow10(0) == 1;
    if DigitsOf(q) == 0 {
      place := 1;
    } else {
      var digits := q.number.whole;
      assert digits + q.number.fraction == digits;
      var m := PlaceOf(digits);
      place := Pow10(TrailingZeros(digits));
      var times: int := m;
      Negated(times, place);
      MultipleOf(times, place);
      MultipleOf(-times, place);
    }
  }

  lemma Negated(m: int, p: nat)
    ensures (-m) * p == -(m * p)
  {
  }

  lemma {:induction false} ToleranceIs(relation: Relation, q: Quantity) returns (place: nat)
    ensures relation == Approximately && q.number.fraction == "" ==> IsPlace(DigitsOf(q), place)
    ensures Is(Tolerance(q, relation == Approximately), Margin(relation, q, place))
  {
    if relation != Approximately || q.number.fraction != "" {
      var p := Pow10(|q.number.fraction|) as real;
      assert (0.5 * (1.0 / p)) * (2.0 * p) == 1.0;
      place := 1;
    } else {
      place := SignificantPlaceIs(q);
      StatedIs(q);
      WholeStated(q);
      hide SignificantPlace, Quantity.Stated, IsPlace, DigitsOf;
    }
  }

  lemma WholeStated(q: Quantity)
    requires q.number.fraction == ""
    ensures q.Stated() == DigitsOf(q) as real
  {
    StatedIs(q);
    assert Pow10(0) == 1;
  }

  // ---------------------------------------------------------------- comparing

  lemma WithinIs(x: real, value: Exact, q: Quantity, t: real, margin: Exact)
    requires Is(x, value) && Is(t, margin)
    ensures Abs(x - q.Stated()) <= t <==> Within(value, q, margin)
  {
    StatedIs(q);
    hide Quantity.Stated, DigitsOf, Pow10;
    var stated, p := q.Stated(), Pow10(|q.number.fraction|);
    Gap(x, value.num, value.den, stated, DigitsOf(q), p);
    var n, d := value.num * p - DigitsOf(q) * value.den, value.den * p;
    PositiveProduct(value.den, p);
    Compared(x - stated, n, d, t, margin.num, margin.den);
  }

  lemma Gap(x: real, n: int, d: int, y: real, m: int, e: int)
    requires x * d as real == n as real && y * e as real == m as real
    ensures (x - y) * (d * e) as real == (n * e - m * d) as real
  {
    Product(n, e);
    Product(m, d);
    Product(d, e);
    SumIs(x, n as real, d as real, y, m as real, e as real);
  }

  lemma Compared(x: real, n: int, d: int, t: real, m: int, e: int)
    requires d > 0 && e > 0 && x * d as real == n as real && t * e as real == m as real
    ensures Abs(x) <= t <==> Size(n) * e <= m * d
  {
    AbsIs(x, n, d);
    Product(Size(n), e);
    Product(m, d);
    PositiveProduct(d, e);
    Product(d, e);
    Scaled(Abs(x), t, d as real, e as real, Size(n) as real, m as real);
  }

  lemma AbsIs(x: real, n: int, d: int)
    requires d > 0 && x * d as real == n as real
    ensures Abs(x) * d as real == Size(n) as real
  {
    if x < 0.0 {
      assert (-x) * d as real == -(x * d as real);
    }
  }

  lemma Scaled(a: real, t: real, d: real, e: real, n: real, m: real)
    requires d > 0.0 && e > 0.0 && a * d == n && t * e == m
    ensures a <= t <==> n * e <= m * d
  {
    assert n * e == a * (d * e);
    assert m * d == t * (d * e);
    var f := d * e;
    if a <= t {
      assert a * f <= t * f;
    } else {
      assert t * f < a * f;
    }
  }

  // ---------------------------------------------------------------- main result

  /** The fraction that is compared: that of the left side, in the unit of the right side. */
  function Displayed(eq: Equation, legacy: bool): Exact
    requires Fraction(eq.left).Exact?
  {
    var f := Fraction(eq.left);
    InUnitOf(if legacy then Hundredth(f) else f, eq.right)
  }

  /**
   * A text that is compared states one whole equation. What is reported as recomputed and as tolerance are the
   * fraction of the left side in the stated unit and the margin of the stated number, and the text is consistent
   * exactly when the stated digits, cross-multiplied with that fraction, are within the margin.
   */
  lemma {:induction false} ComparedInIntegers(raw: string, limits: Limits)
    returns (ts: seq<Token>, eq: Equation, place: nat)
    requires Check(raw, limits).Compared()
    ensures Lex(raw, 0) == Tokens(ts) && States(ts, eq) && Fraction(eq.left).Exact?
    ensures eq.relation == Approximately && eq.right.number.fraction == "" ==> IsPlace(DigitsOf(eq.right), place)
    ensures var value := Displayed(eq, LegacyDisplay(LeftText(raw)) && eq.right.Kind() == Percent);
            var margin := Margin(eq.relation, eq.right, place);
            && Is(Check(raw, limits).shown.recomputed, value) && Is(Check(raw, limits).shown.tolerance, margin)
            && (Check(raw, limits).Consistent? <==> Within(value, eq.right, margin))
  {
    hide Check, States, LegacyDisplay, LeftText, Is, IsPlace, Within, Margin, Fraction, Evaluate;
    ts, eq := ComparedText(raw, limits);
    var legacy := LegacyDisplay(LeftText(raw)) && eq.right.Kind() == Percent;
    ReportedIsFraction(eq.left, limits);
    var f := Fraction(eq.left);
    assert f.Exact? by { IsExact(Evaluate(eq.left, LITERALLY, limits).value.exact, f); }
    var exact := Evaluate(eq.left, LITERALLY, limits).value.exact;
    HundredthIs(exact, f);
    if legacy {
      UnitIs(exact / 100.0, Hundredth(f), eq.right);
    } else {
      UnitIs(exact, f, eq.right);
    }
    place := ToleranceIs(eq.relation, eq.right);
    var x := Recomputed(eq, exact, legacy);
    AcceptsWhatRounds(eq, x);
    hide RoundsTo;
    WithinIs(x, Displayed(eq, legacy), eq.right, Tolerance(eq.right, eq.relation == Approximately),
             Margin(eq.relation, eq.right, place));
  }

  lemma IsExact(x: real, f: Exact)
    requires Is(x, f)
    ensures f.Exact? && f.den > 0
  {
  }
}
