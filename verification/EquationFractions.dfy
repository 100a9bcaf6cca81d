/**
 * The value of the left side, computed the way rational numbers are: with integers, numerator over
 * denominator (backend/ai_answer_quality.py, _evaluate).
 */
module EquationFractions {
  import opened Expressions
  import opened Numerals
  import opened Options

  /** A numerator over a positive denominator, or the news that something was divided by zero. */
  datatype Exact = Exact(num: int, den: int) | ByZero

  function PowerOf(scale: Option<Scale>): nat {
    match scale
    case None => 1
    case Some(Wan) => 10_000
    case Some(Yi) => 100_000_000
    case Some(WanYi) => 1_000_000_000_000
  }

  function DigitsOf(q: Quantity): int {
    var digits: int := DigitsValue(q.number.whole + q.number.fraction);
    if q.sign.HyphenSign? || q.sign.MinusSign? then -digits else digits
  }

  /** The displayed digits as an integer over a power of ten, times the magnitude word, percents over 100. */
  function LiteralOf(q: Quantity): Exact {
    if q.suffix == Some(PercentSuffix) then Exact(DigitsOf(q), 100 * Pow10(|q.number.fraction|))
    else Exact(DigitsOf(q) * PowerOf(q.scale), Pow10(|q.number.fraction|))
  }

  function Divided(a: Exact, b: Exact): Exact
    requires a.Exact? && b.Exact?
  {
    if b.num == 0 then ByZero
    else if b.num > 0 then Exact(a.num * b.den, a.den * b.num)
    else Exact(-(a.num * b.den), a.den * -b.num)
  }

  function Combined(op: Op, a: Exact, b: Exact): Exact {
    if a.ByZero? || b.ByZero? then ByZero
    else match op
      case Plus => Exact(a.num * b.den + b.num * a.den, a.den * b.den)
      case Hyphen => Exact(a.num * b.den - b.num * a.den, a.den * b.den)
      case Minus => Exact(a.num * b.den - b.num * a.den, a.den * b.den)
      case Star => Exact(a.num * b.num, a.den * b.den)
      case Cross => Exact(a.num * b.num, a.den * b.den)
      case Slash => Divided(a, b)
      case Obelus => Divided(a, b)
  }

  function Fraction(e: Expr): Exact {
    match e
    case Leaf(q) => LiteralOf(q)
    case Negative(x) => if Fraction(x).ByZero? then ByZero else Exact(-Fraction(x).num, Fraction(x).den)
    case Binary(op, l, r) => Combined(op, Fraction(l), Fraction(r))
  }

  /** `x` is this fraction. */
  predicate Is(x: real, f: Exact) {
    f.Exact? && f.den > 0 && x * f.den as real == f.num as real
  }

  // ---------------------------------------------------------------- fractions and reals

  lemma Product(a: int, b: int)
    ensures (a * b) as real == a as real * b as real
  {
  }

  lemma PositiveProduct(a: int, b: int)
    requires a > 0 && b > 0
    ensures a * b > 0
  {
  }

  lemma SumIs(x: real, n: real, d: real, y: real, m: real, e: real)
    requires x * d == n && y * e == m
    ensures (x + y) * (d * e) == n * e + m * d && (x - y) * (d * e) == n * e - m * d
  {
    assert x * (d * e) == (x * d) * e;
    assert y * (d * e) == (y * e) * d;
  }

  lemma ProductIs(x: real, n: real, d: real, y: real, m: real, e: real)
    requires x * d == n && y * e == m
    ensures (x * y) * (d * e) == n * m
  {
    assert (x * y) * (d * e) == (x * d) * (y * e);
  }

  lemma QuotientIs(x: real, n: real, d: real, y: real, m: real, e: real)
    requires x * d == n && y * e == m && y != 0.0
    ensures (x / y) * (d * m) == n * e
  {
    var q := x / y;
    assert q * y == x;
    assert q * (d * m) == q * (d * (y * e));
    assert q * (d * (y * e)) == (q * y) * d * e;
  }

  lemma Casts(a: Exact, b: Exact)
    requires a.Exact? && b.Exact?
    ensures (a.num * b.den) as real == a.num as real * b.den as real
    ensures (b.num * a.den) as real == b.num as real * a.den as real
    ensures (a.den * b.den) as real == a.den as real * b.den as real
    ensures (a.num * b.num) as real == a.num as real * b.num as real
    ensures (a.den * b.num) as real == a.den as real * b.num as real
  {
    Product(a.num, b.den);
    Product(b.num, a.den);
    Product(a.den, b.den);
    Product(a.num, b.num);
    Product(a.den, b.num);
  }

  lemma IsSum(x: real, a: Exact, y: real, b: Exact)
    requires Is(x, a) && Is(y, b)
    ensures Is(x + y, Combined(Plus, a, b))
    ensures Is(x - y, Combined(Hyphen, a, b)) && Is(x - y, Combined(Minus, a, b))
  {
    Casts(a, b);
    PositiveProduct(a.den, b.den);
    SumIs(x, a.num as real, a.den as real, y, b.num as real, b.den as real);
  }

  lemma IsProduct(x: real, a: Exact, y: real, b: Exact)
    requires Is(x, a) && Is(y, b)
    ensures Is(x * y, Combined(Star, a, b)) && Is(x * y, Combined(Cross, a, b))
  {
    Casts(a, b);
    PositiveProduct(a.den, b.den);
    ProductIs(x, a.num as real, a.den as real, y, b.num as real, b.den as real);
  }

  lemma ZeroIs(y: real, b: Exact)
    requires Is(y, b)
    ensures y == 0.0 <==> b.num == 0
  {
    if b.num == 0 {
      assert y * b.den as real / b.den as real == y;
    }
  }

  lemma IsQuotient(x: real, a: Exact, y: real, b: Exact)
    requires Is(x, a) && Is(y, b) && y != 0.0
    ensures Is(x / y, Combined(Slash, a, b)) && Is(x / y, Combined(Obelus, a, b))
  {
    ZeroIs(y, b);
    Casts(a, b);
    QuotientIs(x, a.num as real, a.den as real, y, b.num as real, b.den as real);
    var q := x / y;
    if b.num > 0 {
      PositiveProduct(a.den, b.num);
    } else {
      PositiveProduct(a.den, -b.num);
      assert a.den * -b.num == -(a.den * b.num);
      assert q * (-(a.den * b.num)) as real == -(q * (a.den * b.num) as real);
    }
  }

  lemma NumberIs(n: Number)
    ensures NumberValue(n) * Pow10(|n.fraction|) as real == DigitsValue(n.whole + n.fraction) as real
  {
    var p := Pow10(|n.fraction|) as real;
    assert Unscaled(n) as real / p * p == Unscaled(n) as real;
  }

  lemma StatedIs(q: Quantity)
    ensures q.Stated() * Pow10(|q.number.fraction|) as real == DigitsOf(q) as real
  {
    NumberIs(q.number);
    hide NumberValue, DigitsValue, Pow10;
    Negation(NumberValue(q.number), Pow10(|q.number.fraction|) as real);
  }

  lemma Negation(x: real, p: real)
    ensures (-x) * p == -(x * p)
  {
  }

  lemma ScaledIs(x: real, p: nat, n: int, f: nat)
    requires p > 0 && x * p as real == n as real
    ensures Is(x * f as real, Exact(n * f, p))
  {
    Product(n, f);
    assert (x * f as real) * p as real == (x * p as real) * f as real;
  }

  lemma PercentIs(x: real, p: nat, n: int)
    requires p > 0 && x * p as real == n as real
    ensures Is(x * 0.01, Exact(n, 100 * p))
  {
    assert (x * 0.01) * (100 * p) as real == x * p as real;
  }

  lemma LiteralIs(q: Quantity)
    ensures Is(q.Exact(), LiteralOf(q))
  {
    StatedIs(q);
    var p := Pow10(|q.number.fraction|);
    if q.suffix == Some(PercentSuffix) {
      PercentIs(q.Stated(), p, DigitsOf(q));
    } else {
      FactorIsPower(q);
      ScaledIs(q.Stated(), p, DigitsOf(q), PowerOf(q.scale));
    }
    hide Quantity.Stated, DigitsOf, Pow10, Is, PowerOf;
  }

  lemma FactorIsPower(q: Quantity)
    requires q.suffix != Some(PercentSuffix)
    ensures q.Factor() == PowerOf(q.scale) as real
  {
  }

  // ---------------------------------------------------------------- main result

  /** The step of the induction, for two operands that have values. */
  lemma CombinedIs(op: Op, x: real, a: Exact, y: real, b: Exact)
    requires Is(x, a) && Is(y, b)
    ensures op.Division() ==> (y == 0.0 <==> Combined(op, a, b).ByZero?)
    ensures !(op.Division() && y == 0.0) ==> Is(Apply(op, x, y), Combined(op, a, b))
  {
    if op.Division() {
      ZeroIs(y, b);
      if y != 0.0 {
        IsQuotient(x, a, y, b);
        assert op == Slash || op == Obelus;
      }
    } else if op.Times() {
      IsProduct(x, a, y, b);
      assert op == Star || op == Cross;
    } else {
      IsSum(x, a, y, b);
      assert op == Plus || op == Hyphen || op == Minus;
    }
    hide Is;
  }

  /** What an expression comes to, and its fraction. */
  predicate Agrees(r: Result<Value>, f: Exact) {
    match r
    case Success(v) => Is(v.exact, f)
    case Failure(why) => why == ZeroDivision && f.ByZero?
  }

  lemma NegativeAgrees(v: Value, f: Exact)
    requires Agrees(Success(v), f)
    ensures f.Exact? && Agrees(Success(Value(v.kind, -v.exact)), Exact(-f.num, f.den))
  {
    Negation(v.exact, f.den as real);
  }

  lemma {:induction false} BinaryAgrees(op: Op, l: Expr, r: Expr)
    requires Agrees(Evaluate(l, LITERALLY, UNLIMITED), Fraction(l))
    requires Agrees(Evaluate(r, LITERALLY, UNLIMITED), Fraction(r))
    requires var a, b := Evaluate(l, LITERALLY, UNLIMITED), Evaluate(r, LITERALLY, UNLIMITED);
             a.Success? && b.Success? ==> ResultKind(op, a.value.kind, b.value.kind).Success?
    ensures Agrees(Evaluate(Binary(op, l, r), LITERALLY, UNLIMITED), Combined(op, Fraction(l), Fraction(r)))
  {
    var a, b := Evaluate(l, LITERALLY, UNLIMITED), Evaluate(r, LITERALLY, UNLIMITED);
    if a.Success? && b.Success? {
      var x, y := a.value.exact, b.value.exact;
      CombinedIs(op, x, Fraction(l), y, Fraction(r));
      hide Is, Combined, ResultKind, Apply, Fraction;
      assert Evaluate(Binary(op, l, r), LITERALLY, UNLIMITED) ==
             if op.Division() && y == 0.0 then Failure(ZeroDivision)
             else Success(Value(ResultKind(op, a.value.kind, b.value.kind).value, Apply(op, x, y)));
    } else {
      hide Is, ResultKind, Apply, Fraction;
    }
  }

  /**
   * Wherever the units fit, the evaluator divides by zero exactly when the fractions do, and otherwise
   * arrives at exactly their value.
   */
  lemma {:induction false} EvaluatesToFraction(e: Expr)
    requires InferKind(e).Success?
    ensures match Evaluate(e, LITERALLY, UNLIMITED)
            case Success(v) => Is(v.exact, Fraction(e))
            case Failure(why) => why == ZeroDivision && Fraction(e).ByZero?
  {
    match e
    case Leaf(q) => LiteralIs(q);
    case Negative(x) =>
      EvaluatesToFraction(x);
      hide Is;
      if Evaluate(x, LITERALLY, UNLIMITED).Success? {
        NegativeAgrees(Evaluate(x, LITERALLY, UNLIMITED).value, Fraction(x));
      }
    case Binary(op, l, r) =>
      EvaluatesToFraction(l);
      EvaluatesToFraction(r);
      hide Is, Combined, ResultKind;
      UnitSoundness(l, LITERALLY, UNLIMITED);
      UnitSoundness(r, LITERALLY, UNLIMITED);
      BinaryAgrees(op, l, r);
      assert Fraction(e) == Combined(op, Fraction(l), Fraction(r));
  }

  /** Size limits only ever refuse a value, they do not change it. */
  lemma {:induction false} LimitsOnlyRefuse(e: Expr, limits: Limits)
    requires Evaluate(e, LITERALLY, limits).Success?
    ensures Evaluate(e, LITERALLY, UNLIMITED) == Evaluate(e, LITERALLY, limits)
  {
    hide Apply, ResultKind;
    match e
    case Leaf(_) =>
    case Negative(x) => LimitsOnlyRefuse(x, limits);
    case Binary(_, l, r) =>
      LimitsOnlyRefuse(l, limits);
      LimitsOnlyRefuse(r, limits);
  }

  /** So whatever the limits are, a value that is reported is the fraction. */
  lemma {:induction false} ReportedIsFraction(e: Expr, limits: Limits)
    requires Evaluate(e, LITERALLY, limits).Success?
    ensures Is(Evaluate(e, LITERALLY, limits).value.exact, Fraction(e))
  {
    LimitsOnlyRefuse(e, limits);
    UnitSoundness(e, LITERALLY, limits);
    EvaluatesToFraction(e);
  }
}
