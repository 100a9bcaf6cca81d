/** Arithmetic expressions over literal quantities: their units and their exact value. */
module Expressions {
  import opened Numerals
  import opened Options

  datatype Kind = Yuan | Share | Scaled | Scalar | Percent

  datatype Scale = Wan | Yi | WanYi

  datatype Suffix = YuanSuffix | ShareSuffix | TimesSuffix | PercentSuffix

  datatype Sign = Unsigned | PlusSign | HyphenSign | MinusSign

  /** A quantity as displayed: sign, digits, magnitude word and unit. */
  datatype Quantity = Quantity(sign: Sign, number: Number, scale: Option<Scale>, suffix: Option<Suffix>) {

    // A magnitude word before a multiple or a percent sign is ambiguous and never parsed.
    predicate Valid() {
      scale.Some? ==> suffix !in {Some(TimesSuffix), Some(PercentSuffix)}
    }

    function Kind(): Kind {
      if suffix == Some(YuanSuffix) then Yuan
      else if suffix == Some(ShareSuffix) then Share
      else if suffix == Some(PercentSuffix) then Percent
      else if scale.Some? then Scaled
      else Scalar
    }

    function Factor(): (f: real)
      ensures f > 0.0
    {
      if suffix == Some(PercentSuffix) then 0.01
      else match scale
        case None => 1.0
        case Some(Wan) => 10_000.0
        case Some(Yi) => 100_000_000.0
        case Some(WanYi) => 1_000_000_000_000.0
    }

    function Stated(): real {
      if sign in {HyphenSign, MinusSign} then -NumberValue(number) else NumberValue(number)
    }

    function Exact(): real {
      Stated() * Factor()
    }
  }

  datatype Op = Plus | Hyphen | Minus | Star | Cross | Slash | Obelus {
    predicate Additive() { Plus? || Hyphen? || Minus? }
    predicate Times() { Star? || Cross? }
    predicate Division() { Slash? || Obelus? }
  }

  datatype Expr =
    | Leaf(q: Quantity)
    | Negative(operand: Expr)
    | Binary(op: Op, left: Expr, right: Expr)

  function Leaves(e: Expr): (n: nat)
    ensures n == Operations(e) + 1
  {
    match e
    case Leaf(_) => 1
    case Negative(x) => Leaves(x)
    case Binary(_, l, r) => Leaves(l) + Leaves(r)
  }

  function Operations(e: Expr): nat {
    match e
    case Leaf(_) => 0
    case Negative(x) => Operations(x)
    case Binary(_, l, r) => Operations(l) + Operations(r) + 1
  }

  // ---------------------------------------------------------------- units

  datatype Failure = IncompatibleUnits | UnsupportedDimensions | ZeroDivision | RationalLimit | MagnitudeLimit

  datatype Result<+T> = Success(value: T) | Failure(error: Failure) {
    predicate IsFailure() { Failure? }
    function PropagateFailure<U>(): Result<U> requires Failure? { Failure(error) }
    function Extract(): T requires Success? { value }
  }

  predicate Dimensionless(k: Kind) {
    k == Scalar || k == Percent
  }

  function ResultKind(op: Op, left: Kind, right: Kind): Result<Kind> {
    if op.Additive() then
      if left != right then Failure(IncompatibleUnits) else Success(left)
    else if op.Times() then
      if !Dimensionless(left) && !Dimensionless(right) then Failure(UnsupportedDimensions)
      else Success(if left == Scalar then right else if Dimensionless(right) then left else right)
    else if !Dimensionless(right) then
      if left != right then Failure(UnsupportedDimensions) else Success(Scalar)
    else Success(if left == right then Scalar else left)
  }

  function InferKind(e: Expr): Result<Kind> {
    match e
    case Leaf(q) => Success(q.Kind())
    case Negative(x) => InferKind(x)
    case Binary(op, l, r) =>
      var left :- InferKind(l);
      var right :- InferKind(r);
      ResultKind(op, left, right)
  }

  // ---------------------------------------------------------------- values

  /** The size checks on every intermediate result: the rational's bits and its decimal magnitude. */
  datatype Limits = Limits(rationalFits: real -> bool, magnitudeFits: real -> bool) {
    function Check(x: real): Result<real> {
      if !rationalFits(x) then Failure(RationalLimit)
      else if !magnitudeFits(x) then Failure(MagnitudeLimit)
      else Success(x)
    }
  }

  const UNLIMITED := Limits(_ => true, _ => true)

  /** Every quantity is worth what it displays. */
  const LITERALLY: Quantity -> real := (q: Quantity) => q.Exact()

  datatype Value = Value(kind: Kind, exact: real)

  /** The exact value of `e` when `reading` says what each quantity is worth. */
  function Evaluate(e: Expr, reading: Quantity -> real, limits: Limits): Result<Value> {
    match e
    case Leaf(q) => Success(Value(q.Kind(), reading(q)))
    case Negative(x) =>
      var v :- Evaluate(x, reading, limits);
      Success(Value(v.kind, -v.exact))
    case Binary(op, l, r) =>
      var left :- Evaluate(l, reading, limits);
      var right :- Evaluate(r, reading, limits);
      var kind :- ResultKind(op, left.kind, right.kind);
      if op.Division() && right.exact == 0.0 then Failure(ZeroDivision) else
      var exact :- limits.Check(Apply(op, left.exact, right.exact));
      Success(Value(kind, exact))
  }

  function Apply(op: Op, x: real, y: real): real
    requires op.Division() ==> y != 0.0
  {
    match op
    case Plus => x + y
    case Hyphen => x - y
    case Minus => x - y
    case Star => x * y
    case Cross => x * y
    case Slash => x / y
    case Obelus => x / y
  }

  /** Well-typed expressions evaluate to the inferred kind, or fail only on a zero divisor or a size
      limit; expressions that are not well-typed never evaluate. */
  lemma {:induction false} UnitSoundness(e: Expr, reading: Quantity -> real, limits: Limits)
    ensures Evaluate(e, reading, limits).Success? ==> InferKind(e) == Success(Evaluate(e, reading, limits).value.kind)
    ensures InferKind(e).Success? && Evaluate(e, reading, limits).Failure? ==>
              Evaluate(e, reading, limits).error in {ZeroDivision, RationalLimit, MagnitudeLimit}
    ensures InferKind(e).Success? && limits == UNLIMITED && Evaluate(e, reading, limits).Failure? ==>
              Evaluate(e, reading, limits).error == ZeroDivision
  {
    match e
    case Leaf(_) =>
    case Negative(x) => UnitSoundness(x, reading, limits);
    case Binary(_, l, r) =>
      UnitSoundness(l, reading, limits);
      UnitSoundness(r, reading, limits);
  }

  // ---------------------------------------------------------------- change of unit

  function Rescale(kind: Kind, x: real, k: Kind, factor: real): real {
    if kind == k then factor * x else x
  }

  function Rescaled(reading: Quantity -> real, k: Kind, factor: real): Quantity -> real {
    (q: Quantity) => Rescale(q.Kind(), reading(q), k, factor)
  }

  function RescaledValue(v: Value, k: Kind, factor: real): Value {
    Value(v.kind, Rescale(v.kind, v.exact, k, factor))
  }

  function RescaledResult(r: Result<Value>, k: Kind, factor: real): Result<Value> {
    match r
    case Success(v) => Success(RescaledValue(v, k, factor))
    case Failure(f) => Failure(f)
  }

  lemma RescaleNonzero(v: Value, k: Kind, factor: real)
    requires factor != 0.0
    ensures Rescale(v.kind, v.exact, k, factor) != 0.0 <==> v.exact != 0.0
  {
    if v.exact != 0.0 {
      assert (factor * v.exact) / factor == v.exact;
    }
  }

  /** The arithmetic behind `UnitChange`, for a result of kind `k` and for any other result. */
  lemma ApplyRescaled(op: Op, left: Value, right: Value, k: Kind, factor: real, kind: Kind)
    requires factor != 0.0 && !Dimensionless(k)
    requires ResultKind(op, left.kind, right.kind) == Success(kind)
    requires op.Division() ==> right.exact != 0.0 && Rescale(right.kind, right.exact, k, factor) != 0.0
    ensures Rescale(kind, Apply(op, left.exact, right.exact), k, factor)
         == Apply(op, Rescale(left.kind, left.exact, k, factor), Rescale(right.kind, right.exact, k, factor))
  {
    if op.Division() {
      QuotientRescaled(left, right, k, factor, kind);
    } else if op.Times() {
      ProductRescaled(left, right, k, factor, kind);
    } else {
      SumRescaled(left.exact, right.exact, factor);
    }
  }

  lemma ProductRescaled(left: Value, right: Value, k: Kind, factor: real, kind: Kind)
    requires !Dimensionless(k)
    requires Success(kind) == ResultKind(Star, left.kind, right.kind)
    ensures Rescale(kind, left.exact * right.exact, k, factor)
         == Rescale(left.kind, left.exact, k, factor) * Rescale(right.kind, right.exact, k, factor)
  {
    var x, y := left.exact, right.exact;
    if left.kind == k {
      assert kind == k && right.kind != k;
      assert (factor * x) * y == factor * (x * y);
    } else if right.kind == k {
      assert kind == k;
      assert x * (factor * y) == factor * (x * y);
    }
  }

  lemma SumRescaled(x: real, y: real, factor: real)
    ensures factor * x + factor * y == factor * (x + y)
    ensures factor * x - factor * y == factor * (x - y)
  {
  }

  lemma QuotientRescaled(left: Value, right: Value, k: Kind, factor: real, kind: Kind)
    requires factor != 0.0 && !Dimensionless(k) && right.exact != 0.0
    requires Rescale(right.kind, right.exact, k, factor) != 0.0
    requires Success(kind) == ResultKind(Slash, left.kind, right.kind)
    ensures Rescale(kind, left.exact / right.exact, k, factor)
         == Rescale(left.kind, left.exact, k, factor) / Rescale(right.kind, right.exact, k, factor)
  {
    var x, y := left.exact, right.exact;
    var q := x / y;
    assert q * y == x;
    if right.kind == k {
      assert q * (factor * y) == factor * x;
    } else if left.kind == k {
      assert (factor * q) * y == factor * x;
    }
  }

  /** Measuring every 元, 股 or bare-magnitude literal in another unit (by a factor of either
      sign but not zero) multiplies every result of that kind by factor, leaves every other result
      alone, and neither creates nor removes a failure. */
  lemma {:induction false} UnitChange(e: Expr, reading: Quantity -> real, k: Kind, factor: real)
    requires factor != 0.0 && !Dimensionless(k)
    ensures Evaluate(e, Rescaled(reading, k, factor), UNLIMITED)
         == RescaledResult(Evaluate(e, reading, UNLIMITED), k, factor)
  {
    var rescaled := Rescaled(reading, k, factor);
    match e
    case Leaf(_) =>
    case Negative(x) =>
      UnitChange(x, reading, k, factor);
      var inner := Evaluate(x, reading, UNLIMITED);
      if inner.Success? {
        assert -Rescale(inner.value.kind, inner.value.exact, k, factor)
            == Rescale(inner.value.kind, -inner.value.exact, k, factor);
      }
    case Binary(op, l, r) =>
      UnitChange(l, reading, k, factor);
      UnitChange(r, reading, k, factor);
      var le, ri := Evaluate(l, reading, UNLIMITED), Evaluate(r, reading, UNLIMITED);
      if le.Success? && ri.Success? && ResultKind(op, le.value.kind, ri.value.kind).Success? {
        RescaleNonzero(ri.value, k, factor);
        if !op.Division() || ri.value.exact != 0.0 {
          ApplyRescaled(op, le.value, ri.value, k, factor, ResultKind(op, le.value.kind, ri.value.kind).value);
        }
      }
  }
}
