/** A ratio displayed as percents: "A/B×100=X%" and "A/B=X%" are the same statement to the checker. */
module EquationRatios {
  import opened EquationLimits
  import opened EquationParser
  import opened EquationVerdict
  import opened Expressions
  import opened Numerals
  import opened Options

  type SignOp = op: Op | op.Additive() witness Plus
  type MinusOp = op: Op | op in {Hyphen, Minus} witness Hyphen
  type DivisionOp = op: Op | op.Division() witness Slash
  type TimesOp = op: Op | op.Times() witness Star
  type PercentSign = mark: Mark | mark in {PercentMark, FullwidthPercentMark} witness PercentMark

  /** A number the tokenizer lets through. */
  type ShortNumber = n: Number | n.WithinLimits() witness Numeral("0", "")

  /** A number with the sign written before it. */
  datatype Signed = Signed(sign: Option<SignOp>, n: ShortNumber) {
    function Tokens(): seq<Token> {
      (if sign.Some? then [Operator(sign.value)] else []) + [Num(n)]
    }

    function Tree(): Expr {
      EquationParser.Signed(sign, Leaf(Quantity(Sign.Unsigned, n, None, None)))
    }
  }

  /** A numerator: one number, or the difference of two in parentheses. */
  datatype Numerator = Single(s: Signed) | Difference(first: Signed, minus: MinusOp, second: Signed) {
    function Tokens(): seq<Token> {
      match this
      case Single(s) => s.Tokens()
      case Difference(a, minus, b) => [Open] + a.Tokens() + [Operator(minus)] + b.Tokens() + [Close]
    }

    function Tree(): Expr {
      match this
      case Single(s) => s.Tree()
      case Difference(a, minus, b) => Binary(minus, a.Tree(), b.Tree())
    }
  }

  datatype Ratio = Ratio(numerator: Numerator, over: DivisionOp, divisor: Signed) {
    function Tokens(): seq<Token> {
      numerator.Tokens() + [Operator(over)] + divisor.Tokens()
    }

    function Tree(): Expr {
      Binary(over, numerator.Tree(), divisor.Tree())
    }
  }

  const HUNDRED: ShortNumber := Numeral("100", "")

  function Hundred(): Expr {
    Leaf(Quantity(Sign.Unsigned, HUNDRED, None, None))
  }

  /** What follows the left side: the relation and the stated percentage. */
  datatype Stated = Stated(relation: Relation, x: Signed, mark: PercentSign) {
    function Tokens(): seq<Token> {
      [Relate(relation)] + x.Tokens() + [Unit(mark)]
    }

    function Stands(): Quantity {
      Quantity(if x.sign.Some? then SignOf(x.sign.value) else Sign.Unsigned, x.n, None, Some(PercentSuffix))
    }
  }

  function PlainTokens(r: Ratio, stated: Stated): seq<Token> {
    r.Tokens() + stated.Tokens()
  }

  function TimesHundredTokens(r: Ratio, times: TimesOp, stated: Stated): seq<Token> {
    r.Tokens() + ([Operator(times), Num(HUNDRED)] + stated.Tokens())
  }

  // ---------------------------------------------------------------- parsing the two forms

  predicate Stops(rest: seq<Token>) {
    rest == [] || (!rest[0].Magnitude? && !rest[0].Unit?)
  }

  lemma {:induction false} ParseSigned(s: Signed, rest: seq<Token>, operands: nat, operations: nat, depth: nat)
    requires Stops(rest) && operands + 1 <= MAX_OPERANDS
    ensures ParseAtom(s.Tokens() + rest, operands, operations, depth)
         == Parsed(Step(s.Tree(), rest, operands + 1, operations))
  {
    var ts := s.Tokens() + rest;
    var number := [Num(s.n)] + rest;
    assert number[1..] == rest;
    if s.sign.Some? {
      assert ts == [Operator(s.sign.value)] + number;
    } else {
      assert ts == number;
    }
  }

  // An atom, or a product, that nothing continues at the next level.
  lemma {:induction false} AtomIsProduct(ts: seq<Token>, s: Step<Expr>, operands: nat, operations: nat, depth: nat)
    requires ParseAtom(ts, operands, operations, depth) == Parsed(s)
    requires s.rest == [] || !s.rest[0].IsFactor()
    ensures ParseProduct(ts, operands, operations, depth) == Parsed(s)
  {
  }

  lemma {:induction false} ProductIsSum(ts: seq<Token>, s: Step<Expr>, operands: nat, operations: nat, depth: nat)
    requires ParseProduct(ts, operands, operations, depth) == ProductRest(s, depth)
    requires s.rest == [] || (!s.rest[0].IsFactor() && !s.rest[0].IsSign())
    ensures ParseSum(ts, operands, operations, depth) == Parsed(s)
  {
  }

  function Operands(n: Numerator): nat {
    if n.Single? then 1 else 2
  }

  lemma {:induction false} ParseDifference(n: Numerator, rest: seq<Token>)
    requires n.Difference?
    ensures ParseSum(n.first.Tokens() + ([Operator(n.minus)] + (n.second.Tokens() + ([Close] + rest))), 0, 0, 1)
         == Parsed(Step(n.Tree(), [Close] + rest, 2, 1))
  {
    var afterSecond := [Close] + rest;
    var second := n.second.Tokens() + afterSecond;
    var afterFirst := [Operator(n.minus)] + second;
    var first := Step(n.first.Tree(), afterFirst, 1, 0);
    ParseSigned(n.first, afterFirst, 0, 0, 1);
    AtomIsProduct(n.first.Tokens() + afterFirst, first, 0, 0, 1);
    ParseSigned(n.second, afterSecond, 1, 1, 1);
    AtomIsProduct(second, Step(n.second.Tree(), afterSecond, 2, 1), 1, 1, 1);
    SecondTerm(first, n.minus, second, Step(n.second.Tree(), afterSecond, 2, 1));
  }

  lemma {:induction false} SecondTerm(s: Step<Expr>, minus: Op, second: seq<Token>, t: Step<Expr>)
    requires minus.Additive() && s.rest == [Operator(minus)] + second && s.operations == 0
    requires ParseProduct(second, s.operands, 1, 1) == Parsed(t)
    requires t.rest != [] && t.rest[0].Close?
    ensures SumRest(s, 1) == Parsed(t.(node := Binary(minus, s.node, t.node)))
  {
    assert s.rest[1..] == second;
  }

  lemma {:induction false} ParseGrouped(inner: seq<Token>, node: Expr, rest: seq<Token>)
    requires ParseSum(inner, 0, 0, 1) == Parsed(Step(node, [Close] + rest, 2, 1))
    ensures ParseAtom([Open] + inner, 0, 0, 0) == Parsed(Step(node, rest, 2, 1))
  {
    hide ParseSum;
    assert ([Open] + inner)[1..] == inner;
    assert ([Close] + rest)[1..] == rest;
  }

  lemma {:induction false} ParseNumerator(n: Numerator, rest: seq<Token>)
    requires Stops(rest)
    ensures ParseAtom(n.Tokens() + rest, 0, 0, 0) == Parsed(Step(n.Tree(), rest, Operands(n), Operands(n) - 1))
  {
    hide ParseAtom, ParseSum;
    if n.Single? {
      ParseSigned(n.s, rest, 0, 0, 0);
    } else {
      ParseDifference(n, rest);
      var inner := n.first.Tokens() + ([Operator(n.minus)] + (n.second.Tokens() + ([Close] + rest)));
      assert n.Tokens() + rest == [Open] + inner;
      ParseGrouped(inner, n.Tree(), rest);
    }
  }

  lemma {:induction false} ParseRatio(r: Ratio, rest: seq<Token>)
    requires Stops(rest)
    ensures ParseProduct(r.Tokens() + rest, 0, 0, 0)
         == ProductRest(Step(r.Tree(), rest, Operands(r.numerator) + 1, Operands(r.numerator)), 0)
  {
    var divisor := r.divisor.Tokens() + rest;
    var tail := [Operator(r.over)] + divisor;
    assert r.Tokens() + rest == r.numerator.Tokens() + tail;
    ParseNumerator(r.numerator, tail);
    assert tail[1..] == divisor;
    var k := Operands(r.numerator);
    ParseSigned(r.divisor, rest, k, k, 0);
  }

  lemma ParsePlain(r: Ratio, stated: Stated)
    ensures var k := Operands(r.numerator);
            ParseSide(PlainTokens(r, stated)) == Parsed(Step(r.Tree(), stated.Tokens(), k + 1, k))
  {
    var rest := stated.Tokens();
    assert rest[0] == Relate(stated.relation);
    ParseRatio(r, rest);
    ProductIsSum(r.Tokens() + rest, Step(r.Tree(), rest, Operands(r.numerator) + 1, Operands(r.numerator)), 0, 0, 0);
  }

  lemma ParseTimesHundred(r: Ratio, times: TimesOp, stated: Stated)
    ensures var k := Operands(r.numerator);
            ParseSide(TimesHundredTokens(r, times, stated))
            == Parsed(Step(Binary(times, r.Tree(), Hundred()), stated.Tokens(), k + 2, k + 1))
  {
    hide ParseAtom, ParseProduct, ProductRest, Ratio.Tokens;
    var k := Operands(r.numerator);
    var hundred := Signed(None, HUNDRED);
    var rest := [Operator(times), Num(HUNDRED)] + stated.Tokens();
    assert stated.Tokens()[0] == Relate(stated.relation);
    assert rest[1..] == hundred.Tokens() + stated.Tokens();
    ParseRatio(r, rest);
    ParseSigned(hundred, stated.Tokens(), k + 1, k + 1, 0);
    var t := Step(hundred.Tree(), stated.Tokens(), k + 2, k + 1);
    SecondFactor(Step(r.Tree(), rest, k + 1, k), times, rest[1..], t);
    ProductIsSum(r.Tokens() + rest, t.(node := Binary(times, r.Tree(), hundred.Tree())), 0, 0, 0);
  }

  lemma {:induction false} SecondFactor(s: Step<Expr>, times: Op, second: seq<Token>, t: Step<Expr>)
    requires !times.Additive() && s.rest == [Operator(times)] + second && s.operations < 3
    requires ParseAtom(second, s.operands, s.operations + 1, 0) == Parsed(t)
    requires t.rest != [] && t.rest[0].Relate?
    ensures var product := t.(node := Binary(times, s.node, t.node));
            ProductRest(s, 0) == Parsed(product) == ProductRest(product, 0)
  {
    assert s.rest[1..] == second;
  }

  lemma {:induction false} ParsePercentage(sign: Sign, n: Number, mark: PercentSign, operands: nat, operations: nat)
    requires operands + 1 <= MAX_OPERANDS
    ensures ParseUnsigned(sign, [Num(n), Unit(mark)], operands, operations)
         == Parsed(Step(Quantity(sign, n, None, Some(PercentSuffix)), [], operands + 1, operations))
  {
    assert [Num(n), Unit(mark)][1..] == [Unit(mark)] && [Unit(mark)][1..] == [];
  }

  lemma {:induction false} ParseStated(stated: Stated, operands: nat, operations: nat)
    requires operands + 1 <= MAX_OPERANDS
    ensures ParseQuantity(stated.Tokens()[1..], operands, operations)
         == Parsed(Step(stated.Stands(), [], operands + 1, operations))
  {
    hide ParseUnsigned;
    var number := [Num(stated.x.n), Unit(stated.mark)];
    ParsePercentage(stated.Stands().sign, stated.x.n, stated.mark, operands, operations);
    if stated.x.sign.Some? {
      assert stated.Tokens()[1..] == [Operator(stated.x.sign.value)] + number;
      assert ([Operator(stated.x.sign.value)] + number)[1..] == number;
    } else {
      assert stated.Tokens()[1..] == number;
    }
  }

  lemma {:induction false} RelationsConcat(a: seq<Token>, b: seq<Token>)
    ensures Relations(a + b) == Relations(a) + Relations(b)
  {
    if a == [] {
      assert a + b == b;
    } else {
      assert (a + b)[1..] == a[1..] + b;
      RelationsConcat(a[1..], b);
    }
  }

  lemma {:induction false} NoRelations(ts: seq<Token>)
    requires forall t :: t in ts ==> !t.Relate?
    ensures Relations(ts) == 0
  {
    if ts != [] {
      NoRelations(ts[1..]);
    }
  }

  lemma {:induction false} OneRelation(left: seq<Token>, stated: Stated)
    requires forall t :: t in left ==> !t.Relate?
    ensures Relations(left + stated.Tokens()) == 1
  {
    RelationsConcat(left, stated.Tokens());
    NoRelations(left);
    var right := stated.x.Tokens() + [Unit(stated.mark)];
    assert stated.Tokens()[1..] == right;
    NoRelations(right);
  }

  function PlainEquation(r: Ratio, stated: Stated): Equation {
    Equation(r.Tree(), stated.relation, stated.Stands())
  }

  function TimesHundredEquation(r: Ratio, times: TimesOp, stated: Stated): Equation {
    Equation(Binary(times, r.Tree(), Hundred()), stated.relation, stated.Stands())
  }

  lemma {:induction false} StatesIf(ts: seq<Token>, left: Step<Expr>, stated: Stated)
    requires Relations(ts) == 1 && ParseSide(ts) == Parsed(left)
    requires left.rest == stated.Tokens() && left.operations > 0 && left.operands + 1 <= MAX_OPERANDS
    ensures States(ts, Equation(left.node, stated.relation, stated.Stands()))
  {
    hide Relations, ParseSide, ParseQuantity;
    ParseStated(stated, left.operands, left.operations);
    assert stated.Tokens()[0] == Relate(stated.relation);
  }

  // Each token list states its equation, whole.
  lemma PlainStates(r: Ratio, stated: Stated)
    ensures States(PlainTokens(r, stated), PlainEquation(r, stated))
  {
    hide States, ParseSide, Relations;
    var k := Operands(r.numerator);
    ParsePlain(r, stated);
    RatioHasNoRelation(r);
    OneRelation(r.Tokens(), stated);
    StatesIf(PlainTokens(r, stated), Step(r.Tree(), stated.Tokens(), k + 1, k), stated);
  }

  lemma TimesHundredStates(r: Ratio, times: TimesOp, stated: Stated)
    ensures States(TimesHundredTokens(r, times, stated), TimesHundredEquation(r, times, stated))
  {
    hide States, ParseSide, Relations;
    var k, factor := Operands(r.numerator), [Operator(times), Num(HUNDRED)];
    ParseTimesHundred(r, times, stated);
    RatioHasNoRelation(r);
    OneRelation(r.Tokens() + factor, stated);
    assert TimesHundredTokens(r, times, stated) == r.Tokens() + factor + stated.Tokens();
    StatesIf(TimesHundredTokens(r, times, stated),
             Step(Binary(times, r.Tree(), Hundred()), stated.Tokens(), k + 2, k + 1), stated);
  }

  lemma RatioHasNoRelation(r: Ratio)
    ensures forall t :: t in r.Tokens() ==> !t.Relate?
  {
  }

  // ---------------------------------------------------------------- the size of the numbers

  /** `x` is the fraction n/d, written with integers up to 10^p. */
  predicate Fraction(x: real, n: int, d: int, p: nat) {
    IsQuotient(x, n, d) && d <= Pow10(p) && Size(n) <= Pow10(p)
  }

  ghost predicate SmallFraction(x: real, p: nat) {
    exists n: int, d: int :: Fraction(x, n, d, p)
  }

  /** The size limits let every fraction of p-digit integers through. */
  ghost predicate Admits(limits: Limits, p: nat) {
    forall x :: SmallFraction(x, p) ==> limits.Check(x).Success?
  }

  /** The checker's own limits let far more through than ratios of accepted numerals need. */
  lemma {:induction false} ReportLimitsAdmit(p: nat)
    requires p <= MAX_MAGNITUDE
    ensures Admits(REPORT_LIMITS, p)
  {
    forall x | SmallFraction(x, p) ensures REPORT_LIMITS.Check(x).Success? {
      var n: int, d: int :| Fraction(x, n, d, p);
      QuotientsPass(x, n, d, p);
    }
  }

  lemma NatProductBound(x: nat, y: nat, p: nat, q: nat)
    requires x <= p && y <= q
    ensures x * y <= p * q
  {
    assert x * y <= p * y;
    assert p * y <= p * q;
  }

  lemma ProductBound(a: int, b: int, p: nat, q: nat)
    requires Size(a) <= Pow10(p) && Size(b) <= Pow10(q)
    ensures Size(a * b) <= Pow10(p + q)
  {
    Pow10Add(p, q);
    NatProductBound(Size(a), Size(b), Pow10(p), Pow10(q));
    SizeProduct(a, b);
  }

  lemma SizeProduct(a: int, b: int)
    ensures Size(a * b) == Size(a) * Size(b)
  {
    if a < 0 {
      assert a * b == -((-a) * b);
    }
    if b < 0 {
      assert a * b == -(a * (-b));
      assert Size(a) * Size(b) == Size(a) * (-b);
    }
    if 0 <= a && 0 <= b {
      Nonnegative(a, b);
    } else if a < 0 && b < 0 {
      assert a * b == (-a) * (-b);
      Nonnegative(-a, -b);
    } else if a < 0 {
      Nonnegative(-a, b);
    } else {
      Nonnegative(a, -b);
    }
  }

  lemma Nonnegative(a: int, b: int)
    requires 0 <= a && 0 <= b
    ensures 0 <= a * b
  {
  }

  lemma RealProduct(a: int, b: int)
    ensures (a * b) as real == a as real * b as real
  {
  }

  lemma NumberIsSmall(n: Number, p: nat) returns (num: int, den: int)
    requires |n.whole| + |n.fraction| <= p
    ensures Fraction(NumberValue(n), num, den, p)
  {
    num, den := Unscaled(n), Pow10(|n.fraction|);
    DigitsBelowPower(n.whole + n.fraction);
    Pow10Monotone(|n.whole + n.fraction|, p);
    Pow10Monotone(|n.fraction|, p);
    MakeFraction(NumberValue(n), num, den, p);
  }

  lemma {:induction false} MakeFraction(x: real, n: nat, d: nat, p: nat)
    requires 0 < d <= Pow10(p) && n <= Pow10(p) && x == n as real / d as real
    ensures Fraction(x, n, d, p)
  {
    Cancel(n as real, d as real);
  }

  lemma Cancel(x: real, y: real)
    requires y != 0.0
    ensures x / y * y == x
  {
  }

  predicate AtMostDigits(s: Signed, p: nat) {
    |s.n.whole| + |s.n.fraction| <= p
  }

  // A signed number is worth its value, up to the sign.
  lemma {:induction false} SignedValue(s: Signed, limits: Limits)
    ensures var v := Evaluate(s.Tree(), LITERALLY, limits);
            v == Success(Value(Scalar, NumberValue(s.n))) || v == Success(Value(Scalar, -NumberValue(s.n)))
  {
    var q := Quantity(Sign.Unsigned, s.n, None, None);
    assert LITERALLY(q) == NumberValue(s.n) && q.Kind() == Scalar;
    assert Evaluate(Leaf(q), LITERALLY, limits) == Success(Value(Scalar, NumberValue(s.n)));
  }

  lemma SignedIsSmall(s: Signed, limits: Limits, p: nat) returns (num: int, den: int)
    requires AtMostDigits(s, p)
    ensures var v := Evaluate(s.Tree(), LITERALLY, limits);
            v.Success? && v.value.kind == Scalar && Fraction(v.value.exact, num, den, p)
  {
    SignedValue(s, limits);
    num, den := NumberIsSmall(s.n, p);
    var exact := Evaluate(s.Tree(), LITERALLY, limits).value.exact;
    if exact != NumberValue(s.n) {
      NegatedFraction(NumberValue(s.n), num, den, p);
      num := -num;
    }
  }

  lemma NegatedFraction(x: real, n: int, d: int, p: nat)
    requires Fraction(x, n, d, p)
    ensures Fraction(-x, -n, d, p)
  {
    assert (-x) * d as real == -(x * d as real);
  }

  lemma DifferenceIsSmall(x: real, n: int, d: int, y: real, m: int, e: int, p: nat) returns (num: int, den: int)
    requires Fraction(x, n, d, p) && Fraction(y, m, e, p)
    ensures Fraction(x - y, num, den, 2 * p + 1)
  {
    hide Pow10, Size;
    num, den := n * e - m * d, d * e;
    DifferenceSize(n, d, m, e, p);
    DifferenceExact(x, n, d, y, m, e);
  }

  lemma DifferenceSize(n: int, d: int, m: int, e: int, p: nat)
    requires 0 < d <= Pow10(p) && 0 < e <= Pow10(p) && Size(n) <= Pow10(p) && Size(m) <= Pow10(p)
    ensures 0 < d * e <= Pow10(2 * p + 1) && Size(n * e - m * d) <= Pow10(2 * p + 1)
  {
    ProductBound(n, e, p, p);
    ProductBound(m, d, p, p);
    ProductBound(d, e, p, p);
    DoublePower(p);
    Positive(d, e);
  }

  lemma DifferenceExact(x: real, n: int, d: int, y: real, m: int, e: int)
    requires x * d as real == n as real && y * e as real == m as real
    ensures (x - y) * (d * e) as real == (n * e - m * d) as real
  {
    RealProduct(n, e);
    RealProduct(m, d);
    RealProduct(d, e);
    CrossMultiply(x, n as real, d as real, y, m as real, e as real);
  }

  lemma {:induction false} DoublePower(p: nat)
    ensures Pow10(2 * p + 1) == 10 * Pow10(p + p)
  {
  }

  lemma CrossMultiply(x: real, n: real, d: real, y: real, m: real, e: real)
    requires x * d == n && y * e == m
    ensures (x - y) * (d * e) == n * e - m * d
  {
    assert x * (d * e) == (x * d) * e;
    assert y * (d * e) == (y * e) * d;
  }

  predicate NumeratorDigits(n: Numerator, p: nat) {
    match n
    case Single(s) => AtMostDigits(s, p)
    case Difference(a, _, b) => AtMostDigits(a, p) && AtMostDigits(b, p)
  }

  lemma NumeratorIsSmall(n: Numerator, limits: Limits, p: nat) returns (num: int, den: int)
    requires NumeratorDigits(n, p) && Evaluate(n.Tree(), LITERALLY, limits).Success?
    ensures var v := Evaluate(n.Tree(), LITERALLY, limits);
            v.value.kind == Scalar && Fraction(v.value.exact, num, den, 2 * p + 1)
  {
    match n
    case Single(s) =>
      num, den := SignedIsSmall(s, limits, p);
      Pow10Monotone(p, 2 * p + 1);
    case Difference(a, minus, b) =>
      var an, ad := SignedIsSmall(a, limits, p);
      var bn, bd := SignedIsSmall(b, limits, p);
      num, den := DifferenceIsSmall(Evaluate(a.Tree(), LITERALLY, limits).value.exact, an, ad,
                                    Evaluate(b.Tree(), LITERALLY, limits).value.exact, bn, bd, p);
  }

  lemma HundredfoldQuotientIsSmall(x: real, n: int, d: int, y: real, m: int, e: int, p: nat, q: nat)
    requires Fraction(x, n, d, p) && Fraction(y, m, e, q) && y != 0.0
    ensures SmallFraction(x / y * 100.0, p + q + 2)
  {
    // y is (-m)/(-e) as well, so its numerator may be taken to be positive.
    NonzeroNumerator(y, m, e);
    var m', e' := if m < 0 then -m else m, if m < 0 then -e else e;
    assert y * e' as real == m' as real by {
      if m < 0 {
        assert y * (-e) as real == -(y * e as real);
      }
    }
    FactorSize(n, d, m', e', p, q);
    QuotientExact(x, n, d, y, m', e');
    assert Fraction(x / y * 100.0, 100 * (n * e'), d * m', p + q + 2);
  }

  lemma FactorSize(n: int, d: int, m: int, e: int, p: nat, q: nat)
    requires 0 < d <= Pow10(p) && Size(n) <= Pow10(p) && 0 < m <= Pow10(q) && Size(e) <= Pow10(q)
    ensures 0 < d * m <= Pow10(p + q + 2) && Size(100 * (n * e)) <= Pow10(p + q + 2)
  {
    ProductBound(n, e, p, q);
    ProductBound(d, m, p, q);
    HundredPower(p + q);
    Positive(d, m);
  }

  lemma QuotientExact(x: real, n: int, d: int, y: real, m: int, e: int)
    requires y != 0.0 && x * d as real == n as real && y * e as real == m as real
    ensures (x / y * 100.0) * (d * m) as real == (100 * (n * e)) as real
  {
    RealProduct(d, m);
    RealProduct(n, e);
    QuotientFraction(x, n as real, d as real, y, m as real, e as real);
  }

  lemma HundredPower(p: nat)
    ensures Pow10(p + 2) == 100 * Pow10(p)
  {
    assert Pow10(p + 2) == 10 * Pow10(p + 1);
  }

  lemma NonzeroNumerator(y: real, m: int, e: int)
    requires y * e as real == m as real && y != 0.0 && e > 0
    ensures m != 0
  {
    Cancel(m as real, e as real);
    assert y * e as real / e as real == y;
  }

  lemma Positive(a: int, b: int)
    requires 0 < a && 0 < b
    ensures 0 < a * b
  {
  }

  lemma QuotientFraction(x: real, n: real, d: real, y: real, m: real, e: real)
    requires y != 0.0 && x * d == n && y * e == m
    ensures (x / y * 100.0) * (d * m) == 100.0 * (n * e)
  {
    var q := x / y;
    Cancel(x, y);
    assert q * (d * m) == (q * y) * d * e;
  }

  // ---------------------------------------------------------------- main result

  predicate RatioDigits(r: Ratio, p: nat) {
    NumeratorDigits(r.numerator, p) && AtMostDigits(r.divisor, p)
  }

  lemma {:induction false} QuotientEvaluates(over: DivisionOp, a: Expr, b: Expr, limits: Limits)
    requires Evaluate(Binary(over, a, b), LITERALLY, limits).Success?
    ensures Evaluate(a, LITERALLY, limits).Success? && Evaluate(b, LITERALLY, limits).Success?
    ensures var x, y := Evaluate(a, LITERALLY, limits).value, Evaluate(b, LITERALLY, limits).value;
            && y.exact != 0.0 && ResultKind(over, x.kind, y.kind).Success?
            && Evaluate(Binary(over, a, b), LITERALLY, limits).value
               == Value(ResultKind(over, x.kind, y.kind).value, x.exact / y.exact)
  {
  }

  // Multiplying by 100 never fails on a quotient that was computed.
  lemma {:induction false} QuotientIsAdmitted(r: Ratio, limits: Limits, p: nat)
    requires RatioDigits(r, p) && Admits(limits, 3 * p + 3)
    requires Evaluate(r.Tree(), LITERALLY, limits).Success?
    ensures var v := Evaluate(r.Tree(), LITERALLY, limits).value;
            v.kind == Scalar && limits.Check(v.exact * 100.0).Success?
  {
    hide Evaluate, Fraction, SmallFraction, NumeratorDigits, AtMostDigits;
    var above, below := r.numerator.Tree(), r.divisor.Tree();
    QuotientEvaluates(r.over, above, below, limits);
    var n, d := NumeratorIsSmall(r.numerator, limits, p);
    var m, e := SignedIsSmall(r.divisor, limits, p);
    var x, y := Evaluate(above, LITERALLY, limits).value.exact, Evaluate(below, LITERALLY, limits).value.exact;
    HundredfoldQuotientIsSmall(x, n, d, y, m, e, 2 * p + 1, p);
    assert 2 * p + 1 + p + 2 == 3 * p + 3;
  }

  lemma {:induction false} TimesHundredEvaluates(e: Expr, times: TimesOp, limits: Limits)
    requires Evaluate(e, LITERALLY, limits).Success? ==>
      var v := Evaluate(e, LITERALLY, limits).value; v.kind == Scalar && limits.Check(v.exact * 100.0).Success?
    ensures Evaluate(Binary(times, e, Hundred()), LITERALLY, limits)
            == match Evaluate(e, LITERALLY, limits)
               case Failure(f) => Failure(f)
               case Success(v) => Success(Value(Scalar, v.exact * 100.0))
  {
    var hundred := Quantity(Sign.Unsigned, HUNDRED, None, None);
    HundredIsHundred();
    assert Evaluate(Leaf(hundred), LITERALLY, limits) == Success(Value(Scalar, 100.0));
  }

  lemma {:induction false} HundredfoldEvaluates(r: Ratio, times: TimesOp, limits: Limits, p: nat)
    requires RatioDigits(r, p) && Admits(limits, 3 * p + 3)
    ensures var plain := Evaluate(r.Tree(), LITERALLY, limits);
            Evaluate(Binary(times, r.Tree(), Hundred()), LITERALLY, limits)
            == match plain
               case Failure(f) => Failure(f)
               case Success(v) => Success(Value(Scalar, v.exact * 100.0))
    ensures Evaluate(r.Tree(), LITERALLY, limits).Success? ==>
              Evaluate(r.Tree(), LITERALLY, limits).value.kind == Scalar
  {
    if Evaluate(r.Tree(), LITERALLY, limits).Success? {
      QuotientIsAdmitted(r, limits, p);
    }
    TimesHundredEvaluates(r.Tree(), times, limits);
  }

  lemma HundredIsHundred()
    ensures NumberValue(HUNDRED) == 100.0
    ensures LITERALLY(Quantity(Sign.Unsigned, HUNDRED, None, None)) == 100.0
  {
    var d := "100";
    assert d[..2] == "10" && d[..2][..1] == "1" && d[..2][..1][..0] == "";
    assert DigitsValue("1") == 1;
    assert DigitsValue("10") == 10 * DigitsValue("1") + 0;
    assert DigitsValue("100") == 10 * DigitsValue("10") + 0;
    assert HUNDRED.whole + HUNDRED.fraction == "100";
  }

  lemma SignedIsPlain(s: Signed)
    ensures !HasDisplayHundred(s.Tree()) && InferKind(s.Tree()) == Success(Scalar)
  {
    var q := Quantity(Sign.Unsigned, s.n, None, None);
    assert InferKind(Leaf(q)) == Success(Scalar) && !HasDisplayHundred(Leaf(q));
  }

  lemma RatioIsPlain(r: Ratio)
    ensures !HasDisplayHundred(r.Tree()) && InferKind(r.Tree()) == Success(Scalar)
  {
    SignedIsPlain(r.divisor);
    match r.numerator
    case Single(s) => SignedIsPlain(s);
    case Difference(a, minus, b) =>
      SignedIsPlain(a);
      SignedIsPlain(b);
      assert !HasDisplayHundred(r.numerator.Tree()) && InferKind(r.numerator.Tree()) == Success(Scalar);
  }

  lemma HundredfoldShown(display: Expr, plain: Expr, relation: Relation, q: Quantity, x: real)
    ensures Recomputed(Equation(display, relation, q), x * 100.0, true)
         == Recomputed(Equation(plain, relation, q), x, false)
  {
  }

  // Two left sides, the second a hundred times the first, shown as the same percentage.
  lemma {:induction false} JudgedAlikeIf(plain: Expr, display: Expr, relation: Relation, q: Quantity, limits: Limits)
    requires q.Kind() == Percent && !HasDisplayHundred(plain)
    requires InferKind(plain) == Success(Scalar) && InferKind(display) == Success(Scalar)
    requires Evaluate(display, LITERALLY, limits) == match Evaluate(plain, LITERALLY, limits)
             case Failure(f) => Failure(f)
             case Success(v) => Success(Value(Scalar, v.exact * 100.0))
    ensures Judge(Equation(display, relation, q), true, limits) == Judge(Equation(plain, relation, q), false, limits)
  {
    hide Evaluate, InferKind, HasDisplayHundred, Recomputed, Tolerance;
    var v := Evaluate(plain, LITERALLY, limits);
    if v.Success? {
      HundredfoldShown(display, plain, relation, q, v.value.exact);
    }
  }

  lemma {:induction false} DisplayIsPlain(r: Ratio, times: TimesOp, stated: Stated)
    ensures InferKind(Binary(times, r.Tree(), Hundred())) == Success(Scalar) && stated.Stands().Kind() == Percent
  {
    RatioIsPlain(r);
    hide HasDisplayHundred;
  }

  // The two equations are judged alike.
  lemma JudgedAlike(r: Ratio, times: TimesOp, stated: Stated, limits: Limits, p: nat)
    requires RatioDigits(r, p) && Admits(limits, 3 * p + 3)
    ensures Judge(TimesHundredEquation(r, times, stated), true, limits)
         == Judge(PlainEquation(r, stated), false, limits)
  {
    hide Judge, Evaluate, InferKind, HasDisplayHundred, Admits, RatioDigits, Hundred;
    RatioIsPlain(r);
    DisplayIsPlain(r, times, stated);
    HundredfoldEvaluates(r, times, limits, p);
    JudgedAlikeIf(r.Tree(), Binary(times, r.Tree(), Hundred()), stated.relation, stated.Stands(), limits);
  }

  /** Tokens of "A/B×100=X%" (read as the older ratio display) and of "A/B=X%" get the same verdict,
      whatever the numbers, signs and operator variants. */
  lemma SameVerdict(r: Ratio, times: TimesOp, stated: Stated, limits: Limits, p: nat)
    requires RatioDigits(r, p) && Admits(limits, 3 * p + 3)
    ensures CheckTokens(TimesHundredTokens(r, times, stated), true, limits)
         == CheckTokens(PlainTokens(r, stated), false, limits)
  {
    hide *;
    PlainStates(r, stated);
    TimesHundredStates(r, times, stated);
    StatedIsJudged(PlainTokens(r, stated), PlainEquation(r, stated), false, limits);
    StatedIsJudged(TimesHundredTokens(r, times, stated), TimesHundredEquation(r, times, stated), true, limits);
    JudgedAlike(r, times, stated, limits, p);
  }
}
