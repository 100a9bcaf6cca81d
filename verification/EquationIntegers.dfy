/** The checker on equations between integers: it says what integer arithmetic says. */
module EquationIntegers {
  import opened EquationLimits
  import opened EquationParser
  import opened EquationRatioTexts
  import opened EquationRatios
  import opened EquationTokens
  import opened EquationVerdict
  import opened Expressions
  import opened Numerals
  import opened Options

  /** A number with a sign of its own and no decimals. */
  type Integer = s: EquationRatios.Signed | s.n.fraction == ""
    witness EquationRatios.Signed(None, Numeral("0", ""))

  function ValueOf(s: Integer): int {
    var digits: int := DigitsValue(s.n.whole);
    if s.sign == Some(Hyphen) || s.sign == Some(Minus) then -digits else digits
  }

  function EquationOf(a: Integer, op: Op, b: Integer, c: Integer): seq<Token> {
    a.Tokens() + ([Operator(op)] + (b.Tokens() + ([Relate(Equals)] + c.Tokens())))
  }

  /** Quotients count when the stated integer is nearest: at most half the divisor is left over. */
  predicate Holds(op: Op, x: int, y: int, z: int) {
    match op
    case Plus => x + y == z
    case Hyphen => x - y == z
    case Minus => x - y == z
    case Star => x * y == z
    case Cross => x * y == z
    case Slash => y != 0 && 2 * Size(x - z * y) <= Size(y)
    case Obelus => y != 0 && 2 * Size(x - z * y) <= Size(y)
  }

  /** What is reported as recomputed: the result, or the quotient, exactly. */
  predicate Recomputes(op: Op, x: int, y: int, r: real) {
    match op
    case Plus => r == (x + y) as real
    case Hyphen => r == (x - y) as real
    case Minus => r == (x - y) as real
    case Star => r == (x * y) as real
    case Cross => r == (x * y) as real
    case Slash => r * y as real == x as real
    case Obelus => r * y as real == x as real
  }

  predicate Says(v: Verdict, op: Op, x: int, y: int, z: int) {
    if op.Division() && y == 0 then v.Undefined?
    else
      && (if Holds(op, x, y, z) then v.Consistent? else v.Mismatch?)
      && Recomputes(op, x, y, v.shown.recomputed)
      && v.shown == Shown(v.shown.recomputed, 0.5, None, None)
  }

  // ---------------------------------------------------------------- parsing

  function Stands(c: Integer): Quantity {
    Quantity(if c.sign.Some? then SignOf(c.sign.value) else Sign.Unsigned, c.n, None, None)
  }

  lemma {:induction false} ParseStatedInteger(c: Integer, operands: nat, operations: nat)
    requires operands + 1 <= MAX_OPERANDS
    ensures ParseQuantity(c.Tokens(), operands, operations) == Parsed(Step(Stands(c), [], operands + 1, operations))
  {
    var number := [Num(c.n)];
    assert number[1..] == [];
    if c.sign.Some? {
      assert c.Tokens() == [Operator(c.sign.value)] + number;
      assert ([Operator(c.sign.value)] + number)[1..] == number;
    } else {
      assert c.Tokens() == number;
    }
  }

  lemma {:induction false} SecondOperand(s: Step<Expr>, op: Op, second: seq<Token>, t: Step<Expr>)
    requires op.Additive() && s.rest == [Operator(op)] + second && s.operations == 0
    requires ParseProduct(second, s.operands, 1, 0) == Parsed(t)
    requires t.rest != [] && t.rest[0].Relate?
    ensures SumRest(s, 0) == Parsed(t.(node := Binary(op, s.node, t.node)))
  {
    hide ParseProduct;
    assert s.rest[1..] == second;
  }

  lemma {:induction false} FirstOperand(ts: seq<Token>, s: Step<Expr>)
    requires ParseProduct(ts, 0, 0, 0) == Parsed(s)
    ensures ParseSum(ts, 0, 0, 0) == SumRest(s, 0)
  {
    hide ParseProduct, SumRest;
  }

  lemma {:induction false} ParseTwo(a: Integer, op: Op, b: Integer, rest: seq<Token>)
    requires rest != [] && rest[0].Relate?
    ensures ParseSide(a.Tokens() + ([Operator(op)] + (b.Tokens() + rest)))
         == Parsed(Step(Binary(op, a.Tree(), b.Tree()), rest, 2, 1))
  {
    hide ParseAtom, ParseProduct, ProductRest, ParseSum, SumRest;
    hide EquationRatios.Signed.Tokens, EquationRatios.Signed.Tree;
    var second := b.Tokens() + rest;
    var tail := [Operator(op)] + second;
    var ts, first := a.Tokens() + tail, Step(a.Tree(), tail, 1, 0);
    var other := Step(b.Tree(), rest, 2, 1);
    ParseSigned(a, tail, 0, 0, 0);
    ParseSigned(b, rest, 1, 1, 0);
    if op.Additive() {
      AtomIsProduct(ts, first, 0, 0, 0);
      AtomIsProduct(second, other, 1, 1, 0);
      FirstOperand(ts, first);
      SecondOperand(first, op, second, other);
    } else {
      FirstFactor(ts, first);
      SecondFactor(first, op, second, other);
      ProductIsSum(ts, other.(node := Binary(op, a.Tree(), b.Tree())), 0, 0, 0);
    }
  }

  lemma {:induction false} FirstFactor(ts: seq<Token>, s: Step<Expr>)
    requires ParseAtom(ts, 0, 0, 0) == Parsed(s)
    ensures ParseProduct(ts, 0, 0, 0) == ProductRest(s, 0)
  {
    hide ParseAtom, ProductRest;
  }

  lemma HasNoRelation(s: Integer)
    ensures forall t :: t in s.Tokens() ==> !t.Relate?
  {
  }

  lemma {:induction false} OneRelation(a: Integer, op: Op, b: Integer, c: Integer)
    ensures Relations(EquationOf(a, op, b, c)) == 1
  {
    var left := a.Tokens() + ([Operator(op)] + b.Tokens());
    var right := [Relate(Equals)] + c.Tokens();
    HasNoRelation(a);
    HasNoRelation(b);
    HasNoRelation(c);
    NoRelations(left);
    assert right[1..] == c.Tokens();
    NoRelations(c.Tokens());
    RelationsConcat(left, right);
    assert EquationOf(a, op, b, c) == left + right;
  }

  lemma {:induction false} IntegerStates(a: Integer, op: Op, b: Integer, c: Integer)
    ensures States(EquationOf(a, op, b, c), Equation(Binary(op, a.Tree(), b.Tree()), Equals, Stands(c)))
  {
    hide ParseSide, ParseQuantity, Relations;
    var rest := [Relate(Equals)] + c.Tokens();
    assert rest[1..] == c.Tokens();
    OneRelation(a, op, b, c);
    ParseTwo(a, op, b, rest);
    ParseStatedInteger(c, 2, 1);
  }

  // ---------------------------------------------------------------- values

  lemma {:induction false} WholeNumber(n: Number)
    requires n.fraction == ""
    ensures NumberValue(n) == DigitsValue(n.whole) as real
  {
    assert n.whole + n.fraction == n.whole;
    assert Pow10(0) == 1;
  }

  lemma {:induction false} IntegerValue(s: Integer, limits: Limits)
    ensures Evaluate(s.Tree(), LITERALLY, limits) == Success(Value(Scalar, ValueOf(s) as real))
  {
    var leaf := Leaf(Quantity(Sign.Unsigned, s.n, None, None));
    WholeNumber(s.n);
    hide NumberValue, DigitsValue;
    assert Evaluate(leaf, LITERALLY, limits) == Success(Value(Scalar, DigitsValue(s.n.whole) as real));
  }

  lemma {:induction false} StatedInteger(c: Integer)
    ensures Stands(c).Stated() == ValueOf(c) as real
  {
    WholeNumber(c.n);
  }

  lemma {:induction false} IntegerSize(s: Integer)
    ensures Size(ValueOf(s)) <= Pow10(18)
  {
    DigitsBelowPower(s.n.whole);
    Pow10Monotone(|s.n.whole|, 18);
  }

  /** The quotient, over a positive denominator. */
  function Over(op: Op, x: int, y: int): (int, int) {
    match op
    case Plus => (x + y, 1)
    case Hyphen => (x - y, 1)
    case Minus => (x - y, 1)
    case Star => (x * y, 1)
    case Cross => (x * y, 1)
    case Slash => if y < 0 then (-x, -y) else (x, y)
    case Obelus => if y < 0 then (-x, -y) else (x, y)
  }

  lemma Powers()
    ensures 2 * Pow10(18) <= Pow10(36) && Pow10(18) <= Pow10(36) <= Pow10(37)
  {
    Pow10Monotone(18, 35);
    Pow10Monotone(36, 37);
    assert Pow10(36) == 10 * Pow10(35);
  }

  lemma OverSize(op: Op, x: int, y: int)
    requires Size(x) <= Pow10(18) && Size(y) <= Pow10(18)
    ensures Size(Over(op, x, y).0) <= Pow10(36) && Size(Over(op, x, y).1) <= Pow10(18)
  {
    hide Pow10;
    Powers();
    if op.Times() {
      ProductBound(x, y, 18, 18);
      assert Over(op, x, y) == (x * y, 1);
    } else if op.Additive() {
      SumSize(x, y, Pow10(18), Pow10(36));
    }
  }

  lemma SumSize(x: int, y: int, one: nat, two: nat)
    requires Size(x) <= one && Size(y) <= one && 2 * one <= two
    ensures Size(x + y) <= two && Size(x - y) <= two
  {
  }

  lemma {:induction false} ApplyIsOver(op: Op, x: int, y: int)
    requires op.Division() ==> y != 0
    ensures IsQuotient(Expressions.Apply(op, x as real, y as real), Over(op, x, y).0, Over(op, x, y).1)
  {
    if op.Times() {
      RealProduct(x, y);
    } else if op.Division() {
      QuotientIs(x, y);
    }
  }

  lemma QuotientIs(x: int, y: int)
    requires y != 0
    ensures (x as real / y as real) * y as real == x as real
    ensures (x as real / y as real) * (-y) as real == (-x) as real
  {
    var q := x as real / y as real;
    assert q * (-y) as real == -(q * y as real);
  }

  // ---------------------------------------------------------------- comparing

  lemma {:induction false} DifferenceOver(x: real, n: int, d: int, z: int)
    requires IsQuotient(x, n, d)
    ensures IsQuotient(x - z as real, n - z * d, d)
  {
    RealProduct(z, d);
    assert (x - z as real) * d as real == x * d as real - z as real * d as real;
  }

  lemma {:induction false} DifferenceOverSize(n: int, d: int, z: int)
    requires Size(n) <= Pow10(36) && 0 < d <= Pow10(18) && Size(z) <= Pow10(18)
    ensures Size(n - z * d) <= Pow10(37)
  {
    ProductBound(z, d, 18, 18);
    assert Pow10(37) == 10 * Pow10(36);
  }

  lemma {:induction false} NearOver(x: real, n: int, d: int)
    requires IsQuotient(x, n, d)
    ensures Abs(x) <= 0.5 <==> 2 * Size(n) <= d
  {
    QuotientSize(x, n, d);
    HalfOver(Abs(x), d as real, Size(n) as real);
  }

  lemma HalfOver(a: real, e: real, m: real)
    requires a * e == m && e > 0.0
    ensures a <= 0.5 <==> 2.0 * m <= e
  {
    if a <= 0.5 {
      Ordered(a, 0.5, e);
    } else {
      StrictlyOrdered(0.5, a, e);
    }
  }

  lemma {:induction false} NearMeansHolds(op: Op, x: int, y: int, z: int)
    requires op.Division() ==> y != 0
    ensures var (n, d) := Over(op, x, y); 2 * Size(n - z * d) <= d <==> Holds(op, x, y, z)
  {
    if op.Division() && y < 0 {
      assert -x - z * -y == -(x - z * y);
    }
  }

  /** The judgement, once the left side's value is known as a fraction. */
  lemma {:induction false} JudgedByFraction(left: Expr, c: Integer, x: real, n: int, d: int)
    requires InferKind(left) == Success(Scalar)
    requires Evaluate(left, LITERALLY, REPORT_LIMITS) == Success(Value(Scalar, x))
    requires IsQuotient(x, n, d) && Size(n) <= Pow10(36) && d <= Pow10(18)
    ensures var v := Judge(Equation(left, Equals, Stands(c)), false, REPORT_LIMITS);
            && (if 2 * Size(n - ValueOf(c) * d) <= d then v.Consistent? else v.Mismatch?)
            && v.shown == Shown(x, 0.5, None, None)
  {
    hide Evaluate, InferKind, HasDisplayHundred, HasPercentLiteral, RationalFits, MagnitudeFits, IsQuotient, Pow10;
    var eq, z := Equation(left, Equals, Stands(c)), ValueOf(c);
    StatedInteger(c);
    IntegerSize(c);
    Powers();
    QuotientsPass(x, n, d, 36);
    DifferenceOver(x, n, d, z);
    Denominator(x, n, d);
    DifferenceOverSize(n, d, z);
    QuotientsPass(x - z as real, n - z * d, d, 37);
    NearOver(x - z as real, n - z * d, d);
    OneTolerance(c);
    assert Recomputed(eq, x, false) == x;
  }

  lemma Denominator(x: real, n: int, d: int)
    requires IsQuotient(x, n, d)
    ensures d > 0
  {
  }

  lemma OneTolerance(c: Integer)
    ensures Tolerance(Stands(c), false) == 0.5
  {
    assert Pow10(0) == 1;
  }

  lemma {:induction false} SignedKind(s: Integer)
    ensures InferKind(s.Tree()) == Success(Scalar)
  {
    assert InferKind(Leaf(Quantity(Sign.Unsigned, s.n, None, None))) == Success(Scalar);
  }

  lemma {:induction false} TwoKinds(op: Op, a: Integer, b: Integer)
    ensures InferKind(Binary(op, a.Tree(), b.Tree())) == Success(Scalar)
  {
    SignedKind(a);
    SignedKind(b);
    hide EquationRatios.Signed.Tree;
  }

  lemma {:induction false} ZeroDivisor(op: Op, a: Integer, b: Integer, c: Integer)
    requires op.Division() && ValueOf(b) == 0
    ensures Judge(Equation(Binary(op, a.Tree(), b.Tree()), Equals, Stands(c)), false, REPORT_LIMITS).Undefined?
  {
    TwoKinds(op, a, b);
    IntegerValue(a, REPORT_LIMITS);
    IntegerValue(b, REPORT_LIMITS);
    hide InferKind, EquationRatios.Signed.Tree, HasDisplayHundred, RationalFits, MagnitudeFits;
  }

  lemma {:induction false} BinaryValue(op: Op, l: Expr, r: Expr, x: real, y: real, limits: Limits)
    requires Evaluate(l, LITERALLY, limits) == Success(Value(Scalar, x))
    requires Evaluate(r, LITERALLY, limits) == Success(Value(Scalar, y))
    requires op.Division() ==> y != 0.0
    requires limits.Check(Expressions.Apply(op, x, y)).Success?
    ensures Evaluate(Binary(op, l, r), LITERALLY, limits) == Success(Value(Scalar, Expressions.Apply(op, x, y)))
  {
    hide Expressions.Apply;
  }

  lemma {:induction false} TwoValues(op: Op, a: Integer, b: Integer)
    requires op.Division() ==> ValueOf(b) != 0
    ensures var x := Expressions.Apply(op, ValueOf(a) as real, ValueOf(b) as real);
            Evaluate(Binary(op, a.Tree(), b.Tree()), LITERALLY, REPORT_LIMITS) == Success(Value(Scalar, x))
  {
    var x, y := ValueOf(a), ValueOf(b);
    IntegerValue(a, REPORT_LIMITS);
    IntegerValue(b, REPORT_LIMITS);
    IntegerSize(a);
    IntegerSize(b);
    OverSize(op, x, y);
    Powers();
    ApplyIsOver(op, x, y);
    hide *;
    QuotientsPass(Expressions.Apply(op, x as real, y as real), Over(op, x, y).0, Over(op, x, y).1, 36);
    BinaryValue(op, a.Tree(), b.Tree(), x as real, y as real, REPORT_LIMITS);
  }

  lemma {:induction false} IntegerJudged(a: Integer, op: Op, b: Integer, c: Integer)
    requires op.Division() ==> ValueOf(b) != 0
    ensures Says(Judge(Equation(Binary(op, a.Tree(), b.Tree()), Equals, Stands(c)), false, REPORT_LIMITS),
                 op, ValueOf(a), ValueOf(b), ValueOf(c))
  {
    hide Evaluate, InferKind, Judge, Expressions.Apply, EquationRatios.Signed.Tree;
    hide Over, ValueOf, Pow10, IsQuotient, Holds;
    var x, y := ValueOf(a), ValueOf(b);
    TwoKinds(op, a, b);
    TwoValues(op, a, b);
    IntegerSize(a);
    IntegerSize(b);
    OverSize(op, x, y);
    ApplyIsOver(op, x, y);
    var exact := Expressions.Apply(op, x as real, y as real);
    Denominator(exact, Over(op, x, y).0, Over(op, x, y).1);
    JudgedByFraction(Binary(op, a.Tree(), b.Tree()), c, exact, Over(op, x, y).0, Over(op, x, y).1);
    NearMeansHolds(op, x, y, ValueOf(c));
    RecomputedExactly(op, x, y);
  }

  lemma RecomputedExactly(op: Op, x: int, y: int)
    requires op.Division() ==> y != 0
    ensures Recomputes(op, x, y, Expressions.Apply(op, x as real, y as real))
  {
    RealProduct(x, y);
    if op.Division() {
      assert x as real / y as real * y as real == x as real;
    }
  }

  // ---------------------------------------------------------------- main results

  /**
   * Any text that is read as an operation on two integers and a stated integer, each of 18 digits at most and
   * with a sign or without, gets the verdict of integer arithmetic.
   */
  lemma {:induction false} IntegerEquation(raw: string, a: Integer, op: Op, b: Integer, c: Integer)
    requires Lex(raw, 0) == Tokens(EquationOf(a, op, b, c)) && |raw| <= MAX_CANDIDATE_CHARS
    ensures Says(Check(raw, REPORT_LIMITS), op, ValueOf(a), ValueOf(b), ValueOf(c))
  {
    hide Lex, States, Holds, CheckTokens, LegacyDisplay, LeftText;
    hide EquationRatios.Signed.Tokens, EquationRatios.Signed.Tree;
    var eq := Equation(Binary(op, a.Tree(), b.Tree()), Equals, Stands(c));
    IntegerStates(a, op, b, c);
    StatedIsJudged(EquationOf(a, op, b, c), eq, LegacyDisplay(LeftText(raw)), REPORT_LIMITS);
    NeverLegacy(eq, LegacyDisplay(LeftText(raw)));
    hide Judge;
    if op.Division() && ValueOf(b) == 0 {
      ZeroDivisor(op, a, b, c);
    } else {
      IntegerJudged(a, op, b, c);
    }
  }

  lemma NeverLegacy(eq: Equation, legacyText: bool)
    requires eq.right.Kind() == Scalar
    ensures Judge(eq, legacyText, REPORT_LIMITS) == Judge(eq, false, REPORT_LIMITS)
  {
    hide Evaluate, InferKind, RationalFits, MagnitudeFits;
  }

  predicate Short(n: int) {
    Size(n) < Pow10(18)
  }

  /** An integer, written out. */
  function Written(n: int): Integer
    requires Short(n)
  {
    DecimalLength(Size(n), 18);
    EquationRatios.Signed(if n < 0 then Some(Hyphen) else None, Numeral(Decimal(Size(n)), ""))
  }

  function IntegerText(n: int): string {
    (if n < 0 then "-" else "") + Decimal(Size(n))
  }

  lemma {:induction false} WrittenValue(n: int)
    requires Short(n)
    ensures ValueOf(Written(n)) == n
  {
    DecimalValue(Size(n));
  }

  lemma WrittenTokens(n: int)
    requires Short(n)
    ensures Written(n).Tokens() == (if n < 0 then [Operator(Hyphen)] else []) + [Num(Numeral(Decimal(Size(n)), ""))]
  {
    hide Decimal, Pow10;
  }

  lemma {:induction false} SignedText(negative: bool, number: Token, more: seq<Token>)
    ensures Text((if negative then [Operator(Hyphen)] else []) + [number] + more)
         == (if negative then "-" else "") + TokenText(number) + Text(more)
  {
    hide Text, TokenText;
    TextOfMore(number, more);
    if negative {
      TextOfMore(Operator(Hyphen), [number] + more);
      assert TokenText(Operator(Hyphen)) == "-" by { SymbolTexts(Hyphen); }
      assert [Operator(Hyphen)] + [number] + more == [Operator(Hyphen)] + ([number] + more);
    } else {
      assert [] + [number] + more == [number] + more;
    }
  }

  lemma {:induction false} WrittenText(n: int, more: seq<Token>)
    requires Short(n)
    ensures Text(Written(n).Tokens() + more) == IntegerText(n) + Text(more)
  {
    hide Text, Decimal, Pow10, Written, EquationRatios.Signed.Tokens;
    var number := Num(Numeral(Decimal(Size(n)), ""));
    assert TokenText(number) == Decimal(Size(n));
    WrittenTokens(n);
    SignedText(n < 0, number, more);
  }

  function EquationText(a: int, op: Op, b: int, c: int): string {
    IntegerText(a) + ([OpText(op)] + (IntegerText(b) + ("=" + IntegerText(c))))
  }

  lemma {:induction false} EquationTextIs(a: int, op: Op, b: int, c: int)
    requires Short(a) && Short(b) && Short(c)
    ensures Text(EquationOf(Written(a), op, Written(b), Written(c))) == EquationText(a, op, b, c)
  {
    hide Text, EquationRatios.Signed.Tokens, IntegerText, Written, Pow10, TokenText;
    var third := Written(c).Tokens();
    var right := [Relate(Equals)] + third;
    var second := Written(b).Tokens() + right;
    WrittenText(a, [Operator(op)] + second);
    TextOfMore(Operator(op), second);
    WrittenText(b, right);
    TextOfMore(Relate(Equals), third);
    WrittenText(c, []);
    assert third + [] == third && IntegerText(c) + Text([]) == IntegerText(c) by {
      assert Text([]) == "" by { NoText(); }
    }
    SymbolTexts(op);
  }

  lemma NoText()
    ensures Text([]) == ""
  {
  }

  lemma SymbolTexts(op: Op)
    ensures TokenText(Operator(op)) == [OpText(op)] && TokenText(Relate(Equals)) == "="
  {
  }

  lemma IntegerIsSpread(s: Integer, t: Token, more: seq<Token>)
    requires Spread([t] + more) && !t.Num?
    ensures Spread(s.Tokens() + ([t] + more)) && |s.Tokens()| <= 2
  {
    SignedIsSpread(s);
    SpreadConcat(s.Tokens(), [t] + more);
  }

  lemma EquationIsSpread(a: Integer, op: Op, b: Integer, c: Integer)
    ensures Spread(EquationOf(a, op, b, c)) && |EquationOf(a, op, b, c)| <= 8
  {
    hide EquationRatios.Signed.Tokens;
    SignedIsSpread(c);
    SpreadConcat([Relate(Equals)], c.Tokens());
    var right := [Relate(Equals)] + c.Tokens();
    IntegerIsSpread(b, Relate(Equals), c.Tokens());
    SpreadConcat([Operator(op)], b.Tokens() + right);
    IntegerIsSpread(a, Operator(op), b.Tokens() + right);
  }

  /**
   * Any two integers of at most 18 digits, an operation between them, an equals sign and a third integer, written
   * without spaces: the checker's answer is that of integer arithmetic. The equation is consistent exactly when
   * it holds (for a quotient: when the stated integer is a nearest one), and has no verdict exactly when it
   * divides by zero.
   */
  lemma {:induction false} IntegersAreChecked(a: int, op: Op, b: int, c: int)
    requires Short(a) && Short(b) && Short(c)
    ensures Says(Check(EquationText(a, op, b, c), REPORT_LIMITS), op, a, b, c)
  {
    var x, y, z := Written(a), Written(b), Written(c);
    WrittenValue(a);
    WrittenValue(b);
    WrittenValue(c);
    hide *;
    var ts := EquationOf(x, op, y, z);
    EquationTextIs(a, op, b, c);
    EquationIsSpread(x, op, y, z);
    SpreadIsShort(ts);
    IntegerEquation(Text(ts), x, op, y, z);
  }

  lemma {:induction false} SpreadIsShort(ts: seq<Token>)
    requires Spread(ts) && |ts| <= 8
    ensures Lex(Text(ts), 0) == Tokens(ts) && |Text(ts)| <= MAX_CANDIDATE_CHARS
  {
    SpreadIsLexable(ts);
    TextLength(ts);
  }

  lemma {:induction false} OneOperation(a: int, op: Op, b: int, c: int)
    requires Short(a) && Short(b) && Short(c)
    ensures Says(Check(IntegerText(a) + [OpText(op)] + IntegerText(b) + "=" + IntegerText(c), REPORT_LIMITS),
                 op, a, b, c)
  {
    hide *;
    IntegersAreChecked(a, op, b, c);
    Flat(a, op, b, c);
  }

  lemma Flat(a: int, op: Op, b: int, c: int)
    ensures EquationText(a, op, b, c) == IntegerText(a) + [OpText(op)] + IntegerText(b) + "=" + IntegerText(c)
  {
    hide IntegerText, OpText;
    var x, y, z := IntegerText(a), IntegerText(b), IntegerText(c);
    assert x + ([OpText(op)] + (y + ("=" + z))) == x + [OpText(op)] + y + "=" + z;
  }

  /** The four operations, with their characters written out. */
  lemma {:induction false} FourOperations(a: int, b: int, c: int)
    requires Short(a) && Short(b) && Short(c)
    ensures Check(IntegerText(a) + "+" + IntegerText(b) + "=" + IntegerText(c), REPORT_LIMITS).Consistent?
            <==> a + b == c
    ensures Check(IntegerText(a) + "-" + IntegerText(b) + "=" + IntegerText(c), REPORT_LIMITS).Consistent?
            <==> a - b == c
    ensures Check(IntegerText(a) + "×" + IntegerText(b) + "=" + IntegerText(c), REPORT_LIMITS).Consistent?
            <==> a * b == c
    ensures b > 0 ==> (Check(IntegerText(a) + "/" + IntegerText(b) + "=" + IntegerText(c), REPORT_LIMITS).Consistent?
                       <==> 2 * Size(a - c * b) <= b)
  {
    hide Check, IntegerText, Short, Recomputes;
    OneOperation(a, Plus, b, c);
    OneOperation(a, Hyphen, b, c);
    OneOperation(a, Cross, b, c);
    OneOperation(a, Slash, b, c);
  }
}
