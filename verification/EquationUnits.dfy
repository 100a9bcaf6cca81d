/**
 * Units as powers of 元, 股 and the bare magnitude words, and when a whole equation gets which answer
 * (backend/ai_answer_quality.py, _result_kind, _infer_kind and check_equation_candidate).
 */
module EquationUnits {
  import opened EquationFractions
  import opened EquationParser
  import opened EquationTokens
  import opened EquationVerdict
  import opened Expressions
  import opened Numerals
  import opened Options

  datatype Powers = Powers(yuan: int, share: int, scaled: int)

  /** The powers of the three units, and for a bare ratio whether it is displayed as a percentage. */
  datatype Measure = Measure(powers: Powers, percent: bool)

  const BARE := Powers(0, 0, 0)

  /** No units, or one unit to the first power. */
  predicate Simple(p: Powers) {
    p in {BARE, Powers(1, 0, 0), Powers(0, 1, 0), Powers(0, 0, 1)}
  }

  function UnitOfLiteral(q: Quantity): Measure {
    match q.suffix
    case Some(YuanSuffix) => Measure(Powers(1, 0, 0), false)
    case Some(ShareSuffix) => Measure(Powers(0, 1, 0), false)
    case Some(PercentSuffix) => Measure(BARE, true)
    case _ => Measure(if q.scale.Some? then Powers(0, 0, 1) else BARE, false)
  }

  function Multiplied(l: Measure, r: Measure): Option<Measure> {
    var p := Powers(l.powers.yuan + r.powers.yuan, l.powers.share + r.powers.share, l.powers.scaled + r.powers.scaled);
    if Simple(p) then Some(Measure(p, p == BARE && (l.percent || r.percent))) else None
  }

  function Divided(l: Measure, r: Measure): Option<Measure> {
    var p := Powers(l.powers.yuan - r.powers.yuan, l.powers.share - r.powers.share, l.powers.scaled - r.powers.scaled);
    if Simple(p) then Some(Measure(p, l.percent && !r.percent)) else None
  }

  /** Sums need one unit on both sides; products and quotients add and subtract powers. */
  function UnitOf(e: Expr): Option<Measure> {
    match e
    case Leaf(q) => Some(UnitOfLiteral(q))
    case Negative(x) => UnitOf(x)
    case Binary(op, l, r) =>
      var left :- UnitOf(l);
      var right :- UnitOf(r);
      match op
      case Plus => if left == right then Some(left) else None
      case Hyphen => if left == right then Some(left) else None
      case Minus => if left == right then Some(left) else None
      case Star => Multiplied(left, right)
      case Cross => Multiplied(left, right)
      case Slash => Divided(left, right)
      case Obelus => Divided(left, right)
  }

  predicate IsKind(k: Kind, u: Measure) {
    match k
    case Yuan => u == Measure(Powers(1, 0, 0), false)
    case Share => u == Measure(Powers(0, 1, 0), false)
    case Scaled => u == Measure(Powers(0, 0, 1), false)
    case Scalar => u == Measure(BARE, false)
    case Percent => u == Measure(BARE, true)
  }

  /** The inferred kind is the unit, and none is inferred exactly when there is none. */
  lemma {:induction false} KindsArePowers(e: Expr)
    ensures InferKind(e).Success? <==> UnitOf(e).Some?
    ensures InferKind(e).Success? ==> IsKind(InferKind(e).value, UnitOf(e).value)
  {
    match e
    case Leaf(_) =>
    case Negative(x) => KindsArePowers(x);
    case Binary(op, l, r) =>
      KindsArePowers(l);
      KindsArePowers(r);
      if UnitOf(l).Some? && UnitOf(r).Some? {
        ResultIsPowers(op, InferKind(l).value, UnitOf(l).value, InferKind(r).value, UnitOf(r).value);
      }
      hide IsKind, ResultKind, Multiplied, Divided;
  }

  lemma ResultIsPowers(op: Op, j: Kind, l: Measure, k: Kind, r: Measure)
    requires IsKind(j, l) && IsKind(k, r)
    ensures var u := if op.Additive() then if l == r then Some(l) else None
                     else if op.Times() then Multiplied(l, r) else Divided(l, r);
            && (ResultKind(op, j, k).Success? <==> u.Some?)
            && (u.Some? ==> IsKind(ResultKind(op, j, k).value, u.value))
  {
  }

  // ---------------------------------------------------------------- percentages on the left side

  /** One step down into an expression. */
  datatype Turn = Within | ToLeft | ToRight

  function At(e: Expr, path: seq<Turn>): Option<Expr> {
    if path == [] then Some(e)
    else match e
      case Leaf(_) => None
      case Negative(x) => if path[0] == Within then At(x, path[1..]) else None
      case Binary(_, l, r) =>
        if path[0] == ToLeft then At(l, path[1..])
        else if path[0] == ToRight then At(r, path[1..])
        else None
  }

  /** No step of the path goes into what is divided by. */
  predicate AvoidsDivisors(e: Expr, path: seq<Turn>) {
    forall n :: 0 <= n < |path| ==> !IntoDivisor(e, path, n)
  }

  predicate IntoDivisor(e: Expr, path: seq<Turn>, n: nat)
    requires n < |path|
  {
    var here := At(e, path[..n]);
    here.Some? && here.value.Binary? && here.value.op in {Slash, Obelus} && path[n] == ToRight
  }

  /** 100 in digits, with or without a minus sign, and nothing after it. */
  predicate IsHundred(e: Expr) {
    match e
    case Leaf(q) => q.scale == None && q.suffix == None && DigitsOf(q) == 100 * Pow10(|q.number.fraction|)
    case Negative(x) => x.Leaf? && IsHundred(x)
    case Binary(_, _, _) => false
  }

  predicate TimesHundred(e: Option<Expr>) {
    e.Some? && e.value.Binary? && e.value.op in {Star, Cross} && (IsHundred(e.value.left) || IsHundred(e.value.right))
  }

  predicate IsPercentage(e: Option<Expr>) {
    e.Some? && e.value.Leaf? && e.value.q.suffix == Some(PercentSuffix)
  }

  /** Somewhere, but not in a divisor, something is multiplied by 100. */
  ghost predicate MultipliesByHundred(e: Expr) {
    exists path :: TimesHundred(At(e, path)) && AvoidsDivisors(e, path)
  }

  ghost predicate MentionsPercentage(e: Expr) {
    exists path :: IsPercentage(At(e, path))
  }

  lemma {:induction false} HundredIsBare(e: Expr)
    ensures BareHundred(e) <==> IsHundred(e)
  {
    var x := if e.Negative? then e.operand else e;
    if x.Leaf? && x.q.scale == None && x.q.suffix == None {
      LiteralIs(x.q);
      assert LiteralOf(x.q) == Exact(DigitsOf(x.q), Pow10(|x.q.number.fraction|));
      HundredTimes(x.q.Exact(), Pow10(|x.q.number.fraction|), DigitsOf(x.q));
    }
  }

  lemma HundredTimes(x: real, p: nat, n: int)
    requires p > 0 && x * p as real == n as real
    ensures x == 100.0 <==> n == 100 * p
  {
    if n == 100 * p {
      assert (x - 100.0) * p as real == 0.0;
    }
  }

  lemma {:induction false} Deeper(e: Expr, turn: Turn, x: Expr, path: seq<Turn>)
    requires At(e, [turn]) == Some(x)
    ensures At(e, [turn] + path) == At(x, path)
  {
    assert ([turn] + path)[1..] == path && [turn][1..] == [];
  }

  lemma {:induction false} DeeperAvoids(e: Expr, turn: Turn, x: Expr, path: seq<Turn>)
    requires At(e, [turn]) == Some(x)
    ensures AvoidsDivisors(e, [turn] + path) <==>
            !(e.Binary? && e.op in {Slash, Obelus} && turn == ToRight) && AvoidsDivisors(x, path)
  {
    var whole := [turn] + path;
    assert whole[..0] == [];
    forall n: nat | n < |path|
      ensures IntoDivisor(e, whole, n + 1) <==> IntoDivisor(x, path, n)
    {
      assert whole[..n + 1] == [turn] + path[..n];
      Deeper(e, turn, x, path[..n]);
    }
    assert IntoDivisor(e, whole, 0) <==> e.Binary? && e.op in {Slash, Obelus} && turn == ToRight;
    if AvoidsDivisors(e, whole) {
      forall n: nat | n < |path|
        ensures !IntoDivisor(x, path, n)
      {
        assert !IntoDivisor(e, whole, n + 1);
      }
    }
    if AvoidsDivisors(x, path) && !IntoDivisor(e, whole, 0) {
      forall n: nat | n < |whole|
        ensures !IntoDivisor(e, whole, n)
      {
        if n > 0 {
          assert !IntoDivisor(x, path, n - 1);
        }
      }
    }
  }

  lemma {:induction false} DeeperHundred(e: Expr, turn: Turn, x: Expr)
    requires At(e, [turn]) == Some(x) && MultipliesByHundred(x)
    requires !(e.Binary? && e.op in {Slash, Obelus} && turn == ToRight)
    ensures MultipliesByHundred(e)
  {
    hide AvoidsDivisors, TimesHundred;
    var path :| TimesHundred(At(x, path)) && AvoidsDivisors(x, path);
    Deeper(e, turn, x, path);
    DeeperAvoids(e, turn, x, path);
  }

  lemma {:induction false} DeeperPercentage(e: Expr, turn: Turn, x: Expr)
    requires At(e, [turn]) == Some(x) && MentionsPercentage(x)
    ensures MentionsPercentage(e)
  {
    hide IsPercentage;
    var path :| IsPercentage(At(x, path));
    Deeper(e, turn, x, path);
  }

  /** The first step of a path that leads somewhere. */
  lemma {:induction false} FirstTurn(e: Expr, path: seq<Turn>) returns (x: Expr)
    requires path != [] && At(e, path).Some?
    ensures At(e, [path[0]]) == Some(x) && At(x, path[1..]) == At(e, path)
    ensures AvoidsDivisors(e, path) ==>
              AvoidsDivisors(x, path[1..]) && !(e.Binary? && e.op in {Slash, Obelus} && path[0] == ToRight)
  {
    x := match e
      case Negative(y) => y
      case Binary(_, l, r) => if path[0] == ToLeft then l else r;
    assert [path[0]][1..] == [] && path == [path[0]] + path[1..];
    DeeperAvoids(e, path[0], x, path[1..]);
  }

  lemma {:induction false} HundredIsFound(e: Expr)
    ensures HasDisplayHundred(e) ==> MultipliesByHundred(e)
  {
    hide AvoidsDivisors, IsHundred, BareHundred;
    match e
    case Leaf(_) =>
    case Negative(x) =>
      HundredIsFound(x);
      assert At(e, [Within]) == Some(x);
      if HasDisplayHundred(x) {
        DeeperHundred(e, Within, x);
      }
    case Binary(op, l, r) =>
      HundredIsFound(l);
      HundredIsFound(r);
      HundredIsBare(l);
      HundredIsBare(r);
      assert At(e, [ToLeft]) == Some(l) && At(e, [ToRight]) == Some(r);
      if op.Times() && (BareHundred(l) || BareHundred(r)) {
        assert TimesHundred(At(e, [])) && AvoidsDivisors(e, []) by { NoTurns(e); }
      } else if HasDisplayHundred(l) {
        DeeperHundred(e, ToLeft, l);
      } else if HasDisplayHundred(e) {
        DeeperHundred(e, ToRight, r);
      }
  }

  lemma NoTurns(e: Expr)
    ensures AvoidsDivisors(e, [])
  {
  }

  lemma {:induction false} HundredCounts(e: Expr, path: seq<Turn>)
    requires TimesHundred(At(e, path)) && AvoidsDivisors(e, path)
    ensures HasDisplayHundred(e)
    decreases |path|
  {
    hide AvoidsDivisors, IsHundred, BareHundred;
    if path == [] {
      HundredIsBare(e.left);
      HundredIsBare(e.right);
    } else {
      var x := FirstTurn(e, path);
      HundredCounts(x, path[1..]);
    }
  }

  lemma {:induction false} PercentageIsFound(e: Expr)
    ensures HasPercentLiteral(e) ==> MentionsPercentage(e)
  {
    match e
    case Leaf(q) => assert q.Kind() == Percent ==> IsPercentage(At(e, []));
    case Negative(x) =>
      PercentageIsFound(x);
      assert At(e, [Within]) == Some(x);
      if HasPercentLiteral(x) {
        DeeperPercentage(e, Within, x);
      }
    case Binary(op, l, r) =>
      PercentageIsFound(l);
      PercentageIsFound(r);
      assert At(e, [ToLeft]) == Some(l) && At(e, [ToRight]) == Some(r);
      if HasPercentLiteral(l) {
        DeeperPercentage(e, ToLeft, l);
      } else if HasPercentLiteral(r) {
        DeeperPercentage(e, ToRight, r);
      }
  }

  lemma {:induction false} PercentageCounts(e: Expr, path: seq<Turn>)
    requires IsPercentage(At(e, path))
    ensures HasPercentLiteral(e)
    decreases |path|
  {
    if path != [] {
      var x := FirstTurn(e, path);
      PercentageCounts(x, path[1..]);
    }
  }

  /** The two searches through the left side find what they look for, and nothing else. */
  lemma {:induction false} LeftSideSearches(e: Expr)
    ensures HasDisplayHundred(e) <==> MultipliesByHundred(e)
    ensures HasPercentLiteral(e) <==> MentionsPercentage(e)
  {
    hide HasDisplayHundred, HasPercentLiteral, TimesHundred, AvoidsDivisors, IsPercentage, At;
    HundredIsFound(e);
    PercentageIsFound(e);
    if MultipliesByHundred(e) {
      var path :| TimesHundred(At(e, path)) && AvoidsDivisors(e, path);
      HundredCounts(e, path);
    }
    if MentionsPercentage(e) {
      var path :| IsPercentage(At(e, path));
      PercentageCounts(e, path);
    }
  }

  // ---------------------------------------------------------------- which answer an equation gets

  /** The displayed units measure the same thing: percentages and bare ratios do. */
  predicate Fits(eq: Equation) {
    UnitOf(eq.left).Some? && UnitOf(eq.left).value.powers == UnitOfLiteral(eq.right).powers
  }

  /**
   * Nothing is compared for its units exactly when they do not fit, for its percentage exactly when a
   * multiplication by 100 leaves open what it means, and for its size only when the limits refuse a number; the
   * rest divides by zero or is compared, as the fraction of the left side says.
   */
  predicate Answered(v: Verdict, eq: Equation, unclear: bool) {
    && (v.Unsupported? && (v.rejection.UnitError? || v.rejection == AmbiguousResultUnit) <==> !Fits(eq))
    && (v == Unsupported(AmbiguousPercentDisplay) <==> Fits(eq) && unclear)
    && (v.Undefined? ==> Fraction(eq.left).ByZero?)
    && (v.Compared() ==> Fraction(eq.left).Exact?)
    && (Fits(eq) && !unclear ==> v.Undefined? || v.Compared() || v == Unsupported(SizeLimit))
  }

  lemma {:induction false} JudgeAnswers(eq: Equation, flag: bool, limits: Limits)
    ensures var unclear := && !flag && eq.right.suffix == Some(PercentSuffix)
                           && HasDisplayHundred(eq.left) && !HasPercentLiteral(eq.left);
            && Answered(Judge(eq, flag, limits), eq, unclear)
            && (limits == UNLIMITED ==> Judge(eq, flag, limits) != Unsupported(SizeLimit))
  {
    KindsArePowers(eq.left);
    hide Fraction, InferKind, UnitOf, HasDisplayHundred, HasPercentLiteral, Accepts, Recomputed;
    if InferKind(eq.left).Success? {
      UnitSoundness(eq.left, LITERALLY, limits);
      ZeroOrFraction(eq.left, limits);
    }
    hide Evaluate;
  }

  /** The answer to a text of at most 512 characters that is one whole equation; size never matters without limits. */
  lemma {:induction false} WholeEquationAnswered(raw: string, ts: seq<Token>, eq: Equation, limits: Limits)
    requires |raw| <= MAX_CANDIDATE_CHARS && Lex(raw, 0) == Tokens(ts) && States(ts, eq)
    ensures Answered(Check(raw, limits), eq,
                     && !LegacyDisplay(LeftText(raw)) && eq.right.suffix == Some(PercentSuffix)
                     && MultipliesByHundred(eq.left) && !MentionsPercentage(eq.left))
    ensures limits == UNLIMITED ==> Check(raw, limits) != Unsupported(SizeLimit)
  {
    var flag := LegacyDisplay(LeftText(raw));
    StatedIsJudged(ts, eq, flag, limits);
    hide *;
    JudgeAnswers(eq, flag, limits);
    LeftSideSearches(eq.left);
    IsJudged(raw, ts, limits);
  }

  lemma {:induction false} IsJudged(raw: string, ts: seq<Token>, limits: Limits)
    requires |raw| <= MAX_CANDIDATE_CHARS && Lex(raw, 0) == Tokens(ts)
    ensures Check(raw, limits) == CheckTokens(ts, LegacyDisplay(LeftText(raw)), limits)
  {
  }

  lemma {:induction false} ZeroOrFraction(e: Expr, limits: Limits)
    requires InferKind(e).Success?
    ensures Evaluate(e, LITERALLY, limits) == Failure(ZeroDivision) ==> Fraction(e).ByZero?
    ensures Evaluate(e, LITERALLY, limits).Success? ==> Fraction(e).Exact?
  {
    EvaluatesToFraction(e);
    var r := Evaluate(e, LITERALLY, limits);
    if r.Success? || r == Failure(ZeroDivision) {
      LimitsKeepZero(e, limits);
    }
  }

  /** A division by zero that is found within limits is found without them, and so is a value. */
  lemma {:induction false} LimitsKeepZero(e: Expr, limits: Limits)
    requires Evaluate(e, LITERALLY, limits).Success? || Evaluate(e, LITERALLY, limits) == Failure(ZeroDivision)
    ensures Evaluate(e, LITERALLY, UNLIMITED) == Evaluate(e, LITERALLY, limits)
  {
    if Evaluate(e, LITERALLY, limits).Success? {
      LimitsOnlyRefuse(e, limits);
      return;
    }
    hide Apply, ResultKind;
    match e
    case Negative(x) => LimitsKeepZero(x, limits);
    case Binary(_, l, r) =>
      LimitsKeepZero(l, limits);
      if Evaluate(l, LITERALLY, limits).Success? {
        LimitsKeepZero(r, limits);
      }
  }
}
