/** The verdict on one candidate equation: parse it whole, infer units, evaluate exactly, compare
    within the tolerance of the number that is stated. */
module EquationVerdict {
  import opened EquationParser
  import opened EquationTokens
  import opened Expressions
  import opened Numerals
  import opened Options

  const MAX_CANDIDATE_CHARS := 512

  /** `left relation right`, with at least one operation on the left. */
  datatype Equation = Equation(left: Expr, relation: Relation, right: Quantity)

  datatype Rejection =
    | CandidateLimit | LexError(lex: LexReason) | RelationCount | ParseError(parse: Reason) | ExpectedEquation
    | CompoundRight | UnitError(unit: Failure) | AmbiguousResultUnit | AmbiguousPercentDisplay | SizeLimit
    | UnsafeBoundary

  /** What a comparison reports: the recomputed value and the tolerance, in the displayed unit. */
  datatype Shown = Shown(recomputed: real, tolerance: real, scale: Option<Scale>, suffix: Option<Suffix>)

  datatype Verdict = Consistent(shown: Shown) | Mismatch(shown: Shown) | Undefined | Unsupported(rejection: Rejection) {
    predicate Compared() { Consistent? || Mismatch? }
  }

  // ---------------------------------------------------------------- the stated number

  function TrailingZeros(digits: string): (n: nat)
    ensures n <= |digits|
  {
    if digits != "" && digits[|digits| - 1] == '0' then 1 + TrailingZeros(digits[..|digits| - 1]) else 0
  }

  function MinReal(x: real, y: real): real {
    if y < x then y else x
  }

  function MaxReal(x: real, y: real): real {
    if x < y then y else x
  }

  /** The unit of the last displayed decimal place. */
  function LastPlace(q: Quantity): (u: real)
    ensures u > 0.0
  {
    1.0 / Pow10(|q.number.fraction|) as real
  }

  /** The decimal place of the last digit that is not a trailing zero of an integer. */
  function SignificantPlace(q: Quantity): (u: real)
    ensures u >= 1.0
  {
    if q.Stated() == 0.0 then 1.0 else Pow10(TrailingZeros(q.number.whole)) as real
  }

  function Tolerance(q: Quantity, approximate: bool): real {
    if !approximate || q.number.fraction != "" then 0.5 * LastPlace(q)
    else MinReal(0.5 * SignificantPlace(q), MaxReal(Abs(q.Stated()) * 0.05, 0.5))
  }

  // ---------------------------------------------------------------- displays of a percentage

  predicate HasPercentLiteral(e: Expr) {
    match e
    case Leaf(q) => q.Kind() == Percent
    case Negative(x) => HasPercentLiteral(x)
    case Binary(_, l, r) => HasPercentLiteral(l) || HasPercentLiteral(r)
  }

  predicate BareHundred(e: Expr) {
    var x := if e.Negative? then e.operand else e;
    x.Leaf? && x.q.scale == None && x.q.suffix == None && x.q.Exact() == 100.0
  }

  predicate HasDisplayHundred(e: Expr) {
    match e
    case Leaf(_) => false
    case Negative(x) => HasDisplayHundred(x)
    case Binary(op, l, r) =>
      || (op.Times() && (BareHundred(l) || BareHundred(r)))
      || HasDisplayHundred(l)
      || (!op.Division() && HasDisplayHundred(r))
  }

  // ---------------------------------------------------------------- the verdict on an equation

  /** The left side's value in the unit displayed on the right; a legacy ratio display shows a ratio
      times 100 as percents. */
  function Recomputed(eq: Equation, exact: real, legacy: bool): real {
    (if legacy then exact / 100.0 else exact) / eq.right.Factor()
  }

  predicate Accepts(eq: Equation, x: real) {
    Abs(x - eq.right.Stated()) <= Tolerance(eq.right, eq.relation == Approximately)
  }

  function ShownFor(eq: Equation, x: real): Shown {
    Shown(x, Tolerance(eq.right, eq.relation == Approximately), eq.right.scale, eq.right.suffix)
  }

  function Judge(eq: Equation, legacyText: bool, limits: Limits): Verdict {
    var kind := InferKind(eq.left);
    if kind.Failure? then Unsupported(UnitError(kind.error))
    else if kind.value != eq.right.Kind() && !(Dimensionless(kind.value) && Dimensionless(eq.right.Kind())) then
      Unsupported(AmbiguousResultUnit)
    else
      var legacy := eq.right.Kind() == Percent && legacyText;
      if eq.right.Kind() == Percent && !legacy && HasDisplayHundred(eq.left) && !HasPercentLiteral(eq.left) then
        Unsupported(AmbiguousPercentDisplay)
      else
        match Evaluate(eq.left, LITERALLY, limits)
        case Failure(ZeroDivision) => Undefined
        case Failure(f) => Unsupported(SizeLimit)
        case Success(v) =>
          var x := Recomputed(eq, v.exact, legacy);
          if limits.Check(x).Failure? || !limits.rationalFits(x - eq.right.Stated()) then Unsupported(SizeLimit)
          else if Accepts(eq, x) then Consistent(ShownFor(eq, x)) else Mismatch(ShownFor(eq, x))
  }

  function Relations(ts: seq<Token>): nat {
    if ts == [] then 0 else (if ts[0].Relate? then 1 else 0) + Relations(ts[1..])
  }

  function CheckTokens(ts: seq<Token>, legacyText: bool, limits: Limits): Verdict {
    if Relations(ts) != 1 then Unsupported(RelationCount) else
    match ParseSide(ts)
    case Rejected(reason) => Unsupported(ParseError(reason))
    case Parsed(left) =>
      if left.rest == [] then Unsupported(ParseError(IncompleteExpression))
      else if !left.rest[0].Relate? || left.operations == 0 then Unsupported(ExpectedEquation)
      else
        match ParseQuantity(left.rest[1..], left.operands, left.operations)
        case Rejected(reason) => Unsupported(ParseError(reason))
        case Parsed(right) =>
          if right.rest != [] then Unsupported(CompoundRight)
          else Judge(Equation(left.node, left.rest[0].relation, right.node), legacyText, limits)
  }

  /** The tokens are one whole equation: a left side with an operation, a relation, one stated number. */
  predicate States(ts: seq<Token>, eq: Equation) {
    Relations(ts) == 1 && ParseSide(ts).Parsed? && Completes(ParseSide(ts).value, eq)
  }

  predicate Completes(left: Step<Expr>, eq: Equation) {
    && left.node == eq.left && left.operations > 0
    && left.rest != [] && left.rest[0] == Relate(eq.relation)
    && EndsWith(left, eq.right)
  }

  predicate EndsWith(left: Step<Expr>, stated: Quantity)
    requires left.rest != []
  {
    var right := ParseQuantity(left.rest[1..], left.operands, left.operations);
    right.Parsed? && right.value.rest == [] && right.value.node == stated
  }

  lemma StatedIsJudged(ts: seq<Token>, eq: Equation, legacyText: bool, limits: Limits)
    requires States(ts, eq)
    ensures CheckTokens(ts, legacyText, limits) == Judge(eq, legacyText, limits)
  {
  }

  lemma ComparedIsStated(ts: seq<Token>, legacyText: bool, limits: Limits) returns (eq: Equation)
    requires CheckTokens(ts, legacyText, limits).Compared()
    ensures States(ts, eq) && CheckTokens(ts, legacyText, limits) == Judge(eq, legacyText, limits)
  {
    var left := ParseSide(ts).value;
    var right := ParseQuantity(left.rest[1..], left.operands, left.operations).value;
    eq := Equation(left.node, left.rest[0].relation, right.node);
  }

  // ---------------------------------------------------------------- the verdict on a text

  // The first position from `i` on that is not white space.
  function SpaceEnd(s: string, i: nat): (j: nat)
    requires i <= |s|
    ensures i <= j <= |s|
    decreases |s| - i
  {
    if i < |s| && IsSpace(s[i]) then SpaceEnd(s, i + 1) else i
  }

  // The end of what is left before `n` without trailing white space.
  function TextEnd(s: string, n: nat): (j: nat)
    requires n <= |s|
    ensures j <= n
  {
    if n > 0 && IsSpace(s[n - 1]) then TextEnd(s, n - 1) else n
  }

  function SkipSpaces(s: string): string {
    s[SpaceEnd(s, 0)..]
  }

  function Strip(s: string): string {
    var a, b := SpaceEnd(s, 0), TextEnd(s, |s|);
    if a < b then s[a..b] else ""
  }

  predicate IsSign(c: char) {
    c == '+' || IsMinus(c)
  }

  predicate IsMinus(c: char) {
    c == '-' || c == '−'
  }

  predicate IsOver(c: char) {
    c == '/' || c == '÷'
  }

  predicate IsTimes(c: char) {
    c == '*' || c == '×'
  }

  predicate IsClosing(c: char) {
    c == ')'
  }

  function MatchOne(accepts: char -> bool, s: string): Option<string> {
    if s != "" && accepts(s[0]) then Some(s[1..]) else None
  }

  /** A number of 1 to 18 digits, with 1 to 12 decimals if any, and a sign directly before it if any. */
  function MatchNumber(s: string): Option<string> {
    MatchDigits(if s != "" && IsSign(s[0]) then s[1..] else s)
  }

  function MatchDigits(s: string): Option<string> {
    if s == "" || !IsDigit(s[0]) then None else
    var (n, length) := NumberAt(s);
    if n.WithinLimits() then Some(s[length..]) else None
  }

  function MatchHundred(s: string): Option<string> {
    if "100" <= s then Some(s[3..]) else None
  }

  /** The display pattern over what counts as a number and what may be skipped between its parts. */
  datatype Pattern = Pattern(number: string -> Option<string>, skip: string -> string) {

    /** A difference, its opening parenthesis already matched. */
    function Difference(s: string): Option<string> {
      var first :- number(skip(s));
      var minus :- MatchOne(IsMinus, skip(first));
      var second :- number(skip(minus));
      MatchOne(IsClosing, skip(second))
    }

    function Operand(s: string): Option<string> {
      if s != "" && s[0] == '(' then Difference(s[1..]) else number(s)
    }

    function Ratio(s: string): Option<string> {
      var operand :- Operand(s);
      var over :- MatchOne(IsOver, skip(operand));
      number(skip(over))
    }

    /** The older display of a ratio as percents: A/B×100, or (A-B)/C×100. */
    function Percents(s: string): Option<string> {
      var ratio :- Ratio(s);
      var times :- MatchOne(IsTimes, skip(ratio));
      var hundred :- MatchHundred(skip(times));
      Some(skip(hundred))
    }
  }

  predicate LegacyDisplay(s: string) {
    Pattern(MatchNumber, SkipSpaces).Percents(s) == Some("")
  }

  predicate IsRelation(c: char) {
    c == '=' || c == '＝' || c == '≈'
  }

  function BeforeRelation(s: string): string {
    if s == "" || IsRelation(s[0]) then "" else [s[0]] + BeforeRelation(s[1..])
  }

  /** The left side as it is written, without white space around it. */
  function LeftText(raw: string): string {
    Strip(BeforeRelation(raw))
  }

  function Check(raw: string, limits: Limits): Verdict {
    if |raw| > MAX_CANDIDATE_CHARS then Unsupported(CandidateLimit) else
    match Lex(raw, 0)
    case Unlexable(reason) => Unsupported(LexError(reason))
    case Tokens(ts) => CheckTokens(ts, LegacyDisplay(LeftText(raw)), limits)
  }

  method CheckCandidate(raw: string, limits: Limits) returns (v: Verdict)
    ensures v == Check(raw, limits)
  {
    if |raw| > MAX_CANDIDATE_CHARS {
      return Unsupported(CandidateLimit);
    }
    var lexed := Tokenize(raw);
    if lexed.Unlexable? {
      return Unsupported(LexError(lexed.reason));
    }
    v := CheckParsed(lexed.ts, LegacyDisplay(LeftText(raw)), limits);
  }

  method CheckParsed(ts: seq<Token>, legacyText: bool, limits: Limits) returns (v: Verdict)
    ensures v == CheckTokens(ts, legacyText, limits)
  {
    hide Relations, ParseSum, ParseQuantity, Judge;
    if Relations(ts) != 1 {
      return Unsupported(RelationCount);
    }
    var parser := new Parser(ts);
    var node := parser.Sum(0);
    if node.Rejected? {
      return Unsupported(ParseError(node.reason));
    }
    var relation := parser.Pop();
    if relation.Rejected? {
      return Unsupported(ParseError(relation.reason));
    }
    if !relation.value.Relate? || parser.operations == 0 {
      return Unsupported(ExpectedEquation);
    }
    var right := parser.SignedQuantity();
    if right.Rejected? {
      return Unsupported(ParseError(right.reason));
    }
    if parser.Peek().Some? {
      return Unsupported(CompoundRight);
    }
    var equation := Equation(node.value, relation.value.relation, right.value);
    return Judge(equation, legacyText, limits);
  }

  // ---------------------------------------------------------------- the meaning of a verdict

  function Multiple(m: int, unit: real): real {
    m as real * unit
  }

  /** `stated` is a multiple of `unit`, and no multiple of `unit` is nearer to `x`. */
  ghost predicate NearestMultiple(x: real, stated: real, unit: real) {
    && (exists m: int :: stated == Multiple(m, unit))
    && forall m: int :: Abs(x - stated) <= Abs(x - Multiple(m, unit))
  }

  lemma NearestIffWithinHalf(x: real, k: int, unit: real)
    requires unit > 0.0
    ensures Abs(x - Multiple(k, unit)) <= 0.5 * unit <==> NearestMultiple(x, Multiple(k, unit), unit)
  {
    var stated := Multiple(k, unit);
    if Abs(x - stated) <= 0.5 * unit {
      forall m: int
        ensures Abs(x - stated) <= Abs(x - Multiple(m, unit))
      {
        if m < k {
          MultiplesApart(m, k, unit);
        } else if k < m {
          MultiplesApart(k, m, unit);
        }
      }
    } else {
      NextMultiple(k, unit);
      var nearer := if x > stated then k + 1 else k - 1;
      assert Abs(x - Multiple(nearer, unit)) < Abs(x - stated);
    }
  }

  lemma NextMultiple(k: int, unit: real)
    ensures Multiple(k + 1, unit) == Multiple(k, unit) + unit
    ensures Multiple(k - 1, unit) == Multiple(k, unit) - unit
  {
  }

  lemma {:induction false} MultiplesApart(m: int, k: int, unit: real)
    requires unit > 0.0 && m < k
    ensures Multiple(k, unit) >= Multiple(m, unit) + unit
    decreases k - m
  {
    NextMultiple(m, unit);
    if m + 1 < k {
      MultiplesApart(m + 1, k, unit);
    }
  }

  // The stated number as a whole number of last places.
  function StatedPlaces(q: Quantity): int {
    var n: int := Unscaled(q.number);
    if q.sign in {HyphenSign, MinusSign} then -n else n
  }

  lemma StatedIsMultipleOfLastPlace(q: Quantity)
    ensures q.Stated() == Multiple(StatedPlaces(q), LastPlace(q))
  {
  }

  lemma {:induction false} TrailingZerosDivide(digits: string) returns (m: nat)
    requires AllDigits(digits)
    ensures DigitsValue(digits) == m * Pow10(TrailingZeros(digits))
  {
    if digits != "" && digits[|digits| - 1] == '0' {
      var front := digits[..|digits| - 1];
      m := TrailingZerosDivide(front);
      assert DigitsValue(digits) == 10 * (m * Pow10(TrailingZeros(front)));
    } else {
      m := DigitsValue(digits);
    }
  }

  lemma WholeValue(n: Number, m: int, z: nat)
    requires n.fraction == "" && Unscaled(n) == m * z
    ensures NumberValue(n) == m as real * z as real
  {
    assert Pow10(0) == 1;
    assert (m * z) as real == m as real * z as real;
  }

  lemma StatedIsMultipleOfSignificantPlace(q: Quantity) returns (k: int)
    requires q.number.fraction == ""
    ensures q.Stated() == Multiple(k, SignificantPlace(q))
  {
    var n := q.number;
    assert n.whole + n.fraction == n.whole;
    var m: int := TrailingZerosDivide(n.whole);
    var z := Pow10(TrailingZeros(n.whole));
    WholeValue(n, m, z);
    if q.Stated() == 0.0 {
      k := 0;
    } else if q.sign in {HyphenSign, MinusSign} {
      k := -m;
      assert (-m) as real * z as real == -(m as real * z as real);
    } else {
      k := m;
    }
  }

  /** With an equality sign, and with any decimal number, the equation is consistent exactly when the
      stated number is the exact value rounded to the last displayed place: no multiple of that place
      is nearer. */
  lemma ExactVerdict(eq: Equation, x: real)
    requires eq.relation != Approximately || eq.right.number.fraction != ""
    ensures Accepts(eq, x) <==> NearestMultiple(x, eq.right.Stated(), LastPlace(eq.right))
  {
    StatedIsMultipleOfLastPlace(eq.right);
    NearestIffWithinHalf(x, StatedPlaces(eq.right), LastPlace(eq.right));
    assert Tolerance(eq.right, eq.relation == Approximately) == 0.5 * LastPlace(eq.right);
  }

  /** An integer after "≈" may have rounded its trailing zeros, but by no more than 5% or 0.5. */
  lemma ApproximateVerdict(eq: Equation, x: real)
    requires eq.relation == Approximately && eq.right.number.fraction == ""
    ensures Accepts(eq, x) <==>
              && NearestMultiple(x, eq.right.Stated(), SignificantPlace(eq.right))
              && Abs(x - eq.right.Stated()) <= MaxReal(Abs(eq.right.Stated()) * 0.05, 0.5)
  {
    var k := StatedIsMultipleOfSignificantPlace(eq.right);
    NearestIffWithinHalf(x, k, SignificantPlace(eq.right));
  }

  /** "≈" never rejects what an equality sign accepts. */
  lemma ApproximationIsWeaker(eq: Equation, exactly: Relation, x: real)
    requires exactly != Approximately && Accepts(eq.(relation := exactly), x)
    ensures Accepts(eq.(relation := Approximately), x)
  {
    if eq.right.number.fraction == "" {
      assert LastPlace(eq.right) == 1.0;
    }
  }

  /** What a verdict says about the equation: it was read whole, its units fit, the left side has an
      exact value, and the comparison is the one `ExactVerdict` and `ApproximateVerdict` describe. */
  lemma {:induction false} VerdictMeaning(eq: Equation, legacyText: bool, limits: Limits)
    requires Judge(eq, legacyText, limits).Compared()
    ensures Evaluate(eq.left, LITERALLY, limits).Success?
    ensures var v := Evaluate(eq.left, LITERALLY, limits).value;
            var x := Recomputed(eq, v.exact, legacyText && eq.right.Kind() == Percent);
            && (v.kind == eq.right.Kind() || (Dimensionless(v.kind) && Dimensionless(eq.right.Kind())))
            && (Judge(eq, legacyText, limits).Consistent? <==> Accepts(eq, x))
            && Judge(eq, legacyText, limits).shown == ShownFor(eq, x)
  {
    UnitSoundness(eq.left, LITERALLY, limits);
  }

  /** The comparison of `ExactVerdict` and `ApproximateVerdict`, in terms of the numbers alone. */
  ghost predicate RoundsTo(eq: Equation, x: real) {
    if eq.relation != Approximately || eq.right.number.fraction != ""
    then NearestMultiple(x, eq.right.Stated(), LastPlace(eq.right))
    else NearestMultiple(x, eq.right.Stated(), SignificantPlace(eq.right))
         && Abs(x - eq.right.Stated()) <= MaxReal(Abs(eq.right.Stated()) * 0.05, 0.5)
  }

  lemma AcceptsWhatRounds(eq: Equation, x: real)
    ensures Accepts(eq, x) <==> RoundsTo(eq, x)
  {
    if eq.relation != Approximately || eq.right.number.fraction != "" {
      ExactVerdict(eq, x);
    } else {
      ApproximateVerdict(eq, x);
    }
  }

  /** From text to rounding: a text that is compared is, up to white space, one whole equation whose left
      side has an exact value in a fitting unit, and it is consistent exactly when that value rounds to
      the stated number. */
  lemma {:induction false} ComparedText(raw: string, limits: Limits) returns (ts: seq<Token>, eq: Equation)
    requires Check(raw, limits).Compared()
    ensures Lex(raw, 0) == Tokens(ts) && Text(ts) == WithoutSpaces(raw) && States(ts, eq)
    ensures Evaluate(eq.left, LITERALLY, limits).Success?
    ensures var v := Evaluate(eq.left, LITERALLY, limits).value;
            var legacy := LegacyDisplay(LeftText(raw)) && eq.right.Kind() == Percent;
            && (v.kind == eq.right.Kind() || (Dimensionless(v.kind) && Dimensionless(eq.right.Kind())))
            && (Check(raw, limits).Consistent? <==> RoundsTo(eq, Recomputed(eq, v.exact, legacy)))
            && Check(raw, limits).shown == ShownFor(eq, Recomputed(eq, v.exact, legacy))
  {
    ts := Lex(raw, 0).ts;
    var legacyText := LegacyDisplay(LeftText(raw));
    hide CheckTokens, Judge, Accepts, RoundsTo, States, LegacyDisplay, LeftText, Recomputed, ShownFor;
    LexFaithful(raw, 0);
    eq := ComparedIsStated(ts, legacyText, limits);
    VerdictMeaning(eq, legacyText, limits);
    var x := Recomputed(eq, Evaluate(eq.left, LITERALLY, limits).value.exact, legacyText && eq.right.Kind() == Percent);
    AcceptsWhatRounds(eq, x);
  }
}
