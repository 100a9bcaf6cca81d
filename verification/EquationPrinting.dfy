/** Printing expressions with as few parentheses as the grammar allows, and what parsing makes of it. */
module EquationPrinting {
  import opened EquationParser
  import opened EquationTokens
  import opened Expressions
  import opened Options

  /** The three levels of the grammar, loosest first. */
  datatype Level = SumLevel | ProductLevel | AtomLevel {
    function Rank(): nat {
      match this
      case SumLevel => 2
      case ProductLevel => 1
      case AtomLevel => 0
    }
  }

  function NaturalLevel(e: Expr): Level {
    if e.Binary? then if e.op.Additive() then SumLevel else ProductLevel else AtomLevel
  }

  predicate NeedsParentheses(e: Expr, level: Level) {
    level.Rank() < NaturalLevel(e).Rank()
  }

  function MarkOf(s: Suffix): Mark {
    match s
    case YuanSuffix => YuanMark
    case ShareSuffix => ShareMark
    case TimesSuffix => TimesMark
    case PercentSuffix => PercentMark
  }

  function PrintSuffix(q: Quantity): seq<Token> {
    if q.suffix.Some? then [Unit(MarkOf(q.suffix.value))] else []
  }

  function PrintQuantity(q: Quantity): seq<Token> {
    [Num(q.number)]
    + (if q.scale.Some? then [Magnitude(q.scale.value)] else [])
    + PrintSuffix(q)
  }

  function Print(e: Expr, level: Level): seq<Token>
    decreases e, 1
  {
    if NeedsParentheses(e, level) then [Open] + Bare(e) + [Close] else Bare(e)
  }

  function Bare(e: Expr): seq<Token>
    decreases e, 0
  {
    match e
    case Leaf(q) => PrintQuantity(q)
    case Negative(x) => [Operator(Hyphen)] + if x.Leaf? then Bare(x) else [Open] + Bare(x) + [Close]
    case Binary(op, l, r) =>
      if op.Additive()
      then Print(l, SumLevel) + [Operator(op)] + Print(r, ProductLevel)
      else Print(l, ProductLevel) + [Operator(op)] + Print(r, AtomLevel)
  }

  /** How deeply the printed form nests parentheses. */
  function Nesting(e: Expr, level: Level): nat
    decreases e, 1
  {
    if NeedsParentheses(e, level) then BareNesting(e) + 1 else BareNesting(e)
  }

  function BareNesting(e: Expr): nat
    decreases e, 0
  {
    match e
    case Leaf(_) => 0
    case Negative(x) => if x.Leaf? then 0 else BareNesting(x) + 1
    case Binary(op, l, r) =>
      if op.Additive()
      then Max(Nesting(l, SumLevel), Nesting(r, ProductLevel))
      else Max(Nesting(l, ProductLevel), Nesting(r, AtomLevel))
  }

  function Max(x: nat, y: nat): nat {
    if x < y then y else x
  }

  /** Leaves that some token list denotes: no sign of their own, no ambiguous unit. */
  predicate Printable(e: Expr) {
    match e
    case Leaf(q) => q.sign == Sign.Unsigned && q.Valid()
    case Negative(x) => Printable(x)
    case Binary(_, l, r) => Printable(l) && Printable(r)
  }

  // What may come after an expression printed at `level` without being taken for a part of it.
  predicate MayFollow(rest: seq<Token>, level: Level) {
    rest == [] || (!rest[0].Magnitude? && !rest[0].Unit? && (level.SumLevel? ==> !rest[0].IsFactor()))
  }

  predicate Fits(e: Expr, level: Level, operands: nat, operations: nat, depth: nat) {
    && Printable(e)
    && Nesting(e, level) + depth <= MAX_DEPTH
    && operands + Leaves(e) <= MAX_OPERANDS
    && operations + Operations(e) <= MAX_OPERATIONS
  }

  function After(e: Expr, rest: seq<Token>, operands: nat, operations: nat): Step<Expr> {
    Step(e, rest, operands + Leaves(e), operations + Operations(e))
  }

  // Reading a binary operation is reading its left part, the operator, and its right part.
  lemma {:induction false} AfterBinary(e: Expr, rest: seq<Token>, operands: nat, operations: nat)
    requires e.Binary?
    ensures After(e, rest, operands, operations)
         == After(e.right, rest, operands + Leaves(e.left), operations + Operations(e.left) + 1).(node := e)
  {
  }

  // ---------------------------------------------------------------- parsing what was printed

  // What follows the magnitude word, or the number if there is none.
  lemma ReadSuffix(q: Quantity, rest: seq<Token>)
    requires rest == [] || !rest[0].Unit?
    ensures var tail := PrintSuffix(q) + rest;
            && (tail != [] && tail[0].Unit? <==> q.suffix.Some?)
            && (q.suffix.Some? ==> Some(tail[0].mark.Suffix()) == q.suffix && tail[1..] == rest)
            && (q.suffix.None? ==> tail == rest)
  {
    if q.suffix.Some? {
      assert (PrintSuffix(q) + rest)[1..] == rest;
    }
  }

  lemma {:induction false} ParsePrintedQuantity(q: Quantity, rest: seq<Token>, operands: nat, operations: nat)
    requires Printable(Leaf(q)) && operands + 1 <= MAX_OPERANDS
    requires rest == [] || (!rest[0].Magnitude? && !rest[0].Unit?)
    ensures ParseUnsigned(Sign.Unsigned, PrintQuantity(q) + rest, operands, operations)
         == Parsed(Step(q, rest, operands + 1, operations))
  {
    var ts, tail := PrintQuantity(q) + rest, PrintSuffix(q) + rest;
    ReadSuffix(q, rest);
    if q.scale.Some? {
      assert ts == [Num(q.number), Magnitude(q.scale.value)] + tail;
      assert ts[2..] == tail;
    } else {
      assert ts == [Num(q.number)] + tail;
      assert ts[1..] == tail;
      assert tail == [] || !tail[0].Magnitude?;
    }
    hide PrintQuantity, PrintSuffix;
  }

  // The parts of `e` nest less deeply than `e`, and need no more counts.
  lemma FitsTerms(e: Expr, operands: nat, operations: nat, depth: nat)
    requires e.Binary? && e.op.Additive() && Fits(e, SumLevel, operands, operations, depth)
    ensures Fits(e.left, SumLevel, operands, operations, depth)
    ensures Fits(e.right, ProductLevel, operands + Leaves(e.left), operations + Operations(e.left) + 1, depth)
  {
    assert BareNesting(e) == Max(Nesting(e.left, SumLevel), Nesting(e.right, ProductLevel));
  }

  lemma FitsFactors(e: Expr, operands: nat, operations: nat, depth: nat)
    requires e.Binary? && !e.op.Additive() && Fits(e, ProductLevel, operands, operations, depth)
    ensures Fits(e.left, ProductLevel, operands, operations, depth)
    ensures Fits(e.right, AtomLevel, operands + Leaves(e.left), operations + Operations(e.left) + 1, depth)
  {
    assert BareNesting(e) == Max(Nesting(e.left, ProductLevel), Nesting(e.right, AtomLevel));
  }

  lemma FitsGroup(e: Expr, operands: nat, operations: nat, depth: nat)
    requires Fits(e, AtomLevel, operands, operations, depth)
    ensures e.Binary? ==> depth < MAX_DEPTH && Fits(e, SumLevel, operands, operations, depth + 1)
    ensures e.Negative? && !e.operand.Leaf? ==>
              depth < MAX_DEPTH && Fits(e.operand, SumLevel, operands, operations, depth + 1)
  {
    if e.Negative? && !e.operand.Leaf? {
      assert BareNesting(e) == BareNesting(e.operand) + 1;
    }
  }

  lemma Reassociate(a: seq<Token>, b: seq<Token>, c: seq<Token>, rest: seq<Token>)
    ensures a + b + c + rest == a + (b + (c + rest))
  {
  }

  // A binary operation prints as its left part, the operator, and its right part.
  lemma {:induction false} PrintBinary(e: Expr, rest: seq<Token>)
    requires e.Binary?
    ensures e.op.Additive() ==>
              Bare(e) + rest == Print(e.left, SumLevel) + ([Operator(e.op)] + (Print(e.right, ProductLevel) + rest))
    ensures !e.op.Additive() ==>
              Bare(e) + rest == Print(e.left, ProductLevel) + ([Operator(e.op)] + (Print(e.right, AtomLevel) + rest))
  {
    if e.op.Additive() {
      Reassociate(Print(e.left, SumLevel), [Operator(e.op)], Print(e.right, ProductLevel), rest);
    } else {
      Reassociate(Print(e.left, ProductLevel), [Operator(e.op)], Print(e.right, AtomLevel), rest);
    }
  }

  // A parenthesised bare form is an atom body.
  lemma {:induction false} ParseGroup(e: Expr, rest: seq<Token>, operands: nat, operations: nat, depth: nat)
    requires depth < MAX_DEPTH
    requires ParseSum(Bare(e) + ([Close] + rest), operands, operations, depth + 1)
          == SumRest(After(e, [Close] + rest, operands, operations), depth + 1)
    ensures ParseBody([Open] + Bare(e) + [Close] + rest, operands, operations, depth)
         == Parsed(After(e, rest, operands, operations))
  {
    var ts := [Open] + Bare(e) + [Close] + rest;
    assert ts[1..] == Bare(e) + ([Close] + rest);
    assert ([Close] + rest)[1..] == rest;
  }

  // A product that no further factor follows is a first term.
  lemma {:induction false} ParseFirstTerm(ts: seq<Token>, s: Step<Expr>, operands: nat, operations: nat, depth: nat)
    requires ParseProduct(ts, operands, operations, depth) == ProductRest(s, depth)
    requires s.rest == [] || !s.rest[0].IsFactor()
    ensures ParseSum(ts, operands, operations, depth) == SumRest(s, depth)
  {
  }

  lemma {:induction false} ParseAtomPrinted(e: Expr, rest: seq<Token>, operands: nat, operations: nat, depth: nat)
    requires Fits(e, AtomLevel, operands, operations, depth) && MayFollow(rest, AtomLevel)
    ensures ParseAtom(Print(e, AtomLevel) + rest, operands, operations, depth)
         == Parsed(After(e, rest, operands, operations))
    decreases e, if e.Binary? then 3 else 0
  {
    if e.Leaf? || (e.Negative? && e.operand.Leaf?) {
      ParseLeafPrinted(e, rest, operands, operations, depth);
    } else {
      FitsGroup(e, operands, operations, depth);
      var inner := if e.Negative? then e.operand else e;
      ParseSumPrinted(inner, [Close] + rest, operands, operations, depth + 1);
      ParseGroupPrinted(e, inner, rest, operands, operations, depth);
    }
  }

  lemma {:induction false} ParseLeafPrinted(e: Expr, rest: seq<Token>, operands: nat, operations: nat, depth: nat)
    requires e.Leaf? || (e.Negative? && e.operand.Leaf?)
    requires Printable(e) && operands + 1 <= MAX_OPERANDS && MayFollow(rest, AtomLevel)
    ensures ParseAtom(Print(e, AtomLevel) + rest, operands, operations, depth)
         == Parsed(After(e, rest, operands, operations))
  {
    hide ParseUnsigned;
    var q := if e.Leaf? then e.q else e.operand.q;
    ParsePrintedQuantity(q, rest, operands, operations);
    if e.Negative? {
      assert Bare(e.operand) == PrintQuantity(q) && Print(e, AtomLevel) == Bare(e);
      assert Bare(e) + rest == [Operator(Hyphen)] + (PrintQuantity(q) + rest);
    }
  }

  lemma {:induction false} ParseGroupPrinted(e: Expr, inner: Expr, rest: seq<Token>,
                                             operands: nat, operations: nat, depth: nat)
    requires (e.Binary? && inner == e) || (e.Negative? && !e.operand.Leaf? && inner == e.operand)
    requires depth < MAX_DEPTH
    requires ParseSum(Print(inner, SumLevel) + ([Close] + rest), operands, operations, depth + 1)
          == SumRest(After(inner, [Close] + rest, operands, operations), depth + 1)
    ensures ParseAtom(Print(e, AtomLevel) + rest, operands, operations, depth)
         == Parsed(After(e, rest, operands, operations))
  {
    hide ParseSum, ParseBody, SumRest;
    assert Print(inner, SumLevel) == Bare(inner);
    ParseGroup(inner, rest, operands, operations, depth);
    var group := [Open] + Bare(inner) + [Close] + rest;
    if e.Negative? {
      assert Print(e, AtomLevel) == Bare(e);
      assert Bare(e) + rest == [Operator(Hyphen)] + group;
    }
  }

  lemma {:induction false} ParseProductPrinted(e: Expr, rest: seq<Token>, operands: nat, operations: nat, depth: nat)
    requires Fits(e, ProductLevel, operands, operations, depth) && MayFollow(rest, ProductLevel)
    ensures ParseProduct(Print(e, ProductLevel) + rest, operands, operations, depth)
         == ProductRest(After(e, rest, operands, operations), depth)
    decreases e, if NeedsParentheses(e, ProductLevel) then 4 else 1
  {
    hide ProductRest, ParseAtom, Bare, Leaves, Operations, BareNesting, Printable;
    if e.Binary? && !e.op.Additive() {
      ParseFactorsPrinted(e, rest, operands, operations, depth);
    } else {
      assert Print(e, ProductLevel) == Print(e, AtomLevel);
      assert Nesting(e, ProductLevel) == Nesting(e, AtomLevel);
      ParseAtomPrinted(e, rest, operands, operations, depth);
    }
  }

  lemma {:induction false} ParseFactorsPrinted(e: Expr, rest: seq<Token>, operands: nat, operations: nat, depth: nat)
    requires e.Binary? && !e.op.Additive()
    requires Fits(e, ProductLevel, operands, operations, depth) && MayFollow(rest, ProductLevel)
    ensures ParseProduct(Print(e, ProductLevel) + rest, operands, operations, depth)
         == ProductRest(After(e, rest, operands, operations), depth)
    decreases e, 0
  {
    hide ParseProduct, ProductRest, Bare, Leaves, Operations, BareNesting, Printable, Nesting;
    AfterBinary(e, rest, operands, operations);
    assert Print(e, ProductLevel) == Bare(e);
    FitsFactors(e, operands, operations, depth);
    PrintBinary(e, rest);
    var tail := [Operator(e.op)] + (Print(e.right, AtomLevel) + rest);
    ParseProductPrinted(e.left, tail, operands, operations, depth);
    ParseFactorPrinted(Print(e, ProductLevel) + rest, After(e.left, tail, operands, operations), e.op, e.right, rest,
                       operands, operations, depth);
  }

  // After `l` was read from `ts`, the operator and the printed `r` follow.
  lemma {:induction false} ParseFactorPrinted(ts: seq<Token>, s: Step<Expr>, op: Op, r: Expr, rest: seq<Token>,
                                              operands: nat, operations: nat, depth: nat)
    requires !op.Additive() && MayFollow(rest, ProductLevel)
    requires s.rest == [Operator(op)] + (Print(r, AtomLevel) + rest)
    requires Fits(r, AtomLevel, s.operands, s.operations + 1, depth)
    requires ParseProduct(ts, operands, operations, depth) == ProductRest(s, depth)
    ensures var t := After(r, rest, s.operands, s.operations + 1);
            ParseProduct(ts, operands, operations, depth) == ProductRest(t.(node := Binary(op, s.node, r)), depth)
    decreases r, 5
  {
    hide Print, Leaves, Operations, BareNesting, Printable, Nesting, ParseAtom;
    assert s.rest[1..] == Print(r, AtomLevel) + rest;
    ParseAtomPrinted(r, rest, s.operands, s.operations + 1, depth);
  }

  lemma {:induction false} ParseSumPrinted(e: Expr, rest: seq<Token>, operands: nat, operations: nat, depth: nat)
    requires Fits(e, SumLevel, operands, operations, depth) && MayFollow(rest, SumLevel)
    ensures ParseSum(Print(e, SumLevel) + rest, operands, operations, depth)
         == SumRest(After(e, rest, operands, operations), depth)
    decreases e, 2
  {
    hide ParseSum, ParseProduct, ProductRest, SumRest, Bare, Leaves, Operations, BareNesting, Printable;
    if e.Binary? && e.op.Additive() {
      AfterBinary(e, rest, operands, operations);
      assert Print(e, SumLevel) == Bare(e);
      FitsTerms(e, operands, operations, depth);
      PrintBinary(e, rest);
      var tail := [Operator(e.op)] + (Print(e.right, ProductLevel) + rest);
      ParseSumPrinted(e.left, tail, operands, operations, depth);
      ParseTermPrinted(Print(e, SumLevel) + rest, After(e.left, tail, operands, operations), e.op, e.right, rest,
                       operands, operations, depth);
    } else {
      assert Print(e, SumLevel) == Print(e, ProductLevel);
      assert Nesting(e, SumLevel) == Nesting(e, ProductLevel);
      ParseProductPrinted(e, rest, operands, operations, depth);
      ParseFirstTerm(Print(e, SumLevel) + rest, After(e, rest, operands, operations), operands, operations, depth);
    }
  }

  lemma {:induction false} ParseTermPrinted(ts: seq<Token>, s: Step<Expr>, op: Op, r: Expr, rest: seq<Token>,
                                            operands: nat, operations: nat, depth: nat)
    requires op.Additive() && MayFollow(rest, SumLevel)
    requires s.rest == [Operator(op)] + (Print(r, ProductLevel) + rest)
    requires Fits(r, ProductLevel, s.operands, s.operations + 1, depth)
    requires ParseSum(ts, operands, operations, depth) == SumRest(s, depth)
    ensures var t := After(r, rest, s.operands, s.operations + 1);
            ParseSum(ts, operands, operations, depth) == SumRest(t.(node := Binary(op, s.node, r)), depth)
    decreases r, 5
  {
    hide Print, Leaves, Operations, BareNesting, Printable, Nesting, ParseProduct;
    assert s.rest[1..] == Print(r, ProductLevel) + rest;
    ParseProductPrinted(r, rest, s.operands, s.operations + 1, depth);
  }

  // ---------------------------------------------------------------- what the parser builds

  // The counters moved by exactly the leaves and operations of the tree that was built, and the tree
  // can be printed within the depth that was left.
  predicate Built(e: Expr, level: Level, operands: nat, operations: nat, s: Step<Expr>, depth: nat) {
    && e == s.node
    && s.operands == operands + Leaves(e) && s.operations == operations + Operations(e)
    && s.operations <= MAX_OPERATIONS
    && Printable(e) && Nesting(e, level) + depth <= MAX_DEPTH
  }

  predicate Sound(r: Outcome<Step<Expr>>, level: Level, operands: nat, operations: nat, depth: nat) {
    match r
    case Parsed(s) => Built(s.node, level, operands, operations, s, depth)
    case Rejected(reason) => reason != OperandLimit
  }

  predicate Balanced(operands: nat, operations: nat, depth: nat) {
    operands <= operations <= MAX_OPERATIONS && depth <= MAX_DEPTH
  }

  lemma {:induction false} AtomSound(ts: seq<Token>, operands: nat, operations: nat, depth: nat)
    requires Balanced(operands, operations, depth)
    ensures Sound(ParseAtom(ts, operands, operations, depth), AtomLevel, operands, operations, depth)
    decreases |ts|, 1
  {
    var sign := if ts != [] && ts[0].IsSign() then Some(ts[0].op) else None;
    var body := if sign.Some? then ts[1..] else ts;
    BodySound(body, operands, operations, depth);
  }

  // The body may also be negated: only a group gets parentheses then.
  lemma {:induction false} BodySound(ts: seq<Token>, operands: nat, operations: nat, depth: nat)
    requires Balanced(operands, operations, depth)
    ensures var r := ParseBody(ts, operands, operations, depth);
            Sound(r, AtomLevel, operands, operations, depth)
            && (r.Parsed? ==> Nesting(Negative(r.value.node), AtomLevel) + depth <= MAX_DEPTH)
    decreases |ts|, 0
  {
    if ts != [] && ts[0].Open? && depth < MAX_DEPTH {
      SumSound(ts[1..], operands, operations, depth + 1);
    }
  }

  lemma {:induction false} ProductSound(ts: seq<Token>, operands: nat, operations: nat, depth: nat)
    requires Balanced(operands, operations, depth)
    ensures Sound(ParseProduct(ts, operands, operations, depth), ProductLevel, operands, operations, depth)
    decreases |ts|, 2
  {
    AtomSound(ts, operands, operations, depth);
    var first := ParseAtom(ts, operands, operations, depth);
    if first.Parsed? {
      ProductRestSound(first.value, operands, operations, depth);
    }
  }

  lemma {:induction false} ProductRestSound(s: Step<Expr>, operands: nat, operations: nat, depth: nat)
    requires Balanced(operands, operations, depth)
    requires Built(s.node, ProductLevel, operands, operations, s, depth)
    ensures Sound(ProductRest(s, depth), ProductLevel, operands, operations, depth)
    decreases |s.rest|, 2
  {
    if s.rest != [] && s.rest[0].IsFactor() && s.operations + 1 <= MAX_OPERATIONS {
      AtomSound(s.rest[1..], s.operands, s.operations + 1, depth);
      var right := ParseAtom(s.rest[1..], s.operands, s.operations + 1, depth);
      if right.Parsed? {
        var node := Binary(s.rest[0].op, s.node, right.value.node);
        ProductRestSound(right.value.(node := node), operands, operations, depth);
      }
    }
  }

  lemma {:induction false} SumSound(ts: seq<Token>, operands: nat, operations: nat, depth: nat)
    requires Balanced(operands, operations, depth)
    ensures Sound(ParseSum(ts, operands, operations, depth), SumLevel, operands, operations, depth)
    decreases |ts|, 3
  {
    ProductSound(ts, operands, operations, depth);
    var first := ParseProduct(ts, operands, operations, depth);
    if first.Parsed? {
      SumRestSound(first.value, operands, operations, depth);
    }
  }

  lemma {:induction false} SumRestSound(s: Step<Expr>, operands: nat, operations: nat, depth: nat)
    requires Balanced(operands, operations, depth)
    requires Built(s.node, SumLevel, operands, operations, s, depth)
    ensures Sound(SumRest(s, depth), SumLevel, operands, operations, depth)
    decreases |s.rest|, 3
  {
    if s.rest != [] && s.rest[0].IsSign() && s.operations + 1 <= MAX_OPERATIONS {
      ProductSound(s.rest[1..], s.operands, s.operations + 1, depth);
      var right := ParseProduct(s.rest[1..], s.operands, s.operations + 1, depth);
      if right.Parsed? {
        var node := Binary(s.rest[0].op, s.node, right.value.node);
        SumRestSound(right.value.(node := node), operands, operations, depth);
      }
    }
  }

  // ---------------------------------------------------------------- main results

  predicate WithinLimits(e: Expr) {
    Nesting(e, SumLevel) <= MAX_DEPTH && Operations(e) <= MAX_OPERATIONS
  }

  /** Parsing a printed tree gives back exactly that tree, all tokens consumed, precisely when the tree
      nests and operates within the limits. */
  lemma {:induction false} RoundTrip(e: Expr)
    requires Printable(e)
    ensures ParseSide(Print(e, SumLevel)) == Parsed(Step(e, [], Leaves(e), Operations(e))) <==> WithinLimits(e)
  {
    if WithinLimits(e) {
      ParseSumPrinted(e, [], 0, 0, 0);
      assert Print(e, SumLevel) + [] == Print(e, SumLevel);
    } else {
      SumSound(Print(e, SumLevel), 0, 0, 0);
    }
  }

  /** Whatever the parser accepts, it accepts again from the printed tree, as the same tree: redundant
      parentheses and plus signs are all that printing can lose. */
  lemma AcceptedIsReprintable(ts: seq<Token>)
    requires ParseSide(ts).Parsed?
    ensures var s := ParseSide(ts).value;
            Printable(s.node) && WithinLimits(s.node)
            && s.operands == Leaves(s.node) && s.operations == Operations(s.node)
            && ParseSide(Print(s.node, SumLevel)) == Parsed(s.(rest := []))
  {
    SumSound(ts, 0, 0, 0);
    RoundTrip(ParseSide(ts).value.node);
  }

  predicate NumbersWithinLimits(e: Expr) {
    match e
    case Leaf(q) => q.number.WithinLimits()
    case Negative(x) => NumbersWithinLimits(x)
    case Binary(_, l, r) => NumbersWithinLimits(l) && NumbersWithinLimits(r)
  }

  // A token that is neither a number nor a magnitude word keeps its neighbours apart.
  lemma LexableAround(a: seq<Token>, t: Token, b: seq<Token>)
    requires Lexable(a) && Lexable(b) && !t.Num? && !t.Magnitude?
    ensures Lexable(a + [t] + b)
  {
    var ts := a + [t] + b;
    forall i | 0 < i < |ts|
      ensures !Merge(ts[i - 1], ts[i])
    {
      if i < |a| {
        assert !Merge(a[i - 1], a[i]);
      } else if i > |a| + 1 {
        var j := i - |a| - 1;
        assert ts[i - 1] == b[j - 1] && ts[i] == b[j];
        assert !Merge(b[j - 1], b[j]);
      }
    }
  }

  lemma LexableGroup(ts: seq<Token>)
    requires Lexable(ts)
    ensures Lexable([Open] + ts + [Close])
  {
    LexableAround([], Open, ts);
    LexableAround([Open] + ts, Close, []);
    assert [] + [Open] + ts == [Open] + ts;
    assert [Open] + ts + [Close] + [] == [Open] + ts + [Close];
  }

  lemma {:induction false} PrintIsLexable(e: Expr, level: Level)
    requires NumbersWithinLimits(e)
    ensures Lexable(Print(e, level))
    decreases e, 1
  {
    BareIsLexable(e);
    LexableGroup(Bare(e));
  }

  lemma {:induction false} BareIsLexable(e: Expr)
    requires NumbersWithinLimits(e)
    ensures Lexable(Bare(e))
    decreases e, 0
  {
    match e
    case Leaf(q) =>
    case Negative(x) =>
      BareIsLexable(x);
      LexableGroup(Bare(x));
      var inner := if x.Leaf? then Bare(x) else [Open] + Bare(x) + [Close];
      LexableAround([], Operator(Hyphen), inner);
      assert [] + [Operator(Hyphen)] + inner == [Operator(Hyphen)] + inner;
    case Binary(op, l, r) =>
      var left := if op.Additive() then SumLevel else ProductLevel;
      var right := if op.Additive() then ProductLevel else AtomLevel;
      PrintIsLexable(l, left);
      PrintIsLexable(r, right);
      LexableAround(Print(l, left), Operator(op), Print(r, right));
  }

  /** From text to tree: the text of a printed tree is tokenized and parsed back to that tree. */
  lemma {:induction false} TextRoundTrip(e: Expr)
    requires Printable(e) && NumbersWithinLimits(e) && WithinLimits(e) && |Print(e, SumLevel)| <= MAX_TOKENS
    ensures Lex(Text(Print(e, SumLevel)), 0) == Tokens(Print(e, SumLevel))
    ensures ParseSide(Print(e, SumLevel)) == Parsed(Step(e, [], Leaves(e), Operations(e)))
  {
    PrintIsLexable(e, SumLevel);
    LexText(Print(e, SumLevel), 0);
    RoundTrip(e);
  }

  /** The operand limit never rejects: neither while the left side is parsed, nor for the number that
      is stated on the right. */
  lemma OperandLimitNeverRejects(ts: seq<Token>, right: seq<Token>)
    ensures ParseSide(ts) != Rejected(OperandLimit)
    ensures ParseSide(ts).Parsed? ==>
              var s := ParseSide(ts).value;
              s.operands < MAX_OPERANDS && ParseQuantity(right, s.operands, s.operations) != Rejected(OperandLimit)
  {
    SumSound(ts, 0, 0, 0);
  }
}
