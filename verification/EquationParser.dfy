/** The recursive-descent parser for one literal equation side, with its counters and limits.
    `Parse…` functions say what each parser method does to the remaining tokens and the two counters;
    class `Parser` carries them out on `pos`, `operands` and `operations`. */
module EquationParser {
  import opened Expressions
  import opened Numerals
  import opened Options

  const MAX_OPERANDS := 16
  const MAX_OPERATIONS := 14
  const MAX_DEPTH := 4

  datatype Relation = Equals | FullwidthEquals | Approximately

  datatype Mark = YuanMark | ShareMark | TimesMark | PercentMark | FullwidthPercentMark {
    function Suffix(): Suffix {
      match this
      case YuanMark => YuanSuffix
      case ShareMark => ShareSuffix
      case TimesMark => TimesSuffix
      case PercentMark => PercentSuffix
      case FullwidthPercentMark => PercentSuffix
    }
  }

  datatype Token =
    | Num(number: Number)
    | Magnitude(scale: Scale)
    | Unit(mark: Mark)
    | Operator(op: Op)
    | Open
    | Close
    | Relate(relation: Relation)
  {
    predicate IsSign() { Operator? && op.Additive() }
    predicate IsFactor() { Operator? && !op.Additive() }
  }

  datatype Reason =
    | IncompleteExpression | ExpectedNumber | OperandLimit | AmbiguousUnit
    | DepthLimit | UnclosedParenthesis | OperationLimit

  datatype Outcome<+T> = Parsed(value: T) | Rejected(reason: Reason) {
    predicate IsFailure() { Rejected? }
    function PropagateFailure<U>(): Outcome<U> requires Rejected? { Rejected(reason) }
    function Extract(): T requires Parsed? { value }
  }

  /** What parsing leaves behind: the result, the tokens not consumed, and the counters. */
  datatype Step<+T> = Step(node: T, rest: seq<Token>, operands: nat, operations: nat)

  function SignOf(op: Op): Sign
    requires op.Additive()
  {
    match op
    case Plus => PlusSign
    case Hyphen => HyphenSign
    case Minus => MinusSign
  }

  // ---------------------------------------------------------------- the grammar

  /** Digits, then a magnitude word if one follows, then a unit if one follows. */
  function ParseUnsigned(sign: Sign, ts: seq<Token>, operands: nat, operations: nat): (r: Outcome<Step<Quantity>>)
    ensures r.Parsed? ==> |r.value.rest| < |ts|
  {
    if ts == [] then Rejected(IncompleteExpression)
    else if !ts[0].Num? then Rejected(ExpectedNumber)
    else if operands + 1 > MAX_OPERANDS then Rejected(OperandLimit)
    else
      var scale := if |ts| > 1 && ts[1].Magnitude? then Some(ts[1].scale) else None;
      var afterScale := if scale.Some? then ts[2..] else ts[1..];
      var suffix := if afterScale != [] && afterScale[0].Unit? then Some(afterScale[0].mark.Suffix()) else None;
      var rest := if suffix.Some? then afterScale[1..] else afterScale;
      var q := Quantity(sign, ts[0].number, scale, suffix);
      if scale.Some? && (suffix == Some(TimesSuffix) || suffix == Some(PercentSuffix)) then Rejected(AmbiguousUnit)
      else Parsed(Step(q, rest, operands + 1, operations))
  }

  function ParseQuantity(ts: seq<Token>, operands: nat, operations: nat): (r: Outcome<Step<Quantity>>)
    ensures r.Parsed? ==> |r.value.rest| < |ts|
  {
    if ts != [] && ts[0].IsSign()
    then ParseUnsigned(SignOf(ts[0].op), ts[1..], operands, operations)
    else ParseUnsigned(Unsigned, ts, operands, operations)
  }

  function Signed(sign: Option<Op>, e: Expr): Expr {
    if sign == Some(Hyphen) || sign == Some(Minus) then Negative(e) else e
  }

  /** An atom after its sign: a parenthesised sum, or an unsigned quantity. */
  function ParseBody(ts: seq<Token>, operands: nat, operations: nat, depth: nat): (r: Outcome<Step<Expr>>)
    ensures r.Parsed? ==> |r.value.rest| < |ts|
    decreases |ts|, 0
  {
    if ts != [] && ts[0].Open? then
      if depth >= MAX_DEPTH then Rejected(DepthLimit) else
      var inner :- ParseSum(ts[1..], operands, operations, depth + 1);
      if inner.rest == [] then Rejected(IncompleteExpression)
      else if !inner.rest[0].Close? then Rejected(UnclosedParenthesis)
      else Parsed(inner.(rest := inner.rest[1..]))
    else
      var q :- ParseUnsigned(Unsigned, ts, operands, operations);
      Parsed(Step(Leaf(q.node), q.rest, q.operands, q.operations))
  }

  function ParseAtom(ts: seq<Token>, operands: nat, operations: nat, depth: nat): (r: Outcome<Step<Expr>>)
    ensures r.Parsed? ==> |r.value.rest| < |ts|
    decreases |ts|, 1
  {
    var sign := if ts != [] && ts[0].IsSign() then Some(ts[0].op) else None;
    var body :- ParseBody(if sign.Some? then ts[1..] else ts, operands, operations, depth);
    Parsed(body.(node := Signed(sign, body.node)))
  }

  function ParseProduct(ts: seq<Token>, operands: nat, operations: nat, depth: nat): (r: Outcome<Step<Expr>>)
    ensures r.Parsed? ==> |r.value.rest| < |ts|
    decreases |ts|, 2
  {
    var first :- ParseAtom(ts, operands, operations, depth);
    ProductRest(first, depth)
  }

  /** The loop of a product: fold further factors onto the node so far. */
  function ProductRest(s: Step<Expr>, depth: nat): (r: Outcome<Step<Expr>>)
    ensures r.Parsed? ==> |r.value.rest| <= |s.rest|
    decreases |s.rest|, 2
  {
    if s.rest == [] || !s.rest[0].IsFactor() then Parsed(s)
    else if s.operations + 1 > MAX_OPERATIONS then Rejected(OperationLimit)
    else
      var right :- ParseAtom(s.rest[1..], s.operands, s.operations + 1, depth);
      ProductRest(right.(node := Binary(s.rest[0].op, s.node, right.node)), depth)
  }

  function ParseSum(ts: seq<Token>, operands: nat, operations: nat, depth: nat): (r: Outcome<Step<Expr>>)
    ensures r.Parsed? ==> |r.value.rest| < |ts|
    decreases |ts|, 3
  {
    var first :- ParseProduct(ts, operands, operations, depth);
    SumRest(first, depth)
  }

  function SumRest(s: Step<Expr>, depth: nat): (r: Outcome<Step<Expr>>)
    ensures r.Parsed? ==> |r.value.rest| <= |s.rest|
    decreases |s.rest|, 3
  {
    if s.rest == [] || !s.rest[0].IsSign() then Parsed(s)
    else if s.operations + 1 > MAX_OPERATIONS then Rejected(OperationLimit)
    else
      var right :- ParseProduct(s.rest[1..], s.operands, s.operations + 1, depth);
      SumRest(right.(node := Binary(s.rest[0].op, s.node, right.node)), depth)
  }

  function ParseSide(ts: seq<Token>): Outcome<Step<Expr>> {
    ParseSum(ts, 0, 0, 0)
  }

  // One round of either loop.
  lemma {:induction false} NextFactor(s: Step<Expr>, depth: nat)
    ensures ProductRest(s, depth) ==
            if s.rest == [] || !s.rest[0].IsFactor() then Parsed(s)
            else if s.operations + 1 > MAX_OPERATIONS then Rejected(OperationLimit)
            else match ParseAtom(s.rest[1..], s.operands, s.operations + 1, depth)
              case Rejected(reason) => Rejected(reason)
              case Parsed(right) => ProductRest(right.(node := Binary(s.rest[0].op, s.node, right.node)), depth)
  {
  }

  lemma {:induction false} NextTerm(s: Step<Expr>, depth: nat)
    ensures SumRest(s, depth) ==
            if s.rest == [] || !s.rest[0].IsSign() then Parsed(s)
            else if s.operations + 1 > MAX_OPERATIONS then Rejected(OperationLimit)
            else match ParseProduct(s.rest[1..], s.operands, s.operations + 1, depth)
              case Rejected(reason) => Rejected(reason)
              case Parsed(right) => SumRest(right.(node := Binary(s.rest[0].op, s.node, right.node)), depth)
  {
  }

  // ---------------------------------------------------------------- the parser object

  class Parser {
    const tokens: seq<Token>
    var pos: nat
    var operands: nat
    var operations: nat

    predicate Valid()
      reads this
    {
      pos <= |tokens|
    }

    function Rest(): seq<Token>
      reads this
      requires Valid()
    {
      tokens[pos..]
    }

    // The method's result and the new state are those of `spec`.
    ghost predicate Follows<T>(r: Outcome<T>, spec: Outcome<Step<T>>)
      reads this
    {
      match spec
      case Rejected(reason) => Valid() && r == Rejected(reason)
      case Parsed(s) =>
        Valid() && r == Parsed(s.node) && Rest() == s.rest && operands == s.operands && operations == s.operations
    }

    constructor (tokens: seq<Token>)
      ensures Valid() && this.tokens == tokens && Rest() == tokens && operands == 0 && operations == 0
    {
      this.tokens := tokens;
      pos, operands, operations := 0, 0, 0;
    }

    function Peek(): (t: Option<Token>)
      reads this
      requires Valid()
      ensures t == if Rest() == [] then None else Some(Rest()[0])
    {
      if pos < |tokens| then Some(tokens[pos]) else None
    }

    method Pop() returns (r: Outcome<Token>)
      requires Valid()
      modifies this`pos
      ensures Valid()
      ensures old(Rest()) == [] ==> r == Rejected(IncompleteExpression)
      ensures old(Rest()) != [] ==> r == Parsed(old(Rest())[0]) && Rest() == old(Rest())[1..]
    {
      var token := Peek();
      if token == None {
        return Rejected(IncompleteExpression);
      }
      Advance();
      return Parsed(token.value);
    }

    // `pop` right after a `peek` that saw a token.
    method Advance()
      requires Valid() && Rest() != []
      modifies this`pos
      ensures Valid() && Rest() == old(Rest())[1..]
    {
      pos := pos + 1;
    }

    method Unsigned(sign: Sign) returns (r: Outcome<Quantity>)
      requires Valid()
      modifies this
      ensures Follows(r, ParseUnsigned(sign, old(Rest()), old(operands), old(operations)))
    {
      ghost var ts := Rest();
      var raw :- Pop();
      if !raw.Num? {
        return Rejected(ExpectedNumber);
      }
      operands := operands + 1;
      if operands > MAX_OPERANDS {
        return Rejected(OperandLimit);
      }
      var scale: Option<Scale> := None;
      var next := Peek();
      if next.Some? && next.value.Magnitude? {
        scale := Some(next.value.scale);
        Advance();
      }
      assert scale == if |ts| > 1 && ts[1].Magnitude? then Some(ts[1].scale) else None;
      assert Rest() == if scale.Some? then ts[2..] else ts[1..];
      var suffix: Option<Suffix> := None;
      next := Peek();
      if next.Some? && next.value.Unit? {
        suffix := Some(next.value.mark.Suffix());
        Advance();
      }
      if scale.Some? && (suffix == Some(TimesSuffix) || suffix == Some(PercentSuffix)) {
        return Rejected(AmbiguousUnit);
      }
      return Parsed(Quantity(sign, raw.number, scale, suffix));
    }

    method SignedQuantity() returns (r: Outcome<Quantity>)
      requires Valid()
      modifies this
      ensures Follows(r, ParseQuantity(old(Rest()), old(operands), old(operations)))
    {
      var sign := Sign.Unsigned;
      var next := Peek();
      if next.Some? && next.value.IsSign() {
        sign := SignOf(next.value.op);
        Advance();
      }
      r := Unsigned(sign);
    }

    method Atom(depth: nat) returns (r: Outcome<Expr>)
      requires Valid()
      modifies this
      ensures Follows(r, ParseAtom(old(Rest()), old(operands), old(operations), depth))
      decreases |Rest()|, 0
    {
      hide ParseSum, ParseUnsigned;
      var sign: Option<Op> := None;
      var next := Peek();
      if next.Some? && next.value.IsSign() {
        sign := Some(next.value.op);
        Advance();
      }
      var node: Expr;
      if Peek() == Some(Open) {
        if depth >= MAX_DEPTH {
          return Rejected(DepthLimit);
        }
        Advance();
        node :- Sum(depth + 1);
        var close :- Pop();
        if !close.Close? {
          return Rejected(UnclosedParenthesis);
        }
      } else {
        var q :- Unsigned(Sign.Unsigned);
        node := Leaf(q);
      }
      return Parsed(Signed(sign, node));
    }

    method CountOperation() returns (r: Outcome<()>)
      modifies this`operations
      ensures operations == old(operations) + 1
      ensures r == if operations > MAX_OPERATIONS then Rejected(OperationLimit) else Parsed(())
    {
      operations := operations + 1;
      if operations > MAX_OPERATIONS {
        return Rejected(OperationLimit);
      }
      return Parsed(());
    }

    // One round of the loop.
    method Factor(node: Expr, depth: nat) returns (r: Outcome<Expr>)
      requires Valid() && Rest() != [] && Rest()[0].IsFactor()
      modifies this
      ensures Valid() && (r.Parsed? ==> |Rest()| < |old(Rest())|)
      ensures var spec := ProductRest(Step(node, old(Rest()), old(operands), old(operations)), depth);
              spec == if r.Rejected? then Rejected(r.reason)
                      else ProductRest(Step(r.value, Rest(), operands, operations), depth)
      decreases |Rest()|, 1
    {
      hide ParseProduct, ProductRest, ParseAtom;
      NextFactor(Step(node, Rest(), operands, operations), depth);
      var op := tokens[pos].op;
      Advance();
      var _ :- CountOperation();
      var right :- Atom(depth);
      return Parsed(Binary(op, node, right));
    }

    method Product(depth: nat) returns (r: Outcome<Expr>)
      requires Valid()
      modifies this
      ensures Follows(r, ParseProduct(old(Rest()), old(operands), old(operations), depth))
      decreases |Rest()|, 2
    {
      ghost var spec := ParseProduct(Rest(), operands, operations, depth);
      ghost var bound := |Rest()|;
      hide ParseAtom;
      var node :- Atom(depth);
      while pos < |tokens| && tokens[pos].IsFactor()
        invariant Valid() && |Rest()| < bound
        invariant spec == ProductRest(Step(node, Rest(), operands, operations), depth)
        decreases |Rest()|
      {
        node :- Factor(node, depth);
      }
      return Parsed(node);
    }

    // One round of the loop.
    method Term(node: Expr, depth: nat) returns (r: Outcome<Expr>)
      requires Valid() && Rest() != [] && Rest()[0].IsSign()
      modifies this
      ensures Valid() && (r.Parsed? ==> |Rest()| < |old(Rest())|)
      ensures var spec := SumRest(Step(node, old(Rest()), old(operands), old(operations)), depth);
              spec == if r.Rejected? then Rejected(r.reason)
                      else SumRest(Step(r.value, Rest(), operands, operations), depth)
      decreases |Rest()|, 3
    {
      hide ParseSum, SumRest, ParseProduct;
      NextTerm(Step(node, Rest(), operands, operations), depth);
      var op := tokens[pos].op;
      Advance();
      var _ :- CountOperation();
      var right :- Product(depth);
      return Parsed(Binary(op, node, right));
    }

    method Sum(depth: nat) returns (r: Outcome<Expr>)
      requires Valid()
      modifies this
      ensures Follows(r, ParseSum(old(Rest()), old(operands), old(operations), depth))
      decreases |Rest()|, 4
    {
      ghost var spec := ParseSum(Rest(), operands, operations, depth);
      ghost var bound := |Rest()|;
      hide ParseProduct;
      var node :- Product(depth);
      while pos < |tokens| && tokens[pos].IsSign()
        invariant Valid() && |Rest()| < bound
        invariant spec == SumRest(Step(node, Rest(), operands, operations), depth)
        decreases |Rest()|
      {
        node :- Term(node, depth);
      }
      return Parsed(node);
    }
  }
}
