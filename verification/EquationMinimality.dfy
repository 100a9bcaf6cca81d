/** No token list that is read as a tree is shorter, or nests less deeply, than the tree's print. */
module EquationMinimality {
  import opened EquationParser
  import opened EquationPrinting
  import opened Expressions
  import opened Options

  /** Parentheses opened less parentheses closed. */
  function Balance(ts: seq<Token>): int {
    if ts == [] then 0
    else (if ts[0].Open? then 1 else if ts[0].Close? then -1 else 0) + Balance(ts[1..])
  }

  /** The most parentheses that are open at any one point. */
  function Peak(ts: seq<Token>): nat {
    if ts == [] then 0
    else if ts[0].Open? then Peak(ts[1..]) + 1
    else if ts[0].Close? then (if Peak(ts[1..]) == 0 then 0 else Peak(ts[1..]) - 1)
    else Peak(ts[1..])
  }

  lemma {:induction false} PeakConcat(a: seq<Token>, b: seq<Token>)
    ensures Balance(a + b) == Balance(a) + Balance(b)
    ensures Peak(a + b) == if Peak(a) < Balance(a) + Peak(b) then Balance(a) + Peak(b) else Peak(a)
  {
    if a == [] {
      assert a + b == b;
    } else {
      assert (a + b)[1..] == a[1..] + b;
      PeakConcat(a[1..], b);
    }
  }

  predicate Flat(ts: seq<Token>) {
    forall i :: 0 <= i < |ts| ==> !ts[i].Open? && !ts[i].Close?
  }

  lemma {:induction false} FlatPeak(ts: seq<Token>)
    requires Flat(ts)
    ensures Balance(ts) == 0 && Peak(ts) == 0
  {
    if ts != [] {
      FlatPeak(ts[1..]);
    }
  }

  lemma {:induction false} GroupPeak(ts: seq<Token>)
    requires Balance(ts) == 0
    ensures Balance([Open] + ts + [Close]) == 0 && Peak([Open] + ts + [Close]) == Peak(ts) + 1
  {
    assert [Open] + ts + [Close] == [Open] + (ts + [Close]);
    assert ([Open] + (ts + [Close]))[1..] == ts + [Close];
    PeakConcat(ts, [Close]);
    assert [Close][1..] == [];
  }

  // Two balanced parts around one operator.
  lemma {:induction false} JoinPeak(a: seq<Token>, op: Op, b: seq<Token>)
    requires Balance(a) == 0 && Balance(b) == 0
    ensures Balance(a + [Operator(op)] + b) == 0 && Peak(a + [Operator(op)] + b) == Max(Peak(a), Peak(b))
  {
    FlatPeak([Operator(op)]);
    PeakConcat(a, [Operator(op)]);
    PeakConcat(a + [Operator(op)], b);
  }

  lemma {:induction false} SignPeak(op: Op, ts: seq<Token>)
    ensures Balance([Operator(op)] + ts) == Balance(ts) && Peak([Operator(op)] + ts) == Peak(ts)
  {
    assert ([Operator(op)] + ts)[1..] == ts;
  }

  /** `Nesting` is how deeply the print nests. */
  lemma {:induction false} PrintPeak(e: Expr, level: Level)
    ensures Balance(Print(e, level)) == 0 && Peak(Print(e, level)) == Nesting(e, level)
    decreases e, 1
  {
    BarePeak(e);
    GroupPeak(Bare(e));
  }

  lemma {:induction false} BarePeak(e: Expr)
    ensures Balance(Bare(e)) == 0 && Peak(Bare(e)) == BareNesting(e)
    decreases e, 0
  {
    match e
    case Leaf(q) => FlatPeak(PrintQuantity(q));
    case Negative(x) =>
      BarePeak(x);
      GroupPeak(Bare(x));
      SignPeak(Hyphen, if x.Leaf? then Bare(x) else [Open] + Bare(x) + [Close]);
    case Binary(op, l, r) =>
      var left := if op.Additive() then SumLevel else ProductLevel;
      var right := if op.Additive() then ProductLevel else AtomLevel;
      PrintPeak(l, left);
      PrintPeak(r, right);
      JoinPeak(Print(l, left), op, Print(r, right));
  }

  // ---------------------------------------------------------------- what was read for a tree

  /** These tokens, with all their parentheses closed, are as many as the print of `e` has, and nest as deeply. */
  predicate Covers(used: seq<Token>, e: Expr, level: Level) {
    Balance(used) == 0 && |Print(e, level)| <= |used| && Nesting(e, level) <= Peak(used)
  }

  // With a sign before them they cover the negated tree too.
  predicate CoversNegated(used: seq<Token>, e: Expr) {
    Balance(used) == 0 && |Print(Negative(e), AtomLevel)| <= 1 + |used| && Nesting(Negative(e), AtomLevel) <= Peak(used)
  }

  lemma {:induction false} QuantityCovers(used: seq<Token>, q: Quantity)
    requires Flat(used) && |used| == |PrintQuantity(q)|
    ensures Covers(used, Leaf(q), AtomLevel) && CoversNegated(used, Leaf(q))
  {
    FlatPeak(used);
    assert Bare(Leaf(q)) == PrintQuantity(q) && Bare(Negative(Leaf(q))) == [Operator(Hyphen)] + PrintQuantity(q);
  }

  lemma {:induction false} GroupCovers(used: seq<Token>, e: Expr)
    requires Covers(used, e, SumLevel)
    ensures Covers([Open] + used + [Close], e, AtomLevel) && CoversNegated([Open] + used + [Close], e)
  {
    GroupPeak(used);
    assert Print(e, SumLevel) == Bare(e) && Nesting(e, SumLevel) == BareNesting(e);
    assert Print(Negative(e), AtomLevel) == Bare(Negative(e));
    assert Bare(Negative(e)) == [Operator(Hyphen)] + if e.Leaf? then Bare(e) else [Open] + Bare(e) + [Close];
    assert BareNesting(Negative(e)) == if e.Leaf? then 0 else BareNesting(e) + 1;
    hide Peak, Balance;
  }

  lemma {:induction false} SignCovers(op: Op, used: seq<Token>, e: Expr)
    requires op.Additive() && Covers(used, e, AtomLevel) && CoversNegated(used, e)
    ensures Covers([Operator(op)] + used, Signed(Some(op), e), AtomLevel)
  {
    hide Peak, Balance, Print, Nesting;
    SignPeak(op, used);
  }

  lemma {:induction false} CoversLooser(used: seq<Token>, e: Expr)
    ensures Covers(used, e, AtomLevel) ==> Covers(used, e, ProductLevel)
    ensures Covers(used, e, ProductLevel) ==> Covers(used, e, SumLevel)
  {
    hide Peak, Balance, Bare, BareNesting;
  }

  lemma {:induction false} FactorCovers(a: seq<Token>, l: Expr, op: Op, b: seq<Token>, r: Expr)
    requires !op.Additive() && Covers(a, l, ProductLevel) && Covers(b, r, AtomLevel)
    ensures Covers(a + [Operator(op)] + b, Binary(op, l, r), ProductLevel)
  {
    JoinPeak(a, op, b);
    var e := Binary(op, l, r);
    assert Print(e, ProductLevel) == Bare(e) && Nesting(e, ProductLevel) == BareNesting(e);
    assert Bare(e) == Print(l, ProductLevel) + [Operator(op)] + Print(r, AtomLevel);
    hide Peak, Balance, Print, Nesting;
  }

  lemma {:induction false} TermCovers(a: seq<Token>, l: Expr, op: Op, b: seq<Token>, r: Expr)
    requires op.Additive() && Covers(a, l, SumLevel) && Covers(b, r, ProductLevel)
    ensures Covers(a + [Operator(op)] + b, Binary(op, l, r), SumLevel)
  {
    JoinPeak(a, op, b);
    var e := Binary(op, l, r);
    assert Print(e, SumLevel) == Bare(e) && Nesting(e, SumLevel) == BareNesting(e);
    assert Bare(e) == Print(l, SumLevel) + [Operator(op)] + Print(r, ProductLevel);
    hide Peak, Balance, Print, Nesting;
  }

  lemma UnsignedIsFlat(ts: seq<Token>, operands: nat, operations: nat) returns (used: seq<Token>)
    requires ParseUnsigned(Sign.Unsigned, ts, operands, operations).Parsed?
    ensures var s := ParseUnsigned(Sign.Unsigned, ts, operands, operations).value;
            ts == used + s.rest && Flat(used) && |used| == |PrintQuantity(s.node)|
  {
    var s := ParseUnsigned(Sign.Unsigned, ts, operands, operations).value;
    used := ts[..|ts| - |s.rest|];
  }

  lemma Regroup(before: seq<Token>, op: seq<Token>, part: seq<Token>, tail: seq<Token>, rest: seq<Token>)
    ensures before + (op + part + tail) == before + op + part + tail
    ensures op + (part + (tail + rest)) == op + part + tail + rest
  {
  }

  // ---------------------------------------------------------------- along the parser

  lemma {:induction false} BodyCovers(ts: seq<Token>, operands: nat, operations: nat, depth: nat)
    returns (used: seq<Token>)
    requires ParseBody(ts, operands, operations, depth).Parsed?
    ensures var s := ParseBody(ts, operands, operations, depth).value;
            ts == used + s.rest && Covers(used, s.node, AtomLevel) && CoversNegated(used, s.node)
    decreases |ts|, 0
  {
    hide Covers, CoversNegated, ParseSum, ParseUnsigned;
    if ts != [] && ts[0].Open? {
      var inner := SumCovers(ts[1..], operands, operations, depth + 1);
      var s := ParseSum(ts[1..], operands, operations, depth + 1).value;
      used := [Open] + inner + [Close];
      GroupCovers(inner, s.node);
      assert ts == [Open] + ts[1..] && s.rest == [Close] + s.rest[1..];
    } else {
      used := UnsignedIsFlat(ts, operands, operations);
      QuantityCovers(used, ParseUnsigned(Sign.Unsigned, ts, operands, operations).value.node);
    }
  }

  lemma {:induction false} AtomCovers(ts: seq<Token>, operands: nat, operations: nat, depth: nat)
    returns (used: seq<Token>)
    requires ParseAtom(ts, operands, operations, depth).Parsed?
    ensures var s := ParseAtom(ts, operands, operations, depth).value;
            ts == used + s.rest && Covers(used, s.node, AtomLevel)
    decreases |ts|, 1
  {
    hide Covers, CoversNegated, ParseBody;
    if ts != [] && ts[0].IsSign() {
      var body := BodyCovers(ts[1..], operands, operations, depth);
      used := [ts[0]] + body;
      SignCovers(ts[0].op, body, ParseBody(ts[1..], operands, operations, depth).value.node);
      assert ts == [ts[0]] + ts[1..];
    } else {
      used := BodyCovers(ts, operands, operations, depth);
    }
  }

  lemma {:induction false} ProductCovers(ts: seq<Token>, operands: nat, operations: nat, depth: nat)
    returns (used: seq<Token>)
    requires ParseProduct(ts, operands, operations, depth).Parsed?
    ensures var s := ParseProduct(ts, operands, operations, depth).value;
            ts == used + s.rest && Covers(used, s.node, ProductLevel)
    decreases |ts|, 2
  {
    hide Covers, ParseAtom, ProductRest;
    var atom := AtomCovers(ts, operands, operations, depth);
    var first := ParseAtom(ts, operands, operations, depth).value;
    CoversLooser(atom, first.node);
    var more := ProductRestCovers(atom, first, depth);
    used := atom + more;
  }

  /** `before` was read for the node so far, and what the loop reads is added to it. */
  lemma {:induction false} ProductRestCovers(before: seq<Token>, s: Step<Expr>, depth: nat) returns (more: seq<Token>)
    requires ProductRest(s, depth).Parsed? && Covers(before, s.node, ProductLevel)
    ensures var end := ProductRest(s, depth).value;
            s.rest == more + end.rest && Covers(before + more, end.node, ProductLevel)
    decreases |s.rest|, 2
  {
    hide Covers, ParseAtom;
    if s.rest == [] || !s.rest[0].IsFactor() {
      more := [];
      assert before + more == before;
    } else {
      var op := s.rest[0].op;
      var atom := AtomCovers(s.rest[1..], s.operands, s.operations + 1, depth);
      var right := ParseAtom(s.rest[1..], s.operands, s.operations + 1, depth).value;
      FactorCovers(before, s.node, op, atom, right.node);
      var next := right.(node := Binary(op, s.node, right.node));
      var tail := ProductRestCovers(before + [Operator(op)] + atom, next, depth);
      more := [Operator(op)] + atom + tail;
      Regroup(before, [Operator(op)], atom, tail, right.rest[|tail|..]);
    }
  }

  lemma {:induction false} SumCovers(ts: seq<Token>, operands: nat, operations: nat, depth: nat)
    returns (used: seq<Token>)
    requires ParseSum(ts, operands, operations, depth).Parsed?
    ensures var s := ParseSum(ts, operands, operations, depth).value;
            ts == used + s.rest && Covers(used, s.node, SumLevel)
    decreases |ts|, 3
  {
    hide Covers, ParseProduct, SumRest;
    var product := ProductCovers(ts, operands, operations, depth);
    var first := ParseProduct(ts, operands, operations, depth).value;
    CoversLooser(product, first.node);
    var more := SumRestCovers(product, first, depth);
    used := product + more;
  }

  lemma {:induction false} SumRestCovers(before: seq<Token>, s: Step<Expr>, depth: nat) returns (more: seq<Token>)
    requires SumRest(s, depth).Parsed? && Covers(before, s.node, SumLevel)
    ensures var end := SumRest(s, depth).value;
            s.rest == more + end.rest && Covers(before + more, end.node, SumLevel)
    decreases |s.rest|, 3
  {
    hide Covers, ParseProduct;
    if s.rest == [] || !s.rest[0].IsSign() {
      more := [];
      assert before + more == before;
    } else {
      var op := s.rest[0].op;
      var product := ProductCovers(s.rest[1..], s.operands, s.operations + 1, depth);
      var right := ParseProduct(s.rest[1..], s.operands, s.operations + 1, depth).value;
      TermCovers(before, s.node, op, product, right.node);
      var next := right.(node := Binary(op, s.node, right.node));
      var tail := SumRestCovers(before + [Operator(op)] + product, next, depth);
      more := [Operator(op)] + product + tail;
      Regroup(before, [Operator(op)], product, tail, right.rest[|tail|..]);
    }
  }

  /** Of all the token lists that are read as a given tree, none is shorter than its print, and none nests
      less deeply; the print of an accepted tree is itself one of them. */
  lemma {:induction false} PrintIsMinimal(ts: seq<Token>, e: Expr)
    requires ParseSide(ts).Parsed? && ParseSide(ts).value.rest == [] && ParseSide(ts).value.node == e
    ensures |Print(e, SumLevel)| <= |ts| && Peak(Print(e, SumLevel)) <= Peak(ts)
    ensures ParseSide(Print(e, SumLevel)) == ParseSide(ts)
  {
    var used := SumCovers(ts, 0, 0, 0);
    assert used + [] == used;
    PrintPeak(e, SumLevel);
    AcceptedIsReprintable(ts);
  }
}
