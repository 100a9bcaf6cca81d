/** When the pattern of the older percentage display recognises a ratio that is written with white space. */
module EquationDisplays {
  import opened EquationParser
  import opened EquationRatios
  import opened EquationSpacing
  import opened EquationTokens
  import opened EquationVerdict
  import opened Expressions
  import opened Numerals
  import opened Options

  /**
   * No white space stands between a sign and the number it belongs to. A sign belongs to the number after it
   * where an operand is expected: at the start, after an opening parenthesis, and after an operator.
   */
  predicate SignsAttached(s: string, operand: bool) {
    if s == "" then true
    else if IsSpace(s[0]) then SignsAttached(s[1..], operand)
    else if operand && IsSign(s[0]) then StartsPlain(s[1..]) && SignsAttached(s[1..], true)
    else SignsAttached(s[1..], !IsDigit(s[0]) && s[0] != ')')
  }

  /** Leading white space does not matter to the signs either. */
  lemma {:induction false} SignsSkipped(s: string, operand: bool)
    ensures SignsAttached(SkipSpaces(s), operand) == SignsAttached(s, operand)
  {
    if s != "" && IsSpace(s[0]) {
      SkipOne(s);
      SignsSkipped(s[1..], operand);
    } else {
      assert SkipSpaces(s) == s;
    }
  }

  // What the pattern finds: the rest of the text with the rest of the tokens, and as many detached signs as
  // before; or nothing, because a sign is detached.
  ghost predicate Finds(found: Option<string>, attached: bool, more: seq<Token>, operand: bool) {
    match found
    case None => !attached
    case Some(rest) => LexesTo(rest, more) && (attached <==> SignsAttached(rest, operand))
  }

  predicate Numeric(s: string) {
    s != "" && IsDigit(s[|s| - 1]) && forall i :: 0 <= i < |s| ==> IsDigit(s[i]) || s[i] == '.'
  }

  lemma {:induction false} SignsAfterNumber(digits: string, rest: string, operand: bool)
    requires Numeric(digits)
    ensures SignsAttached(digits + rest, operand) == SignsAttached(rest, false)
  {
    var s := digits + rest;
    assert s[1..] == digits[1..] + rest;
    assert s[0] == digits[0] && !IsSpace(s[0]) && !IsSign(s[0]);
    if |digits| == 1 {
      assert s[1..] == rest;
    } else {
      SignsAfterNumber(digits[1..], rest, !IsDigit(s[0]) && s[0] != ')');
    }
  }

  lemma NumberIsNumeric(n: Number)
    ensures Numeric(n.Text()) && IsDigit(n.Text()[0])
  {
    assert n.Text()[0] == n.whole[0];
  }

  lemma {:induction false} FindNumber(s: string, n: ShortNumber, more: seq<Token>, operand: bool)
    requires StartsPlain(s) && LexesTo(s, [Num(n)] + more)
    ensures s != "" && IsDigit(s[0])
    ensures MatchDigits(s).Some? && Finds(MatchDigits(s), SignsAttached(s, operand), more, false)
  {
    hide LexesTo, SignsAttached, IsSpace, NumberAt, Numeric, Numeral.Text;
    var text := n.Text();
    NextToken(s, Num(n), more);
    NumberIsNumeric(n);
    assert TokenText(Num(n)) == text;
    assert s[0] == text[0] && NumberAt(s) == (n, |text|);
    assert s == text + s[|text|..];
    SignsAfterNumber(text, s[|text|..], operand);
  }

  lemma {:induction false} SignStep(s: string)
    requires s != "" && IsSign(s[0])
    ensures !IsSpace(s[0]) && s[0] != '(' && MatchNumber(s) == MatchDigits(s[1..])
    ensures SignsAttached(s, true) == (StartsPlain(s[1..]) && SignsAttached(s[1..], true))
    ensures !StartsPlain(s[1..]) ==> MatchDigits(s[1..]).None?
  {
    hide SignsAttached, NumberAt;
    assert forall c :: IsDigit(c) ==> !IsSpace(c);
    assert SignsAttached(s, true) == (StartsPlain(s[1..]) && SignsAttached(s[1..], true)) by {
      SignUnfolds(s);
    }
  }

  lemma {:induction false} SignUnfolds(s: string)
    requires s != "" && IsSign(s[0])
    ensures SignsAttached(s, true) == (StartsPlain(s[1..]) && SignsAttached(s[1..], true))
  {
  }

  lemma {:induction false} FindBare(s: string, n: ShortNumber, more: seq<Token>)
    requires StartsPlain(s) && LexesTo(s, [Num(n)] + more)
    ensures s != "" && s[0] != '(' && Finds(MatchNumber(s), SignsAttached(s, true), more, false)
  {
    hide LexesTo, SignsAttached, MatchDigits, Finds;
    FindNumber(s, n, more, true);
  }

  lemma {:induction false} FindAfterSign(s: string, sign: SignOp, n: ShortNumber, more: seq<Token>)
    requires StartsPlain(s) && LexesTo(s, [Operator(sign)] + ([Num(n)] + more))
    ensures s != "" && s[0] != '(' && Finds(MatchNumber(s), SignsAttached(s, true), more, false)
  {
    hide LexesTo, SignsAttached, MatchDigits, MatchNumber, TokenAt;
    NextToken(s, Operator(sign), [Num(n)] + more);
    assert s[0] == s[..1][0] == OpText(sign);
    SignStep(s);
    if StartsPlain(s[1..]) {
      FindNumber(s[1..], n, more, true);
    }
  }

  lemma {:induction false} FindSigned(s: string, x: Signed, more: seq<Token>)
    requires StartsPlain(s) && LexesTo(s, x.Tokens() + more)
    ensures s != "" && s[0] != '('
    ensures Finds(MatchNumber(s), SignsAttached(s, true), more, false)
  {
    hide LexesTo, SignsAttached, MatchNumber, Finds, IsSpace;
    if x.sign.None? {
      assert x.Tokens() + more == [Num(x.n)] + more;
      FindBare(s, x.n, more);
    } else {
      assert x.Tokens() + more == [Operator(x.sign.value)] + ([Num(x.n)] + more);
      FindAfterSign(s, x.sign.value, x.n, more);
    }
  }

  /** An operator where no operand is expected. */
  lemma {:induction false} FindOperator(s: string, op: Op, accepts: char -> bool, more: seq<Token>)
    requires LexesTo(s, [Operator(op)] + more) && accepts(OpText(op))
    ensures MatchOne(accepts, SkipSpaces(s)).Some?
    ensures Finds(MatchOne(accepts, SkipSpaces(s)), SignsAttached(s, false), more, true)
  {
    var plain := SkipSpaces(s);
    Skipped(s, [Operator(op)] + more);
    SignsSkipped(s, false);
    NextToken(plain, Operator(op), more);
    assert plain[0] == plain[..1][0] == OpText(op);
  }

  lemma {:induction false} FindClosing(s: string, more: seq<Token>)
    requires LexesTo(s, [Close] + more)
    ensures MatchOne(IsClosing, SkipSpaces(s)).Some?
    ensures Finds(MatchOne(IsClosing, SkipSpaces(s)), SignsAttached(s, false), more, false)
  {
    var plain := SkipSpaces(s);
    Skipped(s, [Close] + more);
    SignsSkipped(s, false);
    NextToken(plain, Close, more);
    assert plain[0] == plain[..1][0] == ')';
  }

  lemma {:induction false} FindOpening(s: string, more: seq<Token>)
    requires StartsPlain(s) && LexesTo(s, [Open] + more)
    ensures s != "" && s[0] == '(' && LexesTo(s[1..], more) && SignsAttached(s, true) == SignsAttached(s[1..], true)
  {
    NextToken(s, Open, more);
    assert s[0] == s[..1][0] == '(';
  }

  function DisplayPattern(): Pattern {
    Pattern(MatchNumber, SkipSpaces)
  }

  lemma {:induction false} FindSpacedSigned(s: string, x: Signed, more: seq<Token>)
    requires LexesTo(s, x.Tokens() + more)
    ensures Finds(MatchNumber(SkipSpaces(s)), SignsAttached(s, true), more, false)
  {
    Skipped(s, x.Tokens() + more);
    SignsSkipped(s, true);
    FindSigned(SkipSpaces(s), x, more);
  }

  lemma {:induction false} FindDifference(s: string, a: Signed, minus: MinusOp, b: Signed, more: seq<Token>)
    requires LexesTo(s, a.Tokens() + ([Operator(minus)] + (b.Tokens() + ([Close] + more))))
    ensures Finds(DisplayPattern().Difference(s), SignsAttached(s, true), more, false)
  {
    hide SignsAttached, LexesTo, MatchNumber, MatchOne, SkipSpaces, Signed.Tokens, OpText;
    var afterSecond := [Close] + more;
    var afterMinus := b.Tokens() + afterSecond;
    FindSpacedSigned(s, a, [Operator(minus)] + afterMinus);
    var first := MatchNumber(SkipSpaces(s));
    if first.Some? {
      MinusIsMinus(minus);
      FindOperator(first.value, minus, IsMinus, afterMinus);
      var rest := MatchOne(IsMinus, SkipSpaces(first.value)).value;
      FindSpacedSigned(rest, b, afterSecond);
      var second := MatchNumber(SkipSpaces(rest));
      if second.Some? {
        FindClosing(second.value, more);
      }
    }
  }

  lemma MinusIsMinus(minus: MinusOp)
    ensures IsMinus(OpText(minus))
  {
  }

  lemma {:induction false} FindNumerator(s: string, n: Numerator, more: seq<Token>)
    requires StartsPlain(s) && LexesTo(s, n.Tokens() + more)
    ensures Finds(DisplayPattern().Operand(s), SignsAttached(s, true), more, false)
  {
    hide SignsAttached, LexesTo, MatchNumber, SkipSpaces, Signed.Tokens, Pattern.Difference;
    match n
    case Single(x) => FindSigned(s, x, more);
    case Difference(a, minus, b) =>
      var inner := a.Tokens() + ([Operator(minus)] + (b.Tokens() + ([Close] + more)));
      assert n.Tokens() + more == [Open] + inner;
      FindOpening(s, inner);
      FindDifference(s[1..], a, minus, b, more);
  }

  lemma {:induction false} FindRatio(s: string, r: Ratio, more: seq<Token>)
    requires StartsPlain(s) && LexesTo(s, r.Tokens() + more)
    ensures Finds(DisplayPattern().Ratio(s), SignsAttached(s, true), more, false)
  {
    hide SignsAttached, LexesTo, MatchNumber, MatchOne, SkipSpaces, Signed.Tokens, Numerator.Tokens, Pattern.Operand;
    var afterOver := r.divisor.Tokens() + more;
    assert r.Tokens() + more == r.numerator.Tokens() + ([Operator(r.over)] + afterOver);
    FindNumerator(s, r.numerator, [Operator(r.over)] + afterOver);
    var operand := DisplayPattern().Operand(s);
    if operand.Some? {
      OverIsOver(r.over);
      FindOperator(operand.value, r.over, IsOver, afterOver);
      FindSpacedSigned(MatchOne(IsOver, SkipSpaces(operand.value)).value, r.divisor, more);
    }
  }

  lemma OverIsOver(over: DivisionOp)
    ensures IsOver(OpText(over))
  {
  }

  lemma {:induction false} NothingLeft(s: string, operand: bool)
    requires LexesTo(s, [])
    ensures SkipSpaces(s) == "" && SignsAttached(s, operand)
  {
    Skipped(s, []);
    SignsSkipped(s, operand);
    NothingRead(SkipSpaces(s));
  }

  lemma {:induction false} FindHundred(s: string)
    requires LexesTo(s, [Num(HUNDRED)])
    ensures MatchHundred(SkipSpaces(s)).Some? && SkipSpaces(MatchHundred(SkipSpaces(s)).value) == ""
    ensures SignsAttached(s, true)
  {
    var plain := SkipSpaces(s);
    assert [Num(HUNDRED)] + [] == [Num(HUNDRED)];
    Skipped(s, [Num(HUNDRED)]);
    SignsSkipped(s, true);
    NextToken(plain, Num(HUNDRED), []);
    FindNumber(plain, HUNDRED, [], true);
    assert TokenText(Num(HUNDRED)) == "100";
    assert "100" <= plain;
    NothingLeft(plain[3..], false);
    assert MatchDigits(plain) == Some(plain[3..]);
  }

  /** The display pattern recognises the left side exactly when its signs are attached. */
  lemma {:induction false} DisplayNeedsAttachedSigns(s: string, r: Ratio, times: TimesOp)
    requires StartsPlain(s) && LexesTo(s, r.Tokens() + [Operator(times), Num(HUNDRED)])
    ensures LegacyDisplay(s) <==> SignsAttached(s, true)
  {
    hide SignsAttached, LexesTo, MatchOne, MatchHundred, SkipSpaces, Ratio.Tokens, Pattern.Ratio;
    assert [Operator(times), Num(HUNDRED)] == [Operator(times)] + [Num(HUNDRED)];
    FindRatio(s, r, [Operator(times), Num(HUNDRED)]);
    var ratio := DisplayPattern().Ratio(s);
    if ratio.Some? {
      TimesIsTimes(times);
      FindOperator(ratio.value, times, IsTimes, [Num(HUNDRED)]);
      FindHundred(MatchOne(IsTimes, SkipSpaces(ratio.value)).value);
    }
  }

  lemma TimesIsTimes(times: TimesOp)
    ensures IsTimes(OpText(times))
  {
  }

  /** A ratio that is not multiplied by anything is never recognised. */
  lemma PlainIsNotDisplay(s: string, r: Ratio)
    requires StartsPlain(s) && LexesTo(s, r.Tokens())
    ensures !LegacyDisplay(s)
  {
    assert r.Tokens() + [] == r.Tokens();
    FindRatio(s, r, []);
    hide SignsAttached, LexesTo, SkipSpaces, Ratio.Tokens, Pattern.Ratio;
    var ratio := DisplayPattern().Ratio(s);
    if ratio.Some? {
      NothingLeft(ratio.value, false);
    }
  }

  // ---------------------------------------------------------------- nothing else is recognised

  /** `s` is read as these tokens wherever the token limit leaves room for them. */
  ghost predicate Reads(s: string, ts: seq<Token>) {
    forall count: nat :: count + |ts| <= MAX_TOKENS ==> Lex(s, count) == Tokens(ts)
  }

  lemma {:induction false} ReadToken(s: string, t: Token, more: seq<Token>)
    requires s != "" && !IsSpace(s[0]) && TokenAt(s).Some? && TokenAt(s).value.0 == t
    requires t.Num? ==> t.number.WithinLimits()
    requires Reads(s[TokenAt(s).value.1..], more)
    ensures Reads(s, [t] + more)
  {
    hide TokenAt, IsSpace;
    var rest := s[TokenAt(s).value.1..];
    forall count: nat | count + |[t] + more| <= MAX_TOKENS
      ensures Lex(s, count) == Tokens([t] + more)
    {
      assert Lex(rest, count + 1) == Tokens(more);
    }
  }

  lemma {:induction false} ReadSpaces(s: string, ts: seq<Token>)
    requires Reads(SkipSpaces(s), ts)
    ensures Reads(s, ts)
  {
    if s != "" && IsSpace(s[0]) {
      SkipOne(s);
      ReadSpaces(s[1..], ts);
      forall count: nat | count + |ts| <= MAX_TOKENS
        ensures Lex(s, count) == Tokens(ts)
      {
        LexSpace(s, count);
        assert Lex(s[1..], count) == Tokens(ts);
      }
    } else {
      assert SkipSpaces(s) == s;
    }
  }

  lemma {:induction false} ReadCharacter(s: string, t: Token, more: seq<Token>)
    requires s != "" && CharToken(s[0]) == Some(t) && !IsSpace(s[0]) && !IsDigit(s[0]) && s[0] != '万'
    requires Reads(s[1..], more)
    ensures Reads(s, [t] + more)
  {
    hide Reads, CharToken;
    assert TokenAt(s) == Some((t, 1));
    ReadToken(s, t, more);
  }

  lemma {:induction false} ReadDigits(s: string, more: seq<Token>) returns (n: ShortNumber)
    requires MatchDigits(s).Some? && Reads(MatchDigits(s).value, more)
    ensures Reads(s, [Num(n)] + more)
  {
    hide Reads, NumberAt;
    n := NumberAt(s).0;
    assert !IsSpace(s[0]);
    assert TokenAt(s) == Some((Num(n), NumberAt(s).1));
    ReadToken(s, Num(n), more);
  }

  lemma {:induction false} ReadNumber(s: string, more: seq<Token>) returns (x: Signed)
    requires MatchNumber(s).Some? && Reads(MatchNumber(s).value, more)
    ensures Reads(s, x.Tokens() + more)
  {
    hide Reads, MatchDigits;
    if s != "" && IsSign(s[0]) {
      var n := ReadDigits(s[1..], more);
      var op := if s[0] == '+' then Plus else if s[0] == '-' then Hyphen else Minus;
      ReadCharacter(s, Operator(op), [Num(n)] + more);
      x := Signed(Some(op), n);
      assert x.Tokens() + more == [Operator(op)] + ([Num(n)] + more);
    } else {
      var n := ReadDigits(s, more);
      x := Signed(None, n);
      assert x.Tokens() + more == [Num(n)] + more;
    }
  }

  lemma {:induction false} ReadSpacedNumber(s: string, more: seq<Token>) returns (x: Signed)
    requires MatchNumber(SkipSpaces(s)).Some? && Reads(MatchNumber(SkipSpaces(s)).value, more)
    ensures Reads(s, x.Tokens() + more)
  {
    hide Reads, MatchNumber, SkipSpaces;
    x := ReadNumber(SkipSpaces(s), more);
    ReadSpaces(s, x.Tokens() + more);
  }

  lemma {:induction false} ReadOne(s: string, accepts: char -> bool, more: seq<Token>) returns (t: Token)
    requires accepts in {IsMinus, IsOver, IsTimes, IsClosing}
    requires MatchOne(accepts, SkipSpaces(s)).Some? && Reads(MatchOne(accepts, SkipSpaces(s)).value, more)
    ensures Reads(s, [t] + more)
    ensures accepts == IsMinus ==> t.Operator? && t.op in {Hyphen, Minus}
    ensures accepts == IsOver ==> t.Operator? && t.op.Division()
    ensures accepts == IsTimes ==> t.Operator? && t.op.Times()
    ensures accepts == IsClosing ==> t == Close
  {
    hide Reads, SkipSpaces;
    var plain := SkipSpaces(s);
    var c := plain[0];
    t := if accepts == IsMinus then Operator(if c == '-' then Hyphen else Minus)
         else if accepts == IsOver then Operator(if c == '/' then Slash else Obelus)
         else if accepts == IsTimes then Operator(if c == '*' then Star else Cross)
         else Close;
    ReadCharacter(plain, t, more);
    ReadSpaces(s, [t] + more);
  }

  lemma {:induction false} ReadOperand(s: string, more: seq<Token>) returns (n: Numerator)
    requires DisplayPattern().Operand(s).Some? && Reads(DisplayPattern().Operand(s).value, more)
    ensures Reads(s, n.Tokens() + more)
  {
    hide Reads, MatchNumber, SkipSpaces, MatchOne;
    if s != "" && s[0] == '(' {
      var first := MatchNumber(SkipSpaces(s[1..])).value;
      var minus := MatchOne(IsMinus, SkipSpaces(first)).value;
      var second := MatchNumber(SkipSpaces(minus)).value;
      var close := ReadOne(second, IsClosing, more);
      var b := ReadSpacedNumber(minus, [Close] + more);
      var op := ReadOne(first, IsMinus, b.Tokens() + ([Close] + more));
      var a := ReadSpacedNumber(s[1..], [op] + (b.Tokens() + ([Close] + more)));
      n := Difference(a, op.op, b);
      var inner := a.Tokens() + ([op] + (b.Tokens() + ([Close] + more)));
      ReadCharacter(s, Open, inner);
      assert n.Tokens() + more == [Open] + inner;
    } else {
      var x := ReadNumber(s, more);
      n := Single(x);
    }
  }

  lemma {:induction false} ReadRatio(s: string, more: seq<Token>) returns (r: Ratio)
    requires DisplayPattern().Ratio(s).Some? && Reads(DisplayPattern().Ratio(s).value, more)
    ensures Reads(s, r.Tokens() + more)
  {
    hide Reads, MatchNumber, SkipSpaces, MatchOne, Pattern.Operand, Numerator.Tokens, Signed.Tokens;
    var operand := DisplayPattern().Operand(s).value;
    var divisor := ReadSpacedNumber(MatchOne(IsOver, SkipSpaces(operand)).value, more);
    var over := ReadOne(operand, IsOver, divisor.Tokens() + more);
    var numerator := ReadOperand(s, [over] + (divisor.Tokens() + more));
    r := Ratio(numerator, over.op, divisor);
    assert r.Tokens() + more == numerator.Tokens() + ([over] + (divisor.Tokens() + more));
  }

  lemma {:induction false} BlankIsRead(s: string)
    requires SkipSpaces(s) == ""
    ensures Reads(s, []) && EndsNumber(s)
  {
    ReadSpaces(s, []);
    hide Reads, Lex;
  }

  lemma {:induction false} ReadHundred(s: string)
    requires MatchHundred(s).Some? && SkipSpaces(MatchHundred(s).value) == ""
    ensures Reads(s, [Num(HUNDRED)])
  {
    var rest := s[3..];
    BlankIsRead(rest);
    hide Reads, SkipSpaces, IsSpace, NumberAt, EndsNumber;
    assert HUNDRED.Text() == "100" && s == HUNDRED.Text() + rest;
    NumberAtText(HUNDRED, rest);
    assert [Num(HUNDRED)] + [] == [Num(HUNDRED)];
    DigitIsNoSpace(s[0]);
    assert TokenAt(s) == Some((Num(HUNDRED), 3));
    ReadToken(s, Num(HUNDRED), []);
  }

  lemma DigitIsNoSpace(c: char)
    ensures IsDigit(c) ==> !IsSpace(c)
  {
  }

  /** What the display pattern recognises is a ratio times 100, read to the end. */
  lemma {:induction false} DisplayIsRatio(s: string) returns (r: Ratio, times: TimesOp)
    requires LegacyDisplay(s)
    ensures StartsPlain(s) && LexesTo(s, r.Tokens() + [Operator(times), Num(HUNDRED)])
  {
    assert StartsPlain(s) by { StartsWithOperand(s); }
    hide Reads, SkipSpaces, MatchOne, MatchHundred, Pattern.Ratio, Ratio.Tokens;
    var ratio := DisplayPattern().Ratio(s).value;
    var afterTimes := MatchOne(IsTimes, SkipSpaces(ratio)).value;
    ReadHundred(SkipSpaces(afterTimes));
    ReadSpaces(afterTimes, [Num(HUNDRED)]);
    var t := ReadOne(ratio, IsTimes, [Num(HUNDRED)]);
    times := t.op;
    r := ReadRatio(s, [t] + [Num(HUNDRED)]);
    assert [t] + [Num(HUNDRED)] == [Operator(times), Num(HUNDRED)];
    RatioIsShort(r, times);
    AtZero(s, r.Tokens() + [Operator(times), Num(HUNDRED)]);
  }

  lemma AtZero(s: string, ts: seq<Token>)
    requires Reads(s, ts) && |ts| <= MAX_TOKENS
    ensures LexesTo(s, ts)
  {
    assert Lex(s, 0) == Tokens(ts);
  }

  lemma RatioIsShort(r: Ratio, times: TimesOp)
    ensures |r.Tokens() + [Operator(times), Num(HUNDRED)]| <= MAX_TOKENS
  {
  }

  lemma StartsWithOperand(s: string)
    requires LegacyDisplay(s)
    ensures StartsPlain(s)
  {
    hide Pattern.Operand, MatchOne, MatchNumber, SkipSpaces, MatchHundred, StartsPlain;
    OperandStartsPlain(s);
  }

  lemma OperandStartsPlain(s: string)
    ensures DisplayPattern().Operand(s).Some? ==> StartsPlain(s)
  {
    hide Pattern.Difference, NumberAt;
    if s != "" {
      DigitIsNoSpace(s[0]);
    }
  }

  ghost predicate IsTimesHundred(s: string) {
    exists r: Ratio, times: TimesOp :: LexesTo(s, r.Tokens() + [Operator(times), Num(HUNDRED)])
  }

  /**
   * Exactly what counts as the older display: a ratio times 100 with white space anywhere but at the start
   * and between a sign and its number.
   */
  lemma {:induction false} DisplayExactly(s: string)
    ensures LegacyDisplay(s) <==> StartsPlain(s) && IsTimesHundred(s) && SignsAttached(s, true)
  {
    hide LegacyDisplay, SignsAttached, StartsPlain, LexesTo, Ratio.Tokens;
    if LegacyDisplay(s) {
      var r, times := DisplayIsRatio(s);
      DisplayNeedsAttachedSigns(s, r, times);
    } else if StartsPlain(s) && IsTimesHundred(s) {
      var r: Ratio, times: TimesOp :| LexesTo(s, r.Tokens() + [Operator(times), Num(HUNDRED)]);
      DisplayNeedsAttachedSigns(s, r, times);
    }
  }
}
