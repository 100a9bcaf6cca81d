/** One space between a sign and its number, as after the hyphen of a list item, changes the verdict on a display. */
module EquationSeparatedSign {
  import opened EquationDisplays
  import opened EquationLimits
  import opened EquationParser
  import opened EquationRatioTexts
  import opened EquationRatios
  import opened EquationSpacing
  import opened EquationTokens
  import opened EquationVerdict
  import opened Expressions
  import opened Numerals
  import opened Options

  function One(digit: char): ShortNumber
    requires IsDigit(digit)
  {
    Numeral([digit], "")
  }

  const MINUS_HALF: Ratio :=
    Ratio(Single(Signed(Some(Hyphen), One('1'))), Slash, Signed(None, One('2')))

  const MINUS_FIFTY: Stated := Stated(Equals, Signed(Some(Hyphen), Numeral("50", "")), PercentMark)

  lemma {:induction false} SpacedLexes(more: seq<Token>, text: string)
    requires Lex(text, 1) == Tokens(more)
    ensures Lex("-" + (" " + text), 0) == Tokens([Operator(Hyphen)] + more)
  {
    assert (" " + text)[1..] == text;
    LexSpace(" " + text, 1);
    assert TokenText(Operator(Hyphen)) == "-";
    PutToken(Operator(Hyphen), " " + text, more, 0);
  }

  lemma {:induction false} DigitNumber(c: char)
    requires IsDigit(c)
    ensures NumberValue(One(c)) == DigitValue(c) as real
  {
    assert [c] + "" == [c] && [c][..0] == "";
    assert DigitsValue([c]) == DigitValue(c);
    assert Pow10(0) == 1;
  }

  lemma FiftyIsFifty()
    ensures MINUS_FIFTY.Stands().Stated() == -50.0
  {
    assert "50" + "" == "50" && "50"[..1] == "5" && "5"[..0] == "";
    assert DigitsValue("5") == 5 && DigitsValue("50") == 50;
    assert Pow10(0) == 1;
  }

  lemma MinusHalfValue()
    ensures Evaluate(MINUS_HALF.Tree(), LITERALLY, REPORT_LIMITS) == Success(Value(Scalar, -0.5))
  {
    hide RationalFits, MagnitudeFits, NumberValue, HasBits;
    var above, below := MINUS_HALF.numerator.Tree(), MINUS_HALF.divisor.Tree();
    var one := Leaf(Quantity(Sign.Unsigned, One('1'), None, None));
    DigitNumber('1');
    DigitNumber('2');
    assert Evaluate(one, LITERALLY, REPORT_LIMITS) == Success(Value(Scalar, 1.0));
    assert above == Negative(one);
    assert Evaluate(above, LITERALLY, REPORT_LIMITS) == Success(Value(Scalar, -1.0));
    assert Evaluate(below, LITERALLY, REPORT_LIMITS) == Success(Value(Scalar, 2.0));
    QuotientsPass(-0.5, -1, 2, 1);
    assert -1.0 / 2.0 == -0.5;
  }

  lemma MinusHalfJudged()
    ensures Judge(PlainEquation(MINUS_HALF, MINUS_FIFTY), false, REPORT_LIMITS).Consistent?
  {
    var eq := PlainEquation(MINUS_HALF, MINUS_FIFTY);
    hide RationalFits, MagnitudeFits, Evaluate, InferKind, HasDisplayHundred, Ratio.Tree, Tolerance;
    MinusHalfValue();
    RatioIsPlain(MINUS_HALF);
    FiftyIsFifty();
    assert Recomputed(eq, -0.5, false) == -50.0;
    QuotientsPass(-50.0, -50, 1, 2);
    QuotientsPass(0.0, 0, 1, 0);
    TolerancePositive(eq.right);
  }

  lemma TolerancePositive(q: Quantity)
    ensures Tolerance(q, false) > 0.0
  {
  }

  lemma TailText()
    ensures Text(MINUS_FIFTY.Tokens()) == "=-50%"
  {
    var fifty: Number := Numeral("50", "");
    TextOfMore(Unit(PercentMark), []);
    TextOfMore(Num(fifty), [Unit(PercentMark)] + []);
    TextOfMore(Operator(Hyphen), [Num(fifty)] + ([Unit(PercentMark)] + []));
    TextOfMore(Relate(Equals), [Operator(Hyphen)] + ([Num(fifty)] + ([Unit(PercentMark)] + [])));
    assert MINUS_FIFTY.Tokens() ==
           [Relate(Equals)] + ([Operator(Hyphen)] + ([Num(fifty)] + ([Unit(PercentMark)] + [])));
  }

  function HalfTokens(more: seq<Token>): seq<Token> {
    [Num(One('1'))] + ([Operator(Slash)] + ([Num(One('2'))] + more))
  }

  lemma {:induction false} HalfText(more: seq<Token>)
    ensures Text(HalfTokens(more)) == "1/2" + Text(more)
  {
    hide Text;
    assert TokenText(Num(One('1'))) == "1" && TokenText(Num(One('2'))) == "2";
    TextOfMore(Num(One('2')), more);
    TextOfMore(Operator(Slash), [Num(One('2'))] + more);
    TextOfMore(Num(One('1')), [Operator(Slash)] + ([Num(One('2'))] + more));
  }

  lemma {:induction false} FactorText(more: seq<Token>)
    ensures Text([Operator(Cross)] + ([Num(HUNDRED)] + more)) == "×100" + Text(more)
  {
    TextOfMore(Num(HUNDRED), more);
    TextOfMore(Operator(Cross), [Num(HUNDRED)] + more);
  }

  lemma {:induction false} HalfLexes(more: seq<Token>)
    requires Spread(more) && more != [] && !more[0].Num? && |more| <= 8
    ensures Lex("1/2" + Text(more), 1) == Tokens(HalfTokens(more))
  {
    hide Lex, Text;
    HalfText(more);
    var half := [Num(One('1')), Operator(Slash), Num(One('2'))];
    assert HalfTokens(more) == half + more;
    assert Spread(half);
    SpreadConcat(half, more);
    LexText(HalfTokens(more), 1);
  }

  lemma {:induction false} SpacedPlain()
    ensures Lex("- 1/2=-50%", 0) == Tokens(PlainTokens(MINUS_HALF, MINUS_FIFTY))
  {
    hide Lex, Text;
    var tail := MINUS_FIFTY.Tokens();
    TailText();
    assert Spread(tail);
    HalfLexes(tail);
    SpacedLexes(HalfTokens(tail), "1/2" + "=-50%");
    assert PlainTokens(MINUS_HALF, MINUS_FIFTY) == [Operator(Hyphen)] + HalfTokens(tail);
    assert "- 1/2=-50%" == "-" + (" " + ("1/2" + "=-50%"));
  }

  lemma {:induction false} SpacedTimesHundred()
    ensures Lex("- 1/2×100=-50%", 0) == Tokens(TimesHundredTokens(MINUS_HALF, Cross, MINUS_FIFTY))
  {
    hide Lex, Text;
    var tail := MINUS_FIFTY.Tokens();
    var factor := [Operator(Cross)] + ([Num(HUNDRED)] + tail);
    TailText();
    FactorText(tail);
    assert Spread(factor);
    HalfLexes(factor);
    SpacedLexes(HalfTokens(factor), "1/2" + ("×100" + "=-50%"));
    assert TimesHundredTokens(MINUS_HALF, Cross, MINUS_FIFTY) == [Operator(Hyphen)] + HalfTokens(factor);
    assert "- 1/2×100=-50%" == "-" + (" " + ("1/2" + ("×100" + "=-50%")));
  }

  lemma DetachedMinus()
    ensures !SignsAttached(LeftText("- 1/2×100=-50%"), true)
  {
    var left := "- 1/2×100";
    LeftTextIs(left, "", "=-50%");
    assert left + "" + "=-50%" == "- 1/2×100=-50%";
    assert SkipSpaces(left) == left;
    SignUnfolds(left);
    assert left[1..][0] == ' ';
  }

  /** One space after a sign: the displayed percentage is ambiguous, the plain one is consistent. */
  lemma SpaceAfterSignMatters()
    ensures Check("- 1/2×100=-50%", REPORT_LIMITS) == Unsupported(AmbiguousPercentDisplay)
    ensures Check("- 1/2=-50%", REPORT_LIMITS).Consistent?
  {
    hide Check, Lex, Judge, CheckTokens, States, SignsAttached, LeftText;
    var a, b := "- 1/2×100=-50%", "- 1/2=-50%";
    SpacedPlain();
    SpacedTimesHundred();
    DetachedMinus();
    RatioDisplaysAgree(a, b, MINUS_HALF, Cross, MINUS_FIFTY);
    CheckLexed(b, PlainTokens(MINUS_HALF, MINUS_FIFTY), REPORT_LIMITS);
    PlainFlag(b, MINUS_HALF, MINUS_FIFTY);
    PlainStates(MINUS_HALF, MINUS_FIFTY);
    StatedIsJudged(PlainTokens(MINUS_HALF, MINUS_FIFTY), PlainEquation(MINUS_HALF, MINUS_FIFTY), false, REPORT_LIMITS);
    MinusHalfJudged();
  }
}
