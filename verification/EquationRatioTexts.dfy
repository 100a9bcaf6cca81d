/** The two displays of a ratio, as texts with any white space: when the verdict depends on which was written. */
module EquationRatioTexts {
  import opened EquationDisplays
  import opened EquationLimits
  import opened EquationParser
  import opened EquationRatios
  import opened EquationSpacing
  import opened EquationTokens
  import opened EquationVerdict
  import opened Expressions
  import opened Options

  // ---------------------------------------------------------------- lexing these texts

  // No two numbers are neighbours, and no magnitude word occurs.
  predicate Spread(ts: seq<Token>) {
    && (forall i :: 0 <= i < |ts| ==> !ts[i].Magnitude? && (ts[i].Num? ==> ts[i].number.WithinLimits()))
    && (forall i :: 0 < i < |ts| ==> !ts[i - 1].Num? || !ts[i].Num?)
  }

  lemma {:induction false} SpreadIsLexable(ts: seq<Token>)
    requires Spread(ts) && |ts| <= MAX_TOKENS
    ensures Lex(Text(ts), 0) == Tokens(ts)
  {
    LexText(ts, 0);
  }

  lemma SpreadConcat(a: seq<Token>, b: seq<Token>)
    requires Spread(a) && Spread(b) && (a == [] || b == [] || !a[|a| - 1].Num? || !b[0].Num?)
    ensures Spread(a + b)
  {
    var ts := a + b;
    forall i | 0 < i < |ts|
      ensures !ts[i - 1].Num? || !ts[i].Num?
    {
      if i < |a| {
        assert ts[i - 1] == a[i - 1];
      } else if i > |a| {
        assert ts[i - 1] == b[i - 1 - |a|] && ts[i] == b[i - |a|];
      }
    }
  }

  lemma SignedIsSpread(s: Signed)
    ensures Spread(s.Tokens()) && 0 < |s.Tokens()| <= 2 && s.Tokens()[|s.Tokens()| - 1].Num?
  {
  }

  lemma NumeratorIsSpread(n: Numerator)
    ensures Spread(n.Tokens()) && |n.Tokens()| <= 7
  {
    hide Signed.Tokens;
    match n
    case Single(s) => SignedIsSpread(s);
    case Difference(a, minus, b) =>
      SignedIsSpread(a);
      SignedIsSpread(b);
  }

  lemma RatioIsSpread(r: Ratio)
    ensures Spread(r.Tokens()) && r.Tokens()[|r.Tokens()| - 1].Num? && |r.Tokens()| <= 10
  {
    hide Signed.Tokens, Numerator.Tokens;
    var n := r.numerator.Tokens();
    NumeratorIsSpread(r.numerator);
    SignedIsSpread(r.divisor);
    SpreadConcat(n, [Operator(r.over)]);
    SpreadConcat(n + [Operator(r.over)], r.divisor.Tokens());
  }

  lemma BothLex(r: Ratio, times: TimesOp, stated: Stated)
    ensures Lex(Text(PlainTokens(r, stated)), 0) == Tokens(PlainTokens(r, stated))
    ensures Lex(Text(TimesHundredTokens(r, times, stated)), 0) == Tokens(TimesHundredTokens(r, times, stated))
  {
    RatioIsSpread(r);
    var s := stated.Tokens();
    assert Spread(s) && |s| <= 4 && !s[0].Num?;
    SpreadConcat(r.Tokens(), s);
    SpreadIsLexable(PlainTokens(r, stated));
    var factor := [Operator(times), Num(HUNDRED)];
    SpreadConcat(factor, s);
    SpreadConcat(r.Tokens(), factor + s);
    SpreadIsLexable(TimesHundredTokens(r, times, stated));
  }

  // ---------------------------------------------------------------- the length of these texts

  lemma {:induction false} TextLength(ts: seq<Token>)
    requires forall t :: t in ts && t.Num? ==> t.number.WithinLimits()
    ensures |Text(ts)| <= 31 * |ts|
  {
    if ts != [] {
      assert ts[0] in ts && |TokenText(ts[0])| <= 31;
      TextLength(ts[1..]);
    }
  }

  lemma BothShort(r: Ratio, times: TimesOp, stated: Stated)
    ensures |Text(PlainTokens(r, stated))| <= MAX_CANDIDATE_CHARS
    ensures |Text(TimesHundredTokens(r, times, stated))| <= MAX_CANDIDATE_CHARS
  {
    RatioIsSpread(r);
    TextLength(PlainTokens(r, stated));
    TextLength(TimesHundredTokens(r, times, stated));
  }

  // ---------------------------------------------------------------- main results

  lemma RatioIsShort(r: Ratio)
    ensures RatioDigits(r, 30)
  {
  }

  /** The display flag that the checker computes for texts with these tokens. */
  lemma {:induction false} TimesHundredFlag(a: string, r: Ratio, times: TimesOp, stated: Stated)
    requires Lex(a, 0) == Tokens(TimesHundredTokens(r, times, stated))
    ensures LegacyDisplay(LeftText(a)) <==> SignsAttached(LeftText(a), true)
  {
    hide Lex, LegacyDisplay, LeftText, SignsAttached, LexesTo, Ratio.Tokens;
    var factor, right := [Operator(times), Num(HUNDRED)], stated.x.Tokens() + [Unit(stated.mark)];
    RatioHasNoRelation(r);
    assert TimesHundredTokens(r, times, stated) == r.Tokens() + factor + ([Relate(stated.relation)] + right);
    LeftTextLexes(a, r.Tokens() + factor, stated.relation, right);
    DisplayNeedsAttachedSigns(LeftText(a), r, times);
  }

  lemma {:induction false} PlainFlag(b: string, r: Ratio, stated: Stated)
    requires Lex(b, 0) == Tokens(PlainTokens(r, stated))
    ensures !LegacyDisplay(LeftText(b))
  {
    hide Lex, LegacyDisplay, LeftText, LexesTo, Ratio.Tokens;
    var right := stated.x.Tokens() + [Unit(stated.mark)];
    RatioHasNoRelation(r);
    RatioHasTokens(r);
    assert PlainTokens(r, stated) == r.Tokens() + ([Relate(stated.relation)] + right);
    LeftTextLexes(b, r.Tokens(), stated.relation, right);
    PlainIsNotDisplay(LeftText(b), r);
  }

  lemma RatioHasTokens(r: Ratio)
    ensures r.Tokens() != []
  {
  }

  lemma {:induction false} CheckLexed(text: string, ts: seq<Token>, limits: Limits)
    requires Lex(text, 0) == Tokens(ts)
    ensures Check(text, limits) == if |text| > MAX_CANDIDATE_CHARS then Unsupported(CandidateLimit)
                                   else CheckTokens(ts, LegacyDisplay(LeftText(text)), limits)
  {
  }

  // Not recognised as the older display, a multiplication by 100 leaves open what the percentage means.
  lemma TimesHundredAmbiguous(r: Ratio, times: TimesOp, stated: Stated, limits: Limits)
    ensures CheckTokens(TimesHundredTokens(r, times, stated), false, limits) == Unsupported(AmbiguousPercentDisplay)
  {
    hide States, CheckTokens;
    TimesHundredStates(r, times, stated);
    StatedIsJudged(TimesHundredTokens(r, times, stated), TimesHundredEquation(r, times, stated), false, limits);
    DisplayIsPlain(r, times, stated);
    HundredIsHundred();
    NoPercentLiteral(r);
    assert HasDisplayHundred(Binary(times, r.Tree(), Hundred()));
    assert !HasPercentLiteral(Binary(times, r.Tree(), Hundred()));
  }

  lemma SignedHasNoPercent(s: Signed)
    ensures !HasPercentLiteral(s.Tree())
  {
    assert !HasPercentLiteral(Leaf(Quantity(Sign.Unsigned, s.n, None, None)));
  }

  lemma NoPercentLiteral(r: Ratio)
    ensures !HasPercentLiteral(r.Tree())
  {
    hide Signed.Tree;
    SignedHasNoPercent(r.divisor);
    match r.numerator
    case Single(s) => SignedHasNoPercent(s);
    case Difference(a, minus, b) =>
      SignedHasNoPercent(a);
      SignedHasNoPercent(b);
      assert !HasPercentLiteral(r.numerator.Tree());
  }

  lemma PlainNeverAmbiguous(r: Ratio, stated: Stated, limits: Limits)
    ensures CheckTokens(PlainTokens(r, stated), false, limits) != Unsupported(AmbiguousPercentDisplay)
    ensures CheckTokens(PlainTokens(r, stated), false, limits) != Unsupported(CandidateLimit)
  {
    hide States, CheckTokens, Evaluate;
    PlainStates(r, stated);
    StatedIsJudged(PlainTokens(r, stated), PlainEquation(r, stated), false, limits);
    RatioIsPlain(r);
  }

  /**
   * "A/B×100=X%" in `a` and "A/B=X%" in `b` (or with (A-C) for A; any numbers, signs, operator characters and
   * relation, and any white space between the tokens), under any limits that admit the numbers. Within the size
   * limit of a candidate they get the same verdict exactly when no sign on the left side of `a` is separated
   * from its number. Otherwise `a` is an ambiguous percentage, which `b` never is. A text that its white space
   * makes too long is refused alone.
   */
  lemma {:induction false} DisplaysAgree(a: string, b: string, r: Ratio, times: TimesOp, stated: Stated, limits: Limits)
    requires Lex(a, 0) == Tokens(TimesHundredTokens(r, times, stated)) && Lex(b, 0) == Tokens(PlainTokens(r, stated))
    requires Admits(limits, 93)
    ensures Check(a, limits) == Check(b, limits) <==>
            if |a| <= MAX_CANDIDATE_CHARS && |b| <= MAX_CANDIDATE_CHARS then SignsAttached(LeftText(a), true)
            else |a| > MAX_CANDIDATE_CHARS && |b| > MAX_CANDIDATE_CHARS
    ensures |a| <= MAX_CANDIDATE_CHARS ==>
              (Check(a, limits) == Unsupported(AmbiguousPercentDisplay) <==> !SignsAttached(LeftText(a), true))
    ensures Check(a, limits) == Unsupported(CandidateLimit) <==> |a| > MAX_CANDIDATE_CHARS
    ensures Check(b, limits) == Unsupported(CandidateLimit) <==> |b| > MAX_CANDIDATE_CHARS
    ensures Check(b, limits) != Unsupported(AmbiguousPercentDisplay)
  {
    RatioIsShort(r);
    hide *;
    CheckLexed(a, TimesHundredTokens(r, times, stated), limits);
    CheckLexed(b, PlainTokens(r, stated), limits);
    TimesHundredFlag(a, r, times, stated);
    PlainFlag(b, r, stated);
    SameVerdict(r, times, stated, limits, 30);
    TimesHundredAmbiguous(r, times, stated, limits);
    PlainNeverAmbiguous(r, stated, limits);
  }

  /** The same for the checker with its own size limits, which admit all the numbers it reads. */
  lemma {:induction false} RatioDisplaysAgree(a: string, b: string, r: Ratio, times: TimesOp, stated: Stated)
    requires Lex(a, 0) == Tokens(TimesHundredTokens(r, times, stated)) && Lex(b, 0) == Tokens(PlainTokens(r, stated))
    ensures Check(a, REPORT_LIMITS) == Check(b, REPORT_LIMITS) <==>
            if |a| <= MAX_CANDIDATE_CHARS && |b| <= MAX_CANDIDATE_CHARS then SignsAttached(LeftText(a), true)
            else |a| > MAX_CANDIDATE_CHARS && |b| > MAX_CANDIDATE_CHARS
    ensures |a| <= MAX_CANDIDATE_CHARS ==>
              (Check(a, REPORT_LIMITS) == Unsupported(AmbiguousPercentDisplay) <==> !SignsAttached(LeftText(a), true))
    ensures Check(a, REPORT_LIMITS) == Unsupported(CandidateLimit) <==> |a| > MAX_CANDIDATE_CHARS
    ensures Check(b, REPORT_LIMITS) == Unsupported(CandidateLimit) <==> |b| > MAX_CANDIDATE_CHARS
    ensures Check(b, REPORT_LIMITS) != Unsupported(AmbiguousPercentDisplay)
  {
    ReportLimitsAdmit(93);
    hide *;
    DisplaysAgree(a, b, r, times, stated, REPORT_LIMITS);
  }

  lemma {:induction false} UnspacedIsAttached(s: string, operand: bool)
    requires forall i :: 0 <= i < |s| ==> !IsSpace(s[i])
    ensures SignsAttached(s, operand)
  {
    if s != "" {
      UnspacedIsAttached(s[1..], true);
      UnspacedIsAttached(s[1..], false);
    }
  }

  lemma {:induction false} TextHasNoSpaces(ts: seq<Token>)
    ensures forall i :: 0 <= i < |Text(ts)| ==> !IsSpace(Text(ts)[i])
  {
    if ts != [] {
      TokenTextHasNoSpaces(ts[0]);
      TextHasNoSpaces(ts[1..]);
    }
  }

  lemma {:induction false} BeforeRelationIsPrefix(s: string)
    ensures BeforeRelation(s) <= s
  {
    if s != "" && !IsRelation(s[0]) {
      BeforeRelationIsPrefix(s[1..]);
    }
  }

  lemma UnspacedLeftText(raw: string)
    requires forall i :: 0 <= i < |raw| ==> !IsSpace(raw[i])
    ensures SignsAttached(LeftText(raw), true)
  {
    hide BeforeRelation, SpaceEnd, TextEnd;
    BeforeRelationIsPrefix(raw);
    var left := BeforeRelation(raw);
    assert forall i :: 0 <= i < |left| ==> left[i] == raw[i];
    UnspacedIsAttached(LeftText(raw), true);
  }

  /** Written without any white space the two displays always get the same verdict. */
  lemma UnspacedDisplaysAgree(r: Ratio, times: TimesOp, stated: Stated)
    ensures Check(Text(TimesHundredTokens(r, times, stated)), REPORT_LIMITS)
         == Check(Text(PlainTokens(r, stated)), REPORT_LIMITS)
  {
    hide *;
    var a, b := Text(TimesHundredTokens(r, times, stated)), Text(PlainTokens(r, stated));
    BothLex(r, times, stated);
    BothShort(r, times, stated);
    TextHasNoSpaces(TimesHundredTokens(r, times, stated));
    UnspacedLeftText(a);
    RatioDisplaysAgree(a, b, r, times, stated);
  }
}
