/**
 * Which actions a candidate may end with (backend/candidate_opportunity_projection.py,
 * project_candidate_opportunity, _portfolio_capital_context, _narrow_for_capital, _action_partition).
 */
module ActionEnvelope {
  import opened Options
  import opened RiskSizing

  datatype Action =
    | BuyNow | BuySmall | ScaleIn | Wait | Hold | WatchToReduce | Reduce | Exit | Avoid | ResearchMore

  const ALL_ACTIONS := [BuyNow, BuySmall, ScaleIn, Wait, Hold, WatchToReduce, Reduce, Exit, Avoid, ResearchMore]
  const BUYS := {BuyNow, BuySmall, ScaleIn}
  const CONSERVATIVE := {Wait, Avoid, ResearchMore}

  datatype Evaluation = Evaluated | NotKnown | NotEvaluated | Errored
  datatype HardRisk = Clear | Unclear | Confirmed | Unevaluated | Other
  datatype EvidenceStatus = Sufficient | Insufficient | Conflict | UnknownEvidence
  datatype Confidence = High | Medium | Low | UnknownConfidence
  datatype Stance = Support | Oppose | Neither

  /** What is held: whether this security is, and how many positions there are. */
  datatype Position = Known(held: bool, positions: nat) | UnknownPosition

  /** A usable account has a capital base and confirmed cash, and may or may not match the held positions. */
  datatype Account = Usable(capital: real, cash: real, matches: bool) | Unusable

  /** The review of the incumbents, where one is called for. */
  datatype Replacement = NotRequired | NotProven | WorthReview | UnknownReview

  datatype Facts = Facts(
    strategy: Strategy, hardRisk: HardRisk, hardEvaluation: Evaluation, criticalUsable: bool,
    casesComplete: bool, entry: Option<Range>, invalidation: Option<Price>, base: Range,
    confidence: Confidence, evidence: EvidenceStatus, position: Position, account: Account,
    restricted: bool, stance: Stance, tradeStance: Stance, scaleIn: bool, incumbents: Replacement)
  {
    predicate EntryKnown() {
      entry.Some? && invalidation.Some? && EntryReady(entry.value, invalidation.value)
    }

    predicate Valued() {
      EntryKnown() && criticalUsable && casesComplete
    }

    /** The size that was computed, if it was. */
    function Shares(): Option<int> {
      if Valued() && account.Usable?
      then Some(MaxShares(account.capital, account.cash, strategy, entry.value, invalidation.value)) else None
    }

    function Required(): Option<real> {
      if Valued() && account.Usable? then
        var value := Cents(AllowedValue(Budget(account.capital, strategy), entry.value, invalidation.value));
        if value > 0.0 then Some(value) else None
      else None
    }

    predicate RatioMet() {
      Valued() && GateMet(strategy, entry.value, base, invalidation.value)
    }
  }

  // The capital context.

  datatype Capital = Available | Constrained | UnknownCapital
  datatype Fit = Supportive | ConstrainedFit | UnknownFit

  /** One billionth of a unit is forgiven when cash is compared with what is required. */
  const TOLERANCE := 0.000000001

  function CapitalOf(f: Facts): Capital {
    if !f.account.Usable? || !f.account.matches || f.Required().None? then UnknownCapital
    else if f.account.cash + TOLERANCE < f.Required().value then Constrained
    else Available
  }

  function FitOf(f: Facts): Fit {
    if f.position.UnknownPosition? then UnknownFit
    else match CapitalOf(f)
      case UnknownCapital => UnknownFit
      case _ =>
        if f.position.held then ConstrainedFit
        else if CapitalOf(f).Constrained? then ConstrainedFit
        else if f.position.positions > 0 then UnknownFit
        else Supportive
  }

  function ReplacementOf(f: Facts, positive: bool): Replacement {
    match CapitalOf(f)
    case Available => NotRequired
    case UnknownCapital => UnknownReview
    case Constrained =>
      if f.position.UnknownPosition? then UnknownReview
      else if !positive || f.position.positions == 0 then NotProven
      else f.incumbents
  }

  function Narrowed(f: Facts, allowed: set<Action>): set<Action> {
    var capital, fit, review := CapitalOf(f), FitOf(f), ReplacementOf(f, allowed * BUYS != {});
    var left :=
      if capital.UnknownCapital? || fit.UnknownFit? || review.UnknownReview? then allowed - BUYS
      else if capital.Constrained? || fit.ConstrainedFit? then allowed - {BuyNow, ScaleIn}
      else allowed;
    if left == {} then {ResearchMore} else left
  }

  // What the ladder asks for before any buying.

  predicate GatesPass(f: Facts) {
    && (f.hardRisk.Clear? || f.hardRisk.Unclear?) && (f.hardEvaluation.Evaluated? || f.hardEvaluation.NotKnown?)
    && f.Valued() && !f.confidence.UnknownConfidence? && f.evidence.Sufficient?
    && f.position.Known? && !f.position.held && f.account.Usable? && !f.restricted
    && f.stance.Support? && f.tradeStance.Support?
    && f.RatioMet() && f.Shares().Some? && f.Shares().value >= 100
  }

  predicate FullConfidence(f: Facts) {
    f.hardRisk.Clear? && f.confidence.High?
  }

  predicate HardRiskKnown(f: Facts) {
    (f.hardRisk.Clear? || f.hardRisk.Unclear?) && (f.hardEvaluation.Evaluated? || f.hardEvaluation.NotKnown?)
  }

  predicate RiskConfirmed(f: Facts) {
    f.hardRisk.Confirmed? && f.hardEvaluation.Evaluated?
  }

  /** No usable entry, no invalidation price below it, no usable critical data, or not all cases. */
  predicate NotValued(f: Facts) {
    || f.entry.None? || f.invalidation.None? || f.entry.value.low > f.entry.value.high
    || f.invalidation.value >= f.entry.value.low || !f.criticalUsable || !f.casesComplete
  }

  /** More research: nothing forbids outright, but valuation, confidence, evidence or hard risk is missing. */
  predicate NeedsResearch(f: Facts) {
    !RiskConfirmed(f) &&
    (NotValued(f) || f.confidence.UnknownConfidence? || f.evidence.Insufficient? ||
     (f.evidence.Sufficient? && !HardRiskKnown(f)))
  }

  /** To be avoided: a confirmed risk, or an opposing view where a purchase would otherwise be possible. */
  predicate ToAvoid(f: Facts) {
    || RiskConfirmed(f)
    || (!NeedsResearch(f) && f.evidence.Sufficient? && f.position.Known? && !f.position.held && f.account.Usable?
        && !f.restricted && (f.stance.Oppose? || f.tradeStance.Oppose?))
  }

  /** The ladder: the first rung that applies decides. */
  method Ladder(f: Facts) returns (nba: Action, allowed: set<Action>)
    ensures nba in allowed && CONSERVATIVE <= allowed
    ensures nba == ResearchMore <==> NeedsResearch(f)
    ensures nba == Avoid <==> ToAvoid(f)
    ensures !GatesPass(f) ==> allowed == CONSERVATIVE
    ensures GatesPass(f) && !FullConfidence(f) ==> nba == BuySmall && allowed == CONSERVATIVE + {BuySmall}
    ensures GatesPass(f) && FullConfidence(f) ==>
      nba == (if f.scaleIn then ScaleIn else BuyNow) && allowed == CONSERVATIVE + {BuySmall, nba}
  {
    allowed := CONSERVATIVE;
    var ready := f.Valued();
    if f.hardRisk.Confirmed? && f.hardEvaluation.Evaluated? {
      nba := Avoid;
    } else if !ready || f.confidence.UnknownConfidence? {
      nba := ResearchMore;
    } else if f.evidence.Insufficient? {
      nba := ResearchMore;
    } else if f.evidence.Conflict? || f.evidence.UnknownEvidence? {
      nba := Wait;
    } else if f.hardEvaluation.Errored? || f.hardEvaluation.NotEvaluated? || !(f.hardRisk.Clear? || f.hardRisk.Unclear?)
              || !f.criticalUsable {
      nba := ResearchMore;
    } else if !f.position.Known? || f.position.held || !f.account.Usable? || f.restricted {
      nba := Wait;
    } else if f.stance.Oppose? || f.tradeStance.Oppose? {
      nba := Avoid;
    } else if !f.stance.Support? || !f.tradeStance.Support? || !f.RatioMet() {
      nba := Wait;
    } else if f.Shares().value < 100 {
      nba := Wait;
    } else if f.hardRisk.Unclear? || f.confidence.Low? || f.confidence.Medium? {
      nba := BuySmall;
      allowed := CONSERVATIVE + {BuySmall};
    } else if f.scaleIn {
      nba := ScaleIn;
      allowed := CONSERVATIVE + {BuySmall, ScaleIn};
    } else {
      nba := BuyNow;
      allowed := CONSERVATIVE + {BuyNow, BuySmall};
    }
  }

  /** The capital side of a small purchase: short of cash with incumbents reviewed, or enough and nothing else held. */
  predicate CapitalAllowsSmall(f: Facts) {
    && f.position.Known?
    && match CapitalOf(f)
       case Available => f.position.positions == 0 || f.position.held
       case Constrained => f.position.positions == 0 || !f.incumbents.UnknownReview?
       case UnknownCapital => false
  }

  predicate CapitalAllowsFull(f: Facts) {
    f.position.Known? && CapitalOf(f).Available? && f.position.positions == 0 && !f.position.held
  }

  predicate MayBuySmall(f: Facts) {
    GatesPass(f) && CapitalAllowsSmall(f)
  }

  predicate MayBuyFull(f: Facts) {
    GatesPass(f) && FullConfidence(f) && CapitalAllowsFull(f)
  }

  /** What the capital context leaves of one allowed action. */
  predicate Kept(f: Facts, a: Action) {
    match a
    case BuySmall => CapitalAllowsSmall(f)
    case BuyNow => CapitalAllowsFull(f)
    case ScaleIn => CapitalAllowsFull(f)
    case _ => true
  }

  /** Whatever was allowed before, exactly the purchases the capital forbids go, and research is the last resort. */
  lemma {:induction false} NarrowedExactly(f: Facts, allowed: set<Action>)
    ensures var left := Narrowed(f, allowed);
            if exists a :: a in allowed && Kept(f, a) then forall a :: a in left <==> a in allowed && Kept(f, a)
            else left == {ResearchMore}
  {
    assert forall a :: a in allowed * BUYS ==> a in allowed;
    forall a | a in BUYS && a in allowed
      ensures allowed * BUYS != {}
    {
      assert a in allowed * BUYS;
    }
  }

  /** The two other answers of the capital context, by the facts they depend on. */
  lemma ContextExactly(f: Facts, positive: bool)
    ensures FitOf(f) == UnknownFit <==>
            || f.position.UnknownPosition? || CapitalOf(f).UnknownCapital?
            || (CapitalOf(f).Available? && !f.position.held && f.position.positions > 0)
    ensures FitOf(f) == Supportive <==>
            f.position.Known? && !f.position.held && f.position.positions == 0 && CapitalOf(f).Available?
    ensures ReplacementOf(f, positive) == NotRequired <==>
            || CapitalOf(f).Available?
            || (CapitalOf(f).Constrained? && f.position.Known? && positive && f.position.positions > 0
                && f.incumbents.NotRequired?)
    ensures CapitalOf(f).UnknownCapital? || f.position.UnknownPosition? ==>
            ReplacementOf(f, positive) in {NotRequired, UnknownReview}
            && (ReplacementOf(f, positive).NotRequired? <==> CapitalOf(f).Available?)
  {
  }

  /** Losing `distance` on each unit of the position may cost the budget. */
  function RiskAllowed(f: Facts): real
    requires !NotValued(f) && f.account.Usable?
  {
    Budget(f.account.capital, f.strategy) * f.entry.value.high / (f.entry.value.high - f.invalidation.value)
  }

  /**
   * Whether the capital is known: the account is usable and matches, the candidate is valued, and what the
   * budget allows to be bought is worth more than half a cent. It then suffices exactly when the cash, and a
   * billionth, covers that value to the nearest cent.
   */
  lemma {:induction false} CapitalExactly(f: Facts)
    ensures !CapitalOf(f).UnknownCapital? <==>
            f.account.Usable? && f.account.matches && !NotValued(f) && RiskAllowed(f) > 0.005
    ensures !CapitalOf(f).UnknownCapital? ==>
            && -0.005 <= f.Required().value - RiskAllowed(f) <= 0.005
            && (CapitalOf(f).Available? <==> f.account.cash + 0.000000001 >= f.Required().value)
  {
    if !NotValued(f) && f.account.Usable? {
      RequiredIsRiskAllowed(f);
      CentsAbove(RiskAllowed(f));
    }
    hide RiskAllowed, Cents;
  }

  lemma RequiredIsRiskAllowed(f: Facts)
    requires !NotValued(f) && f.account.Usable?
    ensures var value := Cents(RiskAllowed(f)); f.Required() == if value > 0.0 then Some(value) else None
  {
    var entry, invalidation := f.entry.value, f.invalidation.value;
    Positive(entry, invalidation);
    var budget := Budget(f.account.capital, f.strategy);
    Quotient(budget, Distance(entry, invalidation), entry.high, entry.high - invalidation);
    hide Budget, Cents, Distance;
    assert AllowedValue(budget, entry, invalidation) == RiskAllowed(f);
  }

  lemma Quotient(budget: real, d: real, high: real, loss: real)
    requires d > 0.0 && high > 0.0 && d * high == loss
    ensures loss > 0.0 && budget / d == budget * high / loss
  {
    var x := budget / d;
    assert x * d == budget;
    assert x * loss == x * d * high;
  }

  lemma CentsAbove(x: real)
    ensures Cents(x) > 0.0 <==> x > 0.005
    ensures -0.005 <= Cents(x) - x <= 0.005
  {
    RoundIsNear(x * 100.0);
  }

  /**
   * The final envelope. Each buying action is allowed exactly under its condition, nothing else changes,
   * and the chosen action is always an allowed one: the strongest purchase left, if any is.
   */
  method Project(f: Facts) returns (nba: Action, allowed: set<Action>)
    ensures nba in allowed && allowed - BUYS == CONSERVATIVE
    ensures BuySmall in allowed <==> MayBuySmall(f)
    ensures BuyNow in allowed <==> MayBuyFull(f) && !f.scaleIn
    ensures ScaleIn in allowed <==> MayBuyFull(f) && f.scaleIn
    ensures nba == BuyNow <==> BuyNow in allowed
    ensures nba == ScaleIn <==> ScaleIn in allowed
    ensures nba == BuySmall <==> MayBuySmall(f) && !MayBuyFull(f)
    ensures nba == ResearchMore <==> NeedsResearch(f)
    ensures nba == Avoid <==> ToAvoid(f)
  {
    hide GatesPass, FullConfidence, NeedsResearch, ToAvoid, Narrowed, CapitalAllowsSmall;
    nba, allowed := Ladder(f);
    NarrowedExactly(f, allowed);
    assert Wait in allowed - BUYS;
    allowed := Narrowed(f, allowed);
    if nba !in allowed {
      var fallbacks := [BuySmall, Wait, ResearchMore, Avoid];
      assert fallbacks[1] in allowed;
      var i := 0;
      while fallbacks[i] !in allowed
        invariant 0 <= i <= 1 && (i > 0 ==> BuySmall !in allowed)
        decreases 1 - i
      {
        i := i + 1;
      }
      nba := fallbacks[i];
    }
  }

  /** Buying more than a little, or holding anything else while buying, says something about the capital. */
  lemma {:induction false} WhatBuyingSays(f: Facts)
    requires MayBuySmall(f)
    ensures f.Shares().value >= 100 && f.evidence.Sufficient? && f.criticalUsable
    ensures f.position.Known? && !f.position.held
    ensures Ratio(f.entry.value, f.base, f.invalidation.value) >= Gate(f.strategy) - 0.00005
    ensures 100.0 * f.entry.value.high <= f.account.cash
    ensures 100.0 * (f.entry.value.high - f.invalidation.value) <= Budget(f.account.capital, f.strategy)
    ensures f.position.positions > 0 ==> CapitalOf(f).Constrained? && !MayBuyFull(f)
    ensures MayBuyFull(f) ==> CapitalOf(f).Available? && FitOf(f).Supportive?
  {
    GateMetExactly(f.strategy, f.entry.value, f.base, f.invalidation.value);
    MaxSharesIsTheMost(f.account.capital, f.account.cash, f.strategy, f.entry.value, f.invalidation.value, 1);
  }

  /**
   * With other positions held, a purchase is allowed exactly when the gates pass and the cash, known to
   * match the holdings, falls short of the whole risk-allowed position; the incumbents must have been reviewed.
   */
  lemma BuyingBesidesPositions(f: Facts)
    requires f.position.Known? && f.position.positions > 0
    ensures MayBuySmall(f) <==>
            && GatesPass(f) && f.account.matches && !f.incumbents.UnknownReview?
            && f.Required().Some? && f.account.cash + TOLERANCE < f.Required().value
    ensures !MayBuyFull(f)
  {
  }

  function WithCash(f: Facts, cash: real): Facts
    requires f.account.Usable?
  {
    f.(account := f.account.(cash := cash))
  }

  lemma {:induction false} CashOnlySizes(f: Facts, cash: real)
    requires f.account.Usable?
    ensures var g := WithCash(f, cash);
            && g.EntryKnown() == f.EntryKnown() && g.Valued() == f.Valued() && g.Required() == f.Required()
            && g.RatioMet() == f.RatioMet() && (g.Shares().Some? <==> f.Shares().Some?)
  {
  }

  lemma {:induction false} MoreCashKeepsTheGates(f: Facts, cash: real)
    requires GatesPass(f) && f.account.cash <= cash
    ensures GatesPass(WithCash(f, cash))
  {
    hide MaxShares, Budget, GateMet, EntryReady, AllowedValue;
    var a, entry, invalidation := f.account, f.entry.value, f.invalidation.value;
    CashOnlySizes(f, cash);
    MaxSharesIsTheMost(a.capital, a.cash, f.strategy, entry, invalidation, 1);
    MaxSharesIsTheMost(a.capital, cash, f.strategy, entry, invalidation, 1);
  }

  /**
   * So where a purchase beside other positions is allowed, it stays allowed with more cash up to the value
   * of the risk-allowed position, and is taken away beyond, although every gate still passes.
   */
  lemma {:induction false} MoreCashForbidsBuying(f: Facts, cash: real)
    requires f.position.Known? && f.position.positions > 0 && MayBuySmall(f) && f.account.cash <= cash
    ensures var g := WithCash(f, cash);
            && GatesPass(g) && g.Required() == f.Required() && f.Required().Some?
            && (MayBuySmall(g) <==> cash + TOLERANCE < f.Required().value)
  {
    var g := WithCash(f, cash);
    BuyingBesidesPositions(f);
    BuyingBesidesPositions(g);
    CashOnlySizes(f, cash);
    MoreCashKeepsTheGates(f, cash);
  }

  /** Both sides of that bound occur: one candidate, allowed with 5,000 in cash and refused with none or with 20,000. */
  lemma {:induction false} LessCashBuysMore(f: Facts)
    requires f.strategy == Swing && f.hardRisk.Clear? && f.hardEvaluation.Evaluated? && f.criticalUsable
    requires f.casesComplete && f.confidence.High? && f.evidence.Sufficient? && !f.restricted
    requires f.entry == Some(Range(10.0, 10.0)) && f.invalidation == Some(9.0) && f.base == Range(13.0, 13.0)
    requires f.stance.Support? && f.tradeStance.Support? && f.incumbents.NotProven?
    requires f.position == Known(false, 1) && f.account == Usable(100000.0, 5000.0, true)
    ensures MayBuySmall(f)
    ensures GatesPass(WithCash(f, 20000.0)) && !MayBuySmall(WithCash(f, 20000.0))
    ensures !MayBuySmall(WithCash(f, 0.0))
  {
    var entry: Range, invalidation: Price := Range(10.0, 10.0), 9.0;
    assert Cents(1000.0) == 1000.0;
    assert Budget(100000.0, Swing) == 1000.0;
    assert AllowedValue(1000.0, entry, invalidation) == 10000.0;
    assert Cents(10000.0) == 10000.0;
    assert f.Required() == Some(10000.0);
    assert Ratio(entry, f.base, invalidation) == 3.0;
    GateMetExactly(Swing, entry, f.base, invalidation);
    MaxSharesIsTheMost(100000.0, 5000.0, Swing, entry, invalidation, 1);
    MaxSharesIsTheMost(100000.0, 0.0, Swing, entry, invalidation, 1);
    BuyingBesidesPositions(f);
    MoreCashForbidsBuying(f, 20000.0);
  }

  // The two lists of the envelope.

  method Partition(allowed: set<Action>) returns (yes: seq<Action>, no: seq<Action>)
    ensures yes == Select(ALL_ACTIONS, allowed, true) && no == Select(ALL_ACTIONS, allowed, false)
  {
    yes, no := [], [];
    for i := 0 to |ALL_ACTIONS|
      invariant yes == Select(ALL_ACTIONS[..i], allowed, true) && no == Select(ALL_ACTIONS[..i], allowed, false)
    {
      assert ALL_ACTIONS[..i + 1][..i] == ALL_ACTIONS[..i];
      if ALL_ACTIONS[i] in allowed {
        yes := yes + [ALL_ACTIONS[i]];
      } else {
        no := no + [ALL_ACTIONS[i]];
      }
    }
    assert ALL_ACTIONS[..|ALL_ACTIONS|] == ALL_ACTIONS;
  }

  function Select(actions: seq<Action>, allowed: set<Action>, wanted: bool): seq<Action> {
    if actions == [] then [] else
      var last := actions[|actions| - 1];
      Select(actions[..|actions| - 1], allowed, wanted) + if (last in allowed) == wanted then [last] else []
  }

  lemma {:induction false} SelectMembers(actions: seq<Action>, allowed: set<Action>, a: Action)
    ensures a in Select(actions, allowed, true) <==> a in actions && a in allowed
    ensures a in Select(actions, allowed, false) <==> a in actions && a !in allowed
    ensures |Select(actions, allowed, true)| + |Select(actions, allowed, false)| == |actions|
  {
    if actions != [] {
      var n := |actions| - 1;
      SelectMembers(actions[..n], allowed, a);
      assert actions == actions[..n] + [actions[n]];
    }
  }

  /** Every action is in exactly one of the two lists, and neither list repeats one. */
  lemma {:induction false} PartitionIsExact(allowed: set<Action>, a: Action)
    ensures var yes, no := Select(ALL_ACTIONS, allowed, true), Select(ALL_ACTIONS, allowed, false);
            && (a in yes <==> a in allowed) && (a in no <==> a !in allowed) && |yes| + |no| == 10
  {
    SelectMembers(ALL_ACTIONS, allowed, a);
    EveryActionIsListed(a);
  }

  lemma {:induction false} EveryActionIsListed(a: Action)
    ensures a in ALL_ACTIONS
  {
    var s := ALL_ACTIONS;
    assert s[0] == BuyNow && s[1] == BuySmall && s[2] == ScaleIn && s[3] == Wait && s[4] == Hold;
    assert s[5] == WatchToReduce && s[6] == Reduce && s[7] == Exit && s[8] == Avoid && s[9] == ResearchMore;
  }
}
