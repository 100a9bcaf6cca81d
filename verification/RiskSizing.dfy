/**
 * Risk budget, position size and the risk-reward gate of a candidate
 * (backend/candidate_opportunity_projection.py), in exact arithmetic.
 */
module RiskSizing {
  import opened Numerals

  datatype Strategy = Short | Swing | Medium

  function BudgetRate(s: Strategy): (r: real)
    ensures r > 0.0
  {
    match s
    case Short => 0.0075
    case Swing => 0.01
    case Medium => 0.0125
  }

  /** The required reward for one unit of risk, in ten-thousandths. */
  function GateUnits(s: Strategy): (g: int)
    ensures g % 2 == 0
  {
    match s
    case Short => 15000
    case Swing => 20000
    case Medium => 25000
  }

  function Gate(s: Strategy): real {
    GateUnits(s) as real / 10000.0
  }

  type Price = p: real | p > 0.0 witness 1.0

  datatype Range = Range(low: Price, high: Price)

  /** A usable entry: a proper range, with the invalidation price below it. */
  predicate EntryReady(entry: Range, invalidation: Price) {
    entry.low <= entry.high && invalidation < entry.low
  }

  // Rounding to a whole number of units.

  lemma {:induction false} RoundIsNear(x: real)
    ensures -0.5 <= RoundHalfEven(x) as real - x <= 0.5
  {
  }

  function Cents(x: real): real {
    RoundHalfEven(x * 100.0) as real / 100.0
  }

  function TenThousandths(x: real): real {
    RoundHalfEven(x * 10000.0) as real / 10000.0
  }

  // Risk and reward.

  function Middle(r: Range): real {
    (r.low + r.high) / 2.0
  }

  function Ratio(entry: Range, base: Range, invalidation: Price): real
    requires EntryReady(entry, invalidation)
  {
    (Middle(base) - Middle(entry)) / (Middle(entry) - invalidation)
  }

  /** The gate compares the displayed ratio. */
  predicate GateMet(s: Strategy, entry: Range, base: Range, invalidation: Price)
    requires EntryReady(entry, invalidation)
  {
    TenThousandths(Ratio(entry, base, invalidation)) >= Gate(s)
  }

  /** So it lets through exactly the ratios down to half a displayed unit below 1.5, 2 and 2.5. */
  lemma {:induction false} GateMetExactly(s: Strategy, entry: Range, base: Range, invalidation: Price)
    requires EntryReady(entry, invalidation)
    ensures GateMet(s, entry, base, invalidation) <==>
            Ratio(entry, base, invalidation) >=
              match s case Short => 1.49995 case Swing => 1.99995 case Medium => 2.49995
  {
    var ratio := Ratio(entry, base, invalidation);
    RoundReachesEven(ratio * 10000.0, GateUnits(s));
  }

  /** A ratio below the gate that is let through: the rule as written is not the rule as enforced. */
  lemma {:induction false} GateAdmitsSlightlyLess(entry: Range, base: Range)
    requires entry == Range(2.0, 2.0) && base == Range(3.99996, 3.99996)
    ensures Ratio(entry, base, 1.0) < 2.0 == Gate(Swing) && GateMet(Swing, entry, base, 1.0)
  {
    GateMetExactly(Swing, entry, base, 1.0);
  }

  // Position size.

  function Budget(capital: real, s: Strategy): real {
    Cents(capital * BudgetRate(s))
  }

  function Distance(entry: Range, invalidation: Price): real {
    (entry.high - invalidation) / entry.high
  }

  function AllowedValue(budget: real, entry: Range, invalidation: Price): real
    requires EntryReady(entry, invalidation)
  {
    Positive(entry, invalidation);
    budget / Distance(entry, invalidation)
  }

  lemma {:induction false} Positive(entry: Range, invalidation: Price)
    requires EntryReady(entry, invalidation)
    ensures Distance(entry, invalidation) > 0.0
    ensures Distance(entry, invalidation) * entry.high == entry.high - invalidation
  {
  }

  function Min(a: real, b: real): real {
    if a < b then a else b
  }

  function Lots(value: real, price: Price): int {
    (value / price / 100.0).Floor
  }

  function MaxShares(capital: real, cash: real, s: Strategy, entry: Range, invalidation: Price): int
    requires EntryReady(entry, invalidation)
  {
    Lots(Min(cash, AllowedValue(Budget(capital, s), entry, invalidation)), entry.high) * 100
  }

  lemma {:induction false} LotsFit(value: real, price: Price, n: int)
    ensures n <= Lots(value, price) <==> (n * 100) as real * price <= value
  {
    var lots := value / price / 100.0;
    assert n <= lots.Floor <==> n as real <= lots;
    Scaled(n as real, price, value, lots);
  }

  lemma {:induction false} Scaled(n: real, price: real, value: real, lots: real)
    requires price > 0.0 && lots == value / price / 100.0
    ensures n <= lots <==> n * 100.0 * price <= value
  {
    assert lots * 100.0 == value / price;
    assert lots * 100.0 * price == value;
    if n <= lots {
      Ordered(n * 100.0, lots * 100.0, price);
    } else {
      Ordered(lots * 100.0, n * 100.0, price);
    }
  }

  lemma {:induction false} Ordered(a: real, b: real, p: real)
    requires a <= b && p > 0.0
    ensures a * p <= b * p && (a < b ==> a * p < b * p)
  {
  }

  lemma {:induction false} AllowedMeans(value: real, budget: real, entry: Range, invalidation: Price)
    requires EntryReady(entry, invalidation)
    ensures value <= AllowedValue(budget, entry, invalidation) <==>
            value * Distance(entry, invalidation) <= budget
  {
    var d, allowed := Distance(entry, invalidation), AllowedValue(budget, entry, invalidation);
    Positive(entry, invalidation);
    assert allowed * d == budget;
    if value <= allowed {
      Ordered(value, allowed, d);
    } else {
      Ordered(allowed, value, d);
    }
  }

  /**
   * A number of lots is within the maximum exactly when its cost fits the cash and losing the whole
   * way from the top of the entry range to the invalidation price fits the budget.
   */
  lemma {:induction false} MaxSharesIsTheMost(capital: real, cash: real, s: Strategy, entry: Range,
                                              invalidation: Price, n: int)
    requires EntryReady(entry, invalidation)
    ensures n * 100 <= MaxShares(capital, cash, s, entry, invalidation) <==>
            (n * 100) as real * entry.high <= cash &&
            (n * 100) as real * (entry.high - invalidation) <= Budget(capital, s)
  {
    var budget := Budget(capital, s);
    var allowed := AllowedValue(budget, entry, invalidation);
    var cost := (n * 100) as real * entry.high;
    LotsFit(Min(cash, allowed), entry.high, n);
    AllowedMeans(cost, budget, entry, invalidation);
    Positive(entry, invalidation);
    Regroup((n * 100) as real, entry.high, Distance(entry, invalidation), entry.high - invalidation);
  }

  lemma {:induction false} Regroup(n: real, high: real, d: real, loss: real)
    requires d * high == loss
    ensures n * high * d == n * loss
  {
    assert n * high * d == n * (high * d);
  }

  lemma {:induction false} MaxSharesIsLots(capital: real, cash: real, s: Strategy, entry: Range, invalidation: Price)
    returns (n: int)
    requires EntryReady(entry, invalidation)
    ensures MaxShares(capital, cash, s, entry, invalidation) == n * 100
  {
    n := Lots(Min(cash, AllowedValue(Budget(capital, s), entry, invalidation)), entry.high);
  }

  lemma {:induction false} NoLotsFit(capital: real, cash: real, s: Strategy, entry: Range, invalidation: Price)
    requires EntryReady(entry, invalidation) && cash >= 0.0 && Budget(capital, s) >= 0.0
    ensures MaxShares(capital, cash, s, entry, invalidation) >= 0
  {
    MaxSharesIsTheMost(capital, cash, s, entry, invalidation, 0);
  }

  /** The maximum is itself whole lots, so it is the largest such number. */
  lemma {:induction false} MaxSharesFits(capital: real, cash: real, s: Strategy, entry: Range, invalidation: Price)
    requires EntryReady(entry, invalidation)
    ensures var shares := MaxShares(capital, cash, s, entry, invalidation);
            && shares % 100 == 0
            && shares as real * entry.high <= cash
            && shares as real * (entry.high - invalidation) <= Budget(capital, s)
            && (cash >= 0.0 && capital >= 0.0 ==> shares >= 0)
  {
    hide *;
    var n := MaxSharesIsLots(capital, cash, s, entry, invalidation);
    MaxSharesIsTheMost(capital, cash, s, entry, invalidation, n);
    if cash >= 0.0 && capital >= 0.0 {
      BudgetIsNearest(capital, s);
      NoLotsFit(capital, cash, s, entry, invalidation);
    }
  }

  /** What may be lost on one position, before rounding: 0.75, 1 or 1.25 percent of the capital. */
  function LossRate(s: Strategy): real {
    match s
    case Short => 0.75 / 100.0
    case Swing => 1.0 / 100.0
    case Medium => 1.25 / 100.0
  }

  /** The budget is that part of the capital to the nearest cent. */
  lemma {:induction false} BudgetIsNearest(capital: real, s: Strategy)
    ensures -0.005 <= Budget(capital, s) - capital * LossRate(s) <= 0.005
    ensures capital >= 0.0 ==> Budget(capital, s) >= 0.0
  {
    RoundIsNear(capital * BudgetRate(s) * 100.0);
  }

  /**
   * Whatever price in the entry range the position is filled at, falling to the invalidation price
   * loses no more than the budget.
   */
  lemma {:induction false} LossWithinBudget(capital: real, cash: real, s: Strategy, entry: Range,
                                            invalidation: Price, fill: real)
    requires EntryReady(entry, invalidation) && entry.low <= fill <= entry.high && capital >= 0.0 && cash >= 0.0
    ensures var shares := MaxShares(capital, cash, s, entry, invalidation);
            && shares as real * (fill - invalidation) <= Budget(capital, s) <= capital * LossRate(s) + 0.005
            && shares as real * fill <= cash
  {
    hide *;
    var shares := MaxShares(capital, cash, s, entry, invalidation);
    MaxSharesFits(capital, cash, s, entry, invalidation);
    BudgetIsNearest(capital, s);
    FilledLower(shares as real, fill, entry.high, invalidation, cash, Budget(capital, s));
  }

  lemma {:induction false} FilledLower(n: real, fill: real, high: real, floor: real, cash: real, budget: real)
    requires n >= 0.0 && fill <= high && n * high <= cash && n * (high - floor) <= budget
    ensures n * fill <= cash && n * (fill - floor) <= budget
  {
    Grows(n, fill - floor, high - floor);
    Grows(n, fill, high);
  }

  lemma {:induction false} Grows(n: real, a: real, b: real)
    requires n >= 0.0 && a <= b
    ensures n * a <= n * b
  {
  }
}
