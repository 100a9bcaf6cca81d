/**
 * Revisions, update times and soft deletion of alert rules (backend/alert_rule_store.py).
 * A transaction is one step; a time is a number of ticks, and the clock may say anything.
 */
module AlertRules {
  import opened Numerals

  type RuleId = string
  type Rule = int

  datatype Deletion = Live | DeletedAt(at: int)

  datatype Record = Record(rule: Rule, revision: nat, createdAt: int, updatedAt: int, deletion: Deletion)

  datatype Answer = Done(record: Record) | AlreadyExists | NotFound | Conflict | ClockOverflow

  datatype Stamp = At(time: int) | Overflow

  /** Later than the previous time in any case; past the last representable tick there is none. */
  function MonotonicTimestamp(previous: int, requested: int, last: int): Stamp {
    if requested > previous then At(requested)
    else if previous + 1 <= last then At(previous + 1)
    else Overflow
  }

  /** Later than the previous time and not before the one asked for. */
  predicate MayFollow(time: int, previous: int, requested: int) {
    previous < time && requested <= time
  }

  /** The stamp is the earliest such time, and is missing exactly when the clock is behind and no tick is left. */
  lemma EarliestLaterTime(previous: int, requested: int, last: int)
    ensures var stamp := MonotonicTimestamp(previous, requested, last);
            && (stamp.Overflow? <==> requested <= previous && last <= previous)
            && (stamp.At? ==> MayFollow(stamp.time, previous, requested) && (requested <= last ==> stamp.time <= last)
                              && forall other :: MayFollow(other, previous, requested) ==> stamp.time <= other)
  {
  }

  type Table = map<RuleId, Record>

  function CreateAnswer(t: Table, id: RuleId, rule: Rule, now: int): Answer {
    if id in t then AlreadyExists else Done(Record(rule, 1, now, now, Live))
  }

  function ReplaceAnswer(t: Table, id: RuleId, rule: Rule, expected: nat, requested: int, last: int): Answer {
    if id !in t || !t[id].deletion.Live? then NotFound
    else if t[id].revision != expected then Conflict
    else match MonotonicTimestamp(t[id].updatedAt, requested, last)
      case At(time) => Done(Record(rule, t[id].revision + 1, t[id].createdAt, time, Live))
      case Overflow => ClockOverflow
  }

  function DeleteAnswer(t: Table, id: RuleId, expected: nat, requested: int, last: int): Answer {
    if id !in t || !t[id].deletion.Live? then NotFound
    else if t[id].revision != expected then Conflict
    else match MonotonicTimestamp(t[id].updatedAt, requested, last)
      case At(time) => Done(Record(t[id].rule, t[id].revision + 1, t[id].createdAt, time, DeletedAt(time)))
      case Overflow => ClockOverflow
  }

  datatype Call =
    | Create(id: RuleId, rule: Rule, now: int)
    | Replace(id: RuleId, rule: Rule, expected: nat, now: int)
    | Delete(id: RuleId, expected: nat, now: int)

  function Reply(t: Table, call: Call, last: int): Answer {
    match call
    case Create(id, rule, now) => CreateAnswer(t, id, rule, now)
    case Replace(id, rule, expected, now) => ReplaceAnswer(t, id, rule, expected, now, last)
    case Delete(id, expected, now) => DeleteAnswer(t, id, expected, now, last)
  }

  function After(t: Table, call: Call, last: int): Table {
    var answer := Reply(t, call, last);
    if answer.Done? then t[call.id := answer.record] else t
  }

  class RuleStore {
    var rules: Table
    const last: int

    constructor (last: int)
      ensures rules == map[] && this.last == last
    {
      this.last := last;
      rules := map[];
    }

    method CreateRule(id: RuleId, rule: Rule, now: int) returns (answer: Answer)
      modifies this
      ensures answer == Reply(old(rules), Create(id, rule, now), last)
      ensures rules == After(old(rules), Create(id, rule, now), last)
    {
      if id in rules {
        return AlreadyExists;
      }
      var record := Record(rule, 1, now, now, Live);
      rules := rules[id := record];
      return Done(record);
    }

    method ReplaceRule(id: RuleId, rule: Rule, expected: nat, now: int) returns (answer: Answer)
      modifies this
      ensures answer == Reply(old(rules), Replace(id, rule, expected, now), last)
      ensures rules == After(old(rules), Replace(id, rule, expected, now), last)
    {
      if id !in rules || !rules[id].deletion.Live? {
        return NotFound;
      }
      var current := rules[id];
      if current.revision != expected {
        return Conflict;
      }
      var stamp := MonotonicTimestamp(current.updatedAt, now, last);
      if stamp.Overflow? {
        return ClockOverflow;
      }
      var record := Record(rule, current.revision + 1, current.createdAt, stamp.time, Live);
      rules := rules[id := record];
      return Done(record);
    }

    method DeleteRule(id: RuleId, expected: nat, now: int) returns (answer: Answer)
      modifies this
      ensures answer == Reply(old(rules), Delete(id, expected, now), last)
      ensures rules == After(old(rules), Delete(id, expected, now), last)
    {
      if id !in rules || !rules[id].deletion.Live? {
        return NotFound;
      }
      var current := rules[id];
      if current.revision != expected {
        return Conflict;
      }
      var stamp := MonotonicTimestamp(current.updatedAt, now, last);
      if stamp.Overflow? {
        return ClockOverflow;
      }
      var record := Record(current.rule, current.revision + 1, current.createdAt, stamp.time, DeletedAt(stamp.time));
      rules := rules[id := record];
      return Done(record);
    }
  }

  // Whole runs.

  function Run(t: Table, calls: seq<Call>, last: int): Table
    decreases |calls|
  {
    if calls == [] then t else Run(After(t, calls[0], last), calls[1..], last)
  }

  /** How many calls changed one rule. */
  function Changes(t: Table, calls: seq<Call>, last: int, id: RuleId): nat
    decreases |calls|
  {
    if calls == [] then 0
    else (if calls[0].id == id && Reply(t, calls[0], last).Done? then 1 else 0) +
         Changes(After(t, calls[0], last), calls[1..], last, id)
  }

  /**
   * Under any clock and whatever else is called: one revision for each success, a later update
   * time whenever anything changed, the creation time for ever, and a deleted rule stays as it is.
   */
  lemma {:induction false} RuleLife(t: Table, calls: seq<Call>, last: int, id: RuleId)
    requires id in t
    ensures var n := Changes(t, calls, last, id);
            var end := Run(t, calls, last);
            && id in end && end[id].createdAt == t[id].createdAt
            && end[id].revision == t[id].revision + n
            && end[id].updatedAt >= t[id].updatedAt + n
            && (n == 0 ==> end[id] == t[id])
            && (t[id].deletion.DeletedAt? ==> n == 0)
    decreases |calls|
  {
    if calls != [] {
      RuleLife(After(t, calls[0], last), calls[1..], last, id);
    }
  }

  /** A rule that does not exist yet begins with revision 1, and its revision counts its successes. */
  lemma {:induction false} RevisionCountsSuccesses(t: Table, calls: seq<Call>, last: int, id: RuleId)
    requires id !in t
    ensures var n := Changes(t, calls, last, id);
            var end := Run(t, calls, last);
            (id in end <==> n > 0) && (n > 0 ==> end[id].revision == n)
    decreases |calls|
  {
    if calls != [] {
      var next := After(t, calls[0], last);
      if id in next {
        RuleLife(next, calls[1..], last, id);
      } else {
        RevisionCountsSuccesses(next, calls[1..], last, id);
      }
    }
  }

  // Timestamps are compared as text of fixed width.

  predicate TextBefore(a: string, b: string)
    requires |a| == |b|
  {
    a != "" && (a[0] < b[0] || (a[0] == b[0] && TextBefore(a[1..], b[1..])))
  }

  /** For digit strings of one width, text order is number order. */
  lemma {:induction false} FixedWidthOrder(a: string, b: string)
    requires |a| == |b| && AllDigits(a) && AllDigits(b)
    ensures TextBefore(a, b) <==> DigitsValue(a) < DigitsValue(b)
  {
    if a != "" {
      LeadingDigit(a);
      LeadingDigit(b);
      DigitsBelowPower(a[1..]);
      DigitsBelowPower(b[1..]);
      FixedWidthOrder(a[1..], b[1..]);
      Compare(DigitValue(a[0]), DigitValue(b[0]), DigitsValue(a[1..]), DigitsValue(b[1..]), Pow10(|a| - 1));
    }
  }

  function Digits(s: string): (d: string)
    ensures AllDigits(d)
  {
    if s == "" then "" else (if IsDigit(s[0]) then [s[0]] else "") + Digits(s[1..])
  }

  /** Digits in the same places, and the same separators between them. */
  predicate SameLayout(a: string, b: string) {
    |a| == |b| && forall i :: 0 <= i < |a| ==> (IsDigit(a[i]) && IsDigit(b[i])) || (!IsDigit(a[i]) && a[i] == b[i])
  }

  lemma {:induction false} LayoutOrder(a: string, b: string)
    requires SameLayout(a, b)
    ensures |Digits(a)| == |Digits(b)| && (TextBefore(a, b) <==> TextBefore(Digits(a), Digits(b)))
  {
    if a != "" {
      LayoutOrder(a[1..], b[1..]);
      if IsDigit(a[0]) {
        assert Digits(a)[1..] == Digits(a[1..]) && Digits(b)[1..] == Digits(b[1..]);
      } else {
        assert Digits(a) == Digits(a[1..]) && Digits(b) == Digits(b[1..]);
      }
    }
  }

  /** So timestamps written with the same separators compare as texts as the numbers of their digits do. */
  lemma {:induction false} TimestampOrder(a: string, b: string)
    requires SameLayout(a, b)
    ensures TextBefore(a, b) <==> DigitsValue(Digits(a)) < DigitsValue(Digits(b))
  {
    LayoutOrder(a, b);
    FixedWidthOrder(Digits(a), Digits(b));
  }

  lemma {:induction false} LeadingDigit(s: string)
    requires s != "" && AllDigits(s)
    ensures DigitsValue(s) == DigitValue(s[0]) * Pow10(|s| - 1) + DigitsValue(s[1..])
  {
    if |s| == 1 {
      assert s[..0] == "" && s[1..] == "";
    } else {
      var t := s[..|s| - 1];
      LeadingDigit(t);
      assert t[1..] == s[1..][..|s[1..]| - 1];
      Shift(DigitValue(s[0]), Pow10(|t| - 1));
    }
  }

  lemma {:induction false} Shift(d: nat, p: nat)
    ensures 10 * (d * p) == d * (10 * p)
  {
  }

  lemma {:induction false} Compare(d: nat, e: nat, x: nat, y: nat, p: nat)
    requires x < p && y < p
    ensures d * p + x < e * p + y <==> d < e || (d == e && x < y)
  {
    if d < e {
      Step(d, e, p);
    } else if e < d {
      Step(e, d, p);
    }
  }

  lemma {:induction false} Step(d: nat, e: nat, p: nat)
    requires d < e
    ensures d * p + p <= e * p
  {
    if d + 1 < e {
      Step(d, e - 1, p);
    }
  }
}
