/**
 * The revision lock of the stored AI credential (backend/ai_credential_store.py).
 * Each call holds the store's lock from reading to writing, so it is one step.
 */
module CredentialRevisions {
  import opened Numerals
  import opened Options

  const MAX_REVISION := 0x7fff_ffff_ffff_ffff

  datatype Config = Config(provider: string, model: string, baseURL: string, apiKey: string)

  /** The record on file: none when nothing was ever saved, or after a clear. */
  datatype State = State(revision: nat, record: Option<Config>)

  datatype Answer = Done(revision: nat) | Admitted(config: Config) | BadRevision | BadConfig | Conflict

  // Revisions as text.

  /** Only the canonical text of a number within the range is a revision. */
  function ParseRevision(s: string): Option<nat> {
    if s == "" || !AllDigits(s) || |s| > 19 then None
    else if Decimal(DigitsValue(s)) != s || DigitsValue(s) > MAX_REVISION then None
    else Some(DigitsValue(s))
  }

  lemma {:induction false} LimitHasNineteenDigits()
    ensures MAX_REVISION < Pow10(19)
  {
    assert Pow10(5) == 100000;
    assert Pow10(10) == 100000 * Pow10(5);
    assert Pow10(15) == 100000 * Pow10(10);
    assert Pow10(19) == 10000 * Pow10(15);
  }

  /** A revision and its text determine each other. */
  lemma {:induction false} RevisionTextRoundTrip(s: string, n: nat)
    requires n <= MAX_REVISION
    ensures ParseRevision(s) == Some(n) <==> s == Decimal(n)
  {
    DecimalValue(n);
    LimitHasNineteenDigits();
    DecimalLength(n, 19);
  }

  // The three calls.

  function SaveAnswer(s: State, config: Config, acceptable: bool, expected: string): Answer {
    if ParseRevision(expected).None? then BadRevision
    else if !acceptable then BadConfig
    else if ParseRevision(expected).value != s.revision || s.revision == MAX_REVISION then Conflict
    else Done(s.revision + 1)
  }

  function ClearAnswer(s: State, observed: string): Answer {
    if ParseRevision(observed).None? then BadRevision
    else if ParseRevision(observed).value > s.revision || s.revision == MAX_REVISION then Conflict
    else Done(s.revision + 1)
  }

  function DispatchAnswer(s: State, candidate: Config, revision: string): Answer {
    if ParseRevision(revision).None? then BadRevision
    else if s.record.None? || s.revision != ParseRevision(revision).value || candidate != s.record.value then Conflict
    else Admitted(s.record.value)
  }

  datatype Call =
    | Save(config: Config, acceptable: bool, expected: string)
    | Clear(observed: string)
    | Dispatch(candidate: Config, revision: string)

  function Reply(s: State, call: Call): Answer {
    match call
    case Save(config, acceptable, expected) => SaveAnswer(s, config, acceptable, expected)
    case Clear(observed) => ClearAnswer(s, observed)
    case Dispatch(candidate, revision) => DispatchAnswer(s, candidate, revision)
  }

  function After(s: State, call: Call): State {
    match Reply(s, call)
    case Done(n) => State(n, if call.Save? then Some(call.config) else None)
    case _ => s
  }

  class Credentials {
    var revision: nat
    var record: Option<Config>

    constructor (revision: nat, record: Option<Config>)
      ensures Contents() == State(revision, record)
    {
      this.revision := revision;
      this.record := record;
    }

    ghost function Contents(): State
      reads this
    {
      State(revision, record)
    }

    method SaveConfig(config: Config, acceptable: bool, expected: string) returns (answer: Answer)
      modifies this
      ensures answer == Reply(old(Contents()), Save(config, acceptable, expected))
      ensures Contents() == After(old(Contents()), Save(config, acceptable, expected))
    {
      var wanted := ParseRevision(expected);
      if wanted.None? {
        return BadRevision;
      }
      if !acceptable {
        return BadConfig;
      }
      if wanted.value != revision || revision == MAX_REVISION {
        return Conflict;
      }
      revision := revision + 1;
      record := Some(config);
      return Done(revision);
    }

    method Delete(observed: string) returns (answer: Answer)
      modifies this
      ensures answer == Reply(old(Contents()), Clear(observed))
      ensures Contents() == After(old(Contents()), Clear(observed))
    {
      var seen := ParseRevision(observed);
      if seen.None? {
        return BadRevision;
      }
      if seen.value > revision || revision == MAX_REVISION {
        return Conflict;
      }
      revision := revision + 1;
      record := None;
      return Done(revision);
    }

    method DispatchConfig(candidate: Config, expected: string) returns (answer: Answer)
      ensures answer == Reply(Contents(), Dispatch(candidate, expected))
      ensures After(Contents(), Dispatch(candidate, expected)) == Contents()
    {
      var wanted := ParseRevision(expected);
      if wanted.None? {
        return BadRevision;
      }
      if record.None? || wanted.value != revision || candidate != record.value {
        return Conflict;
      }
      return Admitted(record.value);
    }
  }

  // Whole runs.

  function Run(s: State, calls: seq<Call>): State
    decreases |calls|
  {
    if calls == [] then s else Run(After(s, calls[0]), calls[1..])
  }

  /** A call moves the revision by one, or leaves the state alone. */
  lemma {:induction false} RunMovesForward(s: State, calls: seq<Call>)
    ensures Run(s, calls).revision >= s.revision
    ensures Run(s, calls).revision == s.revision ==> Run(s, calls) == s
    ensures s.revision <= MAX_REVISION ==> Run(s, calls).revision <= MAX_REVISION
    decreases |calls|
  {
    if calls != [] {
      RunMovesForward(After(s, calls[0]), calls[1..]);
    }
  }

  lemma {:induction false} RunConcat(s: State, a: seq<Call>, b: seq<Call>)
    ensures Run(s, a + b) == Run(Run(s, a), b)
    decreases |a|
  {
    if a == [] {
      assert a + b == b;
    } else {
      assert (a + b)[1..] == a[1..] + b;
      RunConcat(After(s, a[0]), a[1..], b);
    }
  }

  /** Every revision names one state: seeing the same revision again means nothing happened in between. */
  lemma {:induction false} RevisionNamesState(s: State, before: seq<Call>, between: seq<Call>)
    ensures Run(s, before + between).revision == Run(s, before).revision ==>
            Run(s, before + between) == Run(s, before)
  {
    RunConcat(s, before, between);
    RunMovesForward(Run(s, before), between);
  }

  /** A save that relies on any revision from before a clear never succeeds after it. */
  lemma {:induction false} ClearDefeatsEarlierSaves(s: State, observed: string, between: seq<Call>,
                                 config: Config, acceptable: bool, expected: string, seen: nat)
    requires ClearAnswer(s, observed).Done? && ParseRevision(expected) == Some(seen) && seen <= s.revision
    ensures var later := Run(After(s, Clear(observed)), between);
            !SaveAnswer(later, config, acceptable, expected).Done?
            && After(later, Save(config, acceptable, expected)) == later
  {
    RunMovesForward(After(s, Clear(observed)), between);
  }

  /**
   * What was read at some point is admitted later exactly when a record was there and no save or
   * clear has succeeded since.
   */
  lemma {:induction false} DispatchNeedsUnchangedRecord(s: State, between: seq<Call>)
    requires s.revision <= MAX_REVISION && s.record.Some?
    ensures DispatchAnswer(Run(s, between), s.record.value, Decimal(s.revision)).Admitted? <==> Run(s, between) == s
  {
    RunMovesForward(s, between);
    RevisionTextRoundTrip(Decimal(s.revision), s.revision);
  }

  /** Saves that each quote the revision the one before returned. */
  function SavesInTurn(from: nat, configs: seq<Config>): seq<Call>
    decreases |configs|
  {
    if configs == [] then []
    else [Save(configs[0], true, Decimal(from))] + SavesInTurn(from + 1, configs[1..])
  }

  /** They all succeed while revisions are left, and the last configuration is on file. */
  lemma {:induction false} SavesInTurnSucceed(s: State, configs: seq<Config>)
    requires s.revision + |configs| <= MAX_REVISION && configs != []
    ensures Run(s, SavesInTurn(s.revision, configs)) == State(s.revision + |configs|, Some(configs[|configs| - 1]))
    decreases |configs|
  {
    var rest := SavesInTurn(s.revision + 1, configs[1..]);
    var call := Save(configs[0], true, Decimal(s.revision));
    assert ([call] + rest)[1..] == rest;
    RevisionTextRoundTrip(Decimal(s.revision), s.revision);
    assert After(s, call) == State(s.revision + 1, Some(configs[0]));
    if |configs| > 1 {
      SavesInTurnSucceed(After(s, call), configs[1..]);
    }
  }

  /** The i-th call is a save that succeeds, and no later call changes anything. */
  ghost predicate LastSave(s: State, calls: seq<Call>, i: nat)
    requires i < |calls|
  {
    && calls[i].Save? && Reply(Run(s, calls[..i]), calls[i]).Done?
    && Run(s, calls) == After(Run(s, calls[..i]), calls[i])
  }

  /** A record that is there at the end of a run, where there was none, comes from the last successful save. */
  lemma {:induction false} RecordComesFromASave(s: State, calls: seq<Call>) returns (i: nat)
    requires s.record.None? && Run(s, calls).record.Some?
    ensures i < |calls| && LastSave(s, calls, i)
    decreases |calls|
  {
    var n := |calls| - 1;
    var before, last := Run(s, calls[..n]), calls[n];
    assert calls == calls[..n] + [last];
    RunConcat(s, calls[..n], [last]);
    if After(before, last) != before {
      i := n;
    } else {
      i := RecordComesFromASave(s, calls[..n]);
      assert calls[..n][..i] == calls[..i];
    }
  }

  /**
   * Starting without a record, as after a clear, a dispatch is admitted exactly when it names the
   * configuration of the last successful save by the revision that save returned, and nothing has
   * succeeded since; without a successful save nothing is admitted.
   */
  lemma {:induction false} DispatchNeedsASave(s: State, calls: seq<Call>, candidate: Config, revision: string)
    requires s.record.None? && s.revision <= MAX_REVISION
    ensures DispatchAnswer(Run(s, calls), candidate, revision).Admitted? <==>
            exists i :: 0 <= i < |calls| && LastSave(s, calls, i) && calls[i].config == candidate
                        && revision == Decimal(Reply(Run(s, calls[..i]), calls[i]).revision)
  {
    var end := Run(s, calls);
    RunMovesForward(s, calls);
    RevisionTextRoundTrip(revision, end.revision);
    if end.record.Some? {
      var i := RecordComesFromASave(s, calls);
      assert LastSave(s, calls, i);
    }
  }
}
