/**
 * The closing time that the lineage module derives from a campaign's transition history
 * (backend/campaign_lineage.py, derive_parent_closed_at), and what it is worth on the
 * histories that the store really records.
 */
module CampaignClosing {
  import opened CampaignRuns
  import opened CampaignStore
  import opened TimelineSort

  /** An entry of the given list: Unreadable when a field is missing or malformed. */
  datatype Entry = Unreadable | Read(transition: Transition)

  datatype Anchor = ClosedAt(time: int) | NoAnchor

  function MoveKey(t: Transition): Stamp { Stamp(t.at, t.id) }

  function IdOf(t: Transition): TransitionId { t.id }

  /** All entries are readable, all belong to the campaign, and no identifier repeats. */
  ghost predicate Clean(cid: CampaignId, entries: seq<Entry>) {
    && (forall e :: e in entries ==> e.Read? && e.transition.campaign == cid)
    && DistinctKeys(entries, EntryId)
  }

  function EntryId(e: Entry): TransitionId {
    if e.Read? then e.transition.id else 0
  }

  function Moves(entries: seq<Entry>): (moves: seq<Transition>)
    requires forall e :: e in entries ==> e.Read?
    ensures |moves| == |entries| && forall i :: 0 <= i < |entries| ==> moves[i] == entries[i].transition
  {
    seq(|entries|, i requires 0 <= i < |entries| => entries[i].transition)
  }

  /** A replayable history that ends in CLOSED closes when its last move was made. */
  function LastClosing(h: seq<Transition>): Anchor {
    if h != [] && Replay(h[0].from, h) == At(Closed) then ClosedAt(h[|h| - 1].at) else NoAnchor
  }

  ghost function Derived(cid: CampaignId, entries: seq<Entry>): Anchor {
    if Clean(cid, entries) then LastClosing(Sort(Moves(entries), MoveKey)) else NoAnchor
  }

  /** The first loop: reject anything unreadable, foreign or repeated. */
  method ReadEntries(cid: CampaignId, entries: seq<Entry>) returns (clean: bool, moves: seq<Transition>)
    ensures clean <==> Clean(cid, entries)
    ensures clean ==> moves == Moves(entries)
  {
    var seen: set<TransitionId> := {};
    moves := [];
    for i := 0 to |entries|
      invariant Clean(cid, entries[..i]) && moves == Moves(entries[..i])
      invariant forall id :: id in seen <==> exists m :: m in moves && m.id == id
    {
      var e := entries[i];
      assert e in entries;
      if e.Unreadable? || e.transition.campaign != cid {
        return false, [];
      }
      if e.transition.id in seen {
        Repeats(entries, i, moves);
        return false, [];
      }
      assert entries[..i + 1] == entries[..i] + [e];
      CleanExtends(cid, entries[..i], e, moves);
      seen := seen + {e.transition.id};
      moves := moves + [e.transition];
    }
    assert entries[..|entries|] == entries;
    clean := true;
  }

  lemma Repeats(entries: seq<Entry>, i: nat, moves: seq<Transition>)
    requires i < |entries| && entries[i].Read? && |moves| == i
    requires forall j :: 0 <= j < i ==> entries[j].Read? && moves[j] == entries[j].transition
    requires exists m :: m in moves && m.id == entries[i].transition.id
    ensures !DistinctKeys(entries, EntryId)
  {
    var m :| m in moves && m.id == entries[i].transition.id;
    var j :| 0 <= j < i && moves[j] == m;
    assert EntryId(entries[j]) == EntryId(entries[i]);
  }

  lemma CleanExtends(cid: CampaignId, entries: seq<Entry>, e: Entry, moves: seq<Transition>)
    requires Clean(cid, entries) && moves == Moves(entries)
    requires e.Read? && e.transition.campaign == cid
    requires forall m :: m in moves ==> m.id != e.transition.id
    ensures Clean(cid, entries + [e]) && Moves(entries + [e]) == moves + [e.transition]
  {
    forall j | 0 <= j < |entries| ensures entries[j].transition.id != e.transition.id {
      assert moves[j] in moves;
    }
  }

  /** The second loop: walk the sorted history. */
  method WalkHistory(h: seq<Transition>) returns (anchor: Anchor)
    requires h != []
    ensures anchor == LastClosing(h)
  {
    var current, final := h[0].from, NoAnchor;
    for i := 0 to |h|
      invariant Replay(h[0].from, h[..i]) == At(current)
      invariant i > 0 && current.Closed? ==> final == ClosedAt(h[i - 1].at)
      invariant final.ClosedAt? ==> i > 0
    {
      assert h[..i + 1][..i] == h[..i];
      if h[i].from != current || !Allowed(current, h[i].to) {
        BreaksFor(h[0].from, h, i + 1);
        return NoAnchor;
      }
      current := h[i].to;
      if current.Closed? {
        final := ClosedAt(h[i].at);
      }
    }
    assert h[..|h|] == h;
    anchor := if current.Closed? then final else NoAnchor;
  }

  lemma {:induction false} BreaksFor(start: Status, h: seq<Transition>, k: nat)
    requires k <= |h| && Replay(start, h[..k]).Broken?
    ensures Replay(start, h).Broken?
  {
    if Replay(start, h).At? {
      ReplayPrefix(start, h, k);
    }
  }

  method DeriveParentClosedAt(cid: CampaignId, entries: seq<Entry>) returns (anchor: Anchor)
    ensures anchor == Derived(cid, entries)
  {
    var clean, moves := ReadEntries(cid, entries);
    if !clean || moves == [] {
      return NoAnchor;
    }
    var h := Sort(moves, MoveKey);
    anchor := WalkHistory(h);
  }

  // The order of the input does not matter.

  lemma CleanRearranged(cid: CampaignId, a: seq<Entry>, b: seq<Entry>)
    requires multiset(a) == multiset(b) && Clean(cid, a)
    ensures Clean(cid, b)
  {
    forall e | e in b ensures e in a {
      assert e in multiset(b);
    }
    DistinctKeysMove(a, b, EntryId);
  }

  /** Distinct identifiers make each move unique, so a rearrangement has the same moves. */
  lemma MovesRearranged(cid: CampaignId, a: seq<Entry>, b: seq<Entry>)
    requires multiset(a) == multiset(b) && Clean(cid, a) && Clean(cid, b)
    ensures multiset(Moves(a)) == multiset(Moves(b))
  {
    MovesDistinct(cid, a);
    MovesDistinct(cid, b);
    forall t ensures multiset(Moves(a))[t] == multiset(Moves(b))[t] {
      OnceCounted(Moves(a), t, IdOf);
      OnceCounted(Moves(b), t, IdOf);
      InMoves(a, t);
      InMoves(b, t);
      assert Read(t) in a <==> Read(t) in multiset(a);
      assert Read(t) in b <==> Read(t) in multiset(b);
    }
  }

  lemma InMoves(a: seq<Entry>, t: Transition)
    requires forall e :: e in a ==> e.Read?
    ensures t in multiset(Moves(a)) <==> Read(t) in a
  {
    if Read(t) in a {
      var i :| 0 <= i < |a| && a[i] == Read(t);
      assert Moves(a)[i] == t;
    }
    if t in Moves(a) {
      var i :| 0 <= i < |a| && Moves(a)[i] == t;
      assert a[i] in a;
    }
  }

  lemma MovesDistinct(cid: CampaignId, a: seq<Entry>)
    requires Clean(cid, a)
    ensures DistinctKeys(Moves(a), IdOf) && DistinctKeys(Moves(a), MoveKey)
  {
    var m := Moves(a);
    forall i, j | 0 <= i < j < |m| ensures IdOf(m[i]) != IdOf(m[j]) && MoveKey(m[i]) != MoveKey(m[j]) {
      assert EntryId(a[i]) != EntryId(a[j]);
      assert a[i] in a && a[j] in a;
    }
  }

  /** Any arrangement of the same entries derives the same closing time. */
  lemma DerivationIgnoresOrder(cid: CampaignId, a: seq<Entry>, b: seq<Entry>)
    requires multiset(a) == multiset(b)
    ensures Derived(cid, a) == Derived(cid, b)
  {
    if Clean(cid, a) {
      CleanRearranged(cid, a, b);
      MovesRearranged(cid, a, b);
      MovesDistinct(cid, a);
      SortIgnoresInputOrder(Moves(a), Moves(b), MoveKey);
    } else if Clean(cid, b) {
      CleanRearranged(cid, b, a);
    }
  }

  // On the histories that the store records.

  function Entries(h: seq<Transition>): (entries: seq<Entry>)
    ensures |entries| == |h| && forall i :: 0 <= i < |h| ==> entries[i] == Read(h[i])
  {
    seq(|h|, i requires 0 <= i < |h| => Read(h[i]))
  }

  /** What a reachable store guarantees about the log of one campaign. */
  ghost predicate StoreLog(cid: CampaignId, h: seq<Transition>, status: Status) {
    && Replay(Draft, h) == At(status)
    && DistinctKeys(h, IdOf)
    && forall t :: t in h ==> t.campaign == cid
  }

  lemma {:induction false} HistoryKeepsIdsDistinct(transitions: seq<Transition>, c: CampaignId)
    requires DistinctKeys(transitions, IdOf)
    ensures DistinctKeys(History(transitions, c), IdOf)
  {
    if transitions != [] {
      var n := |transitions| - 1;
      HistoryKeepsIdsDistinct(transitions[..n], c);
      forall t | t in History(transitions[..n], c) ensures t.id != transitions[n].id {
        var i :| 0 <= i < n && transitions[i] == t;
        assert IdOf(transitions[i]) != IdOf(transitions[n]);
      }
    }
  }

  lemma {:induction false} RunsKeepStoreLogs(steps: seq<Step>, c: CampaignId)
    requires c in Run(START, steps).db.campaigns
    ensures var db := Run(START, steps).db;
            StoreLog(c, History(db.transitions, c), db.campaigns[c].status)
  {
    var db := Run(START, steps).db;
    RunKeepsInvariant(START, steps);
    assert Explained(db, c);
    forall i, j | 0 <= i < j < |db.transitions| ensures IdOf(db.transitions[i]) != IdOf(db.transitions[j]) {
    }
    HistoryKeepsIdsDistinct(db.transitions, c);
  }

  lemma StoreLogIsClean(cid: CampaignId, h: seq<Transition>, status: Status)
    requires StoreLog(cid, h, status)
    ensures Clean(cid, Entries(h)) && Moves(Entries(h)) == h
  {
    var e := Entries(h);
    forall i, j | 0 <= i < j < |e| ensures EntryId(e[i]) != EntryId(e[j]) {
      assert IdOf(h[i]) != IdOf(h[j]);
    }
    forall x | x in e ensures x.Read? && x.transition.campaign == cid {
      var i :| 0 <= i < |e| && e[i] == x;
      assert h[i] in h;
    }
  }

  /** Two replayable arrangements of the same moves are the same arrangement. */
  lemma {:induction false} OneReplayableOrder(start: Status, other: Status, a: seq<Transition>, b: seq<Transition>)
    requires Replay(start, a).At? && Replay(other, b).At? && multiset(a) == multiset(b)
    ensures a == b
  {
    forall i, j | 0 <= i < j < |a| ensures Before(RankKey(a[i]), RankKey(a[j])) {
      RanksRise(start, a, i, j);
    }
    forall i, j | 0 <= i < j < |b| ensures NotAfter(RankKey(b[i]), RankKey(b[j])) {
      RanksRise(other, b, i, j);
    }
    OneOrder(a, b, RankKey);
  }

  function RankKey(t: Transition): Stamp { Stamp(Rank(t.from), 0) }

  /** Along the log times do not decrease, and at equal times identifiers increase. */
  ghost predicate TimesIncrease(h: seq<Transition>) {
    forall i, j :: 0 <= i < j < |h| ==> h[i].at < h[j].at || (h[i].at == h[j].at && h[i].id < h[j].id)
  }

  lemma TimesAreKeys(h: seq<Transition>)
    ensures TimesIncrease(h) <==> StrictlyOrdered(h, MoveKey)
  {
    if StrictlyOrdered(h, MoveKey) {
      forall i, j | 0 <= i < j < |h|
        ensures h[i].at < h[j].at || (h[i].at == h[j].at && h[i].id < h[j].id)
      {
        assert Before(MoveKey(h[i]), MoveKey(h[j]));
      }
    }
  }

  lemma {:induction false} SortedMoves(cid: CampaignId, entries: seq<Entry>)
    requires Clean(cid, entries)
    ensures var h := Sort(Moves(entries), MoveKey);
            multiset(h) == multiset(Moves(entries)) && TimesIncrease(h)
  {
    var moves := Moves(entries);
    var h := Sort(moves, MoveKey);
    SortSorts(moves, MoveKey);
    MovesDistinct(cid, entries);
    DistinctKeysMove(moves, h, MoveKey);
    TimesAreKeys(h);
    forall i, j | 0 <= i < j < |h| ensures Before(MoveKey(h[i]), MoveKey(h[j])) {
      assert NotAfter(MoveKey(h[i]), MoveKey(h[j]));
    }
  }

  /**
   * On any entries whatever: a time is derived exactly when they are clean and can be put into an order of
   * increasing times in which each move starts where the one before ended and the last one closes; it is the
   * time of that last move.
   */
  lemma {:induction false} DerivedMeans(cid: CampaignId, entries: seq<Entry>, time: int)
    ensures Derived(cid, entries) == ClosedAt(time) <==>
            Clean(cid, entries) && exists h: seq<Transition> ::
              && multiset(h) == multiset(Moves(entries)) && TimesIncrease(h)
              && h != [] && Replay(h[0].from, h) == At(Closed) && h[|h| - 1].at == time
  {
    if Clean(cid, entries) {
      SortedMoves(cid, entries);
      forall h | multiset(h) == multiset(Moves(entries)) && TimesIncrease(h)
        ensures h == Sort(Moves(entries), MoveKey)
      {
        TimesAreKeys(h);
        SortsTo(Moves(entries), h, MoveKey);
      }
    }
  }

  /**
   * The derivation finds a closing time exactly for a CLOSED campaign whose recorded moves
   * have increasing (time, identifier) stamps; and then it is the time of the move to CLOSED.
   */
  lemma DerivedExactly(cid: CampaignId, h: seq<Transition>, status: Status)
    requires StoreLog(cid, h, status)
    ensures Derived(cid, Entries(h)).ClosedAt? <==> status.Closed? && TimesIncrease(h)
    ensures Derived(cid, Entries(h)).ClosedAt? ==>
      h != [] && h[|h| - 1].to.Closed? && Derived(cid, Entries(h)) == ClosedAt(h[|h| - 1].at)
  {
    StoreLogIsClean(cid, h, status);
    hide Replay, Sort, TimesIncrease, StoreLog, Derived, Clean;
    if status.Closed? && TimesIncrease(h) {
      ClosedLog(cid, h, status);
      DerivedMeans(cid, Entries(h), h[|h| - 1].at);
    }
    if Derived(cid, Entries(h)).ClosedAt? {
      var time := Derived(cid, Entries(h)).time;
      DerivedMeans(cid, Entries(h), time);
      var s: seq<Transition> :| multiset(s) == multiset(h) && TimesIncrease(s) && s != []
               && Replay(s[0].from, s) == At(Closed) && s[|s| - 1].at == time;
      assert Replay(Draft, h) == At(status) by { LogReplays(cid, h, status); }
      OneReplayableOrder(Draft, s[0].from, h, s);
      ReplayLinks(Draft, h, 0);
      ReplayLinks(Draft, h, |h| - 1);
    }
  }

  lemma {:induction false} LogReplays(cid: CampaignId, h: seq<Transition>, status: Status)
    requires StoreLog(cid, h, status)
    ensures Replay(Draft, h) == At(status)
  {
  }

  lemma {:induction false} ClosedLog(cid: CampaignId, h: seq<Transition>, status: Status)
    requires StoreLog(cid, h, status) && status.Closed?
    ensures h != [] && Replay(h[0].from, h) == At(Closed) && h[|h| - 1].to.Closed?
  {
    assert h != [];
    ReplayLinks(Draft, h, 0);
  }

  /** The same for every run of the commands, and every order in which the rows are handed over. */
  lemma {:induction false} ClosingOfARun(steps: seq<Step>, c: CampaignId, given: seq<Entry>)
    requires c in Run(START, steps).db.campaigns
    requires multiset(given) == multiset(Entries(History(Run(START, steps).db.transitions, c)))
    ensures var w := Run(START, steps);
            var h := History(w.db.transitions, c);
            && (Derived(c, given).ClosedAt? <==> w.db.campaigns[c].status.Closed? && TimesIncrease(h))
            && (Derived(c, given).ClosedAt? ==>
                  h != [] && h[|h| - 1].to.Closed? && Derived(c, given) == ClosedAt(h[|h| - 1].at))
  {
    var w := Run(START, steps);
    var h := History(w.db.transitions, c);
    RunsKeepStoreLogs(steps, c);
    DerivedExactly(c, h, w.db.campaigns[c].status);
    DerivationIgnoresOrder(c, given, Entries(h));
  }
}
