/**
 * Whole runs of the campaign commands (backend/campaign_service.py over backend/campaign_store.py).
 * A command that reads first and writes later is two steps, so anything may happen in between;
 * clocks and generated identifiers are whatever the run says they are.
 */
module CampaignRuns {
  import opened CampaignStore

  /** The fields of a thesis that the binding command looks at. */
  datatype Thesis = Thesis(id: ThesisId, isStock: bool, subject: string, revision: int,
                           archived: bool, frozen: bool, strategy: string)

  datatype Step =
    | Create(cid: CampaignId, code: string, strategy: string, now: int)
    | Request(cid: CampaignId, expected: Status, to: Status, id: TransitionId, now: int)
    | ReadForActivation(cid: CampaignId)
    | Activate(cid: CampaignId, evidence: bool, id: TransitionId, now: int)
    | ReadForBinding(cid: CampaignId)
    | Bind(cid: CampaignId, seen: Campaign, thesis: Thesis, now: int)

  /** The tables, the reads that commands in flight still rely on, and the activations that passed the evidence gate. */
  datatype World = World(
    db: Database, activating: set<CampaignId>, binding: set<(CampaignId, Campaign)>, gated: set<TransitionId>)

  const START := World(Database(map[], [], map[]), {}, {}, {})

  predicate MayBind(seen: Campaign, thesis: Thesis) {
    && thesis.isStock && thesis.subject == seen.code && thesis.revision > 0
    && !thesis.archived && thesis.frozen && thesis.strategy == seen.strategy
  }

  function Apply(w: World, step: Step): World {
    match step
    case Create(cid, code, strategy, now) =>
      w.(db := AfterCreate(w.db, cid, Campaign(code, strategy, Draft, now)))
    case Request(cid, expected, to, id, now) =>
      if expected.PreEntry? && to.Active? then w
      else w.(db := AfterTransition(w.db, cid, expected, to, id, now))
    case ReadForActivation(cid) =>
      if cid in w.db.campaigns && w.db.campaigns[cid].status.PreEntry?
      then w.(activating := w.activating + {cid}) else w
    case Activate(cid, evidence, id, now) =>
      if cid in w.activating && evidence && TransitionAnswer(w.db, cid, PreEntry, Active, id).Done?
      then w.(db := AfterTransition(w.db, cid, PreEntry, Active, id, now), gated := w.gated + {id}) else w
    case ReadForBinding(cid) =>
      if cid in w.db.campaigns then w.(binding := w.binding + {(cid, w.db.campaigns[cid])}) else w
    case Bind(cid, seen, thesis, now) =>
      if (cid, seen) in w.binding && MayBind(seen, thesis)
      then w.(db := AfterBind(w.db, Binding(cid, thesis.id, thesis.revision, seen.strategy, now))) else w
  }

  function Run(w: World, steps: seq<Step>): World
    decreases |steps|
  {
    if steps == [] then w else Run(Apply(w, steps[0]), steps[1..])
  }

  predicate IsActivation(t: Transition) {
    t.from.PreEntry? && t.to.Active?
  }

  // What every step keeps.

  ghost predicate Explained(db: Database, c: CampaignId) {
    if c in db.campaigns then Replay(Draft, History(db.transitions, c)) == At(db.campaigns[c].status)
    else History(db.transitions, c) == []
  }

  ghost predicate AuditExplainsStatus(db: Database) {
    forall c :: Explained(db, c)
  }

  ghost predicate IdsDistinct(transitions: seq<Transition>) {
    forall i, j :: 0 <= i < j < |transitions| ==> transitions[i].id != transitions[j].id
  }

  ghost predicate BindingsSound(db: Database) {
    && (forall c :: c in db.bindings ==> c in db.campaigns && db.bindings[c].campaign == c)
    && (forall c :: c in db.bindings && c in db.campaigns ==> db.bindings[c].strategy == db.campaigns[c].strategy)
    && (forall c, d :: c in db.bindings && d in db.bindings && db.bindings[c].thesis == db.bindings[d].thesis
          ==> c == d)
  }

  ghost predicate ReadsStillTrue(w: World) {
    forall c, seen :: (c, seen) in w.binding ==>
      c in w.db.campaigns && seen.(status := w.db.campaigns[c].status) == w.db.campaigns[c]
  }

  ghost predicate ActivationsGated(w: World) {
    forall t :: t in w.db.transitions && IsActivation(t) ==> t.id in w.gated
  }

  ghost predicate Invariant(w: World) {
    && AuditExplainsStatus(w.db) && IdsDistinct(w.db.transitions) && BindingsSound(w.db)
    && ReadsStillTrue(w) && ActivationsGated(w)
  }

  /** What can never be undone: records, their identity fields, audit rows and bindings. */
  ghost predicate Grows(a: Database, b: Database) {
    && (forall c :: c in a.campaigns ==>
          c in b.campaigns && a.campaigns[c].(status := b.campaigns[c].status) == b.campaigns[c])
    && a.transitions <= b.transitions
    && (forall c :: c in a.bindings ==> c in b.bindings && b.bindings[c] == a.bindings[c])
  }

  lemma {:induction false} HistoryGrows(transitions: seq<Transition>, t: Transition, c: CampaignId)
    ensures History(transitions + [t], c) ==
            if t.campaign == c then History(transitions, c) + [t] else History(transitions, c)
  {
    assert (transitions + [t])[..|transitions|] == transitions;
  }

  lemma {:induction false} ReplayAppend(start: Status, h: seq<Transition>, t: Transition)
    requires Replay(start, h) == At(t.from) && Allowed(t.from, t.to)
    ensures Replay(start, h + [t]) == At(t.to)
  {
    assert (h + [t])[..|h|] == h;
  }

  lemma MoveKeepsExplained(db: Database, cid: CampaignId, expected: Status, to: Status, id: TransitionId, at: int,
                           c: CampaignId)
    requires Explained(db, c) && TransitionAnswer(db, cid, expected, to, id).Done?
    ensures Explained(AfterTransition(db, cid, expected, to, id, at), c)
  {
    var t := Transition(id, cid, expected, to, at);
    HistoryGrows(db.transitions, t, c);
    if c == cid {
      ReplayAppend(Draft, History(db.transitions, c), t);
    }
  }

  lemma MoveKeepsAudit(db: Database, cid: CampaignId, expected: Status, to: Status, id: TransitionId, at: int)
    requires AuditExplainsStatus(db)
    ensures AuditExplainsStatus(AfterTransition(db, cid, expected, to, id, at))
  {
    if TransitionAnswer(db, cid, expected, to, id).Done? {
      forall c ensures Explained(AfterTransition(db, cid, expected, to, id, at), c) {
        MoveKeepsExplained(db, cid, expected, to, id, at, c);
      }
    }
  }

  lemma CreateKeepsAudit(db: Database, cid: CampaignId, c: Campaign)
    requires AuditExplainsStatus(db) && c.status.Draft?
    ensures AuditExplainsStatus(AfterCreate(db, cid, c))
  {
    forall d ensures Explained(AfterCreate(db, cid, c), d) {
      assert Explained(db, d);
    }
  }

  lemma BindKeepsAudit(db: Database, b: Binding)
    requires AuditExplainsStatus(db)
    ensures AuditExplainsStatus(AfterBind(db, b))
  {
    forall d ensures Explained(AfterBind(db, b), d) {
      assert Explained(db, d);
    }
  }

  lemma MoveKeepsRest(w: World, cid: CampaignId, expected: Status, to: Status, id: TransitionId, at: int)
    requires BindingsSound(w.db) && ReadsStillTrue(w) && IdsDistinct(w.db.transitions)
    ensures var db := AfterTransition(w.db, cid, expected, to, id, at);
            BindingsSound(db) && ReadsStillTrue(w.(db := db)) && IdsDistinct(db.transitions) && Grows(w.db, db)
  {
  }

  lemma StepGrows(w: World, step: Step)
    ensures Grows(w.db, Apply(w, step).db)
  {
  }

  lemma BindKeepsBindings(w: World, b: Binding)
    requires BindingsSound(w.db) && b.campaign in w.db.campaigns
    requires b.strategy == w.db.campaigns[b.campaign].strategy
    ensures BindingsSound(AfterBind(w.db, b))
  {
  }

  lemma StepKeepsInvariant(w: World, step: Step)
    requires Invariant(w)
    ensures Invariant(Apply(w, step))
  {
    match step
    case Create(cid, code, strategy, now) =>
      CreateKeepsAudit(w.db, cid, Campaign(code, strategy, Draft, now));
    case Request(cid, expected, to, id, now) =>
      MoveKeepsAudit(w.db, cid, expected, to, id, now);
      MoveKeepsRest(w, cid, expected, to, id, now);
    case ReadForActivation(cid) =>
    case Activate(cid, evidence, id, now) =>
      MoveKeepsAudit(w.db, cid, PreEntry, Active, id, now);
      MoveKeepsRest(w, cid, PreEntry, Active, id, now);
    case ReadForBinding(cid) =>
    case Bind(cid, seen, thesis, now) =>
      if (cid, seen) in w.binding && MayBind(seen, thesis) {
        BindKeepsBindings(w, Binding(cid, thesis.id, thesis.revision, seen.strategy, now));
        BindKeepsAudit(w.db, Binding(cid, thesis.id, thesis.revision, seen.strategy, now));
      }
  }

  /** Every world that any sequence of steps can reach satisfies the invariant. */
  lemma {:induction false} RunKeepsInvariant(w: World, steps: seq<Step>)
    requires Invariant(w)
    ensures Invariant(Run(w, steps))
    decreases |steps|
  {
    if steps != [] {
      StepKeepsInvariant(w, steps[0]);
      RunKeepsInvariant(Apply(w, steps[0]), steps[1..]);
    }
  }

  /** Identity, audit log and bindings only ever grow. */
  lemma {:induction false} RunGrows(w: World, steps: seq<Step>)
    ensures Grows(w.db, Run(w, steps).db)
    decreases |steps|
  {
    if steps != [] {
      var next := Apply(w, steps[0]);
      StepGrows(w, steps[0]);
      RunGrows(next, steps[1..]);
      GrowsTransitive(w.db, next.db, Run(w, steps).db);
    }
  }

  lemma GrowsTransitive(a: Database, b: Database, c: Database)
    requires Grows(a, b) && Grows(b, c)
    ensures Grows(a, c)
  {
    assert a.transitions <= c.transitions by {
      assert forall i :: 0 <= i < |a.transitions| ==> a.transitions[i] == b.transitions[i] == c.transitions[i];
    }
  }

  // What a run says about one campaign.

  predicate HasTraded(s: Status) {
    s.Active? || s.Reducing? || s.Closed?
  }

  ghost predicate Activated(h: seq<Transition>) {
    exists i :: 0 <= i < |h| && IsActivation(h[i])
  }

  lemma ActivatedSplits(h: seq<Transition>, t: Transition)
    ensures Activated(h + [t]) <==> Activated(h) || IsActivation(t)
  {
    if i :| 0 <= i < |h| && IsActivation(h[i]) {
      assert (h + [t])[i] == h[i];
    }
    assert (h + [t])[|h|] == t;
  }

  lemma MoveTrades(t: Transition)
    requires Allowed(t.from, t.to)
    ensures HasTraded(t.to) <==> HasTraded(t.from) || IsActivation(t)
  {
  }

  /** Only an activation leads to ACTIVE, and only through ACTIVE lead the later statuses. */
  lemma {:induction false} TradedMeansActivated(h: seq<Transition>)
    requires Replay(Draft, h).At?
    ensures HasTraded(Replay(Draft, h).status) <==> Activated(h)
  {
    if h != [] {
      var n := |h| - 1;
      hide Activated, Allowed, HasTraded, IsActivation;
      ReplayPrefix(Draft, h, n);
      MoveTrades(h[n]);
      TradedMeansActivated(h[..n]);
      assert h == h[..n] + [h[n]];
      ActivatedSplits(h[..n], h[n]);
    }
  }

  lemma {:induction false} OneActivation(h: seq<Transition>, i: nat, j: nat)
    requires Replay(Draft, h).At? && i < |h| && j < |h| && IsActivation(h[i]) && IsActivation(h[j])
    ensures i == j
  {
    LeftOnce(Draft, h, i, j);
  }

  lemma {:induction false} GatedHistory(w: World, c: CampaignId, i: nat)
    requires ActivationsGated(w) && i < |History(w.db.transitions, c)|
    requires IsActivation(History(w.db.transitions, c)[i])
    ensures History(w.db.transitions, c)[i].id in w.gated
  {
    assert History(w.db.transitions, c)[i] in History(w.db.transitions, c);
  }

  /**
   * A campaign is ACTIVE, REDUCING or CLOSED exactly when its log holds an activation;
   * there is only one, and it went through the evidence gate.
   */
  lemma {:induction false} OneGatedActivation(steps: seq<Step>, c: CampaignId)
    requires c in Run(START, steps).db.campaigns
    ensures var w := Run(START, steps);
            var h := History(w.db.transitions, c);
            if HasTraded(w.db.campaigns[c].status)
            then exists i :: 0 <= i < |h| && IsActivation(h[i]) && h[i].id in w.gated &&
                   forall j :: 0 <= j < |h| && IsActivation(h[j]) ==> j == i
            else !Activated(h)
  {
    var w := Run(START, steps);
    var h := History(w.db.transitions, c);
    RunKeepsInvariant(START, steps);
    assert Explained(w.db, c);
    TradedMeansActivated(h);
    if HasTraded(w.db.campaigns[c].status) {
      var i :| 0 <= i < |h| && IsActivation(h[i]);
      GatedHistory(w, c, i);
      forall j | 0 <= j < |h| && IsActivation(h[j]) ensures j == i {
        OneActivation(h, i, j);
      }
    }
  }

  /** The status is the replay of the log from DRAFT, and no status is left twice. */
  lemma {:induction false} StatusIsReplay(steps: seq<Step>, c: CampaignId)
    requires c in Run(START, steps).db.campaigns
    ensures var w := Run(START, steps);
            var h := History(w.db.transitions, c);
            && Replay(Draft, h) == At(w.db.campaigns[c].status)
            && forall i, j :: 0 <= i < j < |h| ==> h[i].from != h[j].from
  {
    var w := Run(START, steps);
    var h := History(w.db.transitions, c);
    RunKeepsInvariant(START, steps);
    assert Explained(w.db, c);
    forall i, j | 0 <= i < j < |h| ensures h[i].from != h[j].from {
      RanksRise(Draft, h, i, j);
    }
  }

  /** However a run continues, identity fields, audit rows and bindings stay as they were. */
  lemma {:induction false} NothingIsRewritten(before: seq<Step>, after: seq<Step>)
    ensures Grows(Run(START, before).db, Run(START, before + after).db)
  {
    RunConcat(START, before, after);
    RunGrows(Run(START, before), after);
  }

  lemma {:induction false} RunConcat(w: World, a: seq<Step>, b: seq<Step>)
    ensures Run(w, a + b) == Run(Run(w, a), b)
    decreases |a|
  {
    if a == [] {
      assert a + b == b;
    } else {
      assert (a + b)[1..] == a[1..] + b;
      RunConcat(Apply(w, a[0]), a[1..], b);
    }
  }

  /** A binding carries its campaign's own strategy, and no thesis serves two campaigns. */
  lemma {:induction false} BindingsAreOneToOne(steps: seq<Step>)
    ensures BindingsSound(Run(START, steps).db)
  {
    RunKeepsInvariant(START, steps);
  }

  lemma {:induction false} LastStep(steps: seq<Step>)
    requires steps != []
    ensures Run(START, steps) == Apply(Run(START, steps[..|steps| - 1]), steps[|steps| - 1])
  {
    var n := |steps| - 1;
    assert steps == steps[..n] + [steps[n]];
    RunConcat(START, steps[..n], [steps[n]]);
  }

  /** A frozen stock thesis on the campaign's own security and strategy that is not archived. */
  predicate IsThesisFor(thesis: Thesis, code: string, strategy: string) {
    && thesis.isStock && thesis.frozen && !thesis.archived
    && thesis.subject == code && thesis.strategy == strategy && thesis.revision >= 1
  }

  /** Every binding was made from such a thesis, and records it. */
  lemma {:induction false} BindingComesFromAThesis(steps: seq<Step>, c: CampaignId) returns (i: nat)
    requires c in Run(START, steps).db.bindings
    ensures var db := Run(START, steps).db;
            && i < |steps| && steps[i].Bind? && steps[i].cid == c && c in db.campaigns
            && IsThesisFor(steps[i].thesis, db.campaigns[c].code, db.campaigns[c].strategy)
            && db.bindings[c] == Binding(c, steps[i].thesis.id, steps[i].thesis.revision,
                                         db.campaigns[c].strategy, steps[i].now)
    decreases |steps|
  {
    var n := |steps| - 1;
    var before := Run(START, steps[..n]);
    LastStep(steps);
    RunKeepsInvariant(START, steps[..n]);
    StepGrows(before, steps[n]);
    if c in before.db.bindings {
      hide Run, Apply, Invariant;
      i := BindingComesFromAThesis(steps[..n], c);
    } else {
      BindingStep(before, steps[n], c);
      i := n;
    }
  }

  lemma BindingStep(w: World, step: Step, c: CampaignId)
    requires ReadsStillTrue(w) && c !in w.db.bindings && c in Apply(w, step).db.bindings
    ensures step.Bind? && step.cid == c && c in w.db.campaigns && Apply(w, step).db.campaigns == w.db.campaigns
    ensures var campaign := w.db.campaigns[c];
            && IsThesisFor(step.thesis, campaign.code, campaign.strategy)
            && Apply(w, step).db.bindings[c] ==
               Binding(c, step.thesis.id, step.thesis.revision, campaign.strategy, step.now)
  {
  }

  /**
   * In every reachable world, a campaign read and then bound ends up with that binding exactly when the thesis
   * is one for it, the campaign is unbound, and no other campaign has the thesis; otherwise nothing changes.
   */
  lemma {:induction false} BindsExactly(steps: seq<Step>, c: CampaignId, thesis: Thesis, now: int)
    requires c in Run(START, steps).db.campaigns
    ensures var w := Run(START, steps);
            var seen := w.db.campaigns[c];
            var next := Apply(Apply(w, ReadForBinding(c)), Bind(c, seen, thesis, now)).db;
            if IsThesisFor(thesis, seen.code, seen.strategy) && c !in w.db.bindings
               && forall d :: d in w.db.bindings ==> w.db.bindings[d].thesis != thesis.id
            then next == w.db.(bindings :=
                   w.db.bindings[c := Binding(c, thesis.id, thesis.revision, seen.strategy, now)])
            else next == w.db
  {
  }

  /** A campaign was in PRE-ENTRY when the command read it. */
  ghost predicate ReadInPreEntry(steps: seq<Step>, c: CampaignId, j: nat) {
    && j < |steps| && steps[j] == ReadForActivation(c)
    && var db := Run(START, steps[..j]).db; c in db.campaigns && db.campaigns[c].status.PreEntry?
  }

  lemma {:induction false} ActivatingWasRead(steps: seq<Step>, c: CampaignId) returns (j: nat)
    requires c in Run(START, steps).activating
    ensures ReadInPreEntry(steps, c, j)
    decreases |steps|
  {
    var n := |steps| - 1;
    LastStep(steps);
    if c in Run(START, steps[..n]).activating {
      hide Run, Apply;
      j := ActivatingWasRead(steps[..n], c);
      assert steps[..n][..j] == steps[..j];
    } else {
      j := n;
    }
  }

  lemma ActivationStep(w: World, step: Step, t: Transition)
    requires IsActivation(t) && t !in w.db.transitions && t in Apply(w, step).db.transitions
    ensures step == Activate(t.campaign, true, t.id, t.at) && t.campaign in w.activating
  {
  }

  /** Every activation in a log was asked for with evidence, after the campaign was read in PRE-ENTRY. */
  lemma {:induction false} ActivationHadEvidence(steps: seq<Step>, t: Transition) returns (j: nat, i: nat)
    requires t in Run(START, steps).db.transitions && IsActivation(t)
    ensures j < i < |steps| && ReadInPreEntry(steps, t.campaign, j)
    ensures steps[i] == Activate(t.campaign, true, t.id, t.at)
    decreases |steps|
  {
    var n := |steps| - 1;
    LastStep(steps);
    var before := Run(START, steps[..n]);
    hide Run, Apply;
    if t in before.db.transitions {
      j, i := ActivationHadEvidence(steps[..n], t);
    } else {
      ActivationStep(before, steps[n], t);
      i := n;
      j := ActivatingWasRead(steps[..n], t.campaign);
    }
    assert steps[..n][..j] == steps[..j];
  }

  /** A read and an activation right after it succeed exactly from PRE-ENTRY, with evidence and a new identifier. */
  lemma {:induction false} ActivatesExactly(w: World, c: CampaignId, evidence: bool, id: TransitionId, now: int)
    ensures var next := Apply(Apply(w, ReadForActivation(c)), Activate(c, evidence, id, now)).db;
            if c in w.db.campaigns && w.db.campaigns[c].status.PreEntry? && evidence
               && forall t :: t in w.db.transitions ==> t.id != id
            then next == w.db.(campaigns := w.db.campaigns[c := w.db.campaigns[c].(status := Active)],
                               transitions := w.db.transitions + [Transition(id, c, PreEntry, Active, now)])
            else next == w.db
  {
  }

  // The commands as the service runs them when nothing comes in between.

  method RequestTransition(store: Store, cid: CampaignId, expected: Status, to: Status, id: TransitionId, now: int)
    returns (refused: bool, answer: Outcome)
    modifies store
    ensures refused <==> expected.PreEntry? && to.Active?
    ensures store.Contents() == Apply(START.(db := old(store.Contents())), Request(cid, expected, to, id, now)).db
    ensures !refused ==> answer == TransitionAnswer(old(store.Contents()), cid, expected, to, id)
  {
    refused := expected.PreEntry? && to.Active?;
    answer := Conflict;
    if !refused {
      answer := store.Move(cid, expected, to, id, now);
    }
  }

  method ActivateFromTrade(store: Store, cid: CampaignId, evidence: bool, id: TransitionId, now: int)
    returns (activated: bool)
    modifies store
    ensures activated <==> evidence && TransitionAnswer(old(store.Contents()), cid, PreEntry, Active, id).Done?
    ensures store.Contents() ==
            Apply(Apply(START.(db := old(store.Contents())), ReadForActivation(cid)),
                  Activate(cid, evidence, id, now)).db
  {
    activated := false;
    if cid !in store.campaigns || !store.campaigns[cid].status.PreEntry? || !evidence {
      return;
    }
    var answer := store.Move(cid, PreEntry, Active, id, now);
    activated := answer.Done?;
  }
}
