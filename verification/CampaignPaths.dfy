/** The ways a campaign can go, written out: which audit logs there are, and that each of them occurs. */
module CampaignPaths {
  import opened CampaignRuns
  import opened CampaignStore

  const MAIN_PATH: seq<Status> := [Draft, Researching, PreEntry, Active]

  /**
   * The thirteen paths: the main one up to any point, what may follow ACTIVE, and the end of an attempt
   * that never traded.
   */
  ghost predicate IsPath(p: seq<Status>) {
    || (exists n :: 1 <= n <= 4 && p == MAIN_PATH[..n])
    || p == MAIN_PATH + [Closed] || p == MAIN_PATH + [Reducing] || p == MAIN_PATH + [Reducing, Closed]
    || (exists n :: 1 <= n <= 3 && (p == MAIN_PATH[..n] + [Rejected] || p == MAIN_PATH[..n] + [Expired]))
  }


  // The same, by length.
  predicate Listed(p: seq<Status>) {
    match |p|
    case 1 => p[0] == Draft
    case 2 => p[0] == Draft && p[1] in {Researching, Rejected, Expired}
    case 3 => p[0] == Draft && p[1] == Researching && p[2] in {PreEntry, Rejected, Expired}
    case 4 => p[0] == Draft && p[1] == Researching && p[2] == PreEntry && p[3] in {Active, Rejected, Expired}
    case 5 => p[..4] == MAIN_PATH && p[4] in {Reducing, Closed}
    case 6 => p[..4] == MAIN_PATH && p[4] == Reducing && p[5] == Closed
    case _ => false
  }

  lemma PathsAreListed(p: seq<Status>)
    ensures IsPath(p) <==> Listed(p)
  {
    if Listed(p) {
      if |p| == 1 {
        assert p == MAIN_PATH[..1];
      } else if |p| <= 4 {
        assert p == MAIN_PATH[..|p|] || p == MAIN_PATH[..|p| - 1] + [Rejected] || p == MAIN_PATH[..|p| - 1] + [Expired];
      } else if |p| == 5 {
        assert p == p[..4] + [p[4]];
      } else {
        assert p == p[..4] + [p[4], p[5]];
      }
    }
  }

  /** A path goes on with s exactly when the store allows the move. */
  lemma PathStep(p: seq<Status>, s: Status)
    requires p != []
    ensures IsPath(p + [s]) <==> IsPath(p) && Allowed(p[|p| - 1], s)
  {
    hide IsPath;
    PathsAreListed(p);
    PathsAreListed(p + [s]);
    if |p| == 4 {
      assert (p + [s])[..4] == p;
    } else if |p| == 5 {
      assert (p + [s])[..4] == p[..4];
    }
  }

  /** Each move starts where the one before ended, the first one at DRAFT. */
  predicate Connected(h: seq<Transition>) {
    (h != [] ==> h[0].from == Draft) && forall i :: 0 < i < |h| ==> h[i - 1].to == h[i].from
  }

  function Visited(h: seq<Transition>): (p: seq<Status>)
    ensures |p| == |h| + 1
  {
    if h == [] then [Draft] else Visited(h[..|h| - 1]) + [h[|h| - 1].to]
  }

  lemma {:induction false} VisitedAt(h: seq<Transition>, i: nat)
    requires i <= |h|
    ensures Visited(h)[i] == if i == 0 then Draft else h[i - 1].to
  {
    if h != [] && i < |h| {
      VisitedAt(h[..|h| - 1], i);
    }
  }

  lemma ConnectedSplits(h: seq<Transition>)
    requires h != []
    ensures var n := |h| - 1;
            Connected(h) <==> Connected(h[..n]) && (if n == 0 then Draft else h[n - 1].to) == h[n].from
  {
    var n := |h| - 1;
    var front := h[..n];
    assert forall i :: 0 <= i < n ==> front[i] == h[i];
    if Connected(front) && (if n == 0 then Draft else h[n - 1].to) == h[n].from {
      forall i | 0 < i < |h| ensures h[i - 1].to == h[i].from {
        assert i < n ==> front[i - 1].to == front[i].from;
      }
    }
  }

  /** A log can be replayed exactly when its moves are connected and it visits the statuses of one of the paths. */
  lemma {:induction false} LogsArePaths(h: seq<Transition>)
    ensures Replay(Draft, h).At? <==> Connected(h) && IsPath(Visited(h))
    ensures Replay(Draft, h).At? ==> Replay(Draft, h).status == Visited(h)[|h|]
  {
    if h == [] {
      assert [Draft] == MAIN_PATH[..1];
    } else {
      var n := |h| - 1;
      var front, last := h[..n], h[n];
      hide IsPath, Connected, Allowed;
      LogsArePaths(front);
      VisitedAt(front, n);
      PathStep(Visited(front), last.to);
      ConnectedSplits(h);
    }
  }

  /** In every run each campaign's log is one of the paths, and its status is where the path ends. */
  lemma {:induction false} RunsFollowPaths(steps: seq<Step>, c: CampaignId)
    requires c in Run(START, steps).db.campaigns
    ensures var w := Run(START, steps);
            var h := History(w.db.transitions, c);
            Connected(h) && IsPath(Visited(h)) && w.db.campaigns[c].status == Visited(h)[|h|]
  {
    StatusIsReplay(steps, c);
    LogsArePaths(History(Run(START, steps).db.transitions, c));
  }

  // The run that takes campaign c along a path, with the identifiers 0, 1, 2 and so on.

  ghost predicate Took(db: Database, c: CampaignId, p: seq<Status>)
    requires p != []
  {
    && c in db.campaigns && db.campaigns[c].status == p[|p| - 1]
    && Visited(History(db.transitions, c)) == p
    && forall t :: t in db.transitions ==> t.id < |p| - 1
  }

  lemma {:induction false} VisitedGrows(h: seq<Transition>, t: Transition)
    ensures Visited(h + [t]) == Visited(h) + [t.to]
  {
    assert (h + [t])[..|h|] == h;
  }

  lemma NewIdentifier(db: Database, id: TransitionId)
    requires forall t :: t in db.transitions ==> t.id < id
    ensures !Recorded(db.transitions, id)
  {
    assert forall i :: 0 <= i < |db.transitions| ==> db.transitions[i] in db.transitions;
  }

  lemma MoveTaken(db: Database, c: CampaignId, p: seq<Status>, s: Status)
    requires p != [] && Took(db, c, p) && Allowed(p[|p| - 1], s)
    ensures TransitionAnswer(db, c, p[|p| - 1], s, |p| - 1).Done?
    ensures Took(AfterTransition(db, c, p[|p| - 1], s, |p| - 1, 0), c, p + [s])
  {
    hide Allowed, Visited, History, Recorded;
    var t := Transition(|p| - 1, c, p[|p| - 1], s, 0);
    NewIdentifier(db, |p| - 1);
    HistoryGrows(db.transitions, t, c);
    VisitedGrows(History(db.transitions, c), t);
  }

  lemma {:induction false} RunOne(w: World, step: Step)
    ensures Run(w, [step]) == Apply(w, step)
  {
    assert [step][1..] == [];
  }

  lemma TookStatus(db: Database, c: CampaignId, p: seq<Status>)
    requires p != [] && Took(db, c, p)
    ensures c in db.campaigns && db.campaigns[c].status == p[|p| - 1]
  {
  }

  lemma {:induction false} ActivationTaken(w: World, c: CampaignId, id: TransitionId)
    requires c in w.db.campaigns && w.db.campaigns[c].status.PreEntry?
    requires TransitionAnswer(w.db, c, PreEntry, Active, id).Done?
    ensures Run(w, [ReadForActivation(c)] + [Activate(c, true, id, 0)]).db
         == AfterTransition(w.db, c, PreEntry, Active, id, 0)
  {
    hide Run, AfterTransition, TransitionAnswer;
    var ready := Apply(w, ReadForActivation(c));
    RunOne(w, ReadForActivation(c));
    RunOne(ready, Activate(c, true, id, 0));
    RunConcat(w, [ReadForActivation(c)], [Activate(c, true, id, 0)]);
  }

  lemma {:induction false} RequestTaken(w: World, c: CampaignId, from: Status, to: Status, id: TransitionId)
    requires !(from.PreEntry? && to.Active?)
    ensures Run(w, [Request(c, from, to, id, 0)]).db == AfterTransition(w.db, c, from, to, id, 0)
  {
    hide AfterTransition, Run;
    RunOne(w, Request(c, from, to, id, 0));
  }

  lemma {:induction false} StepTaken(w: World, c: CampaignId, p: seq<Status>, s: Status) returns (steps: seq<Step>)
    requires p != [] && Took(w.db, c, p) && Allowed(p[|p| - 1], s)
    ensures Took(Run(w, steps).db, c, p + [s])
  {
    hide Run, Allowed, AfterTransition, TransitionAnswer, Took;
    var from, id := p[|p| - 1], |p| - 1;
    MoveTaken(w.db, c, p, s);
    TookStatus(w.db, c, p);
    if from.PreEntry? && s.Active? {
      ActivationTaken(w, c, id);
      steps := [ReadForActivation(c)] + [Activate(c, true, id, 0)];
    } else {
      RequestTaken(w, c, from, s, id);
      steps := [Request(c, from, s, id, 0)];
    }
  }

  /** Each of the thirteen paths is the log of some run. */
  lemma {:induction false} EveryPathOccurs(p: seq<Status>, c: CampaignId) returns (steps: seq<Step>)
    requires IsPath(p)
    ensures var w := Run(START, steps);
            && c in w.db.campaigns && w.db.campaigns[c].status == p[|p| - 1]
            && Visited(History(w.db.transitions, c)) == p
    ensures Took(Run(START, steps).db, c, p)
    decreases |p|
  {
    hide IsPath;
    PathsAreListed(p);
    if |p| == 1 {
      steps := [Create(c, "", "", 0)];
      assert steps[1..] == [] && p == [Draft];
    } else {
      var n := |p| - 1;
      assert p == p[..n] + [p[n]];
      PathStep(p[..n], p[n]);
      var before := EveryPathOccurs(p[..n], c);
      var more := StepTaken(Run(START, before), c, p[..n], p[n]);
      RunConcat(START, before, more);
      steps := before + more;
    }
  }
}
