/**
 * The campaign tables and the three commands that write them
 * (backend/campaign_store.py). A transaction is one atomic step.
 */
module CampaignStore {
  type CampaignId = string
  type TransitionId = int
  type ThesisId = string

  datatype Status = Draft | Researching | PreEntry | Active | Reducing | Closed | Rejected | Expired

  function NextActions(s: Status): seq<Status> {
    match s
    case Draft => [Researching, Rejected, Expired]
    case Researching => [PreEntry, Rejected, Expired]
    case PreEntry => [Active, Rejected, Expired]
    case Active => [Reducing, Closed]
    case Reducing => [Closed]
    case Closed => []
    case Rejected => []
    case Expired => []
  }

  predicate Allowed(from: Status, to: Status) {
    to in NextActions(from)
  }

  function Rank(s: Status): nat {
    match s
    case Draft => 0
    case Researching => 1
    case PreEntry => 2
    case Active => 3
    case Reducing => 4
    case _ => 5
  }

  datatype Campaign = Campaign(code: string, strategy: string, status: Status, createdAt: int)

  datatype Transition = Transition(id: TransitionId, campaign: CampaignId, from: Status, to: Status, at: int)

  datatype Binding = Binding(campaign: CampaignId, thesis: ThesisId, revision: nat, strategy: string, boundAt: int)

  datatype Database = Database(
    campaigns: map<CampaignId, Campaign>, transitions: seq<Transition>, bindings: map<CampaignId, Binding>)

  datatype Outcome = Done | NotFound | Conflict | AlreadyExists

  predicate Recorded(transitions: seq<Transition>, id: TransitionId) {
    exists i :: 0 <= i < |transitions| && transitions[i].id == id
  }

  predicate Owned(bindings: map<CampaignId, Binding>, thesis: ThesisId) {
    exists c :: c in bindings && bindings[c].thesis == thesis
  }

  // What each command answers, and what it leaves behind.

  function CreateAnswer(db: Database, cid: CampaignId): Outcome {
    if cid in db.campaigns then AlreadyExists else Done
  }

  function AfterCreate(db: Database, cid: CampaignId, c: Campaign): Database {
    if CreateAnswer(db, cid).Done? then db.(campaigns := db.campaigns[cid := c]) else db
  }

  function TransitionAnswer(db: Database, cid: CampaignId, expected: Status, to: Status, id: TransitionId): Outcome {
    if cid !in db.campaigns then NotFound
    else if db.campaigns[cid].status != expected then Conflict
    else if !Allowed(expected, to) then Conflict
    else if Recorded(db.transitions, id) then AlreadyExists
    else Done
  }

  /** Audit row and status change together or not at all. */
  function AfterTransition(db: Database, cid: CampaignId, expected: Status, to: Status,
                           id: TransitionId, at: int): Database
  {
    if TransitionAnswer(db, cid, expected, to, id).Done? then
      db.(campaigns := db.campaigns[cid := db.campaigns[cid].(status := to)],
          transitions := db.transitions + [Transition(id, cid, expected, to, at)])
    else db
  }

  function BindAnswer(db: Database, b: Binding): Outcome {
    if b.campaign !in db.campaigns then NotFound
    else if b.campaign in db.bindings then Conflict
    else if Owned(db.bindings, b.thesis) then Conflict
    else Done
  }

  function AfterBind(db: Database, b: Binding): Database {
    if BindAnswer(db, b).Done? then db.(bindings := db.bindings[b.campaign := b]) else db
  }

  class Store {
    var campaigns: map<CampaignId, Campaign>
    var transitions: seq<Transition>
    var bindings: map<CampaignId, Binding>

    constructor ()
      ensures Contents() == Database(map[], [], map[])
    {
      campaigns, transitions, bindings := map[], [], map[];
    }

    ghost function Contents(): Database
      reads this
    {
      Database(campaigns, transitions, bindings)
    }

    method Create(cid: CampaignId, c: Campaign) returns (answer: Outcome)
      modifies this
      ensures answer == CreateAnswer(old(Contents()), cid)
      ensures Contents() == AfterCreate(old(Contents()), cid, c)
    {
      if cid in campaigns {
        return AlreadyExists;
      }
      campaigns := campaigns[cid := c];
      return Done;
    }

    method Move(cid: CampaignId, expected: Status, to: Status, id: TransitionId, at: int) returns (answer: Outcome)
      modifies this
      ensures answer == TransitionAnswer(old(Contents()), cid, expected, to, id)
      ensures Contents() == AfterTransition(old(Contents()), cid, expected, to, id, at)
    {
      if cid !in campaigns {
        return NotFound;
      }
      var current := campaigns[cid].status;
      if current != expected || !Allowed(current, to) {
        return Conflict;
      }
      var i := 0;
      while i < |transitions|
        invariant 0 <= i <= |transitions|
        invariant forall j :: 0 <= j < i ==> transitions[j].id != id
      {
        if transitions[i].id == id {
          return AlreadyExists;
        }
        i := i + 1;
      }
      transitions := transitions + [Transition(id, cid, current, to, at)];
      campaigns := campaigns[cid := campaigns[cid].(status := to)];
      return Done;
    }

    method Bind(b: Binding) returns (answer: Outcome)
      modifies this
      ensures answer == BindAnswer(old(Contents()), b)
      ensures Contents() == AfterBind(old(Contents()), b)
    {
      if b.campaign !in campaigns {
        return NotFound;
      }
      if b.campaign in bindings || Owned(bindings, b.thesis) {
        return Conflict;
      }
      bindings := bindings[b.campaign := b];
      return Done;
    }
  }

  // The audit log of one campaign, and what replaying it gives.

  datatype Replayed = At(status: Status) | Broken

  function History(transitions: seq<Transition>, cid: CampaignId): (h: seq<Transition>)
    ensures |h| <= |transitions|
    ensures forall t :: t in h <==> t in transitions && t.campaign == cid
  {
    if transitions == [] then [] else
      var last := transitions[|transitions| - 1];
      assert transitions == transitions[..|transitions| - 1] + [last];
      History(transitions[..|transitions| - 1], cid) + if last.campaign == cid then [last] else []
  }

  /** The status after a list of moves, if each starts where the one before it ended. */
  function Replay(start: Status, h: seq<Transition>): Replayed {
    if h == [] then At(start) else
      var last := h[|h| - 1];
      if Replay(start, h[..|h| - 1]) == At(last.from) && Allowed(last.from, last.to) then At(last.to) else Broken
  }

  lemma {:induction false} ReplayPrefix(start: Status, h: seq<Transition>, k: nat)
    requires Replay(start, h).At? && k <= |h|
    ensures Replay(start, h[..k]).At?
    ensures k < |h| ==> Replay(start, h[..k]) == At(h[k].from) && Allowed(h[k].from, h[k].to)
  {
    if k == |h| {
      assert h[..k] == h;
    } else if k < |h| - 1 {
      ReplayPrefix(start, h[..|h| - 1], k);
      assert h[..|h| - 1][..k] == h[..k];
    }
  }

  /** Each move ends where the next one starts. */
  lemma {:induction false} ReplayLinks(start: Status, h: seq<Transition>, k: nat)
    requires Replay(start, h).At? && k < |h|
    ensures h[k].from == (if k == 0 then start else h[k - 1].to)
    ensures Replay(start, h) == At(h[|h| - 1].to)
  {
    ReplayPrefix(start, h, k);
    if k > 0 {
      assert h[..k][..k - 1] == h[..k - 1];
    }
  }

  lemma {:induction false} RankRises(from: Status, to: Status)
    requires Allowed(from, to)
    ensures Rank(from) < Rank(to)
  {
  }

  /** Ranks rise strictly along a replayable log. */
  lemma {:induction false} RanksRise(start: Status, h: seq<Transition>, i: nat, j: nat)
    requires Replay(start, h).At? && i < j < |h|
    ensures Rank(h[i].from) < Rank(h[j].from)
    decreases j
  {
    ReplayLinks(start, h, j);
    ReplayPrefix(start, h, j - 1);
    RankRises(h[j - 1].from, h[j - 1].to);
    if i < j - 1 {
      RanksRise(start, h, i, j - 1);
    }
  }

  /** So no status is left twice. */
  lemma {:induction false} LeftOnce(start: Status, h: seq<Transition>, i: nat, j: nat)
    requires Replay(start, h).At? && i < |h| && j < |h| && h[i].from == h[j].from
    ensures i == j
  {
    if i < j {
      RanksRise(start, h, i, j);
    } else if j < i {
      RanksRise(start, h, j, i);
    }
  }
}
