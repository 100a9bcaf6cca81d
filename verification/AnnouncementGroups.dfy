/**
 * Append-only groups of related evidence around one announcement (backend/announcement_groups.py, save).
 * A saved request is kept whole: it stands for its own digest. Evidence may change between requests.
 */
module AnnouncementGroups {
  import opened Options

  type EvidenceId = string
  type GroupId = string

  datatype Role = Original | Commentary | Unknown | Correction | Amendment | Unsupported

  datatype Member = Member(id: EvidenceId, role: Role, relatesTo: Option<EvidenceId>, token: int)

  /**
   * Period and request identifier are what stripping leaves of them. The digest is taken over the request as it
   * was written, so `writing` stands for all that is lost here: the white space, and empty links given as text.
   */
  datatype Request = Request(
    anchor: EvidenceId, period: string, id: string, members: seq<Member>, group: Option<GroupId>, expected: int,
    writing: int)

  datatype Evidence = Evidence(subject: string, isStock: bool, isAnnouncement: bool, deleted: bool, token: int)

  /** A member as it is kept. */
  datatype Kept = Kept(id: EvidenceId, role: Role, relatesTo: Option<EvidenceId>)

  datatype Revision = Revision(
    group: GroupId, anchor: EvidenceId, subject: string, period: string, number: nat,
    members: seq<Kept>, request: Request)

  datatype Answer = Saved(revision: Revision) | Replayed(revision: Revision) | Invalid | Conflict

  // Correction chains.

  function LinkOf(members: seq<Kept>, id: EvidenceId): Option<EvidenceId> {
    if members == [] then None
    else if members[0].id == id then members[0].relatesTo
    else LinkOf(members[1..], id)
  }

  /** The evidence reached after k links, if the chain is that long. */
  function Follow(members: seq<Kept>, id: EvidenceId, k: nat): Option<EvidenceId> {
    if k == 0 then Some(id) else
    match Follow(members, id, k - 1)
    case None => None
    case Some(x) => LinkOf(members, x)
  }

  ghost predicate ChainEnds(members: seq<Kept>, id: EvidenceId) {
    exists k :: Follow(members, id, k).None?
  }

  ghost predicate ChainsEnd(members: seq<Kept>) {
    forall m :: m in members ==> ChainEnds(members, m.id)
  }

  lemma {:induction false} FollowOn(members: seq<Kept>, id: EvidenceId, a: nat, b: nat, d: nat)
    requires Follow(members, id, a) == Follow(members, id, b)
    ensures Follow(members, id, a + d) == Follow(members, id, b + d)
  {
    if d > 0 {
      FollowOn(members, id, a, b, d - 1);
    }
  }

  /** A chain that comes back to where it was never ends. */
  lemma {:induction false} LoopNeverEnds(members: seq<Kept>, id: EvidenceId, a: nat, b: nat, k: nat)
    requires a < b && Follow(members, id, a) == Follow(members, id, b)
    requires forall i: nat :: i <= b ==> Follow(members, id, i).Some?
    ensures Follow(members, id, k).Some?
    decreases k
  {
    if k > b {
      FollowOn(members, id, a, b, k - b);
      LoopNeverEnds(members, id, a, b, a + (k - b));
    }
  }

  /** The walk that refuses cycles: it accepts exactly when every chain ends. */
  method ChecksChains(members: seq<Kept>, ghost ids: set<EvidenceId>) returns (ok: bool)
    requires forall m :: m in members ==> m.id in ids && (m.relatesTo.Some? ==> m.relatesTo.value in ids)
    ensures ok <==> ChainsEnd(members)
  {
    for i := 0 to |members|
      invariant forall j :: 0 <= j < i ==> ChainEnds(members, members[j].id)
    {
      ok := ChecksChain(members, members[i].id, ids);
      if !ok {
        assert members[i] in members;
        return;
      }
    }
    ok := true;
  }

  lemma {:induction false} LinkStays(members: seq<Kept>, id: EvidenceId, ids: set<EvidenceId>)
    requires forall m :: m in members ==> m.relatesTo.Some? ==> m.relatesTo.value in ids
    ensures LinkOf(members, id).Some? ==> LinkOf(members, id).value in ids
  {
    if members != [] && members[0].id != id {
      LinkStays(members[1..], id, ids);
    }
  }

  method ChecksChain(members: seq<Kept>, start: EvidenceId, ghost ids: set<EvidenceId>) returns (ok: bool)
    requires forall m :: m in members ==> m.relatesTo.Some? ==> m.relatesTo.value in ids
    requires start in ids
    ensures ok <==> ChainEnds(members, start)
  {
    var seen: set<EvidenceId> := {};
    var node := Some(start);
    ghost var path: seq<EvidenceId> := [];
    while node.Some?
      invariant node == Follow(members, start, |path|) && (node.Some? ==> node.value in ids)
      invariant forall i: nat :: i < |path| ==> Follow(members, start, i) == Some(path[i])
      invariant seen <= ids && forall x :: x in seen ==> x in path
      decreases ids - seen, node.Some?
    {
      if node.value in seen {
        ghost var a: nat :| a < |path| && path[a] == node.value;
        forall n ensures Follow(members, start, n).Some? {
          LoopNeverEnds(members, start, a, |path|, n);
        }
        return false;
      }
      LinkStays(members, node.value, ids);
      seen := seen + {node.value};
      path := path + [node.value];
      node := LinkOf(members, node.value);
    }
    return true;
  }

  // What a request must look like, and what it must find.

  function Keep(members: seq<Member>): (kept: seq<Kept>)
    ensures |kept| == |members|
    ensures forall i :: 0 <= i < |members| ==> kept[i] == Kept(members[i].id, members[i].role, members[i].relatesTo)
  {
    seq(|members|, i requires 0 <= i < |members| => Kept(members[i].id, members[i].role, members[i].relatesTo))
  }

  function Ids(members: seq<Member>): set<EvidenceId> {
    set m | m in members :: m.id
  }

  predicate LinkFits(members: seq<Member>, m: Member) {
    !m.role.Unsupported? &&
    if m.role.Correction? || m.role.Amendment?
    then m.relatesTo.Some? && m.relatesTo.value in Ids(members) && m.relatesTo.value != m.id
    else m.relatesTo.None?
  }

  predicate WellFormed(p: Request) {
    && 0 < |p.period| <= 100 && 0 < |p.id| <= 100 && 2 <= |p.members| <= 50
    && (forall i, j :: 0 <= i < j < |p.members| ==> p.members[i].id != p.members[j].id)
    && p.anchor in Ids(p.members)
    && forall m :: m in p.members ==> LinkFits(p.members, m)
  }

  /** An empty group identifier counts as none. */
  predicate NamesGroup(p: Request) {
    p.group.Some? && p.group.value != ""
  }

  function GroupOf(p: Request): GroupId {
    if NamesGroup(p) then p.group.value else "announcement-group:" + p.id
  }

  function LastOf(history: seq<Revision>, g: GroupId): (last: Option<Revision>)
    ensures last.Some? ==> last.value in history && last.value.group == g
    ensures last.None? ==> forall r :: r in history ==> r.group != g
  {
    if history == [] then None else
      var n := |history| - 1;
      assert history == history[..n] + [history[n]];
      if history[n].group == g then Some(history[n]) else LastOf(history[..n], g)
  }

  function NumberOf(last: Option<Revision>): nat {
    if last.Some? then last.value.number else 0
  }

  function FindRequest(history: seq<Revision>, id: string): (found: Option<Revision>)
    ensures found.Some? ==> found.value in history && found.value.request.id == id
    ensures found.None? ==> forall r :: r in history ==> r.request.id != id
  {
    if history == [] then None
    else if history[0].request.id == id then Some(history[0])
    else assert history == [history[0]] + history[1..]; FindRequest(history[1..], id)
  }

  predicate Holds(members: seq<Kept>, id: EvidenceId) {
    exists k :: k in members && k.id == id
  }

  predicate FreeElsewhere(history: seq<Revision>, g: GroupId, id: EvidenceId) {
    forall r :: r in history && r.group != g && LastOf(history, r.group) == Some(r) ==> !Holds(r.members, id)
  }

  predicate Keeps(before: seq<Kept>, after: seq<Kept>) {
    forall k :: k in before ==> k in after
  }

  predicate Usable(evidence: map<EvidenceId, Evidence>, id: EvidenceId) {
    id in evidence && !evidence[id].deleted && evidence[id].isStock
  }

  predicate MemberFits(history: seq<Revision>, evidence: map<EvidenceId, Evidence>, g: GroupId,
                       subject: string, m: Member)
  {
    && Usable(evidence, m.id) && evidence[m.id].subject == subject && evidence[m.id].token == m.token
    && FreeElsewhere(history, g, m.id)
  }

  predicate SameFrameAs(previous: Revision, p: Request, subject: string) {
    previous.anchor == p.anchor && previous.period == p.period && previous.subject == subject
  }

  predicate Continues(previous: Revision, p: Request, subject: string) {
    SameFrameAs(previous, p, subject) && Keeps(previous.members, Keep(p.members))
  }

  predicate Admissible(history: seq<Revision>, evidence: map<EvidenceId, Evidence>, p: Request) {
    var last := LastOf(history, GroupOf(p));
    && (NamesGroup(p) ==> last.Some?) && p.expected == NumberOf(last)
    && Usable(evidence, p.anchor) && evidence[p.anchor].isAnnouncement
    && (last.Some? ==> Continues(last.value, p, evidence[p.anchor].subject))
    && forall m :: m in p.members ==> MemberFits(history, evidence, GroupOf(p), evidence[p.anchor].subject, m)
  }

  /** Members are looked at in order: the first one that does not fit decides. */
  function MemberRefusal(history: seq<Revision>, evidence: map<EvidenceId, Evidence>, g: GroupId,
                         subject: string, members: seq<Member>): (r: Option<Answer>)
    ensures r.None? <==> forall m :: m in members ==> MemberFits(history, evidence, g, subject, m)
    ensures r.Some? ==> r.value.Invalid? || r.value.Conflict?
  {
    if members == [] then None
    else
      assert members[0] in members && members == [members[0]] + members[1..];
      if !Usable(evidence, members[0].id) then Some(Invalid)
      else if !MemberFits(history, evidence, g, subject, members[0]) then Some(Conflict)
      else MemberRefusal(history, evidence, g, subject, members[1..])
  }

  /** Why a request that is not admissible is refused, in the order of the checks. */
  function Refusal(history: seq<Revision>, evidence: map<EvidenceId, Evidence>, p: Request): (r: Answer)
    ensures r.Invalid? || r.Conflict?
  {
    var last := LastOf(history, GroupOf(p));
    if (NamesGroup(p) && last.None?) || p.expected != NumberOf(last) then Conflict
    else if !Usable(evidence, p.anchor) || !evidence[p.anchor].isAnnouncement then Invalid
    else if last.Some? && !SameFrameAs(last.value, p, evidence[p.anchor].subject) then Conflict
    else
      var misfit := MemberRefusal(history, evidence, GroupOf(p), evidence[p.anchor].subject, p.members);
      if misfit.Some? then misfit.value else Conflict
  }

  function NewRevision(history: seq<Revision>, evidence: map<EvidenceId, Evidence>, p: Request): Revision
    requires Usable(evidence, p.anchor)
  {
    Revision(GroupOf(p), p.anchor, evidence[p.anchor].subject, p.period,
             NumberOf(LastOf(history, GroupOf(p))) + 1, Keep(p.members), p)
  }

  ghost function SaveAnswer(history: seq<Revision>, evidence: map<EvidenceId, Evidence>, p: Request): Answer {
    if !WellFormed(p) || !ChainsEnd(Keep(p.members)) then Invalid else
    match FindRequest(history, p.id)
    case Some(earlier) => if earlier.request == p then Replayed(earlier) else Conflict
    case None =>
      if Admissible(history, evidence, p) then Saved(NewRevision(history, evidence, p))
      else Refusal(history, evidence, p)
  }

  function AfterSave(history: seq<Revision>, answer: Answer): seq<Revision> {
    if answer.Saved? then history + [answer.revision] else history
  }

  lemma {:induction false} LinksInside(p: Request)
    requires WellFormed(p)
    ensures forall m :: m in Keep(p.members) ==>
      m.id in Ids(p.members) && (m.relatesTo.Some? ==> m.relatesTo.value in Ids(p.members))
  {
    forall m | m in Keep(p.members)
      ensures m.id in Ids(p.members) && (m.relatesTo.Some? ==> m.relatesTo.value in Ids(p.members))
    {
      var i :| 0 <= i < |p.members| && Keep(p.members)[i] == m;
      assert p.members[i] in p.members;
    }
  }

  /** The evidence of each member, in order. */
  method CheckMembers(history: seq<Revision>, evidence: map<EvidenceId, Evidence>, g: GroupId,
                      subject: string, members: seq<Member>) returns (misfit: Option<Answer>)
    ensures misfit == MemberRefusal(history, evidence, g, subject, members)
  {
    hide FreeElsewhere;
    assert members[0..] == members;
    for i := 0 to |members|
      invariant MemberRefusal(history, evidence, g, subject, members[i..])
             == MemberRefusal(history, evidence, g, subject, members)
    {
      var m := members[i];
      assert members[i..][1..] == members[i + 1..];
      if m.id !in evidence || evidence[m.id].deleted || !evidence[m.id].isStock {
        return Some(Invalid);
      }
      if evidence[m.id].subject != subject || evidence[m.id].token != m.token || !FreeElsewhere(history, g, m.id) {
        return Some(Conflict);
      }
    }
    return None;
  }

  class Groups {
    var history: seq<Revision>

    constructor ()
      ensures history == []
    {
      history := [];
    }

    method Save(evidence: map<EvidenceId, Evidence>, p: Request) returns (answer: Answer)
      modifies this
      ensures answer == SaveAnswer(old(history), evidence, p)
      ensures history == AfterSave(old(history), answer)
    {
      if !WellFormed(p) {
        return Invalid;
      }
      LinksInside(p);
      var ok := ChecksChains(Keep(p.members), Ids(p.members));
      if !ok {
        return Invalid;
      }
      var earlier := FindRequest(history, p.id);
      if earlier.Some? {
        return if earlier.value.request == p then Replayed(earlier.value) else Conflict;
      }
      var last := LastOf(history, GroupOf(p));
      if (NamesGroup(p) && last.None?) || p.expected != NumberOf(last) {
        return Conflict;
      }
      if !Usable(evidence, p.anchor) || !evidence[p.anchor].isAnnouncement {
        return Invalid;
      }
      var subject := evidence[p.anchor].subject;
      if last.Some? && !SameFrameAs(last.value, p, subject) {
        return Conflict;
      }
      var misfit := CheckMembers(history, evidence, GroupOf(p), subject, p.members);
      if misfit.Some? {
        return misfit.value;
      }
      if last.Some? && !Keeps(last.value.members, Keep(p.members)) {
        return Conflict;
      }
      var revision := NewRevision(history, evidence, p);
      history := history + [revision];
      return Saved(revision);
    }
  }

  // Every history that saving can produce.

  ghost predicate Extends(h: seq<Revision>, r: Revision) {
    && ChainsEnd(r.members)
    && FindRequest(h, r.request.id).None?
    && (forall k :: k in r.members ==> FreeElsewhere(h, r.group, k.id))
    && match LastOf(h, r.group)
       case None => r.number == 1
       case Some(previous) =>
         && r.number == previous.number + 1
         && r.anchor == previous.anchor && r.subject == previous.subject && r.period == previous.period
         && Keeps(previous.members, r.members)
  }

  ghost predicate Sound(h: seq<Revision>) {
    h == [] || (Sound(h[..|h| - 1]) && Extends(h[..|h| - 1], h[|h| - 1]))
  }

  /** A request, with the evidence as it is at that time. */
  datatype Attempt = Attempt(evidence: map<EvidenceId, Evidence>, request: Request)

  ghost function Run(history: seq<Revision>, attempts: seq<Attempt>): seq<Revision>
    decreases |attempts|
  {
    if attempts == [] then history
    else Run(AfterSave(history, SaveAnswer(history, attempts[0].evidence, attempts[0].request)), attempts[1..])
  }

  lemma {:induction false} SavedMeans(h: seq<Revision>, evidence: map<EvidenceId, Evidence>, p: Request)
    requires SaveAnswer(h, evidence, p).Saved?
    ensures FindRequest(h, p.id).None? && ChainsEnd(Keep(p.members)) && Admissible(h, evidence, p)
    ensures SaveAnswer(h, evidence, p).revision == NewRevision(h, evidence, p)
  {
    hide WellFormed, ChainsEnd, Refusal;
  }

  lemma {:induction false} MembersAreFree(h: seq<Revision>, evidence: map<EvidenceId, Evidence>, p: Request)
    requires Admissible(h, evidence, p)
    ensures forall k :: k in Keep(p.members) ==> FreeElsewhere(h, GroupOf(p), k.id)
  {
    hide FreeElsewhere, LastOf, Continues, Usable;
    forall k | k in Keep(p.members) ensures FreeElsewhere(h, GroupOf(p), k.id) {
      var i :| 0 <= i < |p.members| && Keep(p.members)[i] == k;
      assert p.members[i] in p.members;
    }
  }

  lemma {:induction false} SaveKeepsSound(h: seq<Revision>, evidence: map<EvidenceId, Evidence>, p: Request)
    requires Sound(h)
    ensures Sound(AfterSave(h, SaveAnswer(h, evidence, p)))
  {
    hide SaveAnswer, ChainsEnd, FreeElsewhere, FindRequest, Usable, Keeps;
    var answer := SaveAnswer(h, evidence, p);
    if answer.Saved? {
      SavedMeans(h, evidence, p);
      MembersAreFree(h, evidence, p);
      assert (h + [answer.revision])[..|h|] == h;
    }
  }

  lemma {:induction false} RunKeepsSound(h: seq<Revision>, attempts: seq<Attempt>)
    requires Sound(h)
    ensures Sound(Run(h, attempts))
    decreases |attempts|
  {
    if attempts != [] {
      SaveKeepsSound(h, attempts[0].evidence, attempts[0].request);
      RunKeepsSound(AfterSave(h, SaveAnswer(h, attempts[0].evidence, attempts[0].request)), attempts[1..]);
    }
  }

  lemma {:induction false} SoundPrefix(h: seq<Revision>, k: nat)
    requires Sound(h) && k <= |h|
    ensures Sound(h[..k])
    ensures k < |h| ==> Extends(h[..k], h[k])
  {
    if k == |h| {
      assert h[..k] == h;
    } else if k < |h| - 1 {
      SoundPrefix(h[..|h| - 1], k);
      assert h[..|h| - 1][..k] == h[..k];
    }
  }

  lemma {:induction false} LastIndex(h: seq<Revision>, g: GroupId, i: nat) returns (k: nat)
    requires i < |h| && h[i].group == g
    ensures i <= k < |h| && h[k].group == g && LastOf(h, g) == Some(h[k])
  {
    var n := |h| - 1;
    if h[n].group == g {
      k := n;
    } else {
      k := LastIndex(h[..n], g, i);
    }
  }

  predicate SameFrame(a: Revision, b: Revision) {
    a.anchor == b.anchor && a.subject == b.subject && a.period == b.period
  }

  /** The revision that a later one of the same group was saved over. */
  lemma {:induction false} PreviousOf(h: seq<Revision>, i: nat, j: nat) returns (k: nat)
    requires Sound(h) && i < j < |h| && h[i].group == h[j].group
    ensures i <= k < j && h[k].group == h[j].group && h[j].number == h[k].number + 1
    ensures SameFrame(h[k], h[j]) && Keeps(h[k].members, h[j].members)
  {
    SoundPrefix(h, j);
    k := LastIndex(h[..j], h[j].group, i);
  }

  /** A later revision of a group has a higher number, the same frame, and every earlier member and link. */
  lemma {:induction false} GroupsOnlyGrow(h: seq<Revision>, i: nat, j: nat)
    requires Sound(h) && i < j < |h| && h[i].group == h[j].group
    ensures h[i].number < h[j].number && SameFrame(h[i], h[j]) && Keeps(h[i].members, h[j].members)
    decreases j
  {
    var k := PreviousOf(h, i, j);
    if i < k {
      GroupsOnlyGrow(h, i, k);
    }
  }

  /** Revisions of a group are numbered by how many it has had. */
  function Count(h: seq<Revision>, g: GroupId): nat {
    if h == [] then 0 else Count(h[..|h| - 1], g) + if h[|h| - 1].group == g then 1 else 0
  }

  lemma {:induction false} NumbersCount(h: seq<Revision>, g: GroupId)
    requires Sound(h)
    ensures NumberOf(LastOf(h, g)) == Count(h, g)
  {
    if h != [] {
      NumbersCount(h[..|h| - 1], g);
    }
  }

  lemma {:induction false} RevisionsAreConsecutive(h: seq<Revision>, i: nat)
    requires Sound(h) && i < |h|
    ensures h[i].number == Count(h[..i], h[i].group) + 1
  {
    SoundPrefix(h, i);
    NumbersCount(h[..i], h[i].group);
  }

  /** When a revision is saved, no other group's latest revision holds any of its evidence. */
  lemma {:induction false} FreeWhenSaved(h: seq<Revision>, i: nat, j: nat, id: EvidenceId) returns (k: nat)
    requires Sound(h) && i < j < |h| && h[i].group != h[j].group && Holds(h[j].members, id)
    ensures i <= k < j && h[k].group == h[i].group && !Holds(h[k].members, id)
  {
    SoundPrefix(h, j);
    k := LastIndex(h[..j], h[i].group, i);
    var m :| m in h[j].members && m.id == id;
    assert FreeElsewhere(h[..j], h[j].group, m.id);
    assert h[..j][k] in h[..j];
  }

  lemma {:induction false} LaterIsDisjoint(h: seq<Revision>, i: nat, j: nat, id: EvidenceId)
    requires Sound(h) && i < j < |h| && h[i].group != h[j].group && Holds(h[j].members, id)
    ensures !Holds(h[i].members, id)
  {
    var k := FreeWhenSaved(h, i, j, id);
    if i < k {
      GroupsOnlyGrow(h, i, k);
    }
  }

  /** No evidence is ever in two groups, in any of their revisions. */
  lemma {:induction false} GroupsAreDisjoint(h: seq<Revision>, i: nat, j: nat, id: EvidenceId)
    requires Sound(h) && i < |h| && j < |h| && Holds(h[i].members, id) && Holds(h[j].members, id)
    ensures h[i].group == h[j].group
  {
    if h[i].group != h[j].group {
      if i < j {
        LaterIsDisjoint(h, i, j, id);
      } else if j < i {
        LaterIsDisjoint(h, j, i, id);
      }
    }
  }

  /** All of it, for every sequence of requests while the evidence changes in any way. */
  lemma {:induction false} EveryHistoryIsSound(attempts: seq<Attempt>)
    ensures var h := Run([], attempts);
            && (forall i :: 0 <= i < |h| ==> ChainsEnd(h[i].members) && h[i].number == Count(h[..i], h[i].group) + 1)
            && (forall i, j :: 0 <= i < j < |h| && h[i].group == h[j].group ==>
                  SameFrame(h[i], h[j]) && Keeps(h[i].members, h[j].members))
            && (forall i, j, id ::
                  0 <= i < |h| && 0 <= j < |h| && Holds(h[i].members, id) && Holds(h[j].members, id) ==>
                  h[i].group == h[j].group)
  {
    var h := Run([], attempts);
    RunKeepsSound([], attempts);
    forall i | 0 <= i < |h| ensures ChainsEnd(h[i].members) && h[i].number == Count(h[..i], h[i].group) + 1 {
      SoundPrefix(h, i);
      RevisionsAreConsecutive(h, i);
    }
    forall i, j | 0 <= i < j < |h| && h[i].group == h[j].group
      ensures SameFrame(h[i], h[j]) && Keeps(h[i].members, h[j].members)
    {
      GroupsOnlyGrow(h, i, j);
    }
    forall i, j, id | 0 <= i < |h| && 0 <= j < |h| && Holds(h[i].members, id) && Holds(h[j].members, id)
      ensures h[i].group == h[j].group
    {
      GroupsAreDisjoint(h, i, j, id);
    }
  }

  // Replaying a request.

  lemma {:induction false} RequestStays(h: seq<Revision>, attempts: seq<Attempt>, r: Revision)
    requires FindRequest(h, r.request.id) == Some(r)
    ensures FindRequest(Run(h, attempts), r.request.id) == Some(r)
    decreases |attempts|
  {
    if attempts != [] {
      var answer := SaveAnswer(h, attempts[0].evidence, attempts[0].request);
      if answer.Saved? {
        FindFirst(h, answer.revision, r.request.id);
      }
      RequestStays(AfterSave(h, answer), attempts[1..], r);
    }
  }

  lemma {:induction false} FindFirst(h: seq<Revision>, r: Revision, id: string)
    ensures FindRequest(h + [r], id) ==
            if FindRequest(h, id).Some? then FindRequest(h, id) else if r.request.id == id then Some(r) else None
  {
    if h != [] {
      assert (h + [r])[1..] == h[1..] + [r];
      FindFirst(h[1..], r, id);
    }
  }

  /** However much later, repeating a saved request returns the revision it made and adds nothing. */
  lemma {:induction false} ReplayAddsNothing(before: seq<Attempt>, evidence: map<EvidenceId, Evidence>, p: Request,
                          after: seq<Attempt>, later: map<EvidenceId, Evidence>)
    requires SaveAnswer(Run([], before), evidence, p).Saved?
    ensures var first := SaveAnswer(Run([], before), evidence, p);
            var h := Run(AfterSave(Run([], before), first), after);
            SaveAnswer(h, later, p) == Replayed(first.revision) && AfterSave(h, SaveAnswer(h, later, p)) == h
  {
    hide Admissible, Refusal, ChainsEnd, WellFormed;
    var start := Run([], before);
    var r := SaveAnswer(start, evidence, p).revision;
    FindFirst(start, r, p.id);
    RequestStays(start + [r], after, r);
  }
}
