/**
 * Exactly which requests add a revision to the announcement groups, told by the whole history and the
 * evidence rather than step by step (backend/announcement_groups.py, save).
 */
module AnnouncementAdmission {
  import opened AnnouncementGroups
  import opened Options

  // No circle of corrections.

  predicate Links(members: seq<Kept>, a: EvidenceId, b: EvidenceId) {
    exists m :: m in members && m.id == a && m.relatesTo == Some(b)
  }

  /** From each identifier a member links to the next, and the last is the first again. */
  predicate Circle(members: seq<Kept>, path: seq<EvidenceId>) {
    && |path| > 1 && path[0] == path[|path| - 1]
    && forall n :: 0 <= n < |path| - 1 ==> Links(members, path[n], path[n + 1])
  }

  predicate DistinctIds(members: seq<Kept>) {
    forall i, j :: 0 <= i < j < |members| ==> members[i].id != members[j].id
  }

  lemma {:induction false} LinkOfExactly(members: seq<Kept>, a: EvidenceId, b: EvidenceId)
    requires DistinctIds(members)
    ensures LinkOf(members, a) == Some(b) <==> Links(members, a, b)
  {
    if members != [] {
      LinkOfExactly(members[1..], a, b);
      assert members == [members[0]] + members[1..];
      assert members[0] in members;
      if members[0].id == a {
        forall m | m in members[1..]
          ensures m.id != a
        {
          var i :| 0 <= i < |members[1..]| && members[1..][i] == m;
          assert members[i + 1] == m;
        }
      }
    }
  }

  lemma {:induction false} FollowCircle(members: seq<Kept>, path: seq<EvidenceId>, k: nat)
    requires DistinctIds(members) && Circle(members, path) && k < |path|
    ensures Follow(members, path[0], k) == Some(path[k])
  {
    if k > 0 {
      FollowCircle(members, path, k - 1);
      assert Links(members, path[k - 1], path[k - 1 + 1]);
      LinkOfExactly(members, path[k - 1], path[k]);
    }
  }

  lemma {:induction false} CircleNeverEnds(members: seq<Kept>, path: seq<EvidenceId>)
    requires DistinctIds(members) && Circle(members, path)
    ensures !ChainsEnd(members)
  {
    var last := |path| - 1;
    forall k: nat | k <= last
      ensures Follow(members, path[0], k) == Some(path[k])
    {
      FollowCircle(members, path, k);
    }
    forall k
      ensures Follow(members, path[0], k).Some?
    {
      LoopNeverEnds(members, path[0], 0, last, k);
    }
    assert Links(members, path[0], path[0 + 1]);
    var m :| m in members && m.id == path[0];
    assert !ChainEnds(members, m.id);
  }

  lemma {:induction false} Repeats(s: seq<EvidenceId>, ids: set<EvidenceId>) returns (a: nat, b: nat)
    requires |s| > |ids| && forall i :: 0 <= i < |s| ==> s[i] in ids
    ensures a < b < |s| && s[a] == s[b]
  {
    var n := |s| - 1;
    if i: nat :| i < n && s[i] == s[n] {
      a, b := i, n;
    } else {
      a, b := Repeats(s[..n], ids - {s[n]});
    }
  }

  function IdsOf(members: seq<Kept>): set<EvidenceId> {
    set m | m in members :: m.id
  }

  lemma {:induction false} LinkedIsMember(members: seq<Kept>, id: EvidenceId)
    requires LinkOf(members, id).Some?
    ensures id in IdsOf(members)
  {
    assert members[0] in members;
    if members[0].id != id {
      LinkedIsMember(members[1..], id);
      var m :| m in members[1..] && m.id == id;
      assert m in members;
    }
  }

  lemma {:induction false} EndlessIsCircular(members: seq<Kept>, id: EvidenceId) returns (path: seq<EvidenceId>)
    requires DistinctIds(members) && !ChainEnds(members, id)
    ensures Circle(members, path)
  {
    assert forall k: nat :: Follow(members, id, k).Some?;
    var walk := seq(|IdsOf(members)| + 1, (k: nat) => Follow(members, id, k).value);
    forall k | 0 <= k < |walk|
      ensures walk[k] in IdsOf(members)
    {
      assert Follow(members, id, k + 1).Some?;
      LinkedIsMember(members, walk[k]);
    }
    var a, b := Repeats(walk, IdsOf(members));
    path := walk[a..b + 1];
    forall n | 0 <= n < |path| - 1
      ensures Links(members, path[n], path[n + 1])
    {
      assert Follow(members, id, a + n + 1) == LinkOf(members, walk[a + n]);
      LinkOfExactly(members, path[n], path[n + 1]);
    }
  }

  /** The chains of a list without repeated identifiers all end exactly when there is no circle. */
  lemma {:induction false} ChainsEndExactly(members: seq<Kept>)
    requires DistinctIds(members)
    ensures ChainsEnd(members) <==> forall path :: !Circle(members, path)
  {
    if !ChainsEnd(members) {
      var m :| m in members && !ChainEnds(members, m.id);
      var path := EndlessIsCircular(members, m.id);
      assert Circle(members, path);
    } else if path :| Circle(members, path) {
      CircleNeverEnds(members, path);
    }
  }

  // What a request must look like.

  predicate LinkAllowed(members: seq<Member>, m: Member) {
    match m.role
    case Original => m.relatesTo == None
    case Commentary => m.relatesTo == None
    case Unknown => m.relatesTo == None
    case Correction => exists other :: other in members && other.id != m.id && m.relatesTo == Some(other.id)
    case Amendment => exists other :: other in members && other.id != m.id && m.relatesTo == Some(other.id)
    case Unsupported => false
  }

  ghost predicate Proper(p: Request) {
    && 1 <= |p.period| <= 100 && 1 <= |p.id| <= 100 && 2 <= |p.members| <= 50
    && DistinctIds(Keep(p.members)) && (exists m :: m in p.members && m.id == p.anchor)
    && (forall m :: m in p.members ==> LinkAllowed(p.members, m))
    && forall path :: !Circle(Keep(p.members), path)
  }

  lemma LinkFitsExactly(members: seq<Member>, m: Member)
    ensures LinkFits(members, m) <==> LinkAllowed(members, m)
  {
  }

  lemma {:induction false} WellFormedIsDistinct(p: Request)
    requires WellFormed(p)
    ensures DistinctIds(Keep(p.members))
  {
  }

  lemma {:induction false} ProperExactly(p: Request)
    ensures WellFormed(p) && ChainsEnd(Keep(p.members)) <==> Proper(p)
  {
    forall m
      ensures LinkFits(p.members, m) <==> LinkAllowed(p.members, m)
    {
      LinkFitsExactly(p.members, m);
    }
    hide LinkFits, LinkAllowed, ChainsEnd, Circle;
    if WellFormed(p) {
      WellFormedIsDistinct(p);
    }
    if DistinctIds(Keep(p.members)) {
      ChainsEndExactly(Keep(p.members));
      assert forall i, j :: 0 <= i < j < |p.members| ==> Keep(p.members)[i].id != Keep(p.members)[j].id;
    }
  }

  // What it must find.

  /** Its group: the one it names, or a new one called after the request. */
  function Target(p: Request): GroupId {
    match p.group
    case Some(g) => if |g| >= 1 then g else "announcement-group:" + p.id
    case None => "announcement-group:" + p.id
  }

  predicate LiveStock(evidence: map<EvidenceId, Evidence>, id: EvidenceId) {
    id in evidence && evidence[id].isStock && !evidence[id].deleted
  }

  /** Every revision of the group has this frame, and its members are among these. */
  predicate Preserves(h: seq<Revision>, g: GroupId, anchor: EvidenceId, subject: string, period: string,
                      members: seq<Kept>)
  {
    forall r :: r in h && r.group == g ==>
      r.anchor == anchor && r.subject == subject && r.period == period && forall k :: k in r.members ==> k in members
  }

  /** In the history no other group ever held the evidence. */
  predicate NeverElsewhere(h: seq<Revision>, g: GroupId, id: EvidenceId) {
    forall r, k :: r in h && r.group != g && k in r.members ==> k.id != id
  }

  predicate Acceptable(h: seq<Revision>, evidence: map<EvidenceId, Evidence>, p: Request) {
    var g := Target(p);
    && (forall r :: r in h ==> r.request.id != p.id)
    && p.expected == Count(h, g) && (p.group.Some? && p.group.value != [] ==> Count(h, g) >= 1)
    && LiveStock(evidence, p.anchor) && evidence[p.anchor].isAnnouncement
    && Preserves(h, g, p.anchor, evidence[p.anchor].subject, p.period, Keep(p.members))
    && forall m :: m in p.members ==>
         && LiveStock(evidence, m.id) && evidence[m.id].subject == evidence[p.anchor].subject
         && evidence[m.id].token == m.token && NeverElsewhere(h, g, m.id)
  }

  lemma {:induction false} NoneMeansZero(h: seq<Revision>, g: GroupId)
    ensures Count(h, g) == 0 <==> LastOf(h, g).None?
  {
    if h != [] {
      NoneMeansZero(h[..|h| - 1], g);
    }
  }

  /** The latest revision of a group speaks for all of them. */
  lemma {:induction false} LatestSpeaks(h: seq<Revision>, r: Revision)
    requires Sound(h) && r in h
    ensures LastOf(h, r.group).Some?
    ensures var last := LastOf(h, r.group).value; SameFrame(r, last) && Keeps(r.members, last.members)
  {
    var i :| 0 <= i < |h| && h[i] == r;
    var k := LastIndex(h, r.group, i);
    if i < k {
      GroupsOnlyGrow(h, i, k);
    }
  }

  lemma {:induction false} FreeExactly(h: seq<Revision>, g: GroupId, id: EvidenceId)
    requires Sound(h)
    ensures FreeElsewhere(h, g, id) <==> NeverElsewhere(h, g, id)
  {
    hide LastOf, Sound;
    if FreeElsewhere(h, g, id) {
      forall r, k | r in h && r.group != g && k in r.members
        ensures k.id != id
      {
        LatestSpeaks(h, r);
        var last := LastOf(h, r.group).value;
        assert !Holds(last.members, id);
      }
    }
  }

  lemma {:induction false} PreservesExactly(h: seq<Revision>, p: Request, subject: string)
    requires Sound(h)
    ensures Preserves(h, GroupOf(p), p.anchor, subject, p.period, Keep(p.members)) <==>
            (LastOf(h, GroupOf(p)).Some? ==> Continues(LastOf(h, GroupOf(p)).value, p, subject))
  {
    hide LastOf, Sound, Keep;
    var last := LastOf(h, GroupOf(p));
    if last.Some? && Continues(last.value, p, subject) {
      forall r | r in h && r.group == GroupOf(p)
        ensures r.anchor == p.anchor && r.subject == subject && r.period == p.period
        ensures forall k :: k in r.members ==> k in Keep(p.members)
      {
        LatestSpeaks(h, r);
      }
    }
  }

  lemma {:induction false} AdmissibleExactly(h: seq<Revision>, evidence: map<EvidenceId, Evidence>, p: Request)
    requires Sound(h)
    ensures FindRequest(h, p.id).None? && Admissible(h, evidence, p) <==> Acceptable(h, evidence, p)
  {
    assert GroupOf(p) == Target(p);
    NumbersCount(h, GroupOf(p));
    NoneMeansZero(h, GroupOf(p));
    if p.anchor in evidence {
      PreservesExactly(h, p, evidence[p.anchor].subject);
    }
    forall m | m in p.members
      ensures FreeElsewhere(h, GroupOf(p), m.id) <==> NeverElsewhere(h, GroupOf(p), m.id)
    {
      FreeExactly(h, GroupOf(p), m.id);
    }
    hide FreeElsewhere, NeverElsewhere, Preserves, Continues, LastOf, Count, Sound, FindRequest;
  }

  lemma {:induction false} RunSnoc(h: seq<Revision>, attempts: seq<Attempt>, a: Attempt)
    ensures var end := Run(h, attempts);
            Run(h, attempts + [a]) == AfterSave(end, SaveAnswer(end, a.evidence, a.request))
    decreases |attempts|
  {
    if attempts == [] {
      assert attempts + [a] == [a] && [a][1..] == [];
    } else {
      assert (attempts + [a])[1..] == attempts[1..] + [a];
      RunSnoc(AfterSave(h, SaveAnswer(h, attempts[0].evidence, attempts[0].request)), attempts[1..], a);
    }
  }

  // The answer to any request after any history.

  lemma {:induction false} RequestsDiffer(h: seq<Revision>, i: nat, j: nat)
    requires Sound(h) && i < j < |h|
    ensures h[i].request.id != h[j].request.id
  {
    SoundPrefix(h, j);
    hide Sound;
    assert h[..j][i] in h[..j];
  }

  lemma {:induction false} FoundIsTheOne(h: seq<Revision>, r: Revision)
    requires Sound(h) && r in h
    ensures FindRequest(h, r.request.id) == Some(r)
  {
    var found := FindRequest(h, r.request.id).value;
    var i :| 0 <= i < |h| && h[i] == r;
    var j :| 0 <= j < |h| && h[j] == found;
    hide Sound, FindRequest;
    if i < j {
      RequestsDiffer(h, i, j);
    } else if j < i {
      RequestsDiffer(h, j, i);
    }
  }

  /** The shape of an answer, with the two refusals left apart for `Groups.Save` to tell. */
  lemma {:induction false} AnswerShape(h: seq<Revision>, evidence: map<EvidenceId, Evidence>, p: Request)
    ensures var answer := SaveAnswer(h, evidence, p);
            var proper := WellFormed(p) && ChainsEnd(Keep(p.members));
            && (answer.Saved? <==> proper && FindRequest(h, p.id).None? && Admissible(h, evidence, p))
            && (answer.Saved? ==> answer.revision == NewRevision(h, evidence, p))
            && (answer.Replayed? <==> proper && FindRequest(h, p.id).Some? && FindRequest(h, p.id).value.request == p)
            && (answer.Replayed? ==> answer.revision == FindRequest(h, p.id).value)
  {
    hide WellFormed, ChainsEnd, Admissible, Refusal;
  }

  /**
   * After any requests, with the evidence changing in any way: a request adds a revision exactly when it is
   * proper and acceptable, and that revision is the next of its group; it is answered by an earlier revision
   * exactly when that one was saved for the same request; in every other case it is refused, and nothing changes.
   */
  lemma {:induction false} SavedExactly(attempts: seq<Attempt>, evidence: map<EvidenceId, Evidence>, p: Request)
    ensures var h := Run([], attempts);
            var answer := SaveAnswer(h, evidence, p);
            && (answer.Saved? <==> Proper(p) && Acceptable(h, evidence, p))
            && (answer.Saved? ==>
                  answer.revision == Revision(Target(p), p.anchor, evidence[p.anchor].subject, p.period,
                                              Count(h, Target(p)) + 1, Keep(p.members), p))
            && (forall r :: answer == Replayed(r) <==> Proper(p) && r in h && r.request == p)
            && Run([], attempts + [Attempt(evidence, p)]) == h + if answer.Saved? then [answer.revision] else []
  {
    var h := Run([], attempts);
    RunKeepsSound([], attempts);
    RunSnoc([], attempts, Attempt(evidence, p));
    hide *;
    AnsweredExactly(h, evidence, p);
    assert AfterSave(h, SaveAnswer(h, evidence, p)) == h + if SaveAnswer(h, evidence, p).Saved?
                                                           then [SaveAnswer(h, evidence, p).revision] else [] by {
      Added(h, SaveAnswer(h, evidence, p));
    }
  }

  lemma Added(h: seq<Revision>, answer: Answer)
    ensures AfterSave(h, answer) == h + if answer.Saved? then [answer.revision] else []
  {
    assert h + [] == h;
  }

  lemma {:induction false} AnsweredExactly(h: seq<Revision>, evidence: map<EvidenceId, Evidence>, p: Request)
    requires Sound(h)
    ensures var answer := SaveAnswer(h, evidence, p);
            && (answer.Saved? <==> Proper(p) && Acceptable(h, evidence, p))
            && (answer.Saved? ==>
                  answer.revision == Revision(Target(p), p.anchor, evidence[p.anchor].subject, p.period,
                                              Count(h, Target(p)) + 1, Keep(p.members), p))
            && (forall r :: answer == Replayed(r) <==> Proper(p) && r in h && r.request == p)
  {
    hide Sound, Count, LastOf, FindRequest, Proper, Admissible, WellFormed, SaveAnswer, Keep, ChainsEnd;
    AnswerShape(h, evidence, p);
    ProperExactly(p);
    AdmissibleExactly(h, evidence, p);
    NumbersCount(h, GroupOf(p));
    assert GroupOf(p) == Target(p);
    RepliesExactly(h, p);
  }

  lemma {:induction false} RepliesExactly(h: seq<Revision>, p: Request)
    requires Sound(h)
    ensures forall r :: FindRequest(h, p.id) == Some(r) && r.request == p <==> r in h && r.request == p
  {
    hide Sound, FindRequest;
    forall r | r in h && r.request == p
      ensures FindRequest(h, p.id) == Some(r)
    {
      FoundIsTheOne(h, r);
    }
  }
}
