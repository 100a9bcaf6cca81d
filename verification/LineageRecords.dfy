/**
 * The validation of a set of re-entry records
 * (backend/campaign_lineage.py, _validate_record_semantics and validate_lineage_set).
 */
module LineageRecords {
  import opened CycleSearch
  import TimelineSort

  /** A timestamp text: the instant it denotes, and which of that instant's spellings it is. */
  datatype Timestamp = Timestamp(at: int, spelling: int)

  datatype Record = Record(
    lineageId: int, parent: Id, child: Id, security: string,
    parentStrategy: string, childStrategy: string,
    parentClosedAt: Timestamp, childCreatedAt: Timestamp, reason: string, seal: int)

  /** The syntax of the single fields, and the digest over the sealed fields. */
  datatype Rules = Rules(formatted: Record -> bool, digest: Record -> int)

  datatype Verdict = Accepted | Malformed | Inconsistent

  predicate WellFormed(rules: Rules, r: Record) {
    rules.formatted(r) && r.parent != r.child && r.parentClosedAt.at < r.childCreatedAt.at
  }

  // What one record says about the campaigns it names.

  function EdgeOf(r: Record): Edge { (r.parent, r.child) }

  function SecurityOf(r: Record): set<(Id, string)> { {(r.parent, r.security), (r.child, r.security)} }

  function StrategyOf(r: Record): set<(Id, string)> { {(r.parent, r.parentStrategy), (r.child, r.childStrategy)} }

  function CreationOf(r: Record): set<(Id, Timestamp)> { {(r.child, r.childCreatedAt)} }

  function ClosingOf(r: Record): set<(Id, Timestamp)> { {(r.parent, r.parentClosedAt)} }

  function ParentOf(r: Record): set<(Id, Id)> { {(r.child, r.parent)} }

  /** Any two records that speak of the same campaign say the same about it. */
  ghost predicate Consistent<V(!new)>(says: Record -> set<(Id, V)>, s: seq<Record>) {
    forall a, b, c, v, w :: a in s && b in s && (c, v) in says(a) && (c, w) in says(b) ==> v == w
  }

  ghost predicate AllSealed(rules: Rules, s: seq<Record>) {
    forall r :: r in s ==> WellFormed(rules, r) && rules.digest(r) == r.seal
  }

  /** What the first pass over the records demands. */
  ghost predicate Agreeing(rules: Rules, s: seq<Record>) {
    && AllSealed(rules, s)
    && TimelineSort.DistinctKeys(s, EdgeOf)
    && Consistent(SecurityOf, s) && Consistent(StrategyOf, s)
    && Consistent(CreationOf, s) && Consistent(ClosingOf, s)
  }

  /** A campaign that is a child in one record and a parent in another was created before it closed. */
  ghost predicate LivesForward(s: seq<Record>) {
    forall a, b :: a in s && b in s && a.child == b.parent ==> a.childCreatedAt.at < b.parentClosedAt.at
  }

  ghost predicate Coherent(rules: Rules, s: seq<Record>) {
    Agreeing(rules, s) && Consistent(ParentOf, s) && LivesForward(s)
  }

  // The dictionaries of the check.

  ghost predicate Tallies<V(!new)>(m: map<Id, V>, says: Record -> set<(Id, V)>, s: seq<Record>) {
    forall c, v :: (c in m && m[c] == v) <==> exists r :: r in s && (c, v) in says(r)
  }

  predicate Contradicts<V(==)>(m: map<Id, V>, c: Id, v: V) {
    c in m && m[c] != v
  }

  lemma TalliesOne<V(!new)>(m: map<Id, V>, says: Record -> set<(Id, V)>, s: seq<Record>, r: Record, c: Id, v: V)
    requires Tallies(m, says, s) && says(r) == {(c, v)}
    ensures Contradicts(m, c, v) <==> !Consistent(says, s + [r])
    ensures !Contradicts(m, c, v) ==> Tallies(m[c := v], says, s + [r])
  {
    if Contradicts(m, c, v) {
      assert c in m && m[c] == m[c];
      var a :| a in s && (c, m[c]) in says(a);
      assert a in s + [r] && r in s + [r];
    } else {
      var n := m[c := v];
      forall x, y ensures (x in n && n[x] == y) <==> exists q :: q in s + [r] && (x, y) in says(q) {
        assert r in s + [r];
        if x in m && m[x] == y {
          var q :| q in s && (x, y) in says(q);
          assert q in s + [r];
        }
      }
      TalliesAreConsistent(n, says, s + [r]);
    }
  }

  lemma TalliesTwo<V(!new)>(m: map<Id, V>, says: Record -> set<(Id, V)>, s: seq<Record>, r: Record,
                            c: Id, v: V, d: Id, w: V)
    requires Tallies(m, says, s) && says(r) == {(c, v), (d, w)} && c != d
    ensures Contradicts(m, c, v) || Contradicts(m, d, w) <==> !Consistent(says, s + [r])
    ensures !Contradicts(m, c, v) && !Contradicts(m, d, w) ==> Tallies(m[c := v][d := w], says, s + [r])
  {
    if Contradicts(m, c, v) || Contradicts(m, d, w) {
      var x := if Contradicts(m, c, v) then c else d;
      assert x in m && m[x] == m[x];
      var a :| a in s && (x, m[x]) in says(a);
      assert a in s + [r] && r in s + [r];
    } else {
      var n := m[c := v][d := w];
      forall x, y ensures (x in n && n[x] == y) <==> exists q :: q in s + [r] && (x, y) in says(q) {
        assert r in s + [r];
        if x in m && m[x] == y {
          var q :| q in s && (x, y) in says(q);
          assert q in s + [r];
        }
      }
      TalliesAreConsistent(n, says, s + [r]);
    }
  }

  lemma TalliesAreConsistent<V(!new)>(m: map<Id, V>, says: Record -> set<(Id, V)>, s: seq<Record>)
    requires Tallies(m, says, s)
    ensures Consistent(says, s)
  {
  }

  ghost predicate EdgesMatch(edges: set<Edge>, s: seq<Record>) {
    && (forall r :: r in s ==> EdgeOf(r) in edges)
    && (forall e :: e in edges ==> exists r :: r in s && EdgeOf(r) == e)
  }

  datatype Ledger = Ledger(
    edges: set<Edge>, security: map<Id, string>, strategy: map<Id, string>,
    created: map<Id, Timestamp>, closed: map<Id, Timestamp>)
  {
    ghost predicate Records(s: seq<Record>) {
      && EdgesMatch(edges, s)
      && Tallies(security, SecurityOf, s) && Tallies(strategy, StrategyOf, s)
      && Tallies(created, CreationOf, s) && Tallies(closed, ClosingOf, s)
    }

    predicate Clashes(r: Record) {
      || EdgeOf(r) in edges
      || Contradicts(security, r.parent, r.security) || Contradicts(security, r.child, r.security)
      || Contradicts(strategy, r.parent, r.parentStrategy) || Contradicts(strategy, r.child, r.childStrategy)
      || Contradicts(created, r.child, r.childCreatedAt)
      || Contradicts(closed, r.parent, r.parentClosedAt)
    }

    function Add(r: Record): Ledger {
      Ledger(edges + {EdgeOf(r)},
             security[r.parent := r.security][r.child := r.security],
             strategy[r.parent := r.parentStrategy][r.child := r.childStrategy],
             created[r.child := r.childCreatedAt],
             closed[r.parent := r.parentClosedAt])
    }
  }

  lemma EdgesExtend(edges: set<Edge>, s: seq<Record>, r: Record)
    requires EdgesMatch(edges, s)
    requires TimelineSort.DistinctKeys(s, EdgeOf)
    ensures TimelineSort.DistinctKeys(s + [r], EdgeOf) <==> EdgeOf(r) !in edges
    ensures EdgesMatch(edges + {EdgeOf(r)}, s + [r])
  {
    var t := s + [r];
    assert t[|s|] == r;
    if EdgeOf(r) in edges {
      var q :| q in s && EdgeOf(q) == EdgeOf(r);
      var i :| 0 <= i < |s| && s[i] == q;
      assert t[i] == q;
      assert EdgeOf(t[i]) == EdgeOf(t[|s|]);
    }
    forall e | e in edges + {EdgeOf(r)} ensures exists q :: q in t && EdgeOf(q) == e {
      if e in edges {
        var q :| q in s && EdgeOf(q) == e;
        assert q in t;
      } else {
        assert r in t;
      }
    }
  }

  lemma SealedExtend(rules: Rules, s: seq<Record>, r: Record)
    requires AllSealed(rules, s) && WellFormed(rules, r) && rules.digest(r) == r.seal
    ensures AllSealed(rules, s + [r])
  {
  }

  ghost predicate Decides<V(!new)>(clash: bool, next: map<Id, V>, says: Record -> set<(Id, V)>, t: seq<Record>) {
    (clash <==> !Consistent(says, t)) && (!clash ==> Tallies(next, says, t))
  }

  lemma SecurityDecides(m: map<Id, string>, s: seq<Record>, r: Record)
    requires Tallies(m, SecurityOf, s) && r.parent != r.child
    ensures Decides(Contradicts(m, r.parent, r.security) || Contradicts(m, r.child, r.security),
                    m[r.parent := r.security][r.child := r.security], SecurityOf, s + [r])
  {
    TalliesTwo(m, SecurityOf, s, r, r.parent, r.security, r.child, r.security);
  }

  lemma StrategyDecides(m: map<Id, string>, s: seq<Record>, r: Record)
    requires Tallies(m, StrategyOf, s) && r.parent != r.child
    ensures Decides(Contradicts(m, r.parent, r.parentStrategy) || Contradicts(m, r.child, r.childStrategy),
                    m[r.parent := r.parentStrategy][r.child := r.childStrategy], StrategyOf, s + [r])
  {
    TalliesTwo(m, StrategyOf, s, r, r.parent, r.parentStrategy, r.child, r.childStrategy);
  }

  lemma TimesDecide(created: map<Id, Timestamp>, closed: map<Id, Timestamp>, s: seq<Record>, r: Record)
    requires Tallies(created, CreationOf, s) && Tallies(closed, ClosingOf, s)
    ensures Decides(Contradicts(created, r.child, r.childCreatedAt), created[r.child := r.childCreatedAt],
                    CreationOf, s + [r])
    ensures Decides(Contradicts(closed, r.parent, r.parentClosedAt), closed[r.parent := r.parentClosedAt],
                    ClosingOf, s + [r])
  {
    TalliesOne(created, CreationOf, s, r, r.child, r.childCreatedAt);
    TalliesOne(closed, ClosingOf, s, r, r.parent, r.parentClosedAt);
  }

  /** The first pass admits a record exactly when the records so far still agree with it. */
  lemma LedgerDecides(rules: Rules, ledger: Ledger, s: seq<Record>, r: Record)
    requires ledger.Records(s) && Agreeing(rules, s)
    requires WellFormed(rules, r) && rules.digest(r) == r.seal
    ensures !ledger.Clashes(r) <==> Agreeing(rules, s + [r])
    ensures !ledger.Clashes(r) ==> ledger.Add(r).Records(s + [r])
  {
    hide Tallies, Consistent, EdgesMatch, AllSealed, Contradicts, SecurityOf, StrategyOf, CreationOf, ClosingOf, EdgeOf;
    EdgesExtend(ledger.edges, s, r);
    SecurityDecides(ledger.security, s, r);
    StrategyDecides(ledger.strategy, s, r);
    TimesDecide(ledger.created, ledger.closed, s, r);
    SealedExtend(rules, s, r);
  }

  lemma AgreeingPrefix(rules: Rules, s: seq<Record>, k: nat)
    requires Agreeing(rules, s) && k <= |s|
    ensures Agreeing(rules, s[..k])
  {
    forall r | r in s[..k] ensures r in s {
    }
  }

  /** The first record that cannot join the ones before it decides how the first pass ends. */
  ghost predicate StopsAt(rules: Rules, s: seq<Record>, k: nat) {
    k < |s| && Agreeing(rules, s[..k]) && !Agreeing(rules, s[..k + 1])
  }

  lemma StopsOnce(rules: Rules, s: seq<Record>, k: nat)
    requires StopsAt(rules, s, k)
    ensures !Agreeing(rules, s)
    ensures forall j: nat :: StopsAt(rules, s, j) ==> j == k
  {
    if Agreeing(rules, s) {
      AgreeingPrefix(rules, s, k + 1);
    }
    forall j: nat | StopsAt(rules, s, j) ensures j == k {
      if j < k {
        assert s[..k][..j + 1] == s[..j + 1];
        AgreeingPrefix(rules, s[..k], j + 1);
      } else if k < j {
        assert s[..j][..k + 1] == s[..k + 1];
        AgreeingPrefix(rules, s[..j], k + 1);
      }
    }
  }

  /** One round of the first pass. */
  method Admit(rules: Rules, ledger: Ledger, r: Record, ghost s: seq<Record>) returns (verdict: Verdict, next: Ledger)
    requires ledger.Records(s) && Agreeing(rules, s)
    ensures verdict.Malformed? <==> !WellFormed(rules, r)
    ensures verdict.Accepted? <==> Agreeing(rules, s + [r])
    ensures verdict.Accepted? ==> next.Records(s + [r])
  {
    next := ledger;
    if !WellFormed(rules, r) {
      assert r in s + [r];
      return Malformed, next;
    }
    if rules.digest(r) != r.seal {
      assert r in s + [r];
      return Inconsistent, next;
    }
    LedgerDecides(rules, ledger, s, r);
    if ledger.Clashes(r) {
      return Inconsistent, next;
    }
    return Accepted, ledger.Add(r);
  }

  /** The first pass, with the dictionaries it fills. */
  method Enter(rules: Rules, records: seq<Record>) returns (verdict: Verdict, ledger: Ledger)
    ensures verdict.Accepted? <==> Agreeing(rules, records)
    ensures verdict.Accepted? ==> ledger.Records(records)
    ensures verdict.Malformed? <==> exists k: nat :: StopsAt(rules, records, k) && !WellFormed(rules, records[k])
  {
    ledger := Ledger({}, map[], map[], map[], map[]);
    for i := 0 to |records|
      invariant Agreeing(rules, records[..i]) && ledger.Records(records[..i])
    {
      assert records[..i + 1] == records[..i] + [records[i]];
      verdict, ledger := Admit(rules, ledger, records[i], records[..i]);
      if !verdict.Accepted? {
        StopsOnce(rules, records, i);
        return;
      }
    }
    assert records[..|records|] == records;
    forall k: nat | StopsAt(rules, records, k) ensures false {
      AgreeingPrefix(rules, records, k + 1);
    }
    verdict := Accepted;
  }

  /** The second pass: at most one parent for each child. */
  method SingleParents(records: seq<Record>) returns (ok: bool)
    ensures ok <==> Consistent(ParentOf, records)
  {
    var parents: map<Id, Id> := map[];
    for i := 0 to |records|
      invariant Tallies(parents, ParentOf, records[..i])
    {
      var r := records[i];
      assert records[..i + 1] == records[..i] + [r];
      TalliesOne(parents, ParentOf, records[..i], r, r.child, r.parent);
      if Contradicts(parents, r.child, r.parent) {
        InconsistentPrefix(ParentOf, records, i + 1);
        return false;
      }
      parents := parents[r.child := r.parent];
    }
    assert records[..|records|] == records;
    TalliesAreConsistent(parents, ParentOf, records);
    return true;
  }

  lemma InconsistentPrefix<V(!new)>(says: Record -> set<(Id, V)>, s: seq<Record>, k: nat)
    requires k <= |s| && !Consistent(says, s[..k])
    ensures !Consistent(says, s)
  {
    var a, b, c, v, w :| a in s[..k] && b in s[..k] && (c, v) in says(a) && (c, w) in says(b) && v != w;
    assert a in s && b in s;
  }

  /** The third pass: no campaign closed before it was created. */
  method LivesInOrder(created: map<Id, Timestamp>, closed: map<Id, Timestamp>, ghost records: seq<Record>)
    returns (ok: bool)
    requires Tallies(created, CreationOf, records) && Tallies(closed, ClosingOf, records)
    ensures ok <==> LivesForward(records)
  {
    var left := created.Keys;
    while left != {}
      invariant left <= created.Keys
      invariant forall c :: c in created.Keys - left && c in closed ==> created[c].at < closed[c].at
      decreases |left|
    {
      var c :| c in left;
      if c in closed && created[c].at >= closed[c].at {
        LateCreation(created, closed, records, c);
        return false;
      }
      left := left - {c};
    }
    forall a, b | a in records && b in records && a.child == b.parent
      ensures a.childCreatedAt.at < b.parentClosedAt.at
    {
      assert (a.child, a.childCreatedAt) in CreationOf(a) && (b.parent, b.parentClosedAt) in ClosingOf(b);
      assert a.child in created && b.parent in closed;
    }
    return true;
  }

  lemma LateCreation(created: map<Id, Timestamp>, closed: map<Id, Timestamp>, records: seq<Record>, c: Id)
    requires Tallies(created, CreationOf, records) && Tallies(closed, ClosingOf, records)
    requires c in created && c in closed && created[c].at >= closed[c].at
    ensures !LivesForward(records)
  {
    assert created[c] == created[c] && closed[c] == closed[c];
    var a :| a in records && (c, created[c]) in CreationOf(a);
    var b :| b in records && (c, closed[c]) in ClosingOf(b);
  }

  // The first three passes leave nothing for the cycle search to find.

  function Edges(s: seq<Record>): (edges: seq<Edge>)
    ensures |edges| == |s| && forall i :: 0 <= i < |s| ==> edges[i] == EdgeOf(s[i])
  {
    seq(|s|, i requires 0 <= i < |s| => EdgeOf(s[i]))
  }

  lemma EdgeHasRecord(s: seq<Record>, e: Edge) returns (r: Record)
    requires e in Edges(s)
    ensures r in s && EdgeOf(r) == e
  {
    var i :| 0 <= i < |s| && Edges(s)[i] == e;
    r := s[i];
  }

  /** Along any walk the closing times of the parents do not go back. */
  lemma {:induction false} WalkClimbs(rules: Rules, s: seq<Record>, p: seq<Id>, k: nat, a: Record, b: Record)
    requires Coherent(rules, s) && k < |p| - 1
    requires forall i :: 0 <= i < |p| - 1 ==> (p[i], p[i + 1]) in Edges(s)
    requires a in s && EdgeOf(a) == (p[0], p[1])
    requires b in s && EdgeOf(b) == (p[k], p[k + 1])
    ensures a.parentClosedAt.at <= b.parentClosedAt.at
  {
    if k == 0 {
      assert (p[0], a.parentClosedAt) in ClosingOf(a) && (p[0], b.parentClosedAt) in ClosingOf(b);
    } else {
      var c := EdgeHasRecord(s, (p[k - 1], p[k]));
      WalkClimbs(rules, s, p, k - 1, a, c);
    }
  }

  /** Coherent records never form a cycle. */
  lemma CoherentIsAcyclic(rules: Rules, s: seq<Record>)
    requires Coherent(rules, s)
    ensures !CyclicEdges(Edges(s))
  {
    forall p ensures !ClosedWalk(Edges(s), p) {
      if ClosedWalk(Edges(s), p) {
        var k := |p| - 2;
        var a := EdgeHasRecord(s, (p[0], p[1]));
        var b := EdgeHasRecord(s, (p[k], p[k + 1]));
        WalkClimbs(rules, s, p, k, a, b);
      }
    }
  }

  /** The whole check: accepted exactly when coherent, so the cycle search never rejects. */
  method ValidateLineageSet(rules: Rules, records: seq<Record>) returns (verdict: Verdict)
    ensures verdict.Accepted? <==> Coherent(rules, records)
    ensures verdict.Malformed? <==> exists k: nat :: StopsAt(rules, records, k) && !WellFormed(rules, records[k])
  {
    var ledger;
    verdict, ledger := Enter(rules, records);
    if !verdict.Accepted? {
      return;
    }
    var ok := SingleParents(records);
    if !ok {
      return Inconsistent;
    }
    ok := LivesInOrder(ledger.created, ledger.closed, records);
    if !ok {
      return Inconsistent;
    }
    CoherentIsAcyclic(rules, records);
    var cyclic := FindsCycle(Edges(records));
    verdict := if cyclic then Inconsistent else Accepted;
  }

  /** Rearranging the records, or leaving some out, keeps them coherent. */
  lemma CoherentInherited(rules: Rules, s: seq<Record>, t: seq<Record>)
    requires Coherent(rules, s) && multiset(t) <= multiset(s)
    ensures Coherent(rules, t)
  {
    forall r | r in t ensures r in s {
      assert r in multiset(t);
    }
    TimelineSort.DistinctKeysMove(s, t, EdgeOf);
  }
}
