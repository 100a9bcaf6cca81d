/**
 * How far the descendant projection depends on the order in which the records are given
 * (backend/campaign_lineage.py, descendants).
 */
module LineageInputOrder {
  import opened CycleSearch
  import opened LineageLines
  import opened LineageProjections
  import opened LineageRecords
  import opened TimelineSort

  function Rev(s: seq<Record>): (r: seq<Record>)
    ensures |r| == |s| && forall i :: 0 <= i < |s| ==> r[i] == s[|s| - 1 - i]
    ensures forall x :: x in r <==> x in s
  {
    if s == [] then [] else
      var n := |s| - 1;
      assert s == s[..n] + [s[n]];
      [s[n]] + Rev(s[..n])
  }

  lemma {:induction false} RevConcat(a: seq<Record>, b: seq<Record>)
    ensures Rev(a + b) == Rev(b) + Rev(a)
  {
    if b == [] {
      assert a + b == a;
    } else {
      var n := |b| - 1;
      assert (a + b)[..|a + b| - 1] == a + b[..n];
      RevConcat(a, b[..n]);
    }
  }

  lemma {:induction false} RevCount(s: seq<Record>)
    ensures multiset(Rev(s)) == multiset(s)
  {
    if s != [] {
      RevCount(s[..|s| - 1]);
      assert s == s[..|s| - 1] + [s[|s| - 1]];
    }
  }

  lemma {:induction false} KidsConcat(a: seq<Record>, b: seq<Record>, c: Id)
    ensures Kids(a + b, c) == Kids(a, c) + Kids(b, c)
  {
    if b == [] {
      assert a + b == a;
    } else {
      var n := |b| - 1;
      assert (a + b)[..|a + b| - 1] == a + b[..n];
      KidsConcat(a, b[..n], c);
    }
  }

  lemma {:induction false} KidsRev(s: seq<Record>, c: Id)
    ensures Kids(Rev(s), c) == Rev(Kids(s, c))
  {
    if s != [] {
      var n := |s| - 1;
      var last := if s[n].parent == c then [s[n]] else [];
      KidsRev(s[..n], c);
      KidsConcat([s[n]], Rev(s[..n]), c);
      assert [s[n]][..0] == [] && Kids([s[n]], c) == last == Rev(last);
      RevConcat(Kids(s[..n], c), last);
    }
  }

  // The same records in another order: the same lines, the same times.

  predicate SameRecords(s: seq<Record>, t: seq<Record>) {
    multiset(s) == multiset(t)
  }

  lemma SameMembers(s: seq<Record>, t: seq<Record>)
    requires SameRecords(s, t)
    ensures forall r :: r in s <==> r in t
  {
    forall r ensures r in s <==> r in t {
      assert r in s <==> r in multiset(s);
    }
  }

  lemma OrderlyMoves(s: seq<Record>, t: seq<Record>)
    requires SameRecords(s, t) && Orderly(s)
    ensures Orderly(t)
  {
    SameMembers(s, t);
    DistinctCount(s, t);
  }

  lemma ViaMoves(s: seq<Record>, t: seq<Record>, a: Record, r: Record)
    requires SameRecords(s, t) && Via(s, a, r)
    ensures Via(t, a, r)
  {
    SameMembers(s, t);
    var line: seq<Record> :| Joins(s, line, a, r);
    assert Joins(t, line, a, r);
  }

  lemma BelowMoves(s: seq<Record>, t: seq<Record>, c: Id, r: Record)
    requires SameRecords(s, t)
    ensures Below(s, c, r) <==> Below(t, c, r)
  {
    SameMembers(s, t);
    if a :| a in s && a.parent == c && Via(s, a, r) {
      ViaMoves(s, t, a, r);
    }
    if a :| a in t && a.parent == c && Via(t, a, r) {
      ViaMoves(t, s, a, r);
    }
  }

  lemma {:induction false} SameElements(a: seq<Record>, b: seq<Record>)
    requires Distinct(a) && Distinct(b) && forall r :: r in a <==> r in b
    ensures multiset(a) == multiset(b)
  {
    forall r ensures multiset(a)[r] == multiset(b)[r] {
      OnceCounted(a, r, x => x);
      OnceCounted(b, r, x => x);
      assert r in a <==> r in multiset(a);
      assert r in b <==> r in multiset(b);
    }
  }

  /** Ancestors do not depend on the order of the input. */
  lemma AncestorsIgnoreInputOrder(s: seq<Record>, t: seq<Record>, c: Id, a: seq<Record>, b: seq<Record>)
    requires Orderly(s) && SameRecords(s, t) && IsAncestry(s, c, a) && IsAncestry(t, c, b)
    ensures a == b
  {
    SameMembers(s, t);
    assert IsAncestry(s, c, b);
    OneAncestry(s, c, a, b);
  }

  /** Nor do descendants, as long as no two of them share creation time and identifier. */
  lemma DistinctStampsFixTheOrder(s: seq<Record>, t: seq<Record>, c: Id)
    requires Orderly(s) && Orderly(t) && SameRecords(s, t)
    requires DistinctKeys(Walked(s, c), CreatedKey)
    ensures Sort(Walked(s, c), CreatedKey) == Sort(Walked(t, c), CreatedKey)
  {
    WalkedIsBelow(s, c);
    WalkedIsBelow(t, c);
    forall r ensures r in Walked(s, c) <==> r in Walked(t, c) {
      BelowMoves(s, t, c, r);
    }
    SameElements(Walked(s, c), Walked(t, c));
    SortIgnoresInputOrder(Walked(s, c), Walked(t, c), CreatedKey);
  }

  // Reversing the input reverses every row of siblings, hence every tie.

  lemma {:induction false} ForestFront(s: seq<Record>, t: int, k: Record, kids: seq<Record>)
    requires Forward(s) && AllAfter(s, t, [k] + kids)
    requires k in s && k.parentClosedAt.at > t && AllAfter(s, t, kids)
    ensures Forest(s, t, [k] + kids) == Tree(s, t, k) + Forest(s, t, kids)
    decreases |kids|
  {
    var row := [k] + kids;
    if kids == [] {
      assert row[..0] == [];
    } else {
      var n := |kids| - 1;
      assert row[..|row| - 1] == [k] + kids[..n];
      ForestFront(s, t, k, kids[..n]);
      Regroup(Tree(s, t, k), Forest(s, t, kids[..n]), Tree(s, t, kids[n]));
    }
  }

  lemma {:induction false} RowMoves(s: seq<Record>, t: seq<Record>, time: int, kids: seq<Record>)
    requires SameRecords(s, t) && AllAfter(s, time, kids)
    ensures AllAfter(t, time, kids) && AllAfter(t, time, Rev(kids))
  {
    SameMembers(s, t);
  }

  ghost predicate Unrelated(s: seq<Record>, x: Record, y: Record) {
    x != y && !Via(s, x, y) && !Via(s, y, x)
  }

  /** Of two records neither of which leads to the other, the one met first is met last after the reversal. */
  lemma {:induction false} ForestFlips(s: seq<Record>, t: int, kids: seq<Record>, x: Record, y: Record)
    requires Orderly(s) && Orderly(Rev(s)) && SameRecords(s, Rev(s))
    requires AllAfter(s, t, kids) && AllAfter(Rev(s), t, Rev(kids)) && Unrelated(s, x, y)
    requires Precedes(Forest(s, t, kids), x, y)
    ensures Precedes(Forest(Rev(s), t, Rev(kids)), y, x)
    decreases |Later(s, t)|, |kids|
  {
    var n, r := |kids| - 1, Rev(s);
    var init, last := kids[..n], kids[n];
    assert kids == init + [last];
    RowMoves(s, r, t, init);
    SameMembers(s, r);
    ForestFront(r, t, last, Rev(init));
    PrecedesConcat(Forest(s, t, init), Tree(s, t, last), x, y);
    PrecedesConcat(Tree(r, t, last), Forest(r, t, Rev(init)), y, x);
    if Precedes(Forest(s, t, init), x, y) {
      ForestFlips(s, t, init, x, y);
    } else if Precedes(Tree(s, t, last), x, y) {
      TreeFlips(s, t, last, x, y);
    } else {
      ForestMembersMove(s, r, t, init, x);
      TreeMembersMove(s, r, t, last, y);
    }
  }

  lemma {:induction false} TreeMembersMove(s: seq<Record>, r: seq<Record>, t: int, k: Record, x: Record)
    requires Forward(s) && Forward(r) && SameRecords(s, r)
    requires k in s && k in r && k.parentClosedAt.at > t && x in Tree(s, t, k)
    ensures x in Tree(r, t, k)
  {
    TreeMembers(s, t, k, x);
    TreeMembers(r, t, k, x);
    ViaMoves(s, r, k, x);
  }

  lemma {:induction false} ForestMembersMove(s: seq<Record>, r: seq<Record>, t: int, kids: seq<Record>, x: Record)
    requires Forward(s) && Forward(r) && SameRecords(s, r)
    requires AllAfter(s, t, kids) && AllAfter(r, t, Rev(kids)) && x in Forest(s, t, kids)
    ensures x in Forest(r, t, Rev(kids))
  {
    ForestMembers(s, t, kids, x);
    ForestMembers(r, t, Rev(kids), x);
    var k :| k in kids && Via(s, k, x);
    ViaMoves(s, r, k, x);
    assert k in Rev(kids);
  }

  lemma {:induction false} TreeFlips(s: seq<Record>, t: int, k: Record, x: Record, y: Record)
    requires Orderly(s) && Orderly(Rev(s)) && SameRecords(s, Rev(s))
    requires k in s && k in Rev(s) && k.parentClosedAt.at > t && Unrelated(s, x, y)
    requires Precedes(Tree(s, t, k), x, y)
    ensures Precedes(Tree(Rev(s), t, k), y, x)
    decreases |Later(s, t)|, 0
  {
    var r, kids := Rev(s), Kids(s, k.child);
    KidsAfter(s, k);
    KidsAfter(r, k);
    KidsRev(s, k.child);
    LaterShrinks(s, t, k);
    var row, flipped := Forest(s, k.childCreatedAt.at, kids), Forest(r, k.childCreatedAt.at, Rev(kids));
    PrecedesConcat([k], row, x, y);
    PrecedesConcat([k], flipped, y, x);
    if Precedes(row, x, y) {
      ForestFlips(s, k.childCreatedAt.at, kids, x, y);
    } else {
      assert x == k && y in Tree(s, t, k);
      TreeMembers(s, t, k, y);
    }
  }

  lemma NotBothWays(s: seq<Record>, x: Record, y: Record)
    requires Distinct(s) && Precedes(s, x, y)
    ensures !Precedes(s, y, x)
  {
    var i, j :| 0 <= i < j < |s| && s[i] == x && s[j] == y;
  }

  lemma TiesAreUnrelated(s: seq<Record>, x: Record, y: Record)
    requires Orderly(s) && x in s && y in s && x != y && x.childCreatedAt.at == y.childCreatedAt.at
    ensures Unrelated(s, x, y)
  {
    if Via(s, x, y) {
      ViaForward(s, x, y);
    }
    if Via(s, y, x) {
      ViaForward(s, y, x);
    }
  }

  lemma IsOneClosing(s: seq<Record>)
    requires Orderly(s)
    ensures OneClosing(s)
  {
  }

  lemma {:induction false} WalkFlips(s: seq<Record>, c: Id, x: Record, y: Record)
    requires Orderly(s) && Orderly(Rev(s)) && SameRecords(s, Rev(s)) && Unrelated(s, x, y)
    requires Precedes(Walked(s, c), x, y)
    ensures Precedes(Walked(Rev(s), c), y, x)
  {
    hide Forest, Kids, Orderly, SameRecords, Unrelated, Precedes;
    var kids := Kids(s, c);
    assert OneClosing(s) && OneClosing(Rev(s)) by {
      IsOneClosing(s);
      IsOneClosing(Rev(s));
    }
    RowAfter(s, c);
    RowAfter(Rev(s), c);
    KidsRev(s, c);
    assert RowTime(Rev(kids)) == RowTime(kids) by {
      if kids != [] {
        assert Rev(kids)[0] in kids && kids[0] in kids;
      }
    }
    ForestFlips(s, RowTime(kids), kids, x, y);
  }

  lemma {:induction false} TiesFollowTheInput(s: seq<Record>, c: Id, i: nat, j: nat)
    requires Orderly(s) && i < j < |Walked(s, c)|
    requires CreatedKey(Walked(s, c)[i]) == CreatedKey(Walked(s, c)[j])
    ensures SameRecords(s, Rev(s)) && Orderly(Rev(s))
    ensures Sort(Walked(s, c), CreatedKey) != Sort(Walked(Rev(s), c), CreatedKey)
  {
    var walked, r := Walked(s, c), Rev(s);
    var x, y := walked[i], walked[j];
    RevCount(s);
    OrderlyMoves(s, r);
    WalkedIsBelow(s, c);
    BelowIsIn(s, c, x);
    BelowIsIn(s, c, y);
    TiesAreUnrelated(s, x, y);
    WalkFlips(s, c, x, y);
    SortPrecedes(walked, CreatedKey, x, y);
    SortPrecedes(Walked(r, c), CreatedKey, y, x);
    SortedWalkIsDescent(s, c);
    NotBothWays(Sort(walked, CreatedKey), x, y);
  }

  lemma BelowIsIn(s: seq<Record>, c: Id, r: Record)
    requires Forward(s) && Below(s, c, r)
    ensures r in s
  {
    var a :| a in s && a.parent == c && Via(s, a, r);
    ViaForward(s, a, r);
  }

  /** Every arrangement of the same records gives the same descendants in the same order. */
  ghost predicate OrderFree(s: seq<Record>, c: Id)
    requires Orderly(s)
  {
    forall t :: SameRecords(s, t) && Orderly(t) ==>
      Sort(Walked(t, c), CreatedKey) == Sort(Walked(s, c), CreatedKey)
  }

  /** No two records below c share both creation time and lineage identifier. */
  ghost predicate DistinctStampsBelow(s: seq<Record>, c: Id) {
    forall x, y :: Below(s, c, x) && Below(s, c, y) && x != y ==> CreatedKey(x) != CreatedKey(y)
  }

  lemma StampsOfTheWalk(s: seq<Record>, c: Id)
    requires Orderly(s)
    ensures DistinctKeys(Walked(s, c), CreatedKey) <==> DistinctStampsBelow(s, c)
  {
    var walked := Walked(s, c);
    WalkedIsBelow(s, c);
    if DistinctKeys(walked, CreatedKey) {
      forall x, y | Below(s, c, x) && Below(s, c, y) && x != y ensures CreatedKey(x) != CreatedKey(y) {
        var i :| 0 <= i < |walked| && walked[i] == x;
        var j :| 0 <= j < |walked| && walked[j] == y;
        assert i != j;
      }
    }
  }

  /**
   * The descendants are independent of the input order exactly when no two of the records below the
   * campaign share both creation time and lineage identifier.
   */
  lemma DescendantsAreOrderFree(s: seq<Record>, c: Id)
    requires Orderly(s)
    ensures OrderFree(s, c) <==> DistinctStampsBelow(s, c)
  {
    StampsOfTheWalk(s, c);
    if DistinctKeys(Walked(s, c), CreatedKey) {
      forall t | SameRecords(s, t) && Orderly(t)
        ensures Sort(Walked(t, c), CreatedKey) == Sort(Walked(s, c), CreatedKey)
      {
        DistinctStampsFixTheOrder(s, t, c);
      }
    } else {
      var i, j :| 0 <= i < j < |Walked(s, c)| && CreatedKey(Walked(s, c)[i]) == CreatedKey(Walked(s, c)[j]);
      TiesFollowTheInput(s, c, i, j);
    }
  }

  lemma PairConsistent<V(!new)>(says: Record -> set<(Id, V)>, a: Record, b: Record)
    requires forall c, v, w :: (c, v) in says(a) + says(b) && (c, w) in says(a) + says(b) ==> v == w
    ensures Consistent(says, [a, b])
  {
    forall p, q, c, v, w | p in [a, b] && q in [a, b] && (c, v) in says(p) && (c, w) in says(q) ensures v == w {
      assert (c, v) in says(a) + says(b) && (c, w) in says(a) + says(b);
    }
  }

  lemma PairNamesAgree(a: Record, b: Record)
    requires a.parent != a.child && a.parent != b.child && a.child != b.child
    requires b == a.(child := b.child, seal := b.seal)
    ensures Consistent(SecurityOf, [a, b]) && Consistent(StrategyOf, [a, b])
  {
    PairConsistent(SecurityOf, a, b);
    PairConsistent(StrategyOf, a, b);
  }

  lemma PairTimesAgree(a: Record, b: Record)
    requires a.parent != a.child && a.parent != b.child && a.child != b.child
    requires b == a.(child := b.child, seal := b.seal)
    ensures Consistent(CreationOf, [a, b]) && Consistent(ClosingOf, [a, b]) && Consistent(ParentOf, [a, b])
  {
    PairConsistent(CreationOf, a, b);
    PairConsistent(ClosingOf, a, b);
    PairConsistent(ParentOf, a, b);
  }

  lemma PairIsCoherent(rules: Rules, a: Record, b: Record)
    requires WellFormed(rules, a) && WellFormed(rules, b)
    requires rules.digest(a) == a.seal && rules.digest(b) == b.seal
    requires b == a.(child := b.child, seal := b.seal) && a.child != b.child
    ensures Coherent(rules, [a, b])
  {
    PairNamesAgree(a, b);
    PairTimesAgree(a, b);
  }

  lemma PairTies(a: Record, b: Record)
    requires a != b && a.parent == b.parent && CreatedKey(a) == CreatedKey(b)
    ensures !DistinctStampsBelow([a, b], a.parent)
  {
    var s := [a, b];
    ViaSelf(s, a);
    ViaSelf(s, b);
    assert Below(s, a.parent, a) && Below(s, a.parent, b);
  }

  /** Such a tie passes the set validation: lineage identifiers are not required to differ. */
  lemma TiesAreAccepted(rules: Rules, a: Record, b: Record)
    requires WellFormed(rules, a) && WellFormed(rules, b)
    requires rules.digest(a) == a.seal && rules.digest(b) == b.seal
    requires b == a.(child := b.child, seal := b.seal) && a.child != b.child
    ensures Coherent(rules, [a, b]) && Orderly([a, b])
    ensures !OrderFree([a, b], a.parent)
  {
    PairIsCoherent(rules, a, b);
    CoherentIsOrderly(rules, [a, b]);
    PairTies(a, b);
    DescendantsAreOrderFree([a, b], a.parent);
  }
}
