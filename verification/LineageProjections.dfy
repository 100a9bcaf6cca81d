/**
 * The ancestor and descendant projections of a validated set of re-entry records
 * (backend/campaign_lineage.py, ancestors and descendants).
 */
module LineageProjections {
  import opened CycleSearch
  import opened LineageLines
  import opened LineageRecords
  import opened TimelineSort

  datatype Projection = Projected(records: seq<Record>) | Refused(verdict: Verdict) | CycleMet

  function ClosedKey(r: Record): Stamp { Stamp(r.parentClosedAt.at, r.lineageId) }

  function CreatedKey(r: Record): Stamp { Stamp(r.childCreatedAt.at, r.lineageId) }

  /** The whole line from the root campaign down to campaign c. */
  ghost predicate IsAncestry(s: seq<Record>, c: Id, line: seq<Record>) {
    && IsLine(s, line)
    && (line != [] ==> line[|line| - 1].child == c)
    && (forall r :: r in s ==> r.child != if line == [] then c else line[0].parent)
  }

  lemma {:induction false} OneAncestry(s: seq<Record>, c: Id, a: seq<Record>, b: seq<Record>)
    requires OnePerChild(s) && IsAncestry(s, c, a) && IsAncestry(s, c, b)
    ensures a == b
    decreases |a|
  {
    if a != [] && b != [] {
      var m, n := |a| - 1, |b| - 1;
      assert IsAncestry(s, a[m].parent, a[..m]);
      assert IsAncestry(s, a[m].parent, b[..n]);
      OneAncestry(s, a[m].parent, a[..m], b[..n]);
      assert a == a[..m] + [a[m]] && b == b[..n] + [b[n]];
    }
  }

  lemma AncestryInOrder(s: seq<Record>, line: seq<Record>)
    requires Forward(s) && IsLine(s, line)
    ensures StrictlyOrdered(line, ClosedKey)
  {
    forall i, j | 0 <= i < j < |line| ensures Before(ClosedKey(line[i]), ClosedKey(line[j])) {
      LineClimbs(s, line, i, j);
    }
  }

  ghost function ChildrenIn(line: seq<Record>): set<Id> {
    set r | r in line :: r.child
  }

  lemma ClimbExtends(s: seq<Record>, line: seq<Record>, r: Record)
    requires IsLine(s, line) && r in s && (line != [] ==> r.child == line[0].parent)
    ensures IsLine(s, [r] + line) && ChildrenIn([r] + line) == ChildrenIn(line) + {r.child}
    ensures multiset([r] + line) == multiset(line) + multiset{r}
  {
  }

  /** The climb cannot come back to a campaign it has passed. */
  lemma ClimbIsNew(s: seq<Record>, line: seq<Record>)
    requires Forward(s) && IsLine(s, line) && line != []
    ensures line[0].parent !in ChildrenIn(line)
  {
    forall r | r in line ensures r.child != line[0].parent {
      var i :| 0 <= i < |line| && line[i] == r;
      assert line[i] in s && line[0] in s;
      if i > 0 {
        LineClimbs(s, line, 0, i);
      }
    }
  }

  ghost predicate IndexByChild(byId: map<Id, Record>, s: seq<Record>) {
    && (forall c :: c in byId ==> byId[c] in s && byId[c].child == c)
    && (forall r :: r in s ==> r.child in byId)
  }

  method ByChild(records: seq<Record>) returns (parentOf: map<Id, Id>, byId: map<Id, Record>)
    ensures IndexByChild(byId, records)
    ensures parentOf.Keys == byId.Keys && forall c :: c in byId ==> parentOf[c] == byId[c].parent
  {
    parentOf, byId := map[], map[];
    for i := 0 to |records|
      invariant IndexByChild(byId, records[..i])
      invariant parentOf.Keys == byId.Keys && forall c :: c in byId ==> parentOf[c] == byId[c].parent
    {
      var r := records[i];
      assert records[..i + 1] == records[..i] + [r];
      parentOf := parentOf[r.child := r.parent];
      byId := byId[r.child := r];
    }
    assert records[..|records|] == records;
  }

  /** The climb from a campaign to its root, nearest record first; line is the same climb read downwards. */
  method Climb(c: Id, parentOf: map<Id, Id>, byId: map<Id, Record>, ghost s: seq<Record>)
    returns (chain: seq<Record>, cycle: bool, ghost line: seq<Record>)
    requires Forward(s) && IndexByChild(byId, s)
    requires parentOf.Keys == byId.Keys && forall c :: c in byId ==> parentOf[c] == byId[c].parent
    ensures !cycle && multiset(chain) == multiset(line) && IsAncestry(s, c, line)
  {
    chain, line := [], [];
    var current, seen := c, {};
    while current in parentOf && current !in seen
      invariant multiset(chain) == multiset(line) && IsLine(s, line)
      invariant line != [] ==> line[|line| - 1].child == c
      invariant current == if line == [] then c else line[0].parent
      invariant seen <= byId.Keys && seen == ChildrenIn(line)
      decreases byId.Keys - seen
    {
      ClimbExtends(s, line, byId[current]);
      seen := seen + {current};
      chain := chain + [byId[current]];
      line := [byId[current]] + line;
      current := parentOf[current];
    }
    if line != [] {
      ClimbIsNew(s, line);
    }
    cycle := current in parentOf;
  }

  /**
   * On an accepted set this never meets a cycle, and sorting by closing time
   * gives exactly the line from the root.
   */
  method Ancestors(rules: Rules, c: Id, records: seq<Record>) returns (p: Projection)
    ensures p.Refused? <==> !Coherent(rules, records)
    ensures Coherent(rules, records) ==> p.Projected? && IsAncestry(records, c, p.records)
  {
    var verdict := ValidateLineageSet(rules, records);
    if !verdict.Accepted? {
      return Refused(verdict);
    }
    CoherentIsOrderly(rules, records);
    var parentOf, byId := ByChild(records);
    var chain, cycle, line := Climb(c, parentOf, byId, records);
    AncestryInOrder(records, line);
    SortsTo(chain, line, ClosedKey);
    p := if cycle then CycleMet else Projected(Sort(chain, ClosedKey));
  }

  // Descendants.

  method ChildrenOf(records: seq<Record>) returns (childrenOf: map<Id, seq<Record>>)
    ensures forall c :: (if c in childrenOf then childrenOf[c] else []) == Kids(records, c)
  {
    childrenOf := map[];
    for i := 0 to |records|
      invariant forall c :: (if c in childrenOf then childrenOf[c] else []) == Kids(records[..i], c)
    {
      var r := records[i];
      assert records[..i + 1][..i] == records[..i];
      var siblings := if r.parent in childrenOf then childrenOf[r.parent] else [];
      childrenOf := childrenOf[r.parent := siblings + [r]];
    }
    assert records[..|records|] == records;
  }

  ghost predicate AllIn(s: seq<Record>, out: seq<Record>) {
    forall r :: r in out ==> r in s
  }

  lemma NotSeen(s: seq<Record>, out: seq<Record>, k: Record, all: seq<Record>)
    requires OnePerChild(s) && AllIn(s, out) && k in s && Distinct(all) && out + [k] <= all
    ensures k.child !in ChildrenIn(out)
  {
    if k.child in ChildrenIn(out) {
      var r :| r in out && r.child == k.child;
      assert r == k;
      DistinctPrefix(out, k, all);
    }
  }

  lemma DistinctPrefix(out: seq<Record>, k: Record, all: seq<Record>)
    requires Distinct(all) && out + [k] <= all
    ensures k !in out
  {
    assert all[|out|] == k && forall i :: 0 <= i < |out| ==> all[i] == out[i];
  }

  /** The records collected so far, and the campaigns noted as seen. */
  ghost predicate Collected(s: seq<Record>, out: seq<Record>, seen: set<Id>) {
    AllIn(s, out) && seen == ChildrenIn(out)
  }

  /** Entering the i-th record of a row stays within the whole walk, and extends the row's part of it. */
  lemma {:induction false} RowStep(s: seq<Record>, t: int, kids: seq<Record>, i: nat,
                                   start: seq<Record>, all: seq<Record>)
    requires Forward(s) && AllAfter(s, t, kids) && i < |kids|
    requires start + Forest(s, t, kids) <= all
    ensures start + Forest(s, t, kids[..i + 1]) == start + Forest(s, t, kids[..i]) + Tree(s, t, kids[i])
    ensures start + Forest(s, t, kids[..i]) + Tree(s, t, kids[i]) <= all
  {
    ForestPrefix(s, t, kids, i + 1);
    assert kids[..i + 1][..i] == kids[..i];
    Regroup(start, Forest(s, t, kids[..i]), Tree(s, t, kids[i]));
  }

  lemma {:induction false} TreeUnfolds(s: seq<Record>, t: int, k: Record, out: seq<Record>)
    requires Forward(s) && k in s && k.parentClosedAt.at > t
    ensures AllAfter(s, k.childCreatedAt.at, Kids(s, k.child)) && |Later(s, k.childCreatedAt.at)| < |Later(s, t)|
    ensures out + Tree(s, t, k) == out + [k] + Forest(s, k.childCreatedAt.at, Kids(s, k.child))
  {
    KidsAfter(s, k);
    LaterShrinks(s, t, k);
  }

  class Descent {
    const childrenOf: map<Id, seq<Record>>
    var out: seq<Record>
    var seen: set<Id>

    constructor (childrenOf: map<Id, seq<Record>>)
      ensures this.childrenOf == childrenOf && out == [] && seen == {}
    {
      this.childrenOf := childrenOf;
      out, seen := [], {};
    }

    function Row(node: Id): seq<Record> {
      if node in childrenOf then childrenOf[node] else []
    }

    /** One record and everything below it; the campaign it leads to is never one seen before. */
    method Enter(k: Record, ghost s: seq<Record>, ghost t: int, ghost all: seq<Record>) returns (raised: bool)
      requires forall c :: Row(c) == Kids(s, c)
      requires OnePerChild(s) && Forward(s) && Distinct(all) && k in s && k.parentClosedAt.at > t
      requires Collected(s, out, seen) && out + Tree(s, t, k) <= all
      modifies this
      ensures !raised && out == old(out) + Tree(s, t, k) && Collected(s, out, seen)
      decreases |Later(s, t)|, 0
    {
      TreeUnfolds(s, t, k, out);
      NotSeen(s, out, k, all);
      raised := k.child in seen;
      if !raised {
        seen := seen + {k.child};
        out := out + [k];
        raised := Walk(k.child, s, k.childCreatedAt.at, all);
      }
    }

    /** The records below one campaign, in the order of the walk. */
    method Walk(node: Id, ghost s: seq<Record>, ghost t: int, ghost all: seq<Record>) returns (raised: bool)
      requires forall c :: Row(c) == Kids(s, c)
      requires OnePerChild(s) && Forward(s) && Distinct(all) && AllAfter(s, t, Row(node))
      requires Collected(s, out, seen) && out + Forest(s, t, Row(node)) <= all
      modifies this
      ensures !raised && out == old(out) + Forest(s, t, Row(node)) && Collected(s, out, seen)
      decreases |Later(s, t)|, 2
    {
      raised := WalkRow(Row(node), s, t, all);
    }

    /** The loop of a walk. */
    method WalkRow(kids: seq<Record>, ghost s: seq<Record>, ghost t: int, ghost all: seq<Record>) returns (raised: bool)
      requires forall c :: Row(c) == Kids(s, c)
      requires OnePerChild(s) && Forward(s) && Distinct(all) && AllAfter(s, t, kids)
      requires Collected(s, out, seen) && out + Forest(s, t, kids) <= all
      modifies this
      ensures !raised && out == old(out) + Forest(s, t, kids) && Collected(s, out, seen)
      decreases |Later(s, t)|, 1
    {
      raised := false;
      ghost var start := out;
      var i := 0;
      assert Forest(s, t, kids[..0]) == [];
      while i < |kids| && !raised
        invariant 0 <= i <= |kids| && !raised
        invariant out == start + Forest(s, t, kids[..i]) && Collected(s, out, seen)
      {
        RowStep(s, t, kids, i, start, all);
        raised := Enter(kids[i], s, t, all);
        i := i + 1;
      }
      assert kids[..|kids|] == kids;
    }
  }

  function RowTime(kids: seq<Record>): int {
    if kids == [] then 0 else kids[0].parentClosedAt.at - 1
  }

  lemma {:induction false} RowAfter(s: seq<Record>, c: Id)
    requires OneClosing(s)
    ensures AllAfter(s, RowTime(Kids(s, c)), Kids(s, c))
  {
    var kids := Kids(s, c);
    forall k | k in kids ensures k.parentClosedAt.at > RowTime(kids) {
      assert kids[0] in kids;
    }
  }

  /** Everything below a campaign, in the order of the walk. */
  ghost function Walked(s: seq<Record>, c: Id): seq<Record>
    requires Orderly(s)
  {
    RowAfter(s, c);
    Forest(s, RowTime(Kids(s, c)), Kids(s, c))
  }

  lemma WalkedIsBelow(s: seq<Record>, c: Id)
    requires Orderly(s)
    ensures Distinct(Walked(s, c)) && forall r :: r in Walked(s, c) <==> Below(s, c, r)
  {
    var kids := Kids(s, c);
    RowAfter(s, c);
    KidsDistinct(s, c);
    ForestDistinct(s, RowTime(kids), kids);
    forall r ensures r in Walked(s, c) <==> Below(s, c, r) {
      ForestMembers(s, RowTime(kids), kids, r);
    }
  }

  /** Each record below c exactly once, no record before one that leads to it. */
  ghost predicate IsDescent(s: seq<Record>, c: Id, out: seq<Record>) {
    && Distinct(out)
    && (forall r :: r in out <==> Below(s, c, r))
    && Ordered(out, CreatedKey)
    && (forall i, j :: 0 <= i < |out| && 0 <= j < |out| && out[i].child == out[j].parent ==> i < j)
  }

  lemma DistinctCount(a: seq<Record>, b: seq<Record>)
    requires multiset(a) == multiset(b) && Distinct(a)
    ensures Distinct(b)
  {
    DistinctKeysMove(a, b, r => r);
  }

  lemma SortedWalkIsDescent(s: seq<Record>, c: Id)
    requires Orderly(s)
    ensures IsDescent(s, c, Sort(Walked(s, c), CreatedKey))
  {
    var out := Sort(Walked(s, c), CreatedKey);
    WalkedIsBelow(s, c);
    SortSorts(Walked(s, c), CreatedKey);
    DistinctCount(Walked(s, c), out);
    forall r ensures r in out <==> Below(s, c, r) {
      assert r in multiset(out) <==> r in multiset(Walked(s, c));
    }
    forall i, j | 0 <= i < |out| && 0 <= j < |out| && out[i].child == out[j].parent ensures i < j {
      EdgeForward(s, c, out[i], out[j]);
      assert i > j ==> NotAfter(CreatedKey(out[j]), CreatedKey(out[i]));
    }
  }

  lemma EdgeForward(s: seq<Record>, c: Id, a: Record, b: Record)
    requires Orderly(s) && Below(s, c, a) && Below(s, c, b) && a.child == b.parent
    ensures a.childCreatedAt.at < b.childCreatedAt.at
  {
    var p :| p in s && p.parent == c && Via(s, p, a);
    var q :| q in s && q.parent == c && Via(s, q, b);
    ViaForward(s, p, a);
    ViaForward(s, q, b);
  }

  method Collect(c: Id, records: seq<Record>) returns (raised: bool, out: seq<Record>)
    requires Orderly(records)
    ensures !raised && out == Walked(records, c)
  {
    RowAfter(records, c);
    WalkedIsBelow(records, c);
    var childrenOf := ChildrenOf(records);
    var descent := new Descent(childrenOf);
    raised := descent.Walk(c, records, RowTime(Kids(records, c)), Walked(records, c));
    out := descent.out;
  }

  /** On an accepted set this never meets a record twice, and returns the whole descent of c. */
  method Descendants(rules: Rules, c: Id, records: seq<Record>) returns (p: Projection)
    ensures p.Refused? <==> !Coherent(rules, records)
    ensures Coherent(rules, records) ==> Orderly(records) && p == Projected(Sort(Walked(records, c), CreatedKey))
    ensures Coherent(rules, records) ==> IsDescent(records, c, p.records)
  {
    var verdict := ValidateLineageSet(rules, records);
    if !verdict.Accepted? {
      return Refused(verdict);
    }
    CoherentIsOrderly(rules, records);
    SortedWalkIsDescent(records, c);
    var raised, out := Collect(c, records);
    p := if raised then CycleMet else Projected(Sort(out, CreatedKey));
  }

  /** A line is never longer than the whole ancestry it ends in. */
  lemma LineIsTail(s: seq<Record>, line: seq<Record>, up: seq<Record>)
    requires OnePerChild(s) && IsLine(s, line) && line != [] && up != []
    requires IsLine(s, up) && line[|line| - 1] == up[|up| - 1]
    requires forall r :: r in s ==> r.child != up[0].parent
    ensures |line| <= |up| && line == up[|up| - |line|..]
  {
    if |line| > |up| {
      var d := |line| - |up|;
      assert line[d - 1] in s && line[d - 1].child == line[d..][0].parent;
      OneTail(s, up, line);
    } else {
      OneTail(s, line, up);
    }
  }

  lemma BelowHasAncestor(s: seq<Record>, a: Id, r: Record, up: seq<Record>)
    requires OnePerChild(s) && r in s && IsAncestry(s, r.child, up) && Below(s, a, r)
    ensures exists q :: q in up && q.parent == a
  {
    var p :| p in s && p.parent == a && Via(s, p, r);
    var line: seq<Record> :| Joins(s, line, p, r);
    assert up != [];
    assert up[|up| - 1] == r;
    LineIsTail(s, line, up);
    assert up[|up| - |line|] == p;
  }

  lemma AncestorIsAbove(s: seq<Record>, r: Record, up: seq<Record>, i: nat)
    requires OnePerChild(s) && r in s && IsAncestry(s, r.child, up) && i < |up|
    ensures Below(s, up[i].parent, r)
  {
    assert up[|up| - 1] == r;
    assert Joins(s, up[i..], up[i], r);
    assert up[i] in s;
  }

  /** A record descends from a campaign exactly when that campaign is among its ancestors. */
  lemma ProjectionsAreDual(s: seq<Record>, a: Id, r: Record, up: seq<Record>, down: seq<Record>)
    requires Orderly(s) && r in s
    requires IsAncestry(s, r.child, up) && IsDescent(s, a, down)
    ensures r in down <==> exists q :: q in up && q.parent == a
  {
    if Below(s, a, r) {
      BelowHasAncestor(s, a, r, up);
    }
    if q :| q in up && q.parent == a {
      var i :| 0 <= i < |up| && up[i] == q;
      AncestorIsAbove(s, r, up, i);
    }
  }
}
