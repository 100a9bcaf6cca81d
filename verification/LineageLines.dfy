/** Lines of re-entries, and the forest below a campaign, in a coherent set of records. */
module LineageLines {
  import opened CycleSearch
  import opened LineageRecords

  predicate Distinct(s: seq<Record>) {
    forall i, j :: 0 <= i < j < |s| ==> s[i] != s[j]
  }

  ghost predicate OnePerChild(s: seq<Record>) {
    forall a, b :: a in s && b in s && a.child == b.child ==> a == b
  }

  ghost predicate OneClosing(s: seq<Record>) {
    forall a, b :: a in s && b in s && a.parent == b.parent ==> a.parentClosedAt.at == b.parentClosedAt.at
  }

  ghost predicate Forward(s: seq<Record>) {
    (forall a :: a in s ==> a.parentClosedAt.at < a.childCreatedAt.at) && LivesForward(s)
  }

  /** What the projections rely on: one record for each child, and lives that run forward in time. */
  ghost predicate Orderly(s: seq<Record>) {
    Distinct(s) && OnePerChild(s) && OneClosing(s) && Forward(s)
  }

  lemma CoherentIsOrderly(rules: Rules, s: seq<Record>)
    requires Coherent(rules, s)
    ensures Orderly(s)
  {
    forall i, j | 0 <= i < j < |s| ensures s[i] != s[j] {
      assert EdgeOf(s[i]) != EdgeOf(s[j]);
    }
    forall a, b | a in s && b in s && a.child == b.child ensures a == b {
      assert (a.child, a.parent) in ParentOf(a) && (b.child, b.parent) in ParentOf(b);
      var i :| 0 <= i < |s| && s[i] == a;
      var j :| 0 <= j < |s| && s[j] == b;
      assert EdgeOf(s[i]) == EdgeOf(s[j]);
    }
    forall a, b | a in s && b in s && a.parent == b.parent ensures a.parentClosedAt.at == b.parentClosedAt.at {
      assert (a.parent, a.parentClosedAt) in ClosingOf(a) && (b.parent, b.parentClosedAt) in ClosingOf(b);
    }
  }

  predicate IsLine(s: seq<Record>, line: seq<Record>) {
    && (forall i :: 0 <= i < |line| ==> line[i] in s)
    && (forall i :: 0 < i < |line| ==> line[i - 1].child == line[i].parent)
  }

  ghost predicate Joins(s: seq<Record>, line: seq<Record>, a: Record, r: Record) {
    IsLine(s, line) && line != [] && line[0] == a && line[|line| - 1] == r
  }

  /** r is a itself, or a re-entry after it. */
  ghost predicate Via(s: seq<Record>, a: Record, r: Record) {
    exists line :: Joins(s, line, a, r)
  }

  /** r is a re-entry somewhere below campaign c. */
  ghost predicate Below(s: seq<Record>, c: Id, r: Record) {
    exists a :: a in s && a.parent == c && Via(s, a, r)
  }

  /** Time runs strictly forward along a line. */
  lemma {:induction false} LineClimbs(s: seq<Record>, line: seq<Record>, i: nat, j: nat)
    requires Forward(s) && IsLine(s, line) && i < j < |line|
    ensures line[i].childCreatedAt.at < line[j].parentClosedAt.at
    ensures line[i].parentClosedAt.at < line[j].parentClosedAt.at
    decreases j
  {
    if i < j - 1 {
      LineClimbs(s, line, i, j - 1);
    }
    assert line[j - 1] in s && line[j] in s && line[i] in s;
  }

  /** Two lines that end alike agree on everything the shorter one covers. */
  lemma {:induction false} OneTail(s: seq<Record>, p: seq<Record>, q: seq<Record>)
    requires OnePerChild(s) && IsLine(s, p) && IsLine(s, q) && 0 < |p| <= |q|
    requires p[|p| - 1] == q[|q| - 1]
    ensures p == q[|q| - |p|..]
    decreases |p|
  {
    var m, n := |p|, |q|;
    if m > 1 {
      assert p[m - 2].child == p[m - 1].parent && q[n - 2].child == q[n - 1].parent;
      OneTail(s, p[..m - 1], q[..n - 1]);
      assert p[..m - 1] == q[..n - 1][n - m..];
      assert p == p[..m - 1] + [p[m - 1]];
    }
  }

  lemma SiblingsApartOrdered(s: seq<Record>, p: seq<Record>, q: seq<Record>)
    requires OnePerChild(s) && OneClosing(s) && Forward(s) && IsLine(s, p) && IsLine(s, q) && 0 < |p| <= |q|
    requires p[|p| - 1] == q[|q| - 1] && p[0].parent == q[0].parent
    ensures p[0] == q[0]
  {
    OneTail(s, p, q);
    var d := |q| - |p|;
    assert p[0] == q[d];
    if d > 0 {
      LineClimbs(s, q, 0, d);
    }
  }

  /** A record lies below at most one of the re-entries of one campaign. */
  lemma SiblingsApart(s: seq<Record>, a: Record, b: Record, r: Record)
    requires OnePerChild(s) && OneClosing(s) && Forward(s) && Via(s, a, r) && Via(s, b, r) && a.parent == b.parent
    ensures a == b
  {
    var p :| Joins(s, p, a, r);
    var q :| Joins(s, q, b, r);
    if |p| <= |q| {
      SiblingsApartOrdered(s, p, q);
    } else {
      SiblingsApartOrdered(s, q, p);
    }
  }

  lemma ViaForward(s: seq<Record>, a: Record, r: Record)
    requires Forward(s) && Via(s, a, r)
    ensures a in s && r in s
    ensures a == r || a.childCreatedAt.at < r.parentClosedAt.at
  {
    var line: seq<Record> :| Joins(s, line, a, r);
    assert line[0] in s && line[|line| - 1] in s;
    if |line| > 1 {
      LineClimbs(s, line, 0, |line| - 1);
    }
  }

  lemma ViaSelf(s: seq<Record>, a: Record)
    requires a in s
    ensures Via(s, a, a)
  {
    assert Joins(s, [a], a, a);
  }

  lemma ViaStep(s: seq<Record>, a: Record, k: Record, r: Record)
    requires a in s && k.parent == a.child && Via(s, k, r)
    ensures Via(s, a, r)
  {
    var line: seq<Record> :| Joins(s, line, k, r);
    assert Joins(s, [a] + line, a, r);
  }

  lemma ViaFirstStep(s: seq<Record>, a: Record, r: Record)
    requires Via(s, a, r) && a != r
    ensures exists k :: k in s && k.parent == a.child && Via(s, k, r)
  {
    var line: seq<Record> :| Joins(s, line, a, r);
    assert line[0].child == line[1].parent;
    assert Joins(s, line[1..], line[1], r);
    assert line[1] in s;
  }

  /** The records that name c as the parent, in input order. */
  function Kids(s: seq<Record>, c: Id): (k: seq<Record>)
    ensures forall r :: r in k <==> r in s && r.parent == c
  {
    if s == [] then [] else
      var last := s[|s| - 1];
      assert s == s[..|s| - 1] + [last];
      Kids(s[..|s| - 1], c) + if last.parent == c then [last] else []
  }

  lemma {:induction false} KidsDistinct(s: seq<Record>, c: Id)
    requires Distinct(s)
    ensures Distinct(Kids(s, c))
  {
    if s != [] {
      var n := |s| - 1;
      KidsDistinct(s[..n], c);
      assert s[n] !in s[..n];
    }
  }

  ghost function Later(s: seq<Record>, t: int): set<Record> {
    set r | r in s && r.parentClosedAt.at > t
  }

  ghost predicate AllAfter(s: seq<Record>, t: int, kids: seq<Record>) {
    forall k :: k in kids ==> k in s && k.parentClosedAt.at > t
  }

  lemma LaterShrinks(s: seq<Record>, t: int, k: Record)
    requires k in s && t < k.parentClosedAt.at < k.childCreatedAt.at
    ensures |Later(s, k.childCreatedAt.at)| < |Later(s, t)|
  {
    var a, b := Later(s, k.childCreatedAt.at), Later(s, t);
    assert k in b && k !in a;
    assert b == a + (b - a);
    assert |b - a| > 0;
  }

  lemma {:induction false} KidsAfter(s: seq<Record>, k: Record)
    requires Forward(s) && k in s
    ensures AllAfter(s, k.childCreatedAt.at, Kids(s, k.child))
    ensures k.parentClosedAt.at < k.childCreatedAt.at
  {
  }

  lemma Regroup<T>(a: seq<T>, b: seq<T>, c: seq<T>)
    ensures a + (b + c) == (a + b) + c
  {
  }

  /** The walk down from a row of siblings: each record, then everything below it, then the next. */
  ghost function Forest(s: seq<Record>, t: int, kids: seq<Record>): seq<Record>
    requires Forward(s) && AllAfter(s, t, kids)
    decreases |Later(s, t)|, |kids|
  {
    if kids == [] then [] else
      var n := |kids| - 1;
      Forest(s, t, kids[..n]) + Tree(s, t, kids[n])
  }

  ghost function Tree(s: seq<Record>, t: int, k: Record): seq<Record>
    requires Forward(s) && k in s && k.parentClosedAt.at > t
    decreases |Later(s, t)|, 0
  {
    KidsAfter(s, k);
    LaterShrinks(s, t, k);
    [k] + Forest(s, k.childCreatedAt.at, Kids(s, k.child))
  }

  ghost predicate LedToFrom(s: seq<Record>, kids: seq<Record>, r: Record) {
    exists k :: k in kids && Via(s, k, r)
  }

  lemma LedToFromSplits(s: seq<Record>, kids: seq<Record>, r: Record)
    requires kids != []
    ensures LedToFrom(s, kids, r) <==> LedToFrom(s, kids[..|kids| - 1], r) || Via(s, kids[|kids| - 1], r)
  {
    var n := |kids| - 1;
    assert forall q :: q in kids <==> q == kids[n] || q in kids[..n];
  }

  /** The walk meets exactly the records below the row. */
  lemma {:induction false} ForestMembers(s: seq<Record>, t: int, kids: seq<Record>, r: Record)
    requires Forward(s) && AllAfter(s, t, kids)
    ensures r in Forest(s, t, kids) <==> LedToFrom(s, kids, r)
    decreases |Later(s, t)|, |kids|
  {
    if kids != [] {
      var n := |kids| - 1;
      ForestMembers(s, t, kids[..n], r);
      TreeMembers(s, t, kids[n], r);
      LedToFromSplits(s, kids, r);
    }
  }

  lemma {:induction false} TreeMembers(s: seq<Record>, t: int, k: Record, r: Record)
    requires Forward(s) && k in s && k.parentClosedAt.at > t
    ensures r in Tree(s, t, k) <==> Via(s, k, r)
    decreases |Later(s, t)|, 0
  {
    KidsAfter(s, k);
    LaterShrinks(s, t, k);
    ForestMembers(s, k.childCreatedAt.at, Kids(s, k.child), r);
    ViaUnfolds(s, k, r);
  }

  lemma {:induction false} ViaUnfolds(s: seq<Record>, k: Record, r: Record)
    requires k in s
    ensures Via(s, k, r) <==> r == k || LedToFrom(s, Kids(s, k.child), r)
  {
    ViaSelf(s, k);
    if q :| q in Kids(s, k.child) && Via(s, q, r) {
      ViaStep(s, k, q, r);
    }
    if Via(s, k, r) && r != k {
      ViaFirstStep(s, k, r);
    }
  }

  ghost predicate Apart(a: seq<Record>, b: seq<Record>) {
    forall r :: r in a ==> r !in b
  }

  lemma DistinctConcat(a: seq<Record>, b: seq<Record>)
    requires Distinct(a) && Distinct(b) && Apart(a, b)
    ensures Distinct(a + b)
  {
    forall i, j | 0 <= i < j < |a + b| ensures (a + b)[i] != (a + b)[j] {
      if i < |a| <= j {
        assert a[i] in a && b[j - |a|] in b;
      }
    }
  }

  ghost predicate Siblings(kids: seq<Record>) {
    Distinct(kids) && forall a, b :: a in kids && b in kids ==> a.parent == b.parent
  }

  /** The walk meets no record twice. */
  lemma {:induction false} ForestDistinct(s: seq<Record>, t: int, kids: seq<Record>)
    requires Orderly(s) && AllAfter(s, t, kids) && Siblings(kids)
    ensures Distinct(Forest(s, t, kids))
    decreases |Later(s, t)|, |kids|
  {
    if kids != [] {
      var n := |kids| - 1;
      ForestDistinct(s, t, kids[..n]);
      TreeDistinct(s, t, kids[n]);
      TreeApart(s, t, kids);
      DistinctConcat(Forest(s, t, kids[..n]), Tree(s, t, kids[n]));
    }
  }

  lemma {:induction false} TreeDistinct(s: seq<Record>, t: int, k: Record)
    requires Orderly(s) && k in s && k.parentClosedAt.at > t
    ensures Distinct(Tree(s, t, k))
    decreases |Later(s, t)|, 0
  {
    KidsAfter(s, k);
    LaterShrinks(s, t, k);
    KidsDistinct(s, k.child);
    ForestDistinct(s, k.childCreatedAt.at, Kids(s, k.child));
    ForestMembers(s, k.childCreatedAt.at, Kids(s, k.child), k);
    if q :| q in Kids(s, k.child) && Via(s, q, k) {
      ViaForward(s, q, k);
    }
    DistinctConcat([k], Forest(s, k.childCreatedAt.at, Kids(s, k.child)));
  }

  lemma {:induction false} TreeApart(s: seq<Record>, t: int, kids: seq<Record>)
    requires Orderly(s) && AllAfter(s, t, kids) && Siblings(kids) && kids != []
    ensures Apart(Forest(s, t, kids[..|kids| - 1]), Tree(s, t, kids[|kids| - 1]))
  {
    var n := |kids| - 1;
    forall r | r in Forest(s, t, kids[..n]) ensures r !in Tree(s, t, kids[n]) {
      ForestMembers(s, t, kids[..n], r);
      TreeMembers(s, t, kids[n], r);
      var q :| q in kids[..n] && Via(s, q, r);
      if Via(s, kids[n], r) {
        SiblingsApart(s, q, kids[n], r);
      }
    }
  }

  lemma {:induction false} ForestPrefix(s: seq<Record>, t: int, kids: seq<Record>, i: nat)
    requires Forward(s) && AllAfter(s, t, kids) && i <= |kids|
    ensures Forest(s, t, kids[..i]) <= Forest(s, t, kids)
  {
    if i == |kids| {
      assert kids[..i] == kids;
    } else {
      var n := |kids| - 1;
      ForestPrefix(s, t, kids[..n], i);
      assert kids[..n][..i] == kids[..i];
    }
  }
}
