/**
 * Reading the whole market page by page, all or nothing (backend/astock.py, a_share_snapshot).
 * The upstream may answer each page number with anything. A page whose request, status, body or
 * rows are unusable, or whose deadline has passed, is a failed reply.
 */
module MarketSnapshot {
  /**
   * One raw row; numeric says whether every character of the code is a digit of some script (str.isdigit),
   * and quote stands for all the fields that are only copied.
   */
  datatype Row = Row(market: string, code: string, numeric: bool, name: string, quote: int)

  datatype Reply = Fails | Page(total: nat, rows: seq<Row>)

  type Upstream = nat -> Reply

  datatype Snapshot = Snapshot(rows: seq<Row>) | Refused

  const MAX_PAGES := 500

  predicate Mappable(r: Row) {
    |r.code| == 6 && r.numeric && r.name != []
  }

  /** The rows of pages 1 to n, in page order. */
  function Flat(u: Upstream, n: nat): seq<Row> {
    if n == 0 then [] else Flat(u, n - 1) + (if u(n).Page? then u(n).rows else [])
  }

  ghost predicate DistinctCodes(rows: seq<Row>) {
    forall i, j :: 0 <= i < j < |rows| ==> rows[i].code != rows[j].code
  }

  ghost predicate AllMappable(rows: seq<Row>) {
    forall r :: r in rows ==> |r.code| == 6 && r.numeric && |r.name| >= 1
  }

  /** Pages 1 to n agree on one total, none of the earlier ones is empty or already reaches it. */
  ghost predicate Underway(u: Upstream, n: nat) {
    n == 0 || (Underway(u, n - 1) && PageFits(u, n))
  }

  ghost predicate PageFits(u: Upstream, p: nat)
  {
    u(p).Page? && u(1).Page? && u(p).total == u(1).total && u(p).rows != [] && |Flat(u, p)| < u(p).total
  }

  /** The upstream shows one whole market on its first n pages. */
  ghost predicate Whole(u: Upstream, n: nat) {
    && 1 <= n <= MAX_PAGES && Underway(u, n - 1)
    && u(1).Page? && u(n).Page? && u(n).total == u(1).total && |Flat(u, n)| == u(n).total
    && AllMappable(Flat(u, n)) && DistinctCodes(Flat(u, n))
  }

  // The rows of one page against everything seen before.

  /** What the batch has gathered: the securities named, the codes listed, the rows listed, and no repetition so far. */
  datatype Gathered = Gathered(clear: bool, named: set<(string, string)>, listed: set<string>, out: seq<Row>)
  {
    predicate Repeats(r: Row) {
      (r.code != [] && (r.market, r.code) in named) || (Mappable(r) && r.code in listed)
    }

    function Add(r: Row): Gathered {
      Gathered(clear && !Repeats(r),
               if r.code != [] then named + {(r.market, r.code)} else named,
               if Mappable(r) then listed + {r.code} else listed,
               if Mappable(r) then out + [r] else out)
    }
  }

  function Gather(rows: seq<Row>): Gathered {
    if rows == [] then Gathered(true, {}, {}, [])
    else Gather(rows[..|rows| - 1]).Add(rows[|rows| - 1])
  }

  lemma {:induction false} GatherHolds(rows: seq<Row>, market: string, code: string)
    ensures (market, code) in Gather(rows).named <==>
            code != [] && exists r :: r in rows && r.market == market && r.code == code
    ensures code in Gather(rows).listed <==> exists r :: r in rows && Mappable(r) && r.code == code
  {
    if rows != [] {
      var n := |rows| - 1;
      GatherHolds(rows[..n], market, code);
      assert rows == rows[..n] + [rows[n]];
      assert rows[n] in rows && forall r :: r in rows <==> r in rows[..n] || r == rows[n];
    }
  }

  /** One security under its market and code, or one listed code, a second time. */
  predicate Clash(a: Row, b: Row) {
    || (b.code != [] && a.market == b.market && a.code == b.code)
    || (Mappable(a) && Mappable(b) && a.code == b.code)
  }

  /** The batch is clear exactly when no two of its rows clash. */
  lemma {:induction false} ClearExactly(rows: seq<Row>)
    ensures Gather(rows).clear <==> forall i, j :: 0 <= i < j < |rows| ==> !Clash(rows[i], rows[j])
  {
    if rows != [] {
      var n := |rows| - 1;
      var r := rows[n];
      ClearExactly(rows[..n]);
      GatherHolds(rows[..n], r.market, r.code);
      hide Gather, Mappable;
      assert Gather(rows).clear <==> Gather(rows[..n]).clear && !Gather(rows[..n]).Repeats(r) by { GatherLast(rows); }
      forall a | a in rows[..n]
        ensures exists i :: 0 <= i < n && rows[i] == a
      {
        var i :| 0 <= i < |rows[..n]| && rows[..n][i] == a;
      }
      assert Gather(rows[..n]).Repeats(r) <==> exists i :: 0 <= i < n && Clash(rows[i], r);
    }
  }

  lemma {:induction false} GatherLast(rows: seq<Row>)
    requires rows != []
    ensures Gather(rows) == Gather(rows[..|rows| - 1]).Add(rows[|rows| - 1])
  {
  }

  lemma {:induction false} GatherOne(rows: seq<Row>, r: Row)
    ensures Gather(rows + [r]) == Gather(rows).Add(r)
  {
    assert (rows + [r])[..|rows|] == rows;
  }

  lemma {:induction false} MappedAll(rows: seq<Row>)
    ensures |Gather(rows).out| <= |rows|
    ensures |Gather(rows).out| == |rows| <==> AllMappable(rows)
    ensures AllMappable(rows) ==> Gather(rows).out == rows
  {
    if rows != [] {
      var n := |rows| - 1;
      MappedAll(rows[..n]);
      MappableAppended(rows[..n], rows[n]);
      assert rows == rows[..n] + [rows[n]];
      GatherLast(rows);
      hide Gather, AllMappable, Mappable;
    }
  }

  lemma MappableAppended(rows: seq<Row>, r: Row)
    ensures AllMappable(rows + [r]) <==> AllMappable(rows) && Mappable(r)
  {
    assert forall q :: q in rows + [r] <==> q in rows || q == r;
  }

  lemma {:induction false} CodeInRows(rows: seq<Row>, code: string)
    requires code in Gather(rows).listed || exists m :: (m, code) in Gather(rows).named
    ensures exists r :: r in rows && r.code == code
  {
    var n := |rows| - 1;
    assert rows == rows[..n] + [rows[n]];
    if rows[n].code != code {
      if code !in Gather(rows[..n]).listed {
        var m :| (m, code) in Gather(rows).named;
        assert (m, code) in Gather(rows[..n]).named;
      }
      CodeInRows(rows[..n], code);
    }
  }

  lemma {:induction false} MappableIsListed(rows: seq<Row>, r: Row)
    requires r in rows && Mappable(r)
    ensures r.code in Gather(rows).listed
  {
    var n := |rows| - 1;
    assert rows == rows[..n] + [rows[n]];
    if r in rows[..n] {
      MappableIsListed(rows[..n], r);
    }
  }

  /** For mappable rows, no repetition means pairwise distinct codes. */
  lemma {:induction false} ClearIsDistinct(rows: seq<Row>)
    requires Gather(rows).clear && AllMappable(rows)
    ensures DistinctCodes(rows)
  {
    if rows != [] {
      var n := |rows| - 1;
      assert rows == rows[..n] + [rows[n]];
      ClearIsDistinct(rows[..n]);
      forall i | 0 <= i < n ensures rows[i].code != rows[n].code {
        assert rows[i] in rows[..n] && rows[n] in rows;
        MappableIsListed(rows[..n], rows[i]);
      }
    }
  }

  lemma {:induction false} DistinctIsClear(rows: seq<Row>)
    requires DistinctCodes(rows)
    ensures Gather(rows).clear
  {
    if rows != [] {
      var n := |rows| - 1;
      DistinctIsClear(rows[..n]);
      if Gather(rows[..n]).Repeats(rows[n]) {
        CodeInRows(rows[..n], rows[n].code);
      }
    }
  }

  lemma {:induction false} ClearPrefix(a: seq<Row>, b: seq<Row>)
    requires Gather(a + b).clear
    ensures Gather(a).clear
  {
    if b == [] {
      assert a + b == a;
    } else {
      assert (a + b)[..|a + b| - 1] == a + b[..|b| - 1];
      ClearPrefix(a, b[..|b| - 1]);
    }
  }

  /** One page's rows: stops at the first row that repeats an earlier one. */
  method ReadRows(rows: seq<Row>, ghost before: seq<Row>, gathered: Gathered) returns (ok: bool, g: Gathered)
    requires gathered == Gather(before) && gathered.clear
    ensures ok <==> Gather(before + rows).clear
    ensures ok ==> g == Gather(before + rows)
  {
    g := gathered;
    assert before + rows[..0] == before;
    for k := 0 to |rows|
      invariant g == Gather(before + rows[..k]) && g.clear
    {
      GatherOne(before + rows[..k], rows[k]);
      assert before + rows[..k + 1] == before + rows[..k] + [rows[k]];
      if g.Repeats(rows[k]) {
        assert before + rows == before + rows[..k + 1] + rows[k + 1..];
        if Gather(before + rows).clear {
          ClearPrefix(before + rows[..k + 1], rows[k + 1..]);
        }
        return false, g;
      }
      g := g.Add(rows[k]);
    }
    assert rows[..|rows|] == rows;
    ok := true;
  }

  // Why a stop is right: no number of pages would have shown a whole market.

  ghost predicate NeverWhole(u: Upstream) {
    forall n :: !Whole(u, n)
  }

  lemma {:induction false} UnderwayAt(u: Upstream, m: nat, p: nat)
    requires Underway(u, m) && 1 <= p <= m
    ensures PageFits(u, p)
  {
    if p < m {
      UnderwayAt(u, m - 1, p);
    }
  }

  lemma {:induction false} WholeComesLater(u: Upstream, pn: nat, n: nat)
    requires 1 <= pn && Underway(u, pn - 1) && Whole(u, n)
    ensures pn <= n
    ensures u(pn).Page? && u(pn).total == u(1).total && |Flat(u, pn)| <= u(1).total
    ensures pn < n ==> PageFits(u, pn)
  {
    if n < pn {
      UnderwayAt(u, pn - 1, n);
    }
    if pn < n {
      UnderwayAt(u, n - 1, pn);
    }
  }

  lemma {:induction false} FlatGrows(u: Upstream, m: nat, n: nat)
    requires m <= n
    ensures Flat(u, m) <= Flat(u, n)
    decreases n
  {
    if m < n {
      FlatGrows(u, m, n - 1);
    }
  }

  lemma {:induction false} BadReply(u: Upstream, pn: nat)
    requires 1 <= pn && Underway(u, pn - 1)
    requires !u(pn).Page? || !u(1).Page? || u(pn).total != u(1).total || |Flat(u, pn)| > u(1).total
    ensures NeverWhole(u)
  {
    forall n ensures !Whole(u, n) {
      if Whole(u, n) {
        WholeComesLater(u, pn, n);
      }
    }
  }

  lemma {:induction false} BadRows(u: Upstream, pn: nat)
    requires 1 <= pn && Underway(u, pn - 1) && !Gather(Flat(u, pn)).clear
    ensures NeverWhole(u)
  {
    forall n ensures !Whole(u, n) {
      if Whole(u, n) {
        WholeComesLater(u, pn, n);
        FlatGrows(u, pn, n);
        PrefixDistinct(Flat(u, pn), Flat(u, n));
        DistinctIsClear(Flat(u, pn));
      }
    }
  }

  /** Two pages in a row with the same codes repeat a code. */
  lemma {:induction false} SameFingerprint(u: Upstream, pn: nat)
    requires 2 <= pn && Underway(u, pn - 1) && u(pn).Page? && u(pn).rows != []
    requires u(pn - 1).Page? && u(pn - 1).rows != [] && u(pn - 1).rows[0].code == u(pn).rows[0].code
    ensures NeverWhole(u)
  {
    var i, j, all := |Flat(u, pn - 2)|, |Flat(u, pn - 1)|, Flat(u, pn);
    assert all[i] == u(pn - 1).rows[0] && all[j] == u(pn).rows[0];
    forall n ensures !Whole(u, n) {
      if Whole(u, n) {
        WholeComesLater(u, pn, n);
        FlatGrows(u, pn, n);
        PrefixDistinct(all, Flat(u, n));
      }
    }
  }

  lemma {:induction false} PrefixDistinct(a: seq<Row>, b: seq<Row>)
    requires a <= b && DistinctCodes(b)
    ensures DistinctCodes(a)
  {
    forall i, j | 0 <= i < j < |a| ensures a[i].code != a[j].code {
      assert a[i] == b[i] && a[j] == b[j];
    }
  }

  /** The last page decides: empty or exactly complete, and then short, long or unmappable. */
  lemma {:induction false} BadEnd(u: Upstream, pn: nat)
    requires 1 <= pn && Underway(u, pn - 1) && u(1).Page? && u(pn).Page? && u(pn).total == u(1).total
    requires u(pn).rows == [] || |Flat(u, pn)| == u(1).total
    requires |Flat(u, pn)| != u(1).total || !AllMappable(Flat(u, pn))
    ensures NeverWhole(u)
  {
    forall n ensures !Whole(u, n) {
      if Whole(u, n) {
        WholeComesLater(u, pn, n);
      }
    }
  }

  lemma {:induction false} TooManyPages(u: Upstream)
    requires Underway(u, MAX_PAGES)
    ensures NeverWhole(u)
  {
    forall n ensures !Whole(u, n) {
      if Whole(u, n) {
        UnderwayAt(u, MAX_PAGES, n);
      }
    }
  }

  lemma {:induction false} OneWhole(u: Upstream, m: nat, n: nat)
    requires Whole(u, m) && Whole(u, n)
    ensures m == n
  {
    WholeComesLater(u, m, n);
    WholeComesLater(u, n, m);
  }

  function Codes(rows: seq<Row>): (codes: seq<string>)
    ensures |codes| == |rows| && forall i :: 0 <= i < |rows| ==> codes[i] == rows[i].code
  {
    seq(|rows|, i requires 0 <= i < |rows| => rows[i].code)
  }

  datatype Fingerprint = NoneYet | Seen(codes: seq<string>)

  datatype Judgement = Refuse | Empty | Filled

  ghost predicate AtPage(u: Upstream, pn: nat, total: nat, previous: Fingerprint) {
    && 1 <= pn && Underway(u, pn - 1)
    && if pn == 1 then previous == NoneYet
       else u(1).Page? && total == u(1).total && u(pn - 1).Page? && u(pn - 1).rows != [] &&
            previous == Fingerprint.Seen(Codes(u(pn - 1).rows))
  }

  /** Status, total and repetition of one page. */
  method JudgePage(u: Upstream, pn: nat, total0: nat, previous: Fingerprint) returns (j: Judgement, total: nat)
    requires AtPage(u, pn, total0, previous)
    ensures j.Refuse? ==> NeverWhole(u)
    ensures !j.Refuse? ==>
      u(1).Page? && u(pn).Page? && total == u(pn).total == u(1).total && (j.Empty? <==> u(pn).rows == [])
  {
    var reply := u(pn);
    total := total0;
    if reply.Fails? || (pn > 1 && reply.total != total0) {
      BadReply(u, pn);
      return Refuse, total;
    }
    total := reply.total;
    if pn == 1 && total > 0 && reply.rows == [] {
      BadEnd(u, pn);
      return Refuse, total;
    }
    if reply.rows == [] {
      return Empty, total;
    }
    if previous == Fingerprint.Seen(Codes(reply.rows)) {
      assert Codes(u(pn - 1).rows)[0] == Codes(reply.rows)[0];
      SameFingerprint(u, pn);
      return Refuse, total;
    }
    return Filled, total;
  }

  datatype Progress = Reject | Complete | More

  /** The rows of one page that was judged fit, and the count so far. */
  method TakePage(u: Upstream, pn: nat, total: nat, before: nat, gathered: Gathered)
    returns (progress: Progress, fetched: nat, g: Gathered)
    requires 1 <= pn && Underway(u, pn - 1) && u(1).Page? && u(pn).Page? && total == u(pn).total == u(1).total
    requires u(pn).rows != []
    requires before == |Flat(u, pn - 1)| && gathered == Gather(Flat(u, pn - 1)) && gathered.clear
    ensures progress.Reject? ==> NeverWhole(u)
    ensures !progress.Reject? ==> fetched == |Flat(u, pn)| && g == Gather(Flat(u, pn)) && g.clear
    ensures progress.Complete? ==> fetched == total
    ensures progress.More? ==> PageFits(u, pn)
  {
    var rows := u(pn).rows;
    assert Flat(u, pn) == Flat(u, pn - 1) + rows;
    fetched := before + |rows|;
    var ok;
    ok, g := ReadRows(rows, Flat(u, pn - 1), gathered);
    if !ok {
      BadRows(u, pn);
      return Reject, fetched, g;
    }
    if fetched > total {
      BadReply(u, pn);
      return Reject, fetched, g;
    }
    progress := if fetched == total then Complete else More;
  }

  lemma NothingYet(u: Upstream)
    ensures Underway(u, 0) && Flat(u, 0) == [] && Gather([]).clear
  {
  }

  lemma NothingMore(u: Upstream, pn: nat)
    requires pn >= 1 && u(pn).Page? && u(pn).rows == []
    ensures Flat(u, pn) == Flat(u, pn - 1)
  {
  }

  lemma PageTaken(u: Upstream, pn: nat)
    requires pn >= 1 && Underway(u, pn - 1) && u(1).Page? && PageFits(u, pn)
    ensures Underway(u, pn)
  {
  }

  /** The page loop: it ends with a last page to judge, or refuses the whole batch. */
  method ReadPages(u: Upstream) returns (refused: bool, pn: nat, total: nat, fetched: nat, gathered: Gathered)
    ensures refused ==> NeverWhole(u)
    ensures !refused ==>
      && 1 <= pn <= MAX_PAGES && Underway(u, pn - 1) && u(1).Page? && u(pn).Page? && u(pn).total == u(1).total == total
      && (u(pn).rows == [] || |Flat(u, pn)| == total)
      && fetched == |Flat(u, pn)| && gathered == Gather(Flat(u, pn)) && gathered.clear
  {
    hide NeverWhole, Underway, Flat, Gather, PageFits, Codes;
    NothingYet(u);
    var previous := NoneYet;
    refused, pn, total, fetched, gathered := false, 1, 0, 0, Gather([]);
    while pn <= MAX_PAGES
      invariant 1 <= pn <= MAX_PAGES + 1 && !refused && AtPage(u, pn, total, previous)
      invariant fetched == |Flat(u, pn - 1)|
      invariant gathered == Gather(Flat(u, pn - 1)) && gathered.clear
      decreases MAX_PAGES - pn
    {
      var judged;
      judged, total := JudgePage(u, pn, total, previous);
      if judged.Refuse? {
        return true, pn, total, fetched, gathered;
      }
      if judged.Empty? {
        NothingMore(u, pn);
        return;
      }
      previous := Fingerprint.Seen(Codes(u(pn).rows));
      var progress;
      progress, fetched, gathered := TakePage(u, pn, total, fetched, gathered);
      if !progress.More? {
        refused := progress.Reject?;
        return;
      }
      PageTaken(u, pn);
      pn := pn + 1;
    }
    TooManyPages(u);
    refused := true;
  }

  /** A snapshot is returned exactly when the upstream shows a whole market in time, and it is that market. */
  method AShareSnapshot(u: Upstream, late: bool) returns (s: Snapshot)
    ensures s.Snapshot? <==> !late && exists n :: Whole(u, n)
    ensures s.Snapshot? ==> forall n :: Whole(u, n) ==> s.rows == Flat(u, n)
  {
    var refused, pn, total, fetched, gathered := ReadPages(u);
    if refused || late {
      return Refused;
    }
    MappedAll(Flat(u, pn));
    if fetched != total || |gathered.out| != total {
      BadEnd(u, pn);
      return Refused;
    }
    ClearIsDistinct(Flat(u, pn));
    assert Whole(u, pn);
    forall n | Whole(u, n) ensures gathered.out == Flat(u, n) {
      OneWhole(u, pn, n);
    }
    s := Snapshot(gathered.out);
  }

  // An honest upstream: one list, cut into pages of at most cap rows.

  function Upto(list: seq<Row>, cap: nat, n: nat): nat {
    if n * cap < |list| then n * cap else |list|
  }

  lemma {:induction false} UptoGrows(list: seq<Row>, cap: nat, m: nat, n: nat)
    requires m <= n
    ensures Upto(list, cap, m) <= Upto(list, cap, n) <= |list|
  {
    assert m * cap <= n * cap;
  }

  function PagedReply(list: seq<Row>, cap: nat, p: nat): Reply {
    if p == 0 then Fails else
      UptoGrows(list, cap, p - 1, p);
      Reply.Page(|list|, list[Upto(list, cap, p - 1)..Upto(list, cap, p)])
  }

  function Paged(list: seq<Row>, cap: nat): Upstream {
    (p: nat) => PagedReply(list, cap, p)
  }

  lemma {:induction false} FlatPaged(list: seq<Row>, cap: nat, n: nat)
    ensures Upto(list, cap, n) <= |list|
    ensures Flat(Paged(list, cap), n) == list[..Upto(list, cap, n)]
  {
    if n > 0 {
      FlatPaged(list, cap, n - 1);
      UptoGrows(list, cap, n - 1, n);
    }
  }

  /** The number of pages that a list of this length fills. */
  lemma {:induction false} PagesNeeded(length: nat, cap: nat) returns (n: nat)
    requires cap > 0
    ensures n >= 1 && length <= n * cap && (n > 1 ==> (n - 1) * cap < length)
    decreases length
  {
    if length <= cap {
      n := 1;
    } else {
      var m := PagesNeeded(length - cap, cap);
      n := m + 1;
      OneMore(m, cap);
    }
  }

  lemma {:induction false} OneMore(m: nat, cap: nat)
    ensures (m + 1) * cap == m * cap + cap
    ensures m >= 1 ==> m * cap == (m - 1) * cap + cap
  {
  }

  lemma {:induction false} Scaled(a: nat, b: nat, cap: nat)
    requires a <= b
    ensures a * cap <= b * cap
  {
  }

  lemma {:induction false} PagedUnderway(list: seq<Row>, cap: nat, n: nat)
    requires cap > 0 && (n > 0 ==> n * cap < |list|)
    ensures Underway(Paged(list, cap), n)
  {
    if n > 0 {
      OneMore(n - 1, cap);
      PagedUnderway(list, cap, n - 1);
      FlatPaged(list, cap, n);
      assert PageFits(Paged(list, cap), n);
    }
  }

  lemma {:induction false} PagedIsWhole(list: seq<Row>, cap: nat, n: nat)
    requires cap > 0 && AllMappable(list) && DistinctCodes(list)
    requires 1 <= n <= MAX_PAGES && |list| <= n * cap && (n > 1 ==> (n - 1) * cap < |list|)
    ensures Whole(Paged(list, cap), n)
  {
    PagedUnderway(list, cap, n - 1);
    FlatPaged(list, cap, n);
    assert list[..|list|] == list;
  }

  /**
   * Against an honest upstream with any page cap the snapshot is the whole list, exactly when the
   * list fits into the allowed pages and its rows are mappable with distinct codes.
   */
  lemma {:induction false} HonestUpstream(list: seq<Row>, cap: nat)
    requires cap > 0
    ensures (exists n :: Whole(Paged(list, cap), n)) <==>
            |list| <= MAX_PAGES * cap && AllMappable(list) && DistinctCodes(list)
    ensures forall n :: Whole(Paged(list, cap), n) ==> Flat(Paged(list, cap), n) == list
  {
    var u := Paged(list, cap);
    forall n | Whole(u, n)
      ensures Flat(u, n) == list && |list| <= MAX_PAGES * cap && AllMappable(list) && DistinctCodes(list)
    {
      FlatPaged(list, cap, n);
      assert list[..|list|] == list;
      Scaled(n, MAX_PAGES, cap);
    }
    if |list| <= MAX_PAGES * cap && AllMappable(list) && DistinctCodes(list) {
      var n := PagesNeeded(|list|, cap);
      if n > MAX_PAGES {
        Scaled(MAX_PAGES, n - 1, cap);
      }
      PagedIsWhole(list, cap, n);
    }
  }
}
