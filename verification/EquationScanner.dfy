/** The scanner: whole maximal candidate runs only, never a prefix or a tail of one. */
module EquationScanner {
  import opened EquationTokens
  import opened EquationVerdict
  import opened Expressions
  import opened Options

  const MAX_ANSWER_CHARS := 120_000

  /** What the scanner depends on: which characters a candidate may contain, which count as digits
      around a comma, and the verdict on a whole candidate. */
  datatype Reader = Reader(candidate: char -> bool, digit: char -> bool, check: string -> Verdict) {
    ghost predicate Valid() {
      forall c :: IsRelation(c) ==> candidate(c)
    }
  }

  predicate IsDelimiter(c: char) {
    c == ';' || c == '；' || c == '。' || c == '，'
  }

  predicate IsColon(c: char) {
    c == ':' || c == '：'
  }

  function ClosingQuote(c: char): Option<char> {
    match c
    case '\'' => Some('\'')
    case '"' => Some('"')
    case '`' => Some('`')
    case '‘' => Some('’')
    case '“' => Some('”')
    case _ => None
  }

  const LABELS: set<string> := {"说明", "计算", "更正", "另算", "原文错误示例"}

  predicate HasRelation(s: string) {
    exists i :: 0 <= i < |s| && IsRelation(s[i])
  }

  // ---------------------------------------------------------------- maximal runs

  datatype Span = Span(start: nat, end: nat)

  function RunEnd(text: string, i: nat, reader: Reader): (e: nat)
    requires i <= |text|
    ensures i <= e <= |text|
    ensures forall j :: i <= j < e ==> reader.candidate(text[j])
    ensures e < |text| ==> !reader.candidate(text[e])
    decreases |text| - i
  {
    if i < |text| && reader.candidate(text[i]) then RunEnd(text, i + 1, reader) else i
  }

  predicate MaximalRun(text: string, r: Span, reader: Reader) {
    && r.start < r.end <= |text|
    && (forall j :: r.start <= j < r.end ==> reader.candidate(text[j]))
    && (r.start > 0 ==> !reader.candidate(text[r.start - 1]))
    && (r.end < |text| ==> !reader.candidate(text[r.end]))
  }

  /** The maximal runs from `from` on that contain a relation sign. */
  function RelationRuns(text: string, from: nat, reader: Reader): (rs: seq<Span>)
    requires from <= |text|
    ensures forall k :: 0 <= k < |rs| ==> from <= rs[k].start < rs[k].end <= |text|
    decreases |text| - from
  {
    if from == |text| then []
    else if !reader.candidate(text[from]) then RelationRuns(text, from + 1, reader)
    else
      var e := RunEnd(text, from, reader);
      (if HasRelation(text[from..e]) then [Span(from, e)] else []) + RelationRuns(text, e, reader)
  }

  // Nothing but the start of a run may lie at `from`.
  predicate AtRunBoundary(text: string, from: nat, reader: Reader) {
    from <= |text| && (0 < from < |text| && reader.candidate(text[from]) ==> !reader.candidate(text[from - 1]))
  }

  // In text order, each is a maximal run with a relation sign.
  predicate GoodRuns(text: string, rs: seq<Span>, from: nat, reader: Reader) {
    rs != [] ==>
      && from <= rs[0].start && MaximalRun(text, rs[0], reader) && HasRelation(text[rs[0].start..rs[0].end])
      && GoodRuns(text, rs[1..], rs[0].end + 1, reader)
  }

  lemma {:induction false} RunIsMaximal(text: string, from: nat, reader: Reader)
    requires from < |text| && AtRunBoundary(text, from, reader) && reader.candidate(text[from])
    ensures MaximalRun(text, Span(from, RunEnd(text, from, reader)), reader)
  {
  }

  lemma {:induction false} RunsAreGood(text: string, from: nat, reader: Reader)
    requires AtRunBoundary(text, from, reader)
    ensures GoodRuns(text, RelationRuns(text, from, reader), from, reader)
    decreases |text| - from
  {
    if from < |text| {
      if reader.candidate(text[from]) {
        RunIsMaximal(text, from, reader);
        var e := RunEnd(text, from, reader);
        RunsAfter(text, e, reader);
        if e < |text| {
          RunsAreGood(text, e + 1, reader);
        }
        GoodRunsCons(text, from, RelationRuns(text, e, reader), reader);
      } else {
        RunsAreGood(text, from + 1, reader);
        GoodRunsEarlier(text, RelationRuns(text, from, reader), from, from + 1, reader);
      }
    }
  }

  lemma RunsAfter(text: string, e: nat, reader: Reader)
    requires e <= |text| && (e < |text| ==> !reader.candidate(text[e]))
    ensures RelationRuns(text, e, reader) == if e < |text| then RelationRuns(text, e + 1, reader) else []
  {
  }

  lemma GoodRunsCons(text: string, from: nat, rest: seq<Span>, reader: Reader)
    requires from < |text| && reader.candidate(text[from])
    requires rest == RelationRuns(text, RunEnd(text, from, reader), reader)
    requires MaximalRun(text, Span(from, RunEnd(text, from, reader)), reader)
    requires GoodRuns(text, rest, RunEnd(text, from, reader) + 1, reader)
    ensures GoodRuns(text, RelationRuns(text, from, reader), from, reader)
  {
    var r := Span(from, RunEnd(text, from, reader));
    if HasRelation(text[r.start..r.end]) {
      GoodRunsFirst(text, r, rest, reader);
      assert RelationRuns(text, from, reader) == [r] + rest;
    } else {
      GoodRunsEarlier(text, rest, from, r.end + 1, reader);
      assert RelationRuns(text, from, reader) == rest;
    }
  }

  lemma {:induction false} GoodRunsFirst(text: string, r: Span, rest: seq<Span>, reader: Reader)
    requires MaximalRun(text, r, reader) && HasRelation(text[r.start..r.end])
    requires GoodRuns(text, rest, r.end + 1, reader)
    ensures GoodRuns(text, [r] + rest, r.start, reader)
  {
    assert ([r] + rest)[1..] == rest;
  }

  lemma {:induction false} GoodRunsEarlier(text: string, rs: seq<Span>, from: nat, later: nat, reader: Reader)
    requires from <= later && GoodRuns(text, rs, later, reader)
    ensures GoodRuns(text, rs, from, reader)
  {
  }

  lemma {:induction false} GoodRunAt(text: string, rs: seq<Span>, from: nat, reader: Reader, k: nat)
    requires GoodRuns(text, rs, from, reader) && k < |rs|
    ensures from <= rs[k].start && MaximalRun(text, rs[k], reader) && HasRelation(text[rs[k].start..rs[k].end])
  {
    if k > 0 {
      GoodRunAt(text, rs[1..], rs[0].end + 1, reader, k - 1);
    }
  }

  lemma {:induction false} GoodRunsInOrder(text: string, rs: seq<Span>, from: nat, reader: Reader, j: nat, k: nat)
    requires GoodRuns(text, rs, from, reader) && j < k < |rs|
    ensures rs[j].end < rs[k].start
  {
    if j == 0 {
      GoodRunAt(text, rs[1..], rs[0].end + 1, reader, k - 1);
    } else {
      GoodRunsInOrder(text, rs[1..], rs[0].end + 1, reader, j - 1, k - 1);
    }
  }

  lemma RelationIsPlain(c: char)
    requires IsRelation(c)
    ensures !IsSpace(c) && !IsColon(c) && ClosingQuote(c) == None
    ensures forall q :: ClosingQuote(q) != Some(c)
  {
  }

  /** Every relation sign lies in one of these runs. */
  lemma {:induction false} RunsCover(text: string, from: nat, i: nat, reader: Reader) returns (k: nat)
    requires reader.Valid() && AtRunBoundary(text, from, reader) && from <= i < |text| && IsRelation(text[i])
    ensures k < |RelationRuns(text, from, reader)|
    ensures RelationRuns(text, from, reader)[k].start <= i < RelationRuns(text, from, reader)[k].end
    decreases |text| - from
  {
    if !reader.candidate(text[from]) {
      k := RunsCover(text, from + 1, i, reader);
    } else {
      var e := RunEnd(text, from, reader);
      RunsSplit(text, from, reader);
      if i < e {
        RelationInside(text, from, e, i);
        k := 0;
      } else {
        k := RunsCover(text, e, i, reader);
        k := if HasRelation(text[from..e]) then k + 1 else k;
      }
    }
  }

  lemma {:induction false} RunsSplit(text: string, from: nat, reader: Reader)
    requires from < |text| && reader.candidate(text[from])
    ensures var e := RunEnd(text, from, reader);
            from <= e <= |text| && RelationRuns(text, from, reader) ==
              (if HasRelation(text[from..e]) then [Span(from, e)] else []) + RelationRuns(text, e, reader)
  {
  }

  lemma {:induction false} RelationInside(text: string, from: nat, to: nat, i: nat)
    requires from <= i < to <= |text| && IsRelation(text[i])
    ensures HasRelation(text[from..to])
  {
    assert text[from..to][i - from] == text[i];
  }

  // ---------------------------------------------------------------- boundaries

  /** The text's ends and sentence delimiters are safe; a comma that groups digits is not a delimiter. */
  predicate SafeBoundary(text: string, index: int, reader: Reader) {
    || index < 0 || index >= |text|
    || (IsDelimiter(text[index])
        && (text[index] == '，' ==>
              var left, right := TextEnd(text, index), SpaceEnd(text, index + 1);
              !(left > 0 && right < |text| && reader.digit(text[left - 1]) && reader.digit(text[right]))))
  }

  // The last delimiter before `end`, not looking further back than `start`.
  function LastDelimiter(text: string, start: nat, end: nat): (i: int)
    requires start <= end <= |text|
    ensures i == -1 || start <= i < end
    decreases end
  {
    if end == start then -1
    else if IsDelimiter(text[end - 1]) then end - 1
    else LastDelimiter(text, start, end - 1)
  }

  /** The text before a run, up to a safe boundary, is exactly one of the prose labels. */
  predicate StandaloneLabel(text: string, end: nat, reader: Reader)
    requires end <= |text|
  {
    var start := if end > 81 then end - 81 else 0;
    var boundary := LastDelimiter(text, start, end);
    if boundary >= 0
    then SafeBoundary(text, boundary, reader) && Strip(text[boundary + 1..end]) in LABELS
    else start == 0 && Strip(text[..end]) in LABELS
  }

  // ---------------------------------------------------------------- one run, one diagnostic

  datatype Diagnostic = Diagnostic(raw: string, start: int, end: int, verdict: Verdict)

  // A part of the text and where it is.
  datatype Cut = Cut(raw: string, start: int, end: int)

  function CutRun(text: string, r: Span): Cut
    requires r.start <= r.end <= |text|
  {
    var group := text[r.start..r.end];
    Cut(Strip(group), r.start + SpaceEnd(group, 0), r.end - |group| + TextEnd(group, |group|))
  }

  function CutColon(c: Cut): Cut
    requires c.raw != ""
  {
    var raw := c.raw[1..];
    Cut(SkipSpaces(raw), c.start + 1 + SpaceEnd(raw, 0), c.end)
  }

  predicate Quoted(raw: string) {
    |raw| > 1 && ClosingQuote(raw[0]) == Some(raw[|raw| - 1])
  }

  function CutQuotes(c: Cut): Cut {
    if Quoted(c.raw) then
      var inner := c.raw[1..|c.raw| - 1];
      Cut(Strip(inner), c.start + 1 + SpaceEnd(inner, 0), c.end - (1 + |inner| - TextEnd(inner, |inner|)))
    else c
  }

  predicate Labelled(text: string, r: Span, reader: Reader)
    requires r.start <= r.end <= |text|
  {
    var raw := CutRun(text, r).raw;
    raw != "" && IsColon(raw[0]) && StandaloneLabel(text, r.start, reader)
  }

  function CutEquation(text: string, r: Span, reader: Reader): Cut
    requires r.start <= r.end <= |text|
  {
    var c := CutRun(text, r);
    CutQuotes(if Labelled(text, r, reader) then CutColon(c) else c)
  }

  predicate SafeRun(text: string, r: Span, reader: Reader)
    requires r.start <= r.end <= |text|
  {
    (Labelled(text, r, reader) || SafeBoundary(text, r.start - 1, reader)) && SafeBoundary(text, r.end, reader)
  }

  function Diagnose(text: string, r: Span, reader: Reader): Diagnostic
    requires r.start <= r.end <= |text|
  {
    var whole := CutRun(text, r);
    if |whole.raw| > MAX_CANDIDATE_CHARS then
      Diagnostic(whole.raw, whole.start, whole.end, Unsupported(CandidateLimit))
    else
      var c := CutEquation(text, r, reader);
      Diagnostic(c.raw, c.start, c.end,
                 if SafeRun(text, r, reader) then reader.check(c.raw) else Unsupported(UnsafeBoundary))
  }

  /** The diagnostics of the runs from `from` on. */
  function DiagnosticsFrom(text: string, from: nat, reader: Reader): seq<Diagnostic>
    requires from <= |text|
    decreases |text| - from
  {
    if from == |text| then []
    else if !reader.candidate(text[from]) then DiagnosticsFrom(text, from + 1, reader)
    else
      var r := Span(from, RunEnd(text, from, reader));
      (if HasRelation(CutRun(text, r).raw) then [Diagnose(text, r, reader)] else [])
      + DiagnosticsFrom(text, r.end, reader)
  }

  /** One candidate: strip a label's colon and one pair of quotes, then check it whole. */
  method DiagnoseRun(text: string, r: Span, reader: Reader) returns (d: Diagnostic)
    requires r.start <= r.end <= |text|
    ensures d == Diagnose(text, r, reader)
  {
    var c := CutRun(text, r);
    if |c.raw| > MAX_CANDIDATE_CHARS {
      return Diagnostic(c.raw, c.start, c.end, Unsupported(CandidateLimit));
    }
    var beforeOk := SafeBoundary(text, r.start - 1, reader);
    if c.raw != "" && IsColon(c.raw[0]) && StandaloneLabel(text, r.start, reader) {
      c := CutColon(c);
      beforeOk := true;
    }
    c := CutQuotes(c);
    if !beforeOk || !SafeBoundary(text, r.end, reader) {
      return Diagnostic(c.raw, c.start, c.end, Unsupported(UnsafeBoundary));
    }
    return Diagnostic(c.raw, c.start, c.end, reader.check(c.raw));
  }

  method Diagnostics(text: string, reader: Reader) returns (out: seq<Diagnostic>)
    ensures out == if |text| > MAX_ANSWER_CHARS then [] else DiagnosticsFrom(text, 0, reader)
  {
    out := [];
    if |text| > MAX_ANSWER_CHARS {
      return;
    }
    var pos := 0;
    while pos < |text|
      invariant pos <= |text|
      invariant DiagnosticsFrom(text, 0, reader) == out + DiagnosticsFrom(text, pos, reader)
    {
      if !reader.candidate(text[pos]) {
        pos := pos + 1;
      } else {
        var r := Span(pos, RunEnd(text, pos, reader));
        ghost var rest := DiagnosticsFrom(text, r.end, reader);
        pos := r.end;
        if HasRelation(CutRun(text, r).raw) {
          var d := DiagnoseRun(text, r, reader);
          assert out + ([d] + rest) == (out + [d]) + rest;
          out := out + [d];
        } else {
          assert [] + rest == rest;
        }
      }
    }
  }

  // ---------------------------------------------------------------- what stripping leaves

  lemma SliceOfSlice(text: string, p: nat, q: nat, a: nat, b: nat)
    requires p <= q <= |text| && a <= b <= q - p
    ensures text[p..q][a..b] == text[p + a..p + b]
  {
    assert forall j :: 0 <= j < b - a ==> text[p..q][a..b][j] == text[p + a + j];
  }

  lemma {:induction false} SpaceEndStops(s: string, i: nat, k: nat)
    requires i <= k < |s| && !IsSpace(s[k])
    ensures SpaceEnd(s, i) <= k
    decreases k - i
  {
    if i < k {
      SpaceEndStops(s, i + 1, k);
    }
  }

  lemma {:induction false} TextEndStops(s: string, n: nat, k: nat)
    requires k < n <= |s| && !IsSpace(s[k])
    ensures k < TextEnd(s, n)
    decreases n
  {
    if k < n - 1 {
      TextEndStops(s, n - 1, k);
    }
  }

  // With something in it that is not white space, both ends of the stripped text are around it.
  lemma {:induction false} StripParts(s: string, i: nat)
    requires i < |s| && !IsSpace(s[i])
    ensures SpaceEnd(s, 0) <= i < TextEnd(s, |s|) && Strip(s) == s[SpaceEnd(s, 0)..TextEnd(s, |s|)]
  {
    SpaceEndStops(s, 0, i);
    TextEndStops(s, |s|, i);
  }

  // ---------------------------------------------------------------- what a cut keeps

  // `c` is the part of the text it claims to be, and holds position `i`.
  predicate Located(text: string, c: Cut, i: nat) {
    0 <= c.start <= i < c.end <= |text| && c.raw == text[c.start..c.end]
  }

  lemma CutRunLocated(text: string, r: Span, i: nat)
    requires r.start <= i < r.end <= |text| && IsRelation(text[i])
    ensures Located(text, CutRun(text, r), i)
    ensures r.start <= CutRun(text, r).start && CutRun(text, r).end <= r.end
  {
    RelationIsPlain(text[i]);
    var group := text[r.start..r.end];
    assert group[i - r.start] == text[i];
    StripParts(group, i - r.start);
    SliceOfSlice(text, r.start, r.end, SpaceEnd(group, 0), TextEnd(group, |group|));
  }

  lemma CutColonLocated(text: string, c: Cut, i: nat)
    requires Located(text, c, i) && IsRelation(text[i]) && IsColon(c.raw[0])
    ensures Located(text, CutColon(c), i)
    ensures c.start <= CutColon(c).start && CutColon(c).end == c.end
  {
    RelationIsPlain(text[i]);
    assert c.raw[i - c.start] == text[i] && i != c.start;
    var raw := c.raw[1..];
    assert raw[i - c.start - 1] == text[i];
    var a := SpaceEnd(raw, 0);
    SpaceEndStops(raw, 0, i - c.start - 1);
    SliceOfSlice(text, c.start, c.end, 1 + a, |c.raw|);
    assert raw[a..] == c.raw[1 + a..|c.raw|];
  }

  lemma CutQuotesLocated(text: string, c: Cut, i: nat)
    requires Located(text, c, i) && IsRelation(text[i])
    ensures Located(text, CutQuotes(c), i)
    ensures c.start <= CutQuotes(c).start && CutQuotes(c).end <= c.end
  {
    hide SpaceEnd, TextEnd, Strip;
    if Quoted(c.raw) {
      RelationIsPlain(text[i]);
      assert c.raw[i - c.start] == text[i];
      assert i != c.start && i != c.end - 1;
      var n := |c.raw|;
      var inner := c.raw[1..n - 1];
      assert inner[i - c.start - 1] == text[i];
      StripParts(inner, i - c.start - 1);
      InnerCut(text, c, SpaceEnd(inner, 0), TextEnd(inner, |inner|));
    }
  }

  lemma InnerCut(text: string, c: Cut, a: nat, b: nat)
    requires 0 <= c.start <= c.end <= |text| && c.raw == text[c.start..c.end]
    requires |c.raw| > 1 && a <= b <= |c.raw| - 2
    ensures c.raw[1..|c.raw| - 1][a..b] == text[c.start + 1 + a..c.start + 1 + b]
  {
    SliceOfSlice(c.raw, 1, |c.raw| - 1, a, b);
    SliceOfSlice(text, c.start, c.end, 1 + a, 1 + b);
  }

  /** A diagnostic lies inside its run, quotes the text it points at, and keeps every relation sign of
      the run. */
  lemma DiagnosticLocated(text: string, r: Span, reader: Reader, i: nat)
    requires r.start <= i < r.end <= |text| && IsRelation(text[i])
    ensures var d := Diagnose(text, r, reader);
            && r.start <= d.start <= i < d.end <= r.end
            && d.raw == text[d.start..d.end]
  {
    CutRunLocated(text, r, i);
    var c := CutRun(text, r);
    if Labelled(text, r, reader) {
      CutColonLocated(text, c, i);
      CutQuotesLocated(text, CutColon(c), i);
    } else {
      CutQuotesLocated(text, c, i);
    }
  }

  // ---------------------------------------------------------------- all diagnostics of a text

  function DiagnoseAll(text: string, runs: seq<Span>, reader: Reader): seq<Diagnostic>
    requires forall k :: 0 <= k < |runs| ==> runs[k].start <= runs[k].end <= |text|
  {
    if runs == [] then [] else [Diagnose(text, runs[0], reader)] + DiagnoseAll(text, runs[1..], reader)
  }

  lemma {:induction false} DiagnoseAllLength(text: string, runs: seq<Span>, reader: Reader)
    requires forall k :: 0 <= k < |runs| ==> runs[k].start <= runs[k].end <= |text|
    ensures |DiagnoseAll(text, runs, reader)| == |runs|
  {
    if runs != [] {
      DiagnoseAllLength(text, runs[1..], reader);
    }
  }

  lemma {:induction false} DiagnoseAllAt(text: string, runs: seq<Span>, reader: Reader, k: nat)
    requires forall k :: 0 <= k < |runs| ==> runs[k].start <= runs[k].end <= |text|
    requires k < |runs| == |DiagnoseAll(text, runs, reader)|
    ensures DiagnoseAll(text, runs, reader)[k] == Diagnose(text, runs[k], reader)
  {
    if k > 0 {
      DiagnoseAllLength(text, runs[1..], reader);
      DiagnoseAllAt(text, runs[1..], reader, k - 1);
    }
  }

  lemma RelationSurvivesStrip(text: string, r: Span)
    requires r.start <= r.end <= |text|
    ensures HasRelation(CutRun(text, r).raw) <==> HasRelation(text[r.start..r.end])
  {
    var group := text[r.start..r.end];
    if HasRelation(group) {
      var i :| 0 <= i < |group| && IsRelation(group[i]);
      CutRunLocated(text, r, r.start + i);
      var c := CutRun(text, r);
      assert c.raw[r.start + i - c.start] == text[r.start + i];
    } else {
      StripAddsNothing(group);
    }
  }

  lemma StripAddsNothing(s: string)
    requires !HasRelation(s)
    ensures !HasRelation(Strip(s))
  {
    var a := SpaceEnd(s, 0);
    assert forall i :: 0 <= i < |Strip(s)| ==> Strip(s)[i] == s[a + i];
  }

  /** Exactly one diagnostic for each maximal run that contains a relation sign, in text order. */
  lemma {:induction false} OneDiagnosticPerRun(text: string, from: nat, reader: Reader)
    requires from <= |text|
    ensures DiagnosticsFrom(text, from, reader) == DiagnoseAll(text, RelationRuns(text, from, reader), reader)
    decreases |text| - from
  {
    if from < |text| {
      if reader.candidate(text[from]) {
        var r := Span(from, RunEnd(text, from, reader));
        OneDiagnosticPerRun(text, r.end, reader);
        RelationSurvivesStrip(text, r);
        DiagnoseRunFirst(text, r, reader);
      } else {
        OneDiagnosticPerRun(text, from + 1, reader);
      }
    }
  }

  lemma {:induction false} DiagnoseRunFirst(text: string, r: Span, reader: Reader)
    requires r.start < |text| && reader.candidate(text[r.start]) && r.end == RunEnd(text, r.start, reader)
    requires HasRelation(CutRun(text, r).raw) <==> HasRelation(text[r.start..r.end])
    requires DiagnosticsFrom(text, r.end, reader) == DiagnoseAll(text, RelationRuns(text, r.end, reader), reader)
    ensures DiagnosticsFrom(text, r.start, reader) == DiagnoseAll(text, RelationRuns(text, r.start, reader), reader)
  {
    var rest := RelationRuns(text, r.end, reader);
    assert r == Span(r.start, RunEnd(text, r.start, reader));
    if HasRelation(text[r.start..r.end]) {
      assert RelationRuns(text, r.start, reader) == [r] + rest;
      assert ([r] + rest)[1..] == rest;
    } else {
      assert RelationRuns(text, r.start, reader) == rest;
    }
  }

  // The k-th diagnostic is that of the k-th run, and lies inside it.
  lemma {:induction false} DiagnosticOfRun(text: string, reader: Reader, k: nat)
    requires k < |DiagnosticsFrom(text, 0, reader)|
    ensures |DiagnosticsFrom(text, 0, reader)| == |RelationRuns(text, 0, reader)|
    ensures var r := RelationRuns(text, 0, reader)[k];
            && MaximalRun(text, r, reader)
            && DiagnosticsFrom(text, 0, reader)[k] == Diagnose(text, r, reader)
            && WithinRun(text, r, DiagnosticsFrom(text, 0, reader)[k])
  {
    var runs := RelationRuns(text, 0, reader);
    OneDiagnosticPerRun(text, 0, reader);
    DiagnoseAllLength(text, runs, reader);
    DiagnoseAllAt(text, runs, reader, k);
    RunsAreGood(text, 0, reader);
    GoodRunAt(text, runs, 0, reader, k);
    DiagnosticWithinRun(text, runs[k], reader);
  }

  predicate WithinRun(text: string, r: Span, d: Diagnostic) {
    r.start <= d.start < d.end <= r.end <= |text| && d.raw == text[d.start..d.end]
  }

  lemma DiagnosticWithinRun(text: string, r: Span, reader: Reader)
    requires r.start <= r.end <= |text| && HasRelation(text[r.start..r.end])
    ensures WithinRun(text, r, Diagnose(text, r, reader))
  {
    var group := text[r.start..r.end];
    var i :| 0 <= i < |group| && IsRelation(group[i]);
    DiagnosticLocated(text, r, reader, r.start + i);
  }

  // The verdict of one diagnostic.
  lemma DiagnosticVerdict(text: string, r: Span, reader: Reader)
    requires r.start <= r.end <= |text|
    ensures var d := Diagnose(text, r, reader);
            d.verdict.Unsupported? || (d.verdict == reader.check(d.raw) && SafeRun(text, r, reader))
  {
  }

  ghost predicate Answers(text: string, d: Diagnostic, reader: Reader) {
    exists r: Span ::
      && MaximalRun(text, r, reader) && WithinRun(text, r, d)
      && (d.verdict.Unsupported? || (d.verdict == reader.check(d.raw) && SafeRun(text, r, reader)))
  }

  /** Each diagnostic quotes the text it points at, inside one maximal run; a verdict other than
      "unsupported" is the verdict on that whole quotation, and only between two safe boundaries. */
  lemma {:induction false} ScannerSound(text: string, reader: Reader, k: nat)
    requires k < |DiagnosticsFrom(text, 0, reader)|
    ensures Answers(text, DiagnosticsFrom(text, 0, reader)[k], reader)
  {
    DiagnosticOfRun(text, reader, k);
    DiagnosticVerdict(text, RelationRuns(text, 0, reader)[k], reader);
  }

  /** The diagnostics do not overlap and follow the order of the text. */
  lemma {:induction false} ScannerOrdered(text: string, reader: Reader, j: nat, k: nat)
    requires j < k < |DiagnosticsFrom(text, 0, reader)|
    ensures DiagnosticsFrom(text, 0, reader)[j].end < DiagnosticsFrom(text, 0, reader)[k].start
  {
    DiagnosticOfRun(text, reader, j);
    DiagnosticOfRun(text, reader, k);
    RunsAreGood(text, 0, reader);
    GoodRunsInOrder(text, RelationRuns(text, 0, reader), 0, reader, j, k);
  }

  /** Every relation sign of the text is inside a diagnostic (only one, as they do not overlap). */
  lemma ScannerComplete(text: string, reader: Reader, i: nat) returns (k: nat)
    requires reader.Valid() && i < |text| && IsRelation(text[i])
    ensures k < |DiagnosticsFrom(text, 0, reader)|
    ensures DiagnosticsFrom(text, 0, reader)[k].start <= i < DiagnosticsFrom(text, 0, reader)[k].end
  {
    k := RunsCover(text, 0, i, reader);
    OneDiagnosticPerRun(text, 0, reader);
    DiagnoseAllLength(text, RelationRuns(text, 0, reader), reader);
    DiagnosticOfRun(text, reader, k);
    DiagnosticLocated(text, RelationRuns(text, 0, reader)[k], reader, i);
  }

  /** No part of an unsafe run is salvaged: whatever diagnostic touches the run is unsupported. */
  lemma {:induction false} UnsafeRunUnsupported(text: string, r: Span, reader: Reader, k: nat)
    requires MaximalRun(text, r, reader) && !SafeRun(text, r, reader)
    requires k < |DiagnosticsFrom(text, 0, reader)|
    requires r.start < DiagnosticsFrom(text, 0, reader)[k].end && DiagnosticsFrom(text, 0, reader)[k].start < r.end
    ensures DiagnosticsFrom(text, 0, reader)[k].verdict.Unsupported?
  {
    DiagnosticOfRun(text, reader, k);
    OverlappingRuns(text, r, RelationRuns(text, 0, reader)[k], reader);
    DiagnosticVerdict(text, r, reader);
  }

  lemma OverlappingRuns(text: string, r: Span, q: Span, reader: Reader)
    requires MaximalRun(text, r, reader) && MaximalRun(text, q, reader) && r.start < q.end && q.start < r.end
    ensures r == q
  {
  }

  // ---------------------------------------------------------------- the reader of report texts

  // Includes continuations no supported equation has, so that a run is never cut short at one.
  const CANDIDATE_CHARS: string :=
    "0123456789ABCDEFGHIJKLMNOPQRSTUVWXYZabcdefghijklmnopqrstuvwxyz_.,"
    + "万亿元股倍)%％＝≈[]{}<>≤≥√∞'’‘`\"“”!:：?！？"
    + "+-−*/×÷=^(·＋－~～–—±至到\\"

  function ReportReader(digit: char -> bool, limits: Limits): Reader {
    Reader((c: char) => c in CANDIDATE_CHARS || IsSpace(c), digit, (s: string) => Check(s, limits))
  }

  lemma ReportReaderValid(digit: char -> bool, limits: Limits)
    ensures ReportReader(digit, limits).Valid()
  {
    var s := CANDIDATE_CHARS;
    assert s[73] == '＝' && s[74] == '≈' && s[|s| - 14] == '=';
  }
}
