/**
 * What the scanner does to a run, by the characters at its positions alone: where it may begin and end, which
 * label may precede it, and what is quoted of it (backend/ai_answer_quality.py, _safe_boundary,
 * _standalone_prose_label and _arithmetic_diagnostics).
 */
module ScannerPositions {
  import opened EquationLimits
  import EquationParser
  import opened EquationScanner
  import opened EquationSpacing
  import opened EquationTokens
  import opened EquationVerdict
  import opened Expressions
  import opened Options

  predicate BlankFrom(text: string, i: int, j: int)
    requires 0 <= i && j <= |text|
  {
    forall n :: i <= n < j ==> IsSpace(text[n])
  }

  /** The nearest characters around `i` that are no white space are at `p` and `q`, and both are digits. */
  predicate DigitsAround(text: string, p: nat, i: nat, q: nat, reader: Reader)
    requires p < i < q < |text|
  {
    && BlankFrom(text, p + 1, i) && BlankFrom(text, i + 1, q)
    && !IsSpace(text[p]) && !IsSpace(text[q]) && reader.digit(text[p]) && reader.digit(text[q])
  }

  ghost predicate BetweenDigits(text: string, i: nat, reader: Reader) {
    exists p: nat, q: nat :: p < i < q < |text| && DigitsAround(text, p, i, q, reader)
  }

  /** A sentence may begin or end here: outside the text, at a stop or semicolon, at a comma not inside a number. */
  ghost predicate Bounded(text: string, i: int, reader: Reader) {
    || i < 0 || i >= |text|
    || text[i] in {';', '；', '。'}
    || (text[i] == '，' && !BetweenDigits(text, i, reader))
  }

  /** `text[a..b]` is what is left of `text[i..j]` without white space around it. */
  predicate Trims(text: string, i: int, j: int, a: int, b: int) {
    && 0 <= i <= a < b <= j <= |text|
    && BlankFrom(text, i, a) && BlankFrom(text, b, j) && !IsSpace(text[a]) && !IsSpace(text[b - 1])
  }

  predicate LabelText(s: string) {
    s == "说明" || s == "计算" || s == "更正" || s == "另算" || s == "原文错误示例"
  }

  /** One of the labels and white space fill the text from `from` to `end`, at most 80 characters, or the first 81. */
  ghost predicate LabelFrom(text: string, from: nat, end: nat, reader: Reader)
    requires end <= |text|
  {
    && from <= end && Bounded(text, from - 1, reader) && (if from == 0 then end <= 81 else end - from <= 80)
    && exists a: nat, b: nat :: Trims(text, from, end, a, b) && LabelText(text[a..b])
  }

  ghost predicate LabelBefore(text: string, end: nat, reader: Reader)
    requires end <= |text|
  {
    exists from: nat :: LabelFrom(text, from, end, reader)
  }

  predicate Pair(opening: char, closing: char) {
    || (opening == '\'' && closing == '\'') || (opening == '"' && closing == '"') || (opening == '`' && closing == '`')
    || (opening == '‘' && closing == '’') || (opening == '“' && closing == '”')
  }

  // ---------------------------------------------------------------- boundaries

  lemma {:induction false} TextEndSays(s: string, n: nat)
    requires n <= |s|
    ensures var k := TextEnd(s, n);
            (forall j :: k <= j < n ==> IsSpace(s[j])) && (k > 0 ==> !IsSpace(s[k - 1]))
  {
    if n > 0 && IsSpace(s[n - 1]) {
      TextEndSays(s, n - 1);
    }
  }

  lemma {:induction false} CommaAround(text: string, i: nat, reader: Reader)
    requires i < |text|
    ensures var left, right := TextEnd(text, i), SpaceEnd(text, i + 1);
            (left > 0 && right < |text| && reader.digit(text[left - 1]) && reader.digit(text[right]))
            <==> BetweenDigits(text, i, reader)
  {
    hide IsSpace;
    TextEndSays(text, i);
    SpaceEndSays(text, i + 1);
    var left, right := TextEnd(text, i), SpaceEnd(text, i + 1);
    if left > 0 && right < |text| && reader.digit(text[left - 1]) && reader.digit(text[right]) {
      assert DigitsAround(text, left - 1, i, right, reader);
    }
    if BetweenDigits(text, i, reader) {
      var p: nat, q: nat :| p < i < q < |text| && DigitsAround(text, p, i, q, reader);
      TextEndIs(text, p + 1, i);
      SpaceEndIs(text, i + 1, q);
    }
  }

  lemma {:induction false} SafeIsBounded(text: string, i: int, reader: Reader)
    ensures SafeBoundary(text, i, reader) <==> Bounded(text, i, reader)
  {
    if 0 <= i < |text| {
      CommaAround(text, i, reader);
    }
    hide BetweenDigits, SpaceEnd, TextEnd;
  }

  // ---------------------------------------------------------------- stripping

  /** `s` stands in the text from `i` on. */
  predicate Stands(text: string, i: int, s: string) {
    0 <= i <= i + |s| <= |text| && forall n :: 0 <= n < |s| ==> s[n] == text[i + n]
  }

  lemma {:induction false} StripTrims(text: string, i: nat, s: string, m: nat)
    requires Stands(text, i, s) && i <= m < i + |s| && !IsSpace(text[m])
    ensures var a, b := i + SpaceEnd(s, 0), i + TextEnd(s, |s|);
            Trims(text, i, i + |s|, a, b) && a <= m < b && Strip(s) == text[a..b]
  {
    hide IsSpace;
    assert s[m - i] == text[m];
    StripParts(s, m - i);
    SpaceEndSays(s, 0);
    TextEndSays(s, |s|);
    var a, b := SpaceEnd(s, 0), TextEnd(s, |s|);
    forall n | i <= n < i + |s|
      ensures text[n] == s[n - i]
    {
    }
    assert s[a..b] == text[i + a..i + b];
  }

  lemma {:induction false} StripOfBlank(s: string)
    requires forall n :: 0 <= n < |s| ==> IsSpace(s[n])
    ensures Strip(s) == ""
  {
    SpaceEndIs(s, 0, |s|);
  }

  /** Trimming leaves only one text. */
  lemma TrimsOnce(text: string, i: int, j: int, a: int, b: int, c: int, d: int)
    requires Trims(text, i, j, a, b) && Trims(text, i, j, c, d)
    ensures a == c && b == d
  {
    hide IsSpace;
  }

  // ---------------------------------------------------------------- labels

  lemma LabelsAreTexts(s: string)
    ensures s in LABELS <==> LabelText(s)
  {
  }

  lemma LabelIsPlain(s: string, n: nat)
    requires LabelText(s) && n < |s|
    ensures !IsDelimiter(s[n]) && !IsSpace(s[n])
  {
    var plain := "说明计算更正另算原文错误示例";
    assert s[n] in plain;
  }

  lemma {:induction false} LastDelimiterSays(text: string, start: nat, end: nat)
    requires start <= end <= |text|
    ensures var i := LastDelimiter(text, start, end);
            && (i >= 0 ==> IsDelimiter(text[i]))
            && (forall n :: (if i < 0 then start as int else i + 1) <= n < end ==> !IsDelimiter(text[n]))
    decreases end
  {
    if end > start && !IsDelimiter(text[end - 1]) {
      LastDelimiterSays(text, start, end - 1);
    }
  }

  lemma {:induction false} LastDelimiterIs(text: string, start: nat, end: nat, i: int)
    requires start <= end <= |text| && (i == -1 || (start <= i < end && IsDelimiter(text[i])))
    requires forall n :: (if i < 0 then start as int else i + 1) <= n < end ==> !IsDelimiter(text[n])
    ensures LastDelimiter(text, start, end) == i
    decreases end
  {
    if end > start && i != end - 1 {
      LastDelimiterIs(text, start, end - 1, i);
    }
  }

  lemma {:induction false} FilledByLabel(text: string, from: nat, end: nat)
    requires from <= end <= |text|
    ensures Strip(text[from..end]) in LABELS <==>
            exists a: nat, b: nat :: Trims(text, from, end, a, b) && LabelText(text[a..b])
  {
    hide IsSpace, LABELS, LabelText;
    var s := text[from..end];
    LabelsAreTexts(Strip(s));
    if n: nat :| from <= n < end && !IsSpace(text[n]) {
      StripTrims(text, from, s, n);
      var c, d := from + SpaceEnd(s, 0), from + TextEnd(s, |s|);
      forall a: nat, b: nat | Trims(text, from, end, a, b)
        ensures text[a..b] == Strip(s)
      {
        TrimsOnce(text, from, end, a, b, c, d);
      }
    } else {
      assert forall n :: 0 <= n < |s| ==> s[n] == text[from + n];
      StripOfBlank(s);
      EmptyIsNoLabel();
    }
  }

  lemma EmptyIsNoLabel()
    ensures !LabelText("")
  {
  }

  // A label holds no delimiter, and neither does white space.
  lemma {:induction false} NoDelimiterInside(text: string, from: nat, end: nat, a: nat, b: nat)
    requires end <= |text| && Trims(text, from, end, a, b) && LabelText(text[a..b])
    ensures forall n :: from <= n < end ==> !IsDelimiter(text[n])
  {
    forall n | from <= n < end
      ensures !IsDelimiter(text[n])
    {
      if a <= n < b {
        LabelIsPlain(text[a..b], n - a);
      } else {
        SpaceIsNoDelimiter(text[n]);
      }
    }
  }

  lemma SpaceIsNoDelimiter(c: char)
    ensures IsSpace(c) ==> !IsDelimiter(c)
  {
  }

  lemma {:induction false} LabelIsStandalone(text: string, from: nat, end: nat, reader: Reader)
    requires end <= |text| && LabelFrom(text, from, end, reader)
    ensures StandaloneLabel(text, end, reader)
  {
    hide IsSpace, LABELS, LabelText, BetweenDigits, Strip;
    var a: nat, b: nat :| Trims(text, from, end, a, b) && LabelText(text[a..b]);
    NoDelimiterInside(text, from, end, a, b);
    FilledByLabel(text, from, end);
    SafeIsBounded(text, from - 1, reader);
    var start := if end > 81 then end - 81 else 0;
    if from > 0 {
      LastDelimiterIs(text, start, end, from - 1);
    } else {
      LastDelimiterIs(text, start, end, -1);
      assert text[..end] == text[0..end];
    }
  }

  lemma {:induction false} StandaloneIsLabel(text: string, end: nat, reader: Reader)
    requires end <= |text| && StandaloneLabel(text, end, reader)
    ensures LabelBefore(text, end, reader)
  {
    hide IsSpace, LABELS, LabelText, BetweenDigits, Strip, Bounded;
    var start := if end > 81 then end - 81 else 0;
    var boundary := LastDelimiter(text, start, end);
    var from: nat := boundary + 1;
    assert text[..end] == text[0..end];
    FilledByLabel(text, from, end);
    SafeIsBounded(text, from - 1, reader);
    assert LabelFrom(text, from, end, reader) by {
      hide SafeBoundary;
      assert from == 0 ==> Bounded(text, from - 1, reader);
    }
  }

  lemma {:induction false} StandaloneExactly(text: string, end: nat, reader: Reader)
    requires end <= |text|
    ensures StandaloneLabel(text, end, reader) <==> LabelBefore(text, end, reader)
  {
    hide StandaloneLabel, LabelFrom;
    if LabelBefore(text, end, reader) {
      var from: nat :| LabelFrom(text, from, end, reader);
      LabelIsStandalone(text, from, end, reader);
    }
    if StandaloneLabel(text, end, reader) {
      StandaloneIsLabel(text, end, reader);
    }
  }

  // ---------------------------------------------------------------- one run

  /** The run without white space is `text[a..b]`; without a label's colon it is `text[c..b]`. */
  ghost predicate Unwrapped(text: string, r: Span, a: int, b: int, c: int, reader: Reader)
    requires r.start <= r.end <= |text|
  {
    && Trims(text, r.start, r.end, a, b)
    && if text[a] in {':', '：'} && LabelBefore(text, r.start, reader) then Trims(text, a + 1, b, c, b) else c == a
  }

  /** What is quoted of `text[c..b]`: the inside of a quote pair, trimmed, or all of it. */
  predicate Quotes(text: string, c: int, b: int, d: Diagnostic) {
    && 0 <= c < b <= |text|
    && (if b - c > 1 && Pair(text[c], text[b - 1]) then Trims(text, c + 1, b - 1, d.start, d.end)
        else d.start == c && d.end == b)
    && 0 <= d.start <= d.end <= |text| && d.raw == text[d.start..d.end]
  }

  ghost predicate MayStand(text: string, r: Span, a: int, reader: Reader)
    requires r.start <= r.end <= |text| && 0 <= a < |text|
  {
    && ((text[a] in {':', '：'} && LabelBefore(text, r.start, reader)) || Bounded(text, r.start - 1, reader))
    && Bounded(text, r.end, reader)
  }

  /** The diagnostic of a run: refused whole when too long or not bounded, otherwise read whole. */
  ghost predicate IsDiagnosis(text: string, r: Span, a: int, b: int, c: int, d: Diagnostic, reader: Reader)
    requires r.start <= r.end <= |text|
  {
    && Unwrapped(text, r, a, b, c, reader)
    && if b - a > MAX_CANDIDATE_CHARS then d == Diagnostic(text[a..b], a, b, Unsupported(CandidateLimit))
       else
         && Quotes(text, c, b, d)
         && d.verdict == if MayStand(text, r, a, reader) then reader.check(d.raw) else Unsupported(UnsafeBoundary)
  }

  lemma ColonChars(c: char)
    ensures IsColon(c) <==> c in {':', '：'}
  {
  }

  lemma PairIsClosing(opening: char, closing: char)
    ensures ClosingQuote(opening) == Some(closing) <==> Pair(opening, closing)
  {
  }

  lemma {:induction false} RunTrims(text: string, r: Span, i: nat)
    requires r.start <= i < r.end <= |text| && IsRelation(text[i])
    ensures var c := CutRun(text, r);
            Trims(text, r.start, r.end, c.start, c.end) && c.start <= i < c.end && c.raw == text[c.start..c.end]
  {
    RelationIsPlain(text[i]);
    StripTrims(text, r.start, text[r.start..r.end], i);
  }

  // The cut without its first and, if `off` is 1, its last character.
  lemma Inner(text: string, c: Cut, i: nat, off: nat, s: string)
    requires Located(text, c, i) && |s| + 1 + off == |c.raw| && forall n :: 0 <= n < |s| ==> s[n] == c.raw[1 + n]
    ensures 0 <= c.start <= i < c.end <= |text| && |c.raw| == c.end - c.start
    ensures Stands(text, c.start + 1, s) && |s| == c.end - c.start - 1 - off
    ensures c.raw[0] == text[c.start] && c.raw[|c.raw| - 1] == text[c.end - 1] && c.raw[i - c.start] == text[i]
  {
  }

  lemma {:induction false} ColonParts(c: Cut, s: string)
    requires c.raw != "" && s == c.raw[1..]
    ensures CutColon(c).start == c.start + 1 + SpaceEnd(s, 0)
  {
  }

  lemma NotColon(text: string, c: Cut, i: nat)
    requires Located(text, c, i) && IsRelation(text[i]) && IsColon(c.raw[0])
    ensures !IsSpace(text[i]) && c.start < i && c.raw != ""
  {
    RelationIsPlain(text[i]);
  }

  lemma {:induction false} ColonTrims(text: string, c: Cut, i: nat)
    requires Located(text, c, i) && IsRelation(text[i]) && IsColon(c.raw[0]) && !IsSpace(text[c.end - 1])
    ensures Trims(text, c.start + 1, c.end, CutColon(c).start, c.end)
  {
    hide *;
    NotColon(text, c, i);
    var s := c.raw[1..];
    Inner(text, c, i, 0, s);
    ColonParts(c, s);
    StripTrims(text, c.start + 1, s, i);
    EndsPlain(text, c.start + 1, c.end, c.start + 1 + SpaceEnd(s, 0), c.start + 1 + TextEnd(s, |s|));
  }

  lemma EndsPlain(text: string, i: int, j: int, a: int, b: int)
    requires Trims(text, i, j, a, b) && !IsSpace(text[j - 1])
    ensures b == j
  {
    hide IsSpace;
  }

  lemma {:induction false} InsideParts(c: Cut, s: string)
    requires Quoted(c.raw) && s == c.raw[1..|c.raw| - 1]
    ensures CutQuotes(c) == Cut(Strip(s), c.start + 1 + SpaceEnd(s, 0), c.end - (1 + |s| - TextEnd(s, |s|)))
    ensures |s| == |c.raw| - 2
  {
    hide SpaceEnd, TextEnd, Strip, ClosingQuote;
  }

  lemma NotQuotes(text: string, c: Cut, i: nat)
    requires Located(text, c, i) && IsRelation(text[i]) && Quoted(c.raw)
    ensures !IsSpace(text[i]) && c.start < i < c.end - 1 && |c.raw| > 1
  {
    RelationIsPlain(text[i]);
    Inner(text, c, i, 1, c.raw[1..|c.raw| - 1]);
  }

  lemma {:induction false} InsideTrims(text: string, c: Cut, i: nat)
    requires Located(text, c, i) && IsRelation(text[i]) && Quoted(c.raw)
    ensures var inner := CutQuotes(c);
            Trims(text, c.start + 1, c.end - 1, inner.start, inner.end) && inner.raw == text[inner.start..inner.end]
  {
    hide *;
    NotQuotes(text, c, i);
    var s := c.raw[1..|c.raw| - 1];
    InsideParts(c, s);
    Inner(text, c, i, 1, s);
    StripTrims(text, c.start + 1, s, i);
  }

  lemma {:induction false} QuotesTrim(text: string, c: Cut, i: nat, verdict: Verdict)
    requires Located(text, c, i) && IsRelation(text[i])
    ensures Quotes(text, c.start, c.end, Diagnostic(CutQuotes(c).raw, CutQuotes(c).start, CutQuotes(c).end, verdict))
  {
    PairIsClosing(text[c.start], text[c.end - 1]);
    assert c.raw[0] == text[c.start] && c.raw[|c.raw| - 1] == text[c.end - 1];
    hide IsRelation, ClosingQuote, Pair;
    if Quoted(c.raw) {
      InsideTrims(text, c, i);
      hide CutQuotes;
    }
    hide IsSpace, SpaceEnd, TextEnd, Strip;
  }

  lemma {:induction false} DiagnoseIs(text: string, r: Span, i: nat, reader: Reader) returns (a: int, b: int, c: int)
    requires r.start <= i < r.end <= |text| && IsRelation(text[i])
    ensures IsDiagnosis(text, r, a, b, c, Diagnose(text, r, reader), reader)
  {
    var cut := CutRun(text, r);
    a, b := cut.start, cut.end;
    RunTrims(text, r, i);
    ColonChars(text[a]);
    StandaloneExactly(text, r.start, reader);
    SafeIsBounded(text, r.start - 1, reader);
    SafeIsBounded(text, r.end, reader);
    assert cut.raw[0] == text[a];
    hide CutRun, CutColon, CutQuotes, SafeBoundary, Bounded, StandaloneLabel, LabelBefore, IsColon, IsSpace, Quotes;
    var inner := if Labelled(text, r, reader) then CutColon(cut) else cut;
    if Labelled(text, r, reader) {
      CutColonLocated(text, cut, i);
      ColonTrims(text, cut, i);
    }
    c := inner.start;
    QuotesTrim(text, inner, i, Diagnose(text, r, reader).verdict);
  }

  // ---------------------------------------------------------------- main results

  /**
   * A maximal run with a relation sign gets one diagnostic, and this is what it says: by the positions of
   * the white space, a label and its colon, a pair of quotes, and the characters before and after the run.
   */
  lemma {:induction false} RunDiagnosed(text: string, r: Span, i: nat, reader: Reader)
    returns (k: nat, a: int, b: int, c: int)
    requires reader.Valid() && MaximalRun(text, r, reader) && r.start <= i < r.end && IsRelation(text[i])
    ensures k < |DiagnosticsFrom(text, 0, reader)|
    ensures IsDiagnosis(text, r, a, b, c, DiagnosticsFrom(text, 0, reader)[k], reader)
  {
    k := RunsCover(text, 0, i, reader);
    OneDiagnosticPerRun(text, 0, reader);
    DiagnoseAllLength(text, RelationRuns(text, 0, reader), reader);
    DiagnosticOfRun(text, reader, k);
    var q := RelationRuns(text, 0, reader)[k];
    hide *;
    SameRun(text, r, q, i, reader);
    a, b, c := DiagnoseIs(text, r, i, reader);
  }

  lemma SameRun(text: string, r: Span, q: Span, i: nat, reader: Reader)
    requires MaximalRun(text, r, reader) && MaximalRun(text, q, reader)
    requires r.start <= i < r.end && q.start <= i < q.end
    ensures r == q
  {
  }

  /** Where a run may not stand, whatever diagnostic touches it is unsupported. */
  lemma {:induction false} NothingSalvaged(text: string, r: Span, reader: Reader, k: nat)
    requires MaximalRun(text, r, reader)
    requires || !Bounded(text, r.end, reader)
             || (!Bounded(text, r.start - 1, reader) && !LabelBefore(text, r.start, reader))
    requires k < |DiagnosticsFrom(text, 0, reader)|
    requires r.start < DiagnosticsFrom(text, 0, reader)[k].end && DiagnosticsFrom(text, 0, reader)[k].start < r.end
    ensures DiagnosticsFrom(text, 0, reader)[k].verdict.Unsupported?
  {
    SafeIsBounded(text, r.start - 1, reader);
    SafeIsBounded(text, r.end, reader);
    StandaloneExactly(text, r.start, reader);
    hide Bounded, LabelBefore, SafeBoundary, StandaloneLabel, DiagnosticsFrom;
    assert !SafeRun(text, r, reader) by { hide MaximalRun; }
    UnsafeRunUnsupported(text, r, reader, k);
  }

  /**
   * A comma between two digits, white space aside, never separates: whatever touches a run that begins right
   * after such a comma, or ends right before one, is unsupported.
   */
  lemma {:induction false} GroupedDigitsUnsupported(text: string, r: Span, p: nat, comma: nat, q: nat,
                                                    reader: Reader, k: nat)
    requires MaximalRun(text, r, reader)
    requires p < comma < q < |text| && text[comma] == '，' && reader.digit(text[p]) && reader.digit(text[q])
    requires !IsSpace(text[p]) && !IsSpace(text[q])
    requires forall n :: p < n < q && n != comma ==> IsSpace(text[n])
    requires comma == r.end || (comma == r.start - 1 && !LabelBefore(text, r.start, reader))
    requires k < |DiagnosticsFrom(text, 0, reader)|
    requires r.start < DiagnosticsFrom(text, 0, reader)[k].end && DiagnosticsFrom(text, 0, reader)[k].start < r.end
    ensures DiagnosticsFrom(text, 0, reader)[k].verdict.Unsupported?
  {
    hide IsSpace;
    assert DigitsAround(text, p, comma, q, reader);
    assert !Bounded(text, comma, reader);
    hide Bounded, LabelBefore, DiagnosticsFrom;
    NothingSalvaged(text, r, reader, k);
  }

  lemma NeverUnsafe(raw: string, limits: Limits)
    ensures Check(raw, limits) != Unsupported(UnsafeBoundary)
  {
    hide Lex, EquationParser.ParseSum, EquationParser.ParseQuantity, Evaluate, InferKind, LegacyDisplay, LeftText;
  }

  /** For the reader of reports, within the size limit, a run is refused exactly where its surroundings forbid it. */
  lemma {:induction false} ReportBoundaries(text: string, r: Span, i: nat, digit: char -> bool)
    returns (k: nat, a: int, b: int, c: int)
    requires var reader := ReportReader(digit, REPORT_LIMITS);
             MaximalRun(text, r, reader) && r.start <= i < r.end && IsRelation(text[i])
    ensures var reader := ReportReader(digit, REPORT_LIMITS);
            && k < |DiagnosticsFrom(text, 0, reader)| && Unwrapped(text, r, a, b, c, reader)
            && (b - a <= MAX_CANDIDATE_CHARS ==>
                  var d := DiagnosticsFrom(text, 0, reader)[k];
                  && (d.verdict == Unsupported(UnsafeBoundary) <==> !MayStand(text, r, a, reader))
                  && (d.verdict == Check(d.raw, REPORT_LIMITS) <==> MayStand(text, r, a, reader)))
  {
    var reader := ReportReader(digit, REPORT_LIMITS);
    ReportReaderValid(digit, REPORT_LIMITS);
    k, a, b, c := RunDiagnosed(text, r, i, reader);
    var d := DiagnosticsFrom(text, 0, reader)[k];
    NeverUnsafe(d.raw, REPORT_LIMITS);
    hide Check, MayStand, Quotes, Unwrapped, DiagnosticsFrom, MaximalRun, IsRelation;
  }
}
