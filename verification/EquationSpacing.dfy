/** Reading a text with white space between its tokens, one token at a time, and cutting it where the code does. */
module EquationSpacing {
  import opened EquationParser
  import opened EquationTokens
  import opened EquationVerdict
  import opened Expressions
  import opened Numerals
  import opened Options

  /** These tokens are read from `s`, after however many earlier ones. */
  ghost predicate LexesTo(s: string, ts: seq<Token>) {
    exists count: nat :: Lex(s, count) == Tokens(ts)
  }

  predicate StartsPlain(s: string) {
    s == "" || !IsSpace(s[0])
  }

  lemma {:induction false} SpaceEndShifts(s: string, i: nat)
    requires s != "" && i < |s|
    ensures SpaceEnd(s, i + 1) == SpaceEnd(s[1..], i) + 1
    decreases |s| - i
  {
    if i + 1 < |s| && IsSpace(s[i + 1]) {
      SpaceEndShifts(s, i + 1);
    }
  }

  /** Leading white space does not matter to the tokenizer. */
  lemma {:induction false} Skipped(s: string, ts: seq<Token>)
    requires LexesTo(s, ts)
    ensures StartsPlain(SkipSpaces(s)) && LexesTo(SkipSpaces(s), ts)
  {
    if s != "" && IsSpace(s[0]) {
      var count: nat :| Lex(s, count) == Tokens(ts);
      LexSpace(s, count);
      SkipOne(s);
      Skipped(s[1..], ts);
    } else {
      assert SkipSpaces(s) == s;
    }
  }

  lemma {:induction false} SkipOne(s: string)
    requires s != "" && IsSpace(s[0])
    ensures SkipSpaces(s) == SkipSpaces(s[1..])
  {
    SpaceEndShifts(s, 0);
  }

  lemma {:induction false} TokenStep(s: string, t: Token, more: seq<Token>, count: nat)
    requires StartsPlain(s) && Lex(s, count) == Tokens([t] + more)
    ensures s != "" && |TokenText(t)| <= |s| && s[..|TokenText(t)|] == TokenText(t)
    ensures TokenAt(s) == Some((t, |TokenText(t)|)) && Lex(s[|TokenText(t)|..], count + 1) == Tokens(more)
    ensures count + 1 <= MAX_TOKENS && (t.Num? ==> t.number.WithinLimits())
  {
    hide TokenAt, IsSpace, TokenText;
    var length := LexSplits(s, count);
    var rest := Lex(s[length..], count + 1).ts;
    assert ([t] + more)[0] == t && ([TokenAt(s).value.0] + rest)[0] == TokenAt(s).value.0;
    assert ([t] + more)[1..] == more && ([TokenAt(s).value.0] + rest)[1..] == rest;
    assert |s[..length]| == length;
  }

  lemma NextToken(s: string, t: Token, more: seq<Token>)
    requires StartsPlain(s) && LexesTo(s, [t] + more)
    ensures s != "" && |TokenText(t)| <= |s| && s[..|TokenText(t)|] == TokenText(t)
    ensures TokenAt(s) == Some((t, |TokenText(t)|)) && LexesTo(s[|TokenText(t)|..], more)
  {
    hide Lex, TokenAt, IsSpace, TokenText;
    var count: nat :| Lex(s, count) == Tokens([t] + more);
    TokenStep(s, t, more, count);
  }

  lemma {:induction false} NothingRead(s: string)
    requires StartsPlain(s) && LexesTo(s, [])
    ensures s == ""
  {
    hide TokenAt;
    var count: nat :| Lex(s, count) == Tokens([]);
  }

  // ---------------------------------------------------------------- the left side of the text

  /** A token ends where its text cannot go on. */
  lemma {:induction false} TokenEnds(s: string, t: Token, more: seq<Token>)
    requires StartsPlain(s) && LexesTo(s, [t] + more)
    ensures |TokenText(t)| <= |s| && Ends(t, s[|TokenText(t)|..])
  {
    hide Lex, IsSpace;
    NextToken(s, t, more);
    var length := |TokenText(t)|;
    if length < |s| {
      var rest := s[length..];
      assert s[length] == rest[0];
      PointIsNoToken(rest, more);
      if t.Num? {
        NumberEnds(s, t.number);
      }
    }
  }

  predicate Ends(t: Token, rest: string) {
    (t.Num? ==> EndsNumber(rest)) && (t == Magnitude(Wan) ==> rest == "" || rest[0] != '亿')
  }

  lemma PointHasNoToken(s: string)
    requires s != ""
    ensures s[0] == '.' ==> TokenAt(s).None? && !IsSpace(s[0])
  {
  }

  lemma PointIsNoToken(s: string, ts: seq<Token>)
    requires LexesTo(s, ts) && s != ""
    ensures s[0] != '.'
  {
    hide TokenAt, IsSpace;
    var count: nat :| Lex(s, count) == Tokens(ts);
    PointHasNoToken(s);
  }

  lemma NumberEnds(s: string, n: Number)
    requires s != "" && IsDigit(s[0]) && NumberAt(s) == (n, |n.Text()|) && |n.Text()| < |s|
    ensures !IsDigit(s[|n.Text()|])
  {
    hide DigitRun;
    var w := DigitRun(s);
    if w + 1 < |s| && s[w] == '.' && IsDigit(s[w + 1]) {
      var f := DigitRun(s[w + 1..]);
      assert s[w + 1..][f] == s[w + 1 + f];
    }
  }

  lemma {:induction false} PutToken(t: Token, rest: string, more: seq<Token>, count: nat)
    requires Ends(t, rest) && Lex(rest, count + 1) == Tokens(more)
    requires count + 1 <= MAX_TOKENS && (t.Num? ==> t.number.WithinLimits())
    ensures Lex(TokenText(t) + rest, count) == Tokens([t] + more)
  {
    hide TokenAt, IsSpace, TokenText;
    TokenAtText(t, rest);
    assert (TokenText(t) + rest)[|TokenText(t)|..] == rest;
  }

  // The text of the first tokens, up to the end of the last of them.
  lemma {:induction false} CutText(s: string, left: seq<Token>, more: seq<Token>, count: nat) returns (k: nat)
    requires Lex(s, count) == Tokens(left + more) && left != []
    ensures 0 < k <= |s| && !IsSpace(s[k - 1])
    ensures Lex(s[..k], count) == Tokens(left) && Lex(s[k..], count + |left|) == Tokens(more)
    decreases |s|
  {
    LexNothing(count);
    if IsSpace(s[0]) {
      LexSpace(s, count);
      var j := CutText(s[1..], left, more, count);
      k := j + 1;
      assert s[..k][1..] == s[1..][..k - 1] && s[k..] == s[1..][k - 1..];
      LexSpace(s[..k], count);
    } else {
      k := CutToken(s, left, more, count);
    }
  }

  lemma {:induction false} CutToken(s: string, left: seq<Token>, more: seq<Token>, count: nat) returns (k: nat)
    requires s != "" && !IsSpace(s[0]) && Lex(s, count) == Tokens(left + more) && left != []
    ensures 0 < k <= |s| && !IsSpace(s[k - 1])
    ensures Lex(s[..k], count) == Tokens(left) && Lex(s[k..], count + |left|) == Tokens(more)
    decreases |s|, 0
  {
    hide Lex, TokenAt, IsSpace, TokenText, Ends;
    var t, others := left[0], left[1..];
    assert left + more == [t] + (others + more) && left == [t] + others;
    TokenStep(s, t, others + more, count);
    TokenEnds(s, t, others + more);
    var length := |TokenText(t)|;
    var j := 0;
    if others == [] {
      LexNothing(count + 1);
      assert others + more == more;
      TokenTextHasNoSpaces(t);
      assert s[length - 1] == TokenText(t)[length - 1];
    } else {
      j := CutText(s[length..], others, more, count + 1);
      assert s[length..][j..] == s[length + j..];
    }
    k := length + j;
    EndsEarlier(t, s[length..], j);
    PutToken(t, s[length..][..j], others, count);
    assert s[..k] == TokenText(t) + s[length..][..j];
  }

  lemma EndsEarlier(t: Token, rest: string, j: nat)
    requires Ends(t, rest) && j <= |rest|
    ensures Ends(t, rest[..j])
  {
  }

  predicate NoRelationChars(s: string) {
    forall i :: 0 <= i < |s| ==> !IsRelation(s[i])
  }

  lemma TokenHasNoRelationChar(t: Token)
    requires !t.Relate?
    ensures NoRelationChars(TokenText(t))
  {
    if t.Num? {
      assert forall c :: IsDigit(c) ==> !IsRelation(c);
    }
  }

  predicate Blank(s: string) {
    forall i :: 0 <= i < |s| ==> IsSpace(s[i])
  }

  lemma BlankHasNoRelation(s: string)
    requires Blank(s)
    ensures NoRelationChars(s)
  {
  }

  lemma NoRelationConcat(a: string, b: string)
    requires NoRelationChars(a) && NoRelationChars(b)
    ensures NoRelationChars(a + b)
  {
  }

  lemma {:induction false} NoRelationRead(s: string, ts: seq<Token>)
    requires LexesTo(s, ts) && forall t :: t in ts ==> !t.Relate?
    ensures NoRelationChars(s)
    decreases |s|
  {
    hide Lex, IsSpace, IsRelation, TokenText, TokenAt, NoRelationChars;
    if s == "" {
      BlankHasNoRelation(s);
    } else if IsSpace(s[0]) {
      var count: nat :| Lex(s, count) == Tokens(ts);
      LexSpace(s, count);
      NoRelationRead(s[1..], ts);
      BlankHasNoRelation(s[..1]);
      NoRelationConcat(s[..1], s[1..]);
      assert s == s[..1] + s[1..];
    } else {
      if ts == [] {
        NothingRead(s);
      }
      var t := ts[0];
      assert ts == [t] + ts[1..] && t in ts;
      NextToken(s, t, ts[1..]);
      NoRelationRead(s[|TokenText(t)|..], ts[1..]);
      TokenHasNoRelationChar(t);
      NoRelationConcat(TokenText(t), s[|TokenText(t)|..]);
      assert s == TokenText(t) + s[|TokenText(t)|..];
    }
  }

  lemma {:induction false} BeforeRelationOf(left: string, right: string)
    requires NoRelationChars(left) && right != "" && IsRelation(right[0])
    ensures BeforeRelation(left + right) == left
  {
    if left == "" {
      assert left + right == right;
    } else {
      assert (left + right)[1..] == left[1..] + right;
      BeforeRelationOf(left[1..], right);
    }
  }

  lemma {:induction false} SpaceEndIs(s: string, i: nat, k: nat)
    requires i <= k <= |s| && (forall j :: i <= j < k ==> IsSpace(s[j])) && (k < |s| ==> !IsSpace(s[k]))
    ensures SpaceEnd(s, i) == k
    decreases k - i
  {
    if i < k {
      SpaceEndIs(s, i + 1, k);
    }
  }

  lemma {:induction false} SpaceEndSays(s: string, i: nat)
    requires i <= |s|
    ensures var k := SpaceEnd(s, i);
            (forall j :: i <= j < k ==> IsSpace(s[j])) && (k < |s| ==> !IsSpace(s[k]))
    decreases |s| - i
  {
    if i < |s| && IsSpace(s[i]) {
      SpaceEndSays(s, i + 1);
    }
  }

  lemma {:induction false} TextEndIs(s: string, k: nat, n: nat)
    requires 0 < k <= n <= |s| && !IsSpace(s[k - 1]) && forall j :: k <= j < n ==> IsSpace(s[j])
    ensures TextEnd(s, n) == k
  {
    if k < n {
      TextEndIs(s, k, n - 1);
    }
  }

  lemma {:induction false} StripBlank(s: string, blank: string)
    requires s != "" && !IsSpace(s[|s| - 1]) && Blank(blank)
    ensures Strip(s + blank) == SkipSpaces(s)
  {
    hide IsSpace;
    var k := SpaceEnd(s, 0);
    SpaceEndSays(s, 0);
    assert k < |s|;
    SpaceEndIs(s + blank, 0, k);
    TextEndIs(s + blank, |s|, |s + blank|);
    assert (s + blank)[k..|s|] == s[k..];
  }

  lemma {:induction false} BlankThenRelation(tail: string, relation: Relation, right: seq<Token>)
    requires LexesTo(tail, [Relate(relation)] + right)
    ensures var n := SpaceEnd(tail, 0); n < |tail| && Blank(tail[..n]) && IsRelation(tail[n])
  {
    hide LexesTo, TokenAt;
    Skipped(tail, [Relate(relation)] + right);
    NextToken(SkipSpaces(tail), Relate(relation), right);
    var n := SpaceEnd(tail, 0);
    SpaceEndSays(tail, 0);
    assert tail[n] == tail[n..][..1][0] == TokenText(Relate(relation))[0];
  }

  lemma {:induction false} LeftTextIs(text: string, blank: string, right: string)
    requires text != "" && !IsSpace(text[|text| - 1]) && NoRelationChars(text) && Blank(blank)
    requires right != "" && IsRelation(right[0])
    ensures LeftText(text + blank + right) == SkipSpaces(text)
  {
    hide IsSpace, Strip, BeforeRelation, SkipSpaces, IsRelation;
    BlankHasNoRelation(blank);
    BeforeRelationOf(text + blank, right);
    StripBlank(text, blank);
  }

  /** What the code cuts out as the left side is the text of the tokens before the relation. */
  lemma {:induction false} LeftTextLexes(raw: string, left: seq<Token>, relation: Relation, right: seq<Token>)
    requires Lex(raw, 0) == Tokens(left + ([Relate(relation)] + right)) && left != []
    requires forall t :: t in left ==> !t.Relate?
    ensures StartsPlain(LeftText(raw)) && LexesTo(LeftText(raw), left)
  {
    hide Lex, IsSpace, LeftText, SkipSpaces, Blank, IsRelation, NoRelationChars, StartsPlain;
    var k := CutText(raw, left, [Relate(relation)] + right, 0);
    var text, tail := raw[..k], raw[k..];
    assert LexesTo(tail, [Relate(relation)] + right) && LexesTo(text, left);
    hide LexesTo;
    BlankThenRelation(tail, relation, right);
    var n := SpaceEnd(tail, 0);
    NoRelationRead(text, left);
    LeftTextIs(text, tail[..n], tail[n..]);
    assert raw == text + tail[..n] + tail[n..];
    Skipped(text, left);
  }
}
