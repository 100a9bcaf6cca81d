/** The tokenizer of a candidate equation. */
module EquationTokens {
  import opened EquationParser
  import opened Expressions
  import opened Numerals
  import opened Options

  const MAX_TOKENS := 64

  /** White space in the sense of `str.strip` and of the regular expression class `\s`. */
  predicate IsSpace(c: char) {
    || '\t' <= c <= '\r' || '\U{1C}' <= c <= ' ' || c in {'\U{85}', '\U{A0}', '\U{1680}'}
    || '\U{2000}' <= c <= '\U{200A}' || c in {'\U{2028}', '\U{2029}', '\U{202F}', '\U{205F}', '\U{3000}'}
  }

  datatype LexReason = UnsupportedToken | NumberLimit | TokenLimit

  datatype Lexed = Tokens(ts: seq<Token>) | Unlexable(reason: LexReason)

  /** The one-character tokens; 万 may also start 万亿. */
  function CharToken(c: char): Option<Token> {
    match c
    case '万' => Some(Magnitude(Wan))
    case '亿' => Some(Magnitude(Yi))
    case '元' => Some(Unit(YuanMark))
    case '股' => Some(Unit(ShareMark))
    case '倍' => Some(Unit(TimesMark))
    case '%' => Some(Unit(PercentMark))
    case '％' => Some(Unit(FullwidthPercentMark))
    case '+' => Some(Operator(Plus))
    case '-' => Some(Operator(Hyphen))
    case '−' => Some(Operator(Minus))
    case '*' => Some(Operator(Star))
    case '/' => Some(Operator(Slash))
    case '×' => Some(Operator(Cross))
    case '÷' => Some(Operator(Obelus))
    case '(' => Some(Open)
    case ')' => Some(Close)
    case '=' => Some(Relate(Equals))
    case '＝' => Some(Relate(FullwidthEquals))
    case '≈' => Some(Relate(Approximately))
    case _ => None
  }

  /** The length of the longest run of digits at the start of `s`. */
  function DigitRun(s: string): (n: nat)
    ensures n <= |s| && AllDigits(s[..n])
    ensures n < |s| ==> !IsDigit(s[n])
  {
    if s == "" || !IsDigit(s[0]) then 0 else 1 + DigitRun(s[1..])
  }

  function NumberAt(s: string): (r: (Number, nat))
    requires s != "" && IsDigit(s[0])
    ensures 0 < r.1 <= |s| && s[..r.1] == r.0.Text()
  {
    var w := DigitRun(s);
    if w + 1 < |s| && s[w] == '.' && IsDigit(s[w + 1]) then
      var f := DigitRun(s[w + 1..]);
      assert s[..w + 1 + f] == s[..w] + "." + s[w + 1..][..f];
      (Numeral(s[..w], s[w + 1..][..f]), w + 1 + f)
    else (Numeral(s[..w], ""), w)
  }

  /** The token that starts at the first character, and its length. */
  function TokenAt(s: string): (r: Option<(Token, nat)>)
    requires s != ""
    ensures r.Some? ==> 0 < r.value.1 <= |s| && s[..r.value.1] == TokenText(r.value.0)
  {
    if IsDigit(s[0]) then
      var (n, length) := NumberAt(s);
      Some((Num(n), length))
    else if s[0] == '万' && |s| > 1 && s[1] == '亿' then
      assert s[..2] == "万亿";
      Some((Magnitude(WanYi), 2))
    else
      var t := CharToken(s[0]);
      assert s[..1] == [s[0]];
      if t.Some? then Some((t.value, 1)) else None
  }

  function Lex(s: string, count: nat): Lexed
    decreases |s|
  {
    if s == "" then Tokens([])
    else if IsSpace(s[0]) then Lex(s[1..], count)
    else
      var t := TokenAt(s);
      if t.None? then Unlexable(UnsupportedToken)
      else if t.value.0.Num? && !t.value.0.number.WithinLimits() then Unlexable(NumberLimit)
      else if count + 1 > MAX_TOKENS then Unlexable(TokenLimit)
      else Prepend([t.value.0], Lex(s[t.value.1..], count + 1))
  }

  function Prepend(ts: seq<Token>, rest: Lexed): Lexed {
    match rest
    case Tokens(more) => Tokens(ts + more)
    case Unlexable(reason) => Unlexable(reason)
  }

  datatype Taken = Took(token: Token, length: nat) | Refused(reason: LexReason)

  /** The token at the start of a text, after `count` earlier ones. */
  method TakeToken(s: string, count: nat) returns (t: Taken)
    requires s != "" && !IsSpace(s[0])
    ensures t.Refused? ==> Lex(s, count) == Unlexable(t.reason)
    ensures t.Took? ==> 0 < t.length <= |s| && Lex(s, count) == Prepend([t.token], Lex(s[t.length..], count + 1))
  {
    var found := TokenAt(s);
    if found.None? {
      return Refused(UnsupportedToken);
    }
    var (token, length) := found.value;
    if token.Num? && !token.number.WithinLimits() {
      return Refused(NumberLimit);
    }
    if count + 1 > MAX_TOKENS {
      return Refused(TokenLimit);
    }
    return Took(token, length);
  }

  lemma {:induction false} LexSpace(s: string, count: nat)
    requires s != "" && IsSpace(s[0])
    ensures Lex(s, count) == Lex(s[1..], count)
  {
  }

  lemma {:induction false} LexNothing(count: nat)
    ensures Lex("", count) == Tokens([])
  {
  }

  method Tokenize(text: string) returns (r: Lexed)
    ensures r == Lex(text, 0)
  {
    hide Lex, IsSpace, TokenAt;
    var out: seq<Token> := [];
    var pos := 0;
    while pos < |text|
      invariant pos <= |text|
      invariant Lex(text, 0) == Prepend(out, Lex(text[pos..], |out|))
    {
      ghost var here := text[pos..];
      assert here[0] == text[pos];
      if IsSpace(text[pos]) {
        LexSpace(here, |out|);
        assert here[1..] == text[pos + 1..];
        pos := pos + 1;
      } else {
        var taken := TakeToken(text[pos..], |out|);
        if taken.Refused? {
          return Unlexable(taken.reason);
        }
        PrependTwice(out, [taken.token], Lex(here[taken.length..], |out| + 1));
        assert here[taken.length..] == text[pos + taken.length..];
        out := out + [taken.token];
        pos := pos + taken.length;
      }
    }
    LexNothing(|out|);
    assert text[pos..] == "" && out + [] == out;
    return Tokens(out);
  }

  lemma PrependTwice(a: seq<Token>, b: seq<Token>, rest: Lexed)
    ensures Prepend(a, Prepend(b, rest)) == Prepend(a + b, rest)
  {
    if rest.Tokens? {
      assert a + (b + rest.ts) == a + b + rest.ts;
    }
  }

  // ---------------------------------------------------------------- tokens as text

  function OpText(op: Op): char {
    match op
    case Plus => '+'
    case Hyphen => '-'
    case Minus => '−'
    case Star => '*'
    case Cross => '×'
    case Slash => '/'
    case Obelus => '÷'
  }

  function TokenText(t: Token): (s: string)
    ensures s != ""
  {
    match t
    case Num(n) => n.Text()
    case Magnitude(Wan) => "万"
    case Magnitude(Yi) => "亿"
    case Magnitude(WanYi) => "万亿"
    case Unit(YuanMark) => "元"
    case Unit(ShareMark) => "股"
    case Unit(TimesMark) => "倍"
    case Unit(PercentMark) => "%"
    case Unit(FullwidthPercentMark) => "％"
    case Operator(op) => [OpText(op)]
    case Open => "("
    case Close => ")"
    case Relate(Equals) => "="
    case Relate(FullwidthEquals) => "＝"
    case Relate(Approximately) => "≈"
  }

  function Text(ts: seq<Token>): string {
    if ts == [] then "" else TokenText(ts[0]) + Text(ts[1..])
  }

  function WithoutSpaces(s: string): string {
    if s == "" then "" else if IsSpace(s[0]) then WithoutSpaces(s[1..]) else [s[0]] + WithoutSpaces(s[1..])
  }

  lemma {:induction false} WithoutSpacesConcat(a: string, b: string)
    ensures WithoutSpaces(a + b) == WithoutSpaces(a) + WithoutSpaces(b)
  {
    hide IsSpace;
    if a == "" {
      assert a + b == b;
    } else {
      assert (a + b)[1..] == a[1..] + b && (a + b)[0] == a[0];
      WithoutSpacesConcat(a[1..], b);
      assert [a[0]] + (WithoutSpaces(a[1..]) + WithoutSpaces(b)) == [a[0]] + WithoutSpaces(a[1..]) + WithoutSpaces(b);
    }
  }

  lemma {:induction false} NoSpaces(s: string)
    requires forall i :: 0 <= i < |s| ==> !IsSpace(s[i])
    ensures WithoutSpaces(s) == s
  {
    if s != "" {
      NoSpaces(s[1..]);
    }
  }

  lemma TokenTextHasNoSpaces(t: Token)
    ensures forall i :: 0 <= i < |TokenText(t)| ==> !IsSpace(TokenText(t)[i])
  {
    if t.Num? {
      var n := t.number;
      assert forall c :: IsDigit(c) ==> !IsSpace(c);
    }
  }

  /** A tokenized text is exactly its tokens, up to white space: nothing else was skipped. */
  lemma {:induction false} LexFaithful(s: string, count: nat)
    requires Lex(s, count).Tokens?
    ensures WithoutSpaces(s) == Text(Lex(s, count).ts)
    ensures count + |Lex(s, count).ts| <= MAX_TOKENS || Lex(s, count).ts == []
    decreases |s|
  {
    if s == "" {
    } else if IsSpace(s[0]) {
      LexFaithful(s[1..], count);
    } else {
      var length := LexSplits(s, count);
      LexFaithful(s[length..], count + 1);
      TokenIsVerbatim(s, length);
      TextOfMore(TokenAt(s).value.0, Lex(s[length..], count + 1).ts);
    }
  }

  /** What a successful tokenization says about its first token. */
  lemma {:induction false} LexSplits(s: string, count: nat) returns (length: nat)
    requires Lex(s, count).Tokens? && s != "" && !IsSpace(s[0])
    ensures count + 1 <= MAX_TOKENS && TokenAt(s).Some? && TokenAt(s).value.1 == length && 0 < length <= |s|
    ensures Lex(s[length..], count + 1).Tokens?
    ensures Lex(s, count).ts == [TokenAt(s).value.0] + Lex(s[length..], count + 1).ts
  {
    length := TokenAt(s).value.1;
  }

  lemma {:induction false} TokenIsVerbatim(s: string, length: nat)
    requires s != "" && TokenAt(s).Some? && TokenAt(s).value.1 == length
    ensures length <= |s| && WithoutSpaces(s) == TokenText(TokenAt(s).value.0) + WithoutSpaces(s[length..])
  {
    assert s == s[..length] + s[length..];
    WithoutSpacesConcat(s[..length], s[length..]);
    TokenTextHasNoSpaces(TokenAt(s).value.0);
    NoSpaces(s[..length]);
  }

  lemma {:induction false} TextOfMore(t: Token, ts: seq<Token>)
    ensures Text([t] + ts) == TokenText(t) + Text(ts)
  {
    assert ([t] + ts)[1..] == ts;
  }

  // Written next to each other, these two would be read as one token.
  predicate Merge(a: Token, b: Token) {
    (a.Num? && b.Num?) || (a == Magnitude(Wan) && b == Magnitude(Yi))
  }

  predicate Lexable(ts: seq<Token>) {
    && (forall i :: 0 <= i < |ts| && ts[i].Num? ==> ts[i].number.WithinLimits())
    && (forall i :: 0 < i < |ts| ==> !Merge(ts[i - 1], ts[i]))
  }

  predicate EndsNumber(rest: string) {
    rest == "" || (!IsDigit(rest[0]) && rest[0] != '.')
  }

  lemma {:induction false} DigitRunOf(digits: string, rest: string)
    requires AllDigits(digits) && (rest == "" || !IsDigit(rest[0]))
    ensures DigitRun(digits + rest) == |digits|
  {
    if digits == "" {
      assert digits + rest == rest;
    } else {
      DigitRunOf(digits[1..], rest);
      assert (digits + rest)[1..] == digits[1..] + rest;
    }
  }

  lemma NumberAtText(n: Number, rest: string)
    requires EndsNumber(rest)
    ensures IsDigit((n.Text() + rest)[0])
    ensures NumberAt(n.Text() + rest) == (n, |n.Text()|)
  {
    var s := n.Text() + rest;
    assert s[0] == n.whole[0];
    if n.fraction == "" {
      DigitRunOf(n.whole, rest);
      assert s[..|n.whole|] == n.whole;
    } else {
      FractionAtText(n, rest);
    }
  }

  lemma {:induction false} PointedNumberAt(s: string, w: nat, f: nat)
    requires s != "" && IsDigit(s[0]) && DigitRun(s) == w && w + 1 < |s| && s[w] == '.' && IsDigit(s[w + 1])
    requires DigitRun(s[w + 1..]) == f
    ensures NumberAt(s) == (Numeral(s[..w], s[w + 1..][..f]), w + 1 + f)
  {
    hide DigitRun;
  }

  lemma FractionAtText(n: Number, rest: string)
    requires EndsNumber(rest) && n.fraction != ""
    requires IsDigit((n.Text() + rest)[0])
    ensures NumberAt(n.Text() + rest) == (n, |n.Text()|)
  {
    hide DigitRun, NumberAt;
    var s, w, f := n.Text() + rest, |n.whole|, |n.fraction|;
    var afterPoint := n.fraction + rest;
    assert n.Text() == n.whole + "." + n.fraction;
    assert s == n.whole + (['.'] + afterPoint);
    DigitRunOf(n.whole, ['.'] + afterPoint);
    assert s[w + 1..] == afterPoint && s[..w] == n.whole && s[w] == '.';
    assert s[w + 1] == afterPoint[0] == n.fraction[0];
    DigitRunOf(n.fraction, rest);
    assert afterPoint[..f] == n.fraction;
    PointedNumberAt(s, w, f);
  }

  // The first character of a token's text tells what the previous token may absorb.
  lemma {:induction false} TextStart(ts: seq<Token>)
    requires ts != [] && !ts[0].Num?
    ensures EndsNumber(Text(ts)) && Text(ts) != ""
    ensures Text(ts)[0] == '亿' <==> ts[0] == Magnitude(Yi)
  {
    assert Text(ts)[0] == TokenText(ts[0])[0];
  }

  lemma CharTokenText(t: Token)
    requires !t.Num? && t != Magnitude(WanYi)
    ensures |TokenText(t)| == 1 && CharToken(TokenText(t)[0]) == Some(t)
    ensures !IsDigit(TokenText(t)[0]) && (TokenText(t)[0] == '万' <==> t == Magnitude(Wan))
  {
  }

  lemma TokenAtText(t: Token, rest: string)
    requires t.Num? ==> EndsNumber(rest)
    requires t == Magnitude(Wan) ==> rest == "" || rest[0] != '亿'
    ensures !IsSpace((TokenText(t) + rest)[0])
    ensures TokenAt(TokenText(t) + rest) == Some((t, |TokenText(t)|))
  {
    TokenTextHasNoSpaces(t);
    var s := TokenText(t) + rest;
    if t.Num? {
      NumberAtText(t.number, rest);
    } else if t == Magnitude(WanYi) {
      assert s[0] == '万' && s[1] == '亿';
    } else {
      CharTokenText(t);
      assert s[0] == TokenText(t)[0];
      assert |s| > 1 ==> s[1] == rest[0];
    }
  }

  /** Token lists survive being written out as text, even without any spacing, as long as no two
      neighbours read as one token. */
  lemma {:induction false} LexText(ts: seq<Token>, count: nat)
    requires Lexable(ts) && count + |ts| <= MAX_TOKENS
    ensures Lex(Text(ts), count) == Tokens(ts)
  {
    if ts != [] {
      LexText(ts[1..], count + 1);
      var rest := Text(ts[1..]);
      if |ts| > 1 {
        assert !Merge(ts[0], ts[1]);
        if !ts[1].Num? {
          TextStart(ts[1..]);
        } else {
          assert rest[0] == ts[1].number.whole[0] && rest[0] != '亿';
        }
      }
      TokenAtText(ts[0], rest);
      assert Text(ts)[|TokenText(ts[0])|..] == rest;
      assert [ts[0]] + ts[1..] == ts;
    }
  }
}
