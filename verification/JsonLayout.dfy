/** Tokens laid out as text, with white space where there may be some, and read back. */
module JsonLayout {
  import opened Wrappers
  import opened Chars
  import opened JsonText
  import opened JsonParsing
  import opened JsonRoundTrip

  /** White space before every token, and after the last. */
  datatype Layout = Last(gap: string) | Spaced(gap: string, token: Token, rest: Layout)

  function Erase(l: Layout): Tokens {
    match l
    case Last(_) => End
    case Spaced(_, t, rest) => Next(t, Erase(rest))
  }

  function LayoutText(l: Layout): string {
    match l
    case Last(gap) => gap
    case Spaced(gap, t, rest) => gap + TokenText(t) + LayoutText(rest)
  }

  predicate Blank(gap: string) { forall i | 0 <= i < |gap| :: IsSpace(gap[i]) }

  predicate BlankGaps(l: Layout) { Blank(l.gap) && (l.Spaced? ==> BlankGaps(l.rest)) }

  // ---- Which token texts are read back --------------------------------------------------------

  predicate QuoteFree(s: string) { forall i | 0 <= i < |s| :: s[i] != '"' }

  predicate IsWord(t: Token) {
    t == Scalar(BOOLEAN, "true") || t == Scalar(BOOLEAN, "false") || t == Scalar(NUL, "null")
  }

  ghost predicate IsInteger(t: Token) { exists n :: t == Scalar(INTEGER, DecimalText(n)) }

  predicate IsString(t: Token) {
    t.Scalar? && t.kind == STRING && |t.text| >= 2
    && t.text[0] == '"' && t.text[|t.text| - 1] == '"' && QuoteFree(t.text[1..|t.text| - 1])
  }

  ghost predicate Lexical(t: Token) { t.Scalar? ==> IsWord(t) || IsInteger(t) || IsString(t) }

  predicate Punctuation(t: Token) { !t.Scalar? }

  /** Numbers and words are followed by punctuation. */
  ghost predicate Legible(tokens: Tokens) {
    tokens.Next? ==>
      && Lexical(tokens.token) && Legible(tokens.rest)
      && (tokens.token.Scalar? && tokens.rest.Next? ==> Punctuation(tokens.rest.token))
  }

  predicate Ends(text: string, i: nat) { i < |text| ==> !IsWordChar(text[i]) && text[i] != '.' }

  lemma {:induction false} FindsFirstQuote(text: string, i: nat, end: nat)
    requires i <= end < |text| && text[end] == '"' && forall j | i <= j < end :: text[j] != '"'
    ensures FindQuote(text, i) == end
    decreases end - i
  {
    if i < end { FindsFirstQuote(text, i + 1, end); }
  }

  lemma {:induction false} ReadsDigits(text: string, i: nat, end: nat)
    requires i <= end <= |text| && Ends(text, end) && forall j | i <= j < end :: IsDigit(text[j])
    ensures NumberFrom(text, i, INTEGER) == Numeric(INTEGER, end)
    decreases end - i
  {
    if i < end { ReadsDigits(text, i + 1, end); }
  }

  /** `text` has `part` at `pos`. */
  predicate Has(text: string, pos: nat, part: string) {
    pos + |part| <= |text| && forall i | 0 <= i < |part| :: text[pos + i] == part[i]
  }

  lemma HasSlice(text: string, pos: nat, part: string)
    requires Has(text, pos, part)
    ensures text[pos..pos + |part|] == part
  {
  }

  lemma LexesString(text: string, pos: nat, t: Token)
    requires IsString(t) && Has(text, pos, t.text)
    ensures Lex(text, pos) == Success(Lexeme(t, pos + |t.text|))
  {
    var end := pos + |t.text| - 1;
    assert text[pos] == t.text[0] && text[end] == t.text[|t.text| - 1];
    forall j | pos + 1 <= j < end ensures text[j] != '"' {
      assert text[j] == t.text[j - pos] == t.text[1..|t.text| - 1][j - pos - 1];
    }
    FindsFirstQuote(text, pos + 1, end);
    HasSlice(text, pos, t.text);
  }

  lemma LexesWord(text: string, pos: nat, t: Token)
    requires IsWord(t) && Has(text, pos, t.text) && Ends(text, pos + |t.text|)
    ensures Lex(text, pos) == Success(Lexeme(t, pos + |t.text|))
  {
    HasSlice(text, pos, t.text);
    assert text[pos] == t.text[0];
    if StartsWith(text, pos, "true") { assert text[pos..pos + 4][0] == text[pos]; }
    if StartsWith(text, pos, "false") { assert text[pos..pos + 5][0] == text[pos]; }
  }

  /** Digits without a leading zero, after `k` sign characters. */
  predicate Numeral(t: string, k: nat) {
    && k <= 1 && k < |t| && (k == 1 ==> t[0] == '-')
    && (forall i | k <= i < |t| :: IsDigit(t[i]))
    && (t[k] == '0' ==> |t| == k + 1)
  }

  lemma DecimalTextIsNumeral(n: int)
    ensures Numeral(DecimalText(n), if n < 0 then 1 else 0)
  {
    DecimalDigits(if n < 0 then -n else n);
  }

  lemma LexesInteger(text: string, pos: nat, t: string, k: nat)
    requires Numeral(t, k) && Has(text, pos, t) && Ends(text, pos + |t|)
    ensures Lex(text, pos) == Success(Lexeme(Scalar(INTEGER, t), pos + |t|))
  {
    var i, end := pos + k, pos + |t|;
    assert text[pos] == t[0] && text[i] == t[k] && text[end - 1] == t[|t| - 1];
    assert i + 1 < end ==> text[i + 1] == t[k + 1];
    assert Unsigned(text, pos) == i;
    forall j | i <= j < end ensures IsDigit(text[j]) { assert text[pos + (j - pos)] == t[j - pos]; }
    ReadsDigits(text, if text[i] == '0' then i + 1 else i, end);
    HasSlice(text, pos, t);
    assert LexNumber(text, pos) == Success(Lexeme(Scalar(INTEGER, t), end));
  }

  lemma LexesPunctuation(text: string, pos: nat, t: Token)
    requires Punctuation(t) && Has(text, pos, TokenText(t))
    ensures |TokenText(t)| == 1 && !IsSpace(TokenText(t)[0])
    ensures Lex(text, pos) == Success(Lexeme(t, pos + 1))
  {
    assert text[pos + 0] == TokenText(t)[0];
  }

  lemma LexesScalar(text: string, pos: nat, t: Token)
    requires t.Scalar? && Lexical(t) && Has(text, pos, t.text) && Ends(text, pos + |t.text|)
    ensures |t.text| > 0 && !IsSpace(t.text[0])
    ensures Lex(text, pos) == Success(Lexeme(t, pos + |t.text|))
  {
    if IsString(t) { LexesString(text, pos, t); }
    else if IsWord(t) { LexesWord(text, pos, t); }
    else {
      var n :| t == Scalar(INTEGER, DecimalText(n));
      DecimalTextIsNumeral(n);
      LexesInteger(text, pos, t.text, if n < 0 then 1 else 0);
    }
  }

  // ---- A layout is read as its tokens ---------------------------------------------------------

  lemma {:induction false} RunsBlank(text: string, pos: nat, end: nat, p: Parser)
    requires pos <= end <= |text| && forall i | pos <= i < end :: IsSpace(text[i])
    ensures Run(text, pos, p) == Run(text, end, p)
    decreases end - pos
  {
    if pos < end { RunsBlank(text, pos + 1, end, p); }
  }

  lemma LayoutStarts(l: Layout)
    requires BlankGaps(l) && Legible(Erase(l)) && (l.Spaced? ==> Punctuation(l.token))
    ensures Ends(LayoutText(l), 0)
  {
    if l.gap != "" { assert LayoutText(l)[0] == l.gap[0]; }
    else if l.Spaced? { assert LayoutText(l)[0] == TokenText(l.token)[0]; }
  }

  /** One token, read where it stands. */
  lemma TokenRuns(text: string, pos: nat, t: Token, p: Parser)
    requires Lexical(t) && Has(text, pos, TokenText(t))
    requires t.Scalar? ==> Ends(text, pos + |t.text|)
    ensures Run(text, pos, p) ==
      if p.final.Some? then Failure(Extra)
      else match Read(p, t)
        case Failure(e) => Failure(e)
        case Success(q) => Run(text, pos + |TokenText(t)|, q)
  {
    if t.Scalar? { LexesScalar(text, pos, t); } else { LexesPunctuation(text, pos, t); }
    assert text[pos + 0] == TokenText(t)[0];
  }

  lemma Placed(a: string, gap: string, t: string, b: string)
    ensures a + (gap + t + b) == (a + gap + t) + b
    ensures |a + gap| == |a| + |gap| && |a + gap + t| == |a| + |gap| + |t|
    ensures Has(a + (gap + t + b), |a| + |gap|, t)
    ensures forall i | |a| <= i < |a| + |gap| :: (a + (gap + t + b))[i] == gap[i - |a|]
    ensures Ends(b, 0) ==> Ends((a + gap + t) + b, |a| + |gap| + |t|)
  {
    var text := (a + gap + t) + b;
    assert text == a + (gap + t + b);
    assert b != "" ==> text[|a| + |gap| + |t|] == b[0];
  }

  /** A gap and a token, with `tail` to follow. */
  lemma SpacedRuns(before: string, gap: string, token: Token, tail: string, p: Parser)
    requires Blank(gap) && Lexical(token) && (token.Scalar? ==> Ends(tail, 0))
    ensures Run(before + (gap + TokenText(token) + tail), |before|, p) ==
      if p.final.Some? then Failure(Extra)
      else match Read(p, token)
        case Failure(e) => Failure(e)
        case Success(q) => Run((before + gap + TokenText(token)) + tail, |before + gap + TokenText(token)|, q)
  {
    Placed(before, gap, TokenText(token), tail);
    GapThenToken(before + (gap + TokenText(token) + tail), |before|, gap, token, p);
  }

  lemma GapThenToken(text: string, pos: nat, gap: string, t: Token, p: Parser)
    requires Blank(gap) && Lexical(t) && Has(text, pos + |gap|, TokenText(t))
    requires forall i | pos <= i < pos + |gap| :: text[i] == gap[i - pos]
    requires t.Scalar? ==> Ends(text, pos + |gap| + |t.text|)
    ensures Run(text, pos, p) ==
      if p.final.Some? then Failure(Extra)
      else match Read(p, t)
        case Failure(e) => Failure(e)
        case Success(q) => Run(text, pos + |gap| + |TokenText(t)|, q)
  {
    RunsBlank(text, pos, pos + |gap|, p);
    TokenRuns(text, pos + |gap|, t, p);
  }

  lemma {:induction false} LayoutRuns(before: string, l: Layout, p: Parser)
    requires BlankGaps(l) && Legible(Erase(l))
    ensures Run(before + LayoutText(l), |before|, p) == ReadAll(p, Erase(l))
    decreases l
  {
    match l
    case Last(gap) =>
      RunsBlank(before + gap, |before|, |before + gap|, p);
    case Spaced(gap, token, rest) =>
      if token.Scalar? { LayoutStarts(rest); }
      SpacedRuns(before, gap, token, LayoutText(rest), p);
      if p.final.None? && Read(p, token).Success? {
        LayoutRuns(before + gap + TokenText(token), rest, Read(p, token).value);
      }
  }
}
