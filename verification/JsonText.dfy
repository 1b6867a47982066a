/** JSON values, their tokens, and the text of a token. */
module JsonText {
  import opened Chars

  datatype Value = Null | Bool(b: bool) | Int(n: int) | Str(s: string) | List(items: Values) | Obj(pairs: Pairs)
  datatype Values = NoValues | Cons(head: Value, tail: Values)
  datatype Pairs = NoPairs | Pair(key: string, value: Value, tail: Pairs)

  datatype Kind = NUL | BOOLEAN | STRING | INTEGER | FLOAT
  datatype Token = OpenList | CloseList | OpenObj | CloseObj | Comma | Colon | Scalar(kind: Kind, text: string)
  datatype Tokens = End | Next(token: Token, rest: Tokens)

  // ---- Strings --------------------------------------------------------------------------------

  function EscapeChar(c: char): string {
    if c == '"' || c == '\\' || c == '/' then ['\\', c]
    else if c == BACKSPACE then "\\b"
    else if c == FORM_FEED then "\\f"
    else if c == '\n' then "\\n"
    else if c == '\r' then "\\r"
    else if c == '\t' then "\\t"
    else [c]
  }

  function Escape(s: string): string {
    if s == [] then [] else EscapeChar(s[0]) + Escape(s[1..])
  }

  function Quote(s: string): string { "\"" + Escape(s) + "\"" }

  /** What an escape sequence decodes to; an unknown one to nothing. */
  function Unescaped(c: char): string {
    if c == '"' || c == '\\' || c == '/' then [c]
    else if c == 'b' then [BACKSPACE]
    else if c == 'f' then [FORM_FEED]
    else if c == 'n' then "\n"
    else if c == 'r' then "\r"
    else if c == 't' then "\t"
    else []
  }

  /** The characters from `i` to the closing quotation mark; a final backslash takes that too. */
  function DecodeFrom(token: string, i: nat): string
    decreases |token| - i
  {
    if i + 1 >= |token| then []
    else if token[i] == '\\' then Unescaped(token[i + 1]) + DecodeFrom(token, i + 2)
    else [token[i]] + DecodeFrom(token, i + 1)
  }

  function Decode(token: string): string { DecodeFrom(token, 1) }

  lemma DecodeOne(before: string, c: char, after: string)
    requires after != []
    ensures DecodeFrom(before + EscapeChar(c) + after, |before|)
      == [c] + DecodeFrom(before + EscapeChar(c) + after, |before + EscapeChar(c)|)
  {
    var token, e := before + EscapeChar(c) + after, EscapeChar(c);
    assert token[|before|] == e[0];
    assert |e| == 2 ==> token[|before| + 1] == e[1];
  }

  lemma {:induction false} DecodeEscaped(before: string, s: string)
    ensures DecodeFrom(before + Escape(s) + "\"", |before|) == s
    decreases |s|
  {
    if s != [] {
      var e := EscapeChar(s[0]);
      assert before + (e + Escape(s[1..])) + "\"" == (before + e) + Escape(s[1..]) + "\"";
      assert before + (e + Escape(s[1..])) + "\"" == before + e + (Escape(s[1..]) + "\"");
      DecodeOne(before, s[0], Escape(s[1..]) + "\"");
      DecodeEscaped(before + e, s[1..]);
    }
  }

  /** Decoding inverts the printer's escapes, for every string. */
  lemma DecodeQuote(s: string)
    ensures Decode(Quote(s)) == s
  {
    DecodeEscaped("\"", s);
  }

  // ---- The tokens of a value ------------------------------------------------------------------

  function ScalarOf(v: Value): Token
    requires !v.List? && !v.Obj?
  {
    match v
    case Null => Scalar(NUL, "null")
    case Bool(b) => Scalar(BOOLEAN, if b then "true" else "false")
    case Int(n) => Scalar(INTEGER, DecimalText(n))
    case Str(s) => Scalar(STRING, Quote(s))
  }

  function ValueTokens(v: Value, rest: Tokens): Tokens
    decreases v, 1
  {
    match v
    case List(items) => Next(OpenList, ItemTokens(items, true, rest))
    case Obj(pairs) => Next(OpenObj, PairTokens(pairs, true, rest))
    case _ => Next(ScalarOf(v), rest)
  }

  function ItemTokens(items: Values, first: bool, rest: Tokens): Tokens
    decreases items, 0
  {
    match items
    case NoValues => Next(CloseList, rest)
    case Cons(v, tail) => Separated(first, ValueTokens(v, ItemTokens(tail, false, rest)))
  }

  function PairTokens(pairs: Pairs, first: bool, rest: Tokens): Tokens
    decreases pairs, 0
  {
    match pairs
    case NoPairs => Next(CloseObj, rest)
    case Pair(k, v, tail) =>
      Separated(first, Next(Scalar(STRING, Quote(k)), Next(Colon, ValueTokens(v, PairTokens(tail, false, rest)))))
  }

  function Separated(first: bool, tokens: Tokens): Tokens { if first then tokens else Next(Comma, tokens) }

  function TokenText(t: Token): string {
    match t
    case OpenList => "["
    case CloseList => "]"
    case OpenObj => "{"
    case CloseObj => "}"
    case Comma => ","
    case Colon => ":"
    case Scalar(_, text) => text
  }

  /** The tokens one after the other, without any space. */
  function Compact(tokens: Tokens): string {
    match tokens
    case End => []
    case Next(t, rest) => TokenText(t) + Compact(rest)
  }

  /** The canonical text of a value. */
  function Canonical(v: Value): string { Compact(ValueTokens(v, End)) }
}
