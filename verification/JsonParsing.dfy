/** The JSON parser: one pass over the text with a stack of tokens under construction. */
module JsonParsing {
  import opened Wrappers
  import opened Chars
  import opened JsonText

  datatype Node = Leaf(kind: Kind, text: string) | ListNode(items: Nodes) | ObjectNode(entries: Entries)
  datatype Nodes = NoNodes | Snoc(init: Nodes, last: Node)
  datatype Entries = NoEntries | Entry(init: Entries, key: string, value: Node)

  datatype StackToken = Char | Tok(node: Node)
  datatype Stack = Bottom | Above(below: Stack, top: StackToken)

  datatype Parser = Parser(stack: Stack, final: Option<StackToken>)

  const Initial := Parser(Bottom, None)

  datatype Error =
    | Syntax              // a character that cannot stand there
    | Unfinished          // the text ends too early
    | Extra               // input after the value
    | KeyExpected         // something else than a string in the place of a key
    | DuplicateKey
    | NotImplemented      // a value right after a key
    | TopOfEmpty          // the top of an empty stack is read: undefined
    | StrayChar           // a ':' reduced as if it were a value
    | PairOutsideObject
    | KeyNotScalar
    | Malformed           // the document is a ':'

  // ---- Characters to tokens -------------------------------------------------------------------

  predicate IsWordChar(c: char) {
    IsDigit(c) || 'a' <= c <= 'z' || 'A' <= c <= 'Z' || c == '_'
  }

  datatype Lexeme = Lexeme(token: Token, end: nat)

  /** The first quotation mark at or after `i`; a backslash before it does not hide it. */
  function FindQuote(text: string, i: nat): (r: nat)
    requires i <= |text|
    ensures i <= r <= |text| && (r < |text| ==> text[r] == '"')
    ensures forall j | i <= j < r :: text[j] != '"'
    decreases |text| - i
  {
    if i == |text| || text[i] == '"' then i else FindQuote(text, i + 1)
  }

  function LexString(text: string, pos: nat): Result<Lexeme, Error>
    requires pos < |text|
  {
    var end := FindQuote(text, pos + 1);
    if end == |text| then Failure(Unfinished)
    else Success(Lexeme(Scalar(STRING, text[pos..end + 1]), end + 1))
  }

  predicate StartsWith(text: string, pos: nat, word: string) {
    pos + |word| <= |text| && text[pos..pos + |word|] == word
  }

  function Keyword(text: string, pos: nat): Token
    requires pos <= |text|
  {
    if StartsWith(text, pos, "true") then Scalar(BOOLEAN, "true")
    else if StartsWith(text, pos, "false") then Scalar(BOOLEAN, "false")
    else if StartsWith(text, pos, "null") then Scalar(NUL, "null")
    else Scalar(NUL, "")
  }

  /** The character after the keyword is looked at even at the end of the text: there it is NUL. */
  function LexKeyword(text: string, pos: nat): Result<Lexeme, Error>
    requires pos <= |text|
  {
    var t := Keyword(text, pos);
    var end := pos + |t.text|;
    if t.text == "" || (end < |text| && IsWordChar(text[end])) then Failure(Syntax)
    else Success(Lexeme(t, end))
  }

  datatype Numeric = Numeric(kind: Kind, end: nat) | TwoPoints

  /** Digits and at most one point, from `i` on. */
  function NumberFrom(text: string, i: nat, kind: Kind): (r: Numeric)
    requires i <= |text|
    ensures r.Numeric? ==> i <= r.end <= |text| && (r.kind == kind || r.kind == FLOAT)
    decreases |text| - i
  {
    if i == |text| then Numeric(kind, i)
    else if text[i] == '.' then if kind == FLOAT then TwoPoints else NumberFrom(text, i + 1, FLOAT)
    else if IsDigit(text[i]) then NumberFrom(text, i + 1, kind)
    else Numeric(kind, i)
  }

  function Unsigned(text: string, pos: nat): nat
    requires pos < |text|
  {
    if text[pos] == '+' || text[pos] == '-' then pos + 1 else pos
  }

  function LexNumber(text: string, pos: nat): Result<Lexeme, Error>
    requires pos < |text|
  {
    var i := Unsigned(text, pos);
    if i >= |text| then Failure(Unfinished)
    else if text[i] == '0' && i + 1 < |text| && IsDigit(text[i + 1]) then Failure(Syntax)
    else if !IsDigit(text[i]) then Failure(Syntax)
    else
      var r := NumberFrom(text, if text[i] == '0' then i + 1 else i, INTEGER);
      if r.TwoPoints? || text[r.end - 1] == '.' then Failure(Syntax)
      else Success(Lexeme(Scalar(r.kind, text[pos..r.end]), r.end))
  }

  /** The token that starts at `pos`. */
  function Lex(text: string, pos: nat): (r: Result<Lexeme, Error>)
    requires pos < |text|
    ensures r.Success? ==> pos < r.value.end <= |text|
  {
    var c := text[pos];
    if c == '{' then Success(Lexeme(OpenObj, pos + 1))
    else if c == '}' then Success(Lexeme(CloseObj, pos + 1))
    else if c == '[' then Success(Lexeme(OpenList, pos + 1))
    else if c == ']' then Success(Lexeme(CloseList, pos + 1))
    else if c == ':' then Success(Lexeme(Colon, pos + 1))
    else if c == ',' then Success(Lexeme(Comma, pos + 1))
    else if c == '"' then LexString(text, pos)
    else if c == 't' || c == 'f' || c == 'n' then LexKeyword(text, pos)
    else if c == '+' || c == '-' || IsDigit(c) then LexNumber(text, pos)
    else Failure(Syntax)
  }

  // ---- Which numbers are read -----------------------------------------------------------------

  predicate SomeDigits(t: string) { t != "" && AllDigits(t) }

  /** Digits without a leading zero, then perhaps a point and more digits. */
  predicate UnsignedNumeral(t: string, kind: Kind) {
    exists k :: 0 < k <= |t| && NumeralParts(t, k, kind)
  }

  /** The first `k` characters stand before the point. */
  predicate NumeralParts(t: string, k: nat, kind: Kind)
    requires 0 < k <= |t|
  {
    && AllDigits(t[..k]) && (t[0] == '0' ==> k == 1)
    && if k == |t| then kind == INTEGER else kind == FLOAT && t[k] == '.' && SomeDigits(t[k + 1..])
  }

  /** The numerals of section 6 of RFC 8259 without an exponent, and those with a plus sign. */
  predicate NumberText(t: string, kind: Kind) {
    t != "" && UnsignedNumeral(if t[0] == '+' || t[0] == '-' then t[1..] else t, kind)
  }

  /** Digits from `i` to `j`, and none right after them. */
  predicate DigitRun(text: string, i: nat, j: nat) {
    i <= j <= |text| && (forall k | i <= k < j :: IsDigit(text[k])) && (j < |text| ==> !IsDigit(text[j]))
  }

  lemma RunEnds(text: string, i: nat, j: nat)
    requires DigitRun(text, i, j)
    ensures DigitsEnd(text, i) == j
  {
    assert forall k | 0 <= k < j - i :: text[i..j][k] == text[i + k];
    DigitsEndAt(text, i, j);
  }

  /** Behind the point only digits are passed. */
  lemma {:induction false} FractionFrom(text: string, i: nat)
    requires i <= |text|
    ensures var j := DigitsEnd(text, i);
      NumberFrom(text, i, FLOAT) == if j < |text| && text[j] == '.' then TwoPoints else Numeric(FLOAT, j)
    decreases |text| - i
  {
    if i < |text| && IsDigit(text[i]) { FractionFrom(text, i + 1); }
  }

  lemma {:induction false} NumberFromIs(text: string, i: nat)
    requires i <= |text|
    ensures var j := DigitsEnd(text, i);
      NumberFrom(text, i, INTEGER) ==
        if j < |text| && text[j] == '.' then NumberFrom(text, j + 1, FLOAT) else Numeric(INTEGER, j)
    decreases |text| - i
  {
    if i < |text| && IsDigit(text[i]) { NumberFromIs(text, i + 1); }
  }

  lemma {:induction false} DigitsEndStops(text: string, i: nat)
    requires i <= |text|
    ensures DigitRun(text, i, DigitsEnd(text, i))
    decreases |text| - i
  {
    if i < |text| && IsDigit(text[i]) { DigitsEndStops(text, i + 1); }
  }

  /** A numeral stands from `i` to `end` in the text, and it cannot be continued. */
  ghost predicate NumeralStands(text: string, i: nat, end: nat, kind: Kind) {
    && i < end <= |text| && (end < |text| ==> !IsDigit(text[end]) && text[end] != '.')
    && UnsignedNumeral(text[i..end], kind)
  }

  /** Where a numeral ends, by where the digits end, before a point and behind it. */
  ghost predicate EndsAfterDigits(text: string, i: nat, end: nat, kind: Kind)
    requires i < |text|
  {
    var j := DigitsEnd(text, i);
    && i < j && (text[i] == '0' ==> j == i + 1)
    && if j < |text| && text[j] == '.'
       then kind == FLOAT && end == DigitsEnd(text, j + 1) > j + 1 && (end < |text| ==> text[end] != '.')
       else kind == INTEGER && end == j
  }

  /** The digits of the parts of a numeral go as far as digits go in the text. */
  lemma PartsInText(text: string, i: nat, end: nat, k: nat, kind: Kind)
    requires i < end <= |text| && (end < |text| ==> !IsDigit(text[end]) && text[end] != '.')
    requires 0 < k <= end - i && NumeralParts(text[i..end], k, kind)
    ensures DigitsEnd(text, i) == i + k
    ensures k < end - i ==> text[i + k] == '.' && end > i + k + 1 && DigitsEnd(text, i + k + 1) == end
  {
    var t := text[i..end];
    forall m | i <= m < i + k ensures IsDigit(text[m]) { assert text[m] == t[..k][m - i]; }
    if k < |t| {
      assert text[i + k] == t[k];
      forall m | i + k + 1 <= m < end ensures IsDigit(text[m]) { assert text[m] == t[k + 1..][m - (i + k + 1)]; }
      RunEnds(text, i + k + 1, end);
    }
    RunEnds(text, i, i + k);
  }

  lemma StandingEnds(text: string, i: nat, end: nat, kind: Kind)
    requires i < |text| && NumeralStands(text, i, end, kind)
    ensures EndsAfterDigits(text, i, end, kind)
  {
    var k :| 0 < k <= |text[i..end]| && NumeralParts(text[i..end], k, kind);
    PartsInText(text, i, end, k, kind);
    assert text[i..end][0] == text[i];
  }

  lemma EndingStands(text: string, i: nat, end: nat, kind: Kind)
    requires i < |text| && EndsAfterDigits(text, i, end, kind)
    ensures NumeralStands(text, i, end, kind)
  {
    var j := DigitsEnd(text, i);
    DigitsEndStops(text, i);
    DigitsAreDigits(text, i);
    if j < |text| && text[j] == '.' {
      DigitsEndStops(text, j + 1);
      DigitsAreDigits(text, j + 1);
    }
    var t := text[i..end];
    assert t[..j - i] == text[i..j];
    if j < end {
      assert t[j - i] == text[j];
      assert t[j - i + 1..] == text[j + 1..end];
    }
    assert NumeralParts(t, j - i, kind);
  }

  /**
   * A number is read exactly when a numeral stands there that neither a digit nor a point follows;
   * then all of it is taken, as an integer if it has no point.
   */
  lemma LexNumberIff(text: string, pos: nat, end: nat, kind: Kind)
    requires pos < end <= |text|
    ensures LexNumber(text, pos) == Success(Lexeme(Scalar(kind, text[pos..end]), end)) <==>
      NumberText(text[pos..end], kind) && (end < |text| ==> !IsDigit(text[end]) && text[end] != '.')
  {
    var i := Unsigned(text, pos);
    var t := text[pos..end];
    assert t[0] == text[pos];
    if i < end {
      assert (if t[0] == '+' || t[0] == '-' then t[1..] else t) == text[i..end];
      LexesIff(text, pos, i, end, kind);
    } else {
      assert t[1..] == "";
    }
  }

  /** What is scanned from a digit on, the first one passed already or not. */
  lemma NumberScanned(text: string, i: nat, start: nat)
    requires i < |text| && IsDigit(text[i]) && (start == i || start == i + 1)
    ensures var j := DigitsEnd(text, i);
      NumberFrom(text, start, INTEGER) ==
        if j == |text| || text[j] != '.' then Numeric(INTEGER, j)
        else
          var e := DigitsEnd(text, j + 1);
          if e < |text| && text[e] == '.' then TwoPoints else Numeric(FLOAT, e)
  {
    NumberFromIs(text, start);
    var j := DigitsEnd(text, i);
    if j < |text| && text[j] == '.' { FractionFrom(text, j + 1); }
  }

  lemma LexesIff(text: string, pos: nat, i: nat, end: nat, kind: Kind)
    requires pos < end <= |text| && i == Unsigned(text, pos) < |text|
    ensures LexNumber(text, pos) == Success(Lexeme(Scalar(kind, text[pos..end]), end)) <==>
      NumeralStands(text, i, end, kind)
  {
    if NumeralStands(text, i, end, kind) { StandingEnds(text, i, end, kind); }
    if EndsAfterDigits(text, i, end, kind) { EndingStands(text, i, end, kind); }
    LexesByDigits(text, pos, i, end, kind);
  }

  lemma LexesByDigits(text: string, pos: nat, i: nat, end: nat, kind: Kind)
    requires pos < end <= |text| && i == Unsigned(text, pos) < |text|
    ensures LexNumber(text, pos) == Success(Lexeme(Scalar(kind, text[pos..end]), end)) <==>
      EndsAfterDigits(text, i, end, kind)
  {
    var j := DigitsEnd(text, i);
    DigitsEndStops(text, i);
    if IsDigit(text[i]) {
      NumberScanned(text, i, if text[i] == '0' then i + 1 else i);
      if j < |text| { DigitsEndStops(text, j + 1); }
    }
  }

  // ---- Which tokens are read ------------------------------------------------------------------

  /** A string is all between two quotation marks without one in between; words and numbers as such. */
  predicate Spells(t: Token, part: string) {
    match t
    case OpenList => part == "["
    case CloseList => part == "]"
    case OpenObj => part == "{"
    case CloseObj => part == "}"
    case Comma => part == ","
    case Colon => part == ":"
    case Scalar(kind, text) =>
      && text == part
      && match kind
         case NUL => part == "null"
         case BOOLEAN => part == "true" || part == "false"
         case STRING => |part| > 1 && part[0] == '"' && forall i | 0 < i < |part| :: part[i] == '"' <==> i == |part| - 1
         case INTEGER => NumberText(part, INTEGER)
         case FLOAT => NumberText(part, FLOAT)
  }

  /** A word ends before anything but a letter, a digit or '_', a number before anything but a digit or a point. */
  predicate EndsBefore(t: Token, c: char) {
    t.Scalar? ==>
      match t.kind
      case NUL => !('0' <= c <= '9' || 'A' <= c <= 'Z' || 'a' <= c <= 'z' || c == '_')
      case BOOLEAN => !('0' <= c <= '9' || 'A' <= c <= 'Z' || 'a' <= c <= 'z' || c == '_')
      case STRING => true
      case INTEGER => !('0' <= c <= '9') && c != '.'
      case FLOAT => !('0' <= c <= '9') && c != '.'
  }

  lemma FirstQuote(text: string, i: nat, end: nat)
    requires i < end <= |text|
    ensures FindQuote(text, i) == end - 1 < |text| <==> forall k | i <= k < end :: text[k] == '"' <==> k == end - 1
  {
    var r := FindQuote(text, i);
    assert r < |text| ==> text[r] == '"';
    assert text[end - 1] == '"' ==> r <= end - 1;
  }

  lemma LexStringIff(text: string, pos: nat, end: nat, t: Token)
    requires pos < end <= |text| && text[pos] == '"' && t.Scalar? && t.kind == STRING
    ensures LexString(text, pos) == Success(Lexeme(t, end)) <==> Spells(t, text[pos..end])
  {
    var part := text[pos..end];
    if pos + 1 < end {
      FirstQuote(text, pos + 1, end);
      assert forall k | pos + 1 <= k < end :: part[k - pos] == text[k];
      assert forall i | 0 < i < |part| :: part[i] == text[pos + i];
    }
  }

  lemma LexKeywordIff(text: string, pos: nat, end: nat, t: Token)
    requires pos < end <= |text| && t.Scalar? && (t.kind == NUL || t.kind == BOOLEAN)
    ensures LexKeyword(text, pos) == Success(Lexeme(t, end)) <==>
      Spells(t, text[pos..end]) && (end < |text| ==> EndsBefore(t, text[end]))
  {
    WordAt(text, pos, end, "true");
    WordAt(text, pos, end, "false");
    WordAt(text, pos, end, "null");
    if StartsWith(text, pos, "true") { assert text[pos..pos + 4][0] == text[pos]; }
    if StartsWith(text, pos, "false") { assert text[pos..pos + 5][0] == text[pos]; }
    if StartsWith(text, pos, "null") { assert text[pos..pos + 4][0] == text[pos]; }
  }

  lemma WordAt(text: string, pos: nat, end: nat, word: string)
    requires pos < end <= |text|
    ensures text[pos..end] == word <==> StartsWith(text, pos, word) && end == pos + |word|
  {
  }

  /** A token is read exactly when it stands there and is not part of something longer. */
  lemma LexIff(text: string, pos: nat, end: nat, t: Token)
    requires pos < end <= |text|
    ensures Lex(text, pos) == Success(Lexeme(t, end)) <==>
      Spells(t, text[pos..end]) && (end < |text| ==> EndsBefore(t, text[end]))
  {
    var part := text[pos..end];
    assert part[0] == text[pos];
    if t.Scalar? {
      match t.kind
      case NUL =>
        LexKeywordIff(text, pos, end, t);
        assert part == "null" ==> text[pos] == 'n';
      case BOOLEAN =>
        LexKeywordIff(text, pos, end, t);
        assert part == "true" ==> text[pos] == 't';
        assert part == "false" ==> text[pos] == 'f';
      case STRING => if text[pos] == '"' { LexStringIff(text, pos, end, t); }
      case _ => LexesNumber(text, pos, end, t);
    } else {
      assert |part| == 1 ==> part == [text[pos]];
    }
  }

  lemma LexesNumber(text: string, pos: nat, end: nat, t: Token)
    requires pos < end <= |text| && t.Scalar? && (t.kind == INTEGER || t.kind == FLOAT)
    ensures Lex(text, pos) == Success(Lexeme(t, end)) <==>
      Spells(t, text[pos..end]) && (end < |text| ==> EndsBefore(t, text[end]))
  {
    LexNumberIff(text, pos, end, t.kind);
    var part := text[pos..end];
    assert part[0] == text[pos];
    if NumberText(part, t.kind) { NumberStarts(part, t.kind); }
  }

  lemma NumberStarts(part: string, kind: Kind)
    requires NumberText(part, kind)
    ensures part[0] == '+' || part[0] == '-' || IsDigit(part[0])
  {
    if part[0] != '+' && part[0] != '-' {
      var k :| 0 < k <= |part| && NumeralParts(part, k, kind);
      assert part[..k][0] == part[0];
    }
  }

  // ---- Tokens to nodes ------------------------------------------------------------------------

  predicate HasKey(entries: Entries, key: string) {
    entries.Entry? && (entries.key == key || HasKey(entries.init, key))
  }

  predicate TopIsObject(s: Stack) { s.Above? && s.top.Tok? && s.top.node.ObjectNode? }
  predicate TopIsList(s: Stack) { s.Above? && s.top.Tok? && s.top.node.ListNode? }
  predicate TopIsScalar(s: Stack) { s.Above? && s.top.Tok? && s.top.node.Leaf? }
  predicate TopIsChar(s: Stack) { s.Above? && s.top.Char? }

  function Push(p: Parser, t: StackToken): Parser { p.(stack := Above(p.stack, t)) }

  function Unquoted(text: string): string { if |text| < 2 then "" else text[1..|text| - 1] }

  function AddPair(below: Stack, key: string, value: Node): Result<Stack, Error>
    requires TopIsObject(below)
  {
    var entries := below.top.node.entries;
    if HasKey(entries, key) then Failure(DuplicateKey)
    else Success(Above(below.below, Tok(ObjectNode(Entry(entries, key, value)))))
  }

  /** Take the top off and add it to what is below it. */
  function PopTop(p: Parser): Result<Parser, Error>
    requires p.stack.Above?
  {
    var rhs, s := p.stack.top, p.stack.below;
    if s.Bottom? then Success(Parser(s, Some(rhs)))
    else if rhs.Char? then Failure(StrayChar)
    else if TopIsObject(s) then
      if rhs.node.Leaf? && rhs.node.kind == STRING then Success(p) else Failure(KeyExpected)
    else if TopIsList(s) then
      Success(p.(stack := Above(s.below, Tok(ListNode(Snoc(s.top.node.items, rhs.node))))))
    else if TopIsChar(s) then
      if s.below.Bottom? || !TopIsObject(s.below.below) then Failure(PairOutsideObject)
      else if !TopIsScalar(s.below) then Failure(KeyNotScalar)
      else
        match AddPair(s.below.below, Unquoted(s.below.top.node.text), rhs.node)
        case Success(t) => Success(p.(stack := t))
        case Failure(e) => Failure(e)
    else Failure(NotImplemented)
  }

  function Read(p: Parser, t: Token): Result<Parser, Error> {
    match t
    case OpenObj => Success(Push(p, Tok(ObjectNode(NoEntries))))
    case OpenList => Success(Push(p, Tok(ListNode(NoNodes))))
    case CloseObj =>
      if p.stack.Bottom? then Failure(TopOfEmpty)
      else if !TopIsObject(p.stack) then Failure(Syntax)
      else PopTop(p)
    case CloseList =>
      if p.stack.Bottom? then Failure(TopOfEmpty)
      else if !TopIsList(p.stack) then Failure(Syntax)
      else PopTop(p)
    case Colon => if !TopIsScalar(p.stack) then Failure(Syntax) else Success(Push(p, Char))
    case Comma =>
      if p.stack.Bottom? then Failure(TopOfEmpty)
      else if !TopIsList(p.stack) && !TopIsObject(p.stack) then Failure(Syntax)
      else Success(p)
    case Scalar(kind, text) => PopTop(Push(p, Tok(Leaf(kind, text))))
  }

  /** The characters from `pos` on. */
  function Run(text: string, pos: nat, p: Parser): Result<Parser, Error>
    requires pos <= |text|
    decreases |text| - pos
  {
    if pos == |text| then Success(p)
    else if IsSpace(text[pos]) then Run(text, pos + 1, p)
    else if p.final.Some? then Failure(Extra)
    else
      match Lex(text, pos)
      case Failure(e) => Failure(e)
      case Success(x) =>
        match Read(p, x.token)
        case Failure(e) => Failure(e)
        case Success(q) => Run(text, x.end, q)
  }

  function Finish(p: Parser): Result<Node, Error> {
    if p.stack.Above? || p.final.None? then Failure(Unfinished)
    else if p.final.value.Char? then Failure(Malformed)
    else Success(p.final.value.node)
  }

  function Parse(text: string): Result<Node, Error> {
    match Run(text, 0, Initial)
    case Success(p) => Finish(p)
    case Failure(e) => Failure(e)
  }

  // ---- The shape of the stack -----------------------------------------------------------------

  /** Each scalar is a string right above an object, each ':' is right above such a key. */
  predicate Shape(s: Stack) {
    s.Above? ==>
      && Shape(s.below)
      && match s.top
         case Char => TopIsScalar(s.below)
         case Tok(Leaf(kind, _)) => kind == STRING && TopIsObject(s.below)
         case Tok(_) => true
  }

  predicate Shaped(p: Parser) {
    && Shape(p.stack)
    && (p.final.Some? ==> p.stack.Bottom? && p.final.value.Tok?)
  }

  predicate Impossible(e: Error) {
    e == StrayChar || e == PairOutsideObject || e == KeyNotScalar || e == Malformed
  }

  lemma ReadKeepsShape(p: Parser, t: Token)
    requires Shaped(p) && p.final.None?
    ensures match Read(p, t) case Success(q) => Shaped(q) case Failure(e) => !Impossible(e)
    ensures match Read(p, t)
      case Success(q) => q.stack.Above? || q.final.Some?
      case Failure(e) => e == TopOfEmpty ==> p.stack.Bottom?
  {
    match t
    case Scalar(kind, text) => PopKeepsShape(p.stack, Leaf(kind, text));
    case CloseObj => if TopIsObject(p.stack) { PopKeepsShape(p.stack.below, p.stack.top.node); }
    case CloseList => if TopIsList(p.stack) { PopKeepsShape(p.stack.below, p.stack.top.node); }
    case _ =>
  }

  lemma PopKeepsShape(s: Stack, node: Node)
    requires Shape(s)
    ensures match PopTop(Parser(Above(s, Tok(node)), None))
      case Success(q) => Shaped(q) && (q.stack.Above? || q.final.Some?)
      case Failure(e) => !Impossible(e) && e != TopOfEmpty
  {
    if s.Above? {
      assert Shape(s.below);
      if s.below.Above? { assert Shape(s.below.below); }
      if TopIsChar(s) { assert TopIsObject(s.below.below); }
    }
  }

  /** Nothing read yet. */
  predicate Untouched(p: Parser) { p.stack.Bottom? && p.final.None? }

  lemma {:induction false} RunKeepsShape(text: string, pos: nat, p: Parser)
    requires pos <= |text| && Shaped(p)
    ensures match Run(text, pos, p)
      case Success(q) => Shaped(q)
      case Failure(e) => !Impossible(e) && (!Untouched(p) ==> e != TopOfEmpty)
    decreases |text| - pos
  {
    if pos == |text| {
    } else if IsSpace(text[pos]) {
      RunKeepsShape(text, pos + 1, p);
    } else if p.final.None? {
      var x := Lex(text, pos);
      LexFails(text, pos);
      if x.Success? {
        ReadKeepsShape(p, x.value.token);
        var r := Read(p, x.value.token);
        if r.Success? { RunKeepsShape(text, x.value.end, r.value); }
      }
    }
  }

  lemma LexFails(text: string, pos: nat)
    requires pos < |text|
    ensures Lex(text, pos).Failure? ==> Lex(text, pos).error == Syntax || Lex(text, pos).error == Unfinished
  {
  }

  function SkipSpace(text: string, pos: nat): (r: nat)
    requires pos <= |text|
    ensures pos <= r <= |text|
    decreases |text| - pos
  {
    if pos < |text| && IsSpace(text[pos]) then SkipSpace(text, pos + 1) else pos
  }

  /** A document starts, after white space, with a character that closes or separates. */
  predicate StartsWithClose(text: string) {
    var i := SkipSpace(text, 0);
    i < |text| && (text[i] == '}' || text[i] == ']' || text[i] == ',')
  }

  lemma {:induction false} RunSkipsSpace(text: string, pos: nat, p: Parser)
    requires pos <= |text|
    ensures Run(text, pos, p) == Run(text, SkipSpace(text, pos), p)
    decreases |text| - pos
  {
    if pos < |text| && IsSpace(text[pos]) { RunSkipsSpace(text, pos + 1, p); }
  }

  /**
   * Four of the parser's errors never arise; and it reads the top of an empty stack exactly when
   * the document starts with a character that closes or separates.
   */
  lemma ReachableErrors(text: string)
    ensures Parse(text).Failure? ==> !Impossible(Parse(text).error)
    ensures Parse(text) == Failure(TopOfEmpty) <==> StartsWithClose(text)
  {
    RunKeepsShape(text, 0, Initial);
    RunSkipsSpace(text, 0, Initial);
    var i := SkipSpace(text, 0);
    FirstIsNoSpace(text, 0);
    if i < |text| {
      LexFails(text, i);
      var x := Lex(text, i);
      if x.Success? {
        ReadKeepsShape(Initial, x.value.token);
        var r := Read(Initial, x.value.token);
        if r.Success? { RunKeepsShape(text, x.value.end, r.value); }
      }
    }
  }

  /** For one, a closing bracket alone. */
  lemma ReadsTopOfEmpty()
    ensures Parse("]") == Failure(TopOfEmpty)
  {
    assert SkipSpace("]", 0) == 0;
    ReachableErrors("]");
  }

  lemma {:induction false} FirstIsNoSpace(text: string, pos: nat)
    requires pos <= |text|
    ensures SkipSpace(text, pos) < |text| ==> !IsSpace(text[SkipSpace(text, pos)])
    decreases |text| - pos
  {
    if pos < |text| && IsSpace(text[pos]) { FirstIsNoSpace(text, pos + 1); }
  }
}
