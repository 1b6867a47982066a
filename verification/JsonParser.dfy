/** The parser as it runs: one loop over the text, the stack and the final value updated in place. */
module JsonParsers {
  import opened Wrappers
  import opened Chars
  import opened JsonText
  import opened JsonParsing

  class JSONParse {
    var tokenStack: Stack
    var finalValue: Option<StackToken>

    constructor ()
      ensures Contents() == Initial
    {
      tokenStack, finalValue := Bottom, None;
    }

    function Contents(): Parser
      reads this
    {
      Parser(tokenStack, finalValue)
    }

    method Update(text: string) returns (r: Result<Option<StackToken>, Error>)
      modifies this
      ensures r == match Run(text, 0, old(Contents()))
        case Failure(e) => Failure(e)
        case Success(p) => if p.stack.Above? then Failure(Unfinished) else Success(p.final)
    {
      var i := 0;
      while i < |text|
        invariant 0 <= i <= |text|
        invariant Run(text, i, Contents()) == Run(text, 0, old(Contents()))
      {
        if IsSpace(text[i]) { i := i + 1; continue; }
        if finalValue.Some? { return Failure(Extra); }
        var lexed := Scan(text, i);
        if lexed.Failure? { return Failure(lexed.error); }
        var failed := Take(lexed.value.token);
        if failed.Some? { return Failure(failed.value); }
        i := lexed.value.end;
      }
      if tokenStack.Above? { return Failure(Unfinished); }
      r := Success(finalValue);
    }

    /** What the token that starts at `pos` is, and where it ends. */
    method Scan(text: string, pos: nat) returns (r: Result<Lexeme, Error>)
      requires pos < |text|
      ensures r == Lex(text, pos)
    {
      match text[pos]
      case '{' => r := Success(Lexeme(OpenObj, pos + 1));
      case '}' => r := Success(Lexeme(CloseObj, pos + 1));
      case '[' => r := Success(Lexeme(OpenList, pos + 1));
      case ']' => r := Success(Lexeme(CloseList, pos + 1));
      case ':' => r := Success(Lexeme(Colon, pos + 1));
      case ',' => r := Success(Lexeme(Comma, pos + 1));
      case '"' => r := ParseString(text, pos);
      case 't' => r := LexKeyword(text, pos);
      case 'f' => r := LexKeyword(text, pos);
      case 'n' => r := LexKeyword(text, pos);
      case c =>
        if c == '+' || c == '-' || IsDigit(c) { r := ParseNumber(text, pos); } else { r := Failure(Syntax); }
    }

    method ParseString(text: string, pos: nat) returns (r: Result<Lexeme, Error>)
      requires pos < |text|
      ensures r == LexString(text, pos)
    {
      var end, i := pos, pos + 1;
      while i < |text|
        invariant pos + 1 <= i <= |text| && end == pos
        invariant FindQuote(text, i) == FindQuote(text, pos + 1)
      {
        if text[i] == '\\' { i := i + 1; continue; }
        if text[i] == '"' { end := i; break; }
        i := i + 1;
      }
      if end < i { return Failure(Unfinished); }
      r := Success(Lexeme(Scalar(STRING, text[pos..end + 1]), end + 1));
    }

    method ParseNumber(text: string, pos: nat) returns (r: Result<Lexeme, Error>)
      requires pos < |text|
      ensures r == LexNumber(text, pos)
    {
      var i, kind := pos, INTEGER;
      if text[i] == '+' || text[i] == '-' {
        i := i + 1;
        if i >= |text| { return Failure(Unfinished); }
      }
      if text[i] == '0' {
        i := i + 1;
        if i < |text| && IsDigit(text[i]) { return Failure(Syntax); }
      } else if !IsDigit(text[i]) {
        return Failure(Syntax);
      }
      ghost var from := i;
      while i < |text|
        invariant from <= i <= |text|
        invariant NumberFrom(text, i, kind) == NumberFrom(text, from, INTEGER)
      {
        if text[i] == '.' {
          if kind == FLOAT { return Failure(Syntax); }
          kind := FLOAT;
        } else if !IsDigit(text[i]) {
          break;
        }
        i := i + 1;
      }
      if text[i - 1] == '.' { return Failure(Syntax); }
      r := Success(Lexeme(Scalar(kind, text[pos..i]), i));
    }

    /** The effect of one token on the stack; the error if there is one. */
    method Take(t: Token) returns (failed: Option<Error>)
      modifies this
      ensures match Read(old(Contents()), t)
        case Failure(e) => failed == Some(e)
        case Success(q) => failed == None && Contents() == q
    {
      failed := None;
      match t
      case OpenObj => tokenStack := Above(tokenStack, Tok(ObjectNode(NoEntries)));
      case OpenList => tokenStack := Above(tokenStack, Tok(ListNode(NoNodes)));
      case CloseObj =>
        if tokenStack.Bottom? { return Some(TopOfEmpty); }
        if !TopIsObject(tokenStack) { return Some(Syntax); }
        failed := Reduce();
      case CloseList =>
        if tokenStack.Bottom? { return Some(TopOfEmpty); }
        if !TopIsList(tokenStack) { return Some(Syntax); }
        failed := Reduce();
      case Colon =>
        if tokenStack.Bottom? || !TopIsScalar(tokenStack) { return Some(Syntax); }
        tokenStack := Above(tokenStack, Char);
      case Comma =>
        if tokenStack.Bottom? { return Some(TopOfEmpty); }
        if !TopIsList(tokenStack) && !TopIsObject(tokenStack) { return Some(Syntax); }
      case Scalar(kind, text) =>
        tokenStack := Above(tokenStack, Tok(Leaf(kind, text)));
        failed := Reduce();
    }

    /** Pop the finished token and fold it into the one below. */
    method Reduce() returns (failed: Option<Error>)
      requires tokenStack.Above?
      modifies this
      ensures match PopTop(old(Contents()))
        case Failure(e) => failed == Some(e)
        case Success(q) => failed == None && Contents() == q
    {
      failed := None;
      var rhs := tokenStack.top;
      tokenStack := tokenStack.below;
      if tokenStack.Bottom? {
        finalValue := Some(rhs);
        return;
      }
      if rhs.Char? { return Some(StrayChar); }
      if TopIsObject(tokenStack) {
        if !rhs.node.Leaf? || rhs.node.kind != STRING { return Some(KeyExpected); }
        tokenStack := Above(tokenStack, rhs);
        return;
      }
      if TopIsList(tokenStack) {
        var list := tokenStack.top.node.items;
        tokenStack := Above(tokenStack.below, Tok(ListNode(Snoc(list, rhs.node))));
        return;
      }
      if TopIsChar(tokenStack) {
        tokenStack := tokenStack.below;
        if tokenStack.Bottom? { return Some(PairOutsideObject); }
        var lhs := tokenStack.top;
        tokenStack := tokenStack.below;
        if !TopIsObject(tokenStack) { return Some(PairOutsideObject); }
        if !(lhs.Tok? && lhs.node.Leaf?) { return Some(KeyNotScalar); }
        var key := Unquoted(lhs.node.text);
        var entries := tokenStack.top.node.entries;
        if HasKey(entries, key) { return Some(DuplicateKey); }
        tokenStack := Above(tokenStack.below, Tok(ObjectNode(Entry(entries, key, rhs.node))));
        return;
      }
      return Some(NotImplemented);
    }
  }

  method ParseDocument(text: string) returns (r: Result<Node, Error>)
    ensures r == Parse(text)
  {
    var parser := new JSONParse();
    var token := parser.Update(text);
    match token
    case Failure(e) => r := Failure(e);
    case Success(None) => r := Failure(Unfinished);
    case Success(Some(Char)) => r := Failure(Malformed);
    case Success(Some(Tok(node))) => r := Success(node);
  }
}
