module JsonDescent {
  // The parser's stack machine is a recursive descent, and a document parses exactly when its
  // tokens are a value of a grammar in which commas are free.

  import opened Wrappers
  import opened Chars
  import opened JsonText
  import opened JsonParsing
  import opened JsonRoundTrip

  // ---- The descent ----------------------------------------------------------------------------

  function Count(tokens: Tokens): nat { if tokens.End? then 0 else 1 + Count(tokens.rest) }

  /** A value, and the tokens after it. */
  datatype Parsed = Parsed(node: Node, rest: Tokens)

  function ParseValue(tokens: Tokens): (r: Option<Parsed>)
    ensures r.Some? ==> Count(r.value.rest) < Count(tokens)
    decreases Count(tokens), 0
  {
    match tokens
    case Next(Scalar(kind, text), rest) => Some(Parsed(Leaf(kind, text), rest))
    case Next(OpenList, rest) => ParseItems(rest, NoNodes)
    case Next(OpenObj, rest) => ParseMembers(rest, NoEntries)
    case _ => None
  }

  predicate Starts(tokens: Tokens, t: Token) { tokens.Next? && tokens.token == t }

  /** Values up to the closing bracket, with commas anywhere between them. */
  function ParseItems(tokens: Tokens, items: Nodes): (r: Option<Parsed>)
    ensures r.Some? ==> Count(r.value.rest) < Count(tokens)
    decreases Count(tokens), 1
  {
    if Starts(tokens, CloseList) then Some(Parsed(ListNode(items), tokens.rest))
    else if Starts(tokens, Comma) then ParseItems(tokens.rest, items)
    else
      var v := ParseValue(tokens);
      if v.None? then None else ParseItems(v.value.rest, Snoc(items, v.value.node))
  }

  predicate StartsKey(tokens: Tokens) {
    tokens.Next? && tokens.token.Scalar? && tokens.token.kind == STRING && Starts(tokens.rest, Colon)
  }

  /** Strings with a colon and a value, no key twice, up to the closing brace; commas anywhere between. */
  function ParseMembers(tokens: Tokens, entries: Entries): (r: Option<Parsed>)
    ensures r.Some? ==> Count(r.value.rest) < Count(tokens)
    decreases Count(tokens), 1
  {
    if Starts(tokens, CloseObj) then Some(Parsed(ObjectNode(entries), tokens.rest))
    else if Starts(tokens, Comma) then ParseMembers(tokens.rest, entries)
    else if StartsKey(tokens) then
      var key, after := Unquoted(tokens.token.text), tokens.rest.rest;
      assert Count(tokens) == 1 + Count(tokens.rest);
      var v := ParseValue(after);
      if v.None? || HasKey(entries, key) then None else ParseMembers(v.value.rest, Entry(entries, key, v.value.node))
    else None
  }

  // ---- The machine follows it -----------------------------------------------------------------

  /** The node of a document whose tokens have been read so far. */
  function Finished(r: Result<Parser, Error>): Option<Node> {
    if r.Failure? || Finish(r.value).Failure? then None else Some(Finish(r.value).value)
  }

  /** Reading `tokens` goes on as after a value that was completed on `s`, or leads to no node. */
  ghost predicate Follows(p: Parser, tokens: Tokens, s: Stack, v: Option<Parsed>) {
    match v
    case None => Finished(ReadAll(p, tokens)) == None
    case Some(v) => ReadAll(p, tokens) == Then(Completed(s, v.node), v.rest)
  }

  predicate StartsValue(t: Token) { t.Scalar? || t.OpenList? || t.OpenObj? }

  /** On any stack, a value's tokens complete the node of the descent; without one nothing comes of them. */
  lemma {:induction false} ValueFollows(s: Stack, tokens: Tokens)
    requires tokens.Next? ==> StartsValue(tokens.token) || Read(Parser(s, None), tokens.token).Failure?
    ensures Follows(Parser(s, None), tokens, s, ParseValue(tokens))
    decreases Count(tokens), 0
  {
    match tokens
    case Next(OpenList, rest) => ItemsFollow(s, rest, NoNodes);
    case Next(OpenObj, rest) => MembersFollow(s, rest, NoEntries);
    case _ =>
  }

  lemma {:induction false} ItemsFollow(s: Stack, tokens: Tokens, items: Nodes)
    ensures Follows(Parsing(s, ListNode(items)), tokens, s, ParseItems(tokens, items))
    decreases Count(tokens), 1
  {
    var p := Parsing(s, ListNode(items));
    if Starts(tokens, Comma) {
      ItemsFollow(s, tokens.rest, items);
    } else if !Starts(tokens, CloseList) {
      ValueFollows(p.stack, tokens);
      var v := ParseValue(tokens);
      if v.Some? {
        assert Completed(p.stack, v.value.node) == Success(Parsing(s, ListNode(Snoc(items, v.value.node))));
        ItemsFollow(s, v.value.rest, Snoc(items, v.value.node));
      }
    }
  }

  predicate IsComposite(node: Node) { !node.Leaf? }

  lemma {:induction false} OpensComposite(tokens: Tokens)
    requires tokens.Next? && (tokens.token.OpenList? || tokens.token.OpenObj?)
    ensures ParseValue(tokens).Some? ==> IsComposite(ParseValue(tokens).value.node)
  {
    if tokens.token.OpenList? { ItemsGiveList(tokens.rest, NoNodes); }
    else { MembersGiveObject(tokens.rest, NoEntries); }
  }

  lemma {:induction false} ItemsGiveList(tokens: Tokens, items: Nodes)
    ensures ParseItems(tokens, items).Some? ==> ParseItems(tokens, items).value.node.ListNode?
    decreases Count(tokens)
  {
    if Starts(tokens, Comma) {
      ItemsGiveList(tokens.rest, items);
    } else if !Starts(tokens, CloseList) {
      var v := ParseValue(tokens);
      if v.Some? { ItemsGiveList(v.value.rest, Snoc(items, v.value.node)); }
    }
  }

  lemma {:induction false} MembersGiveObject(tokens: Tokens, entries: Entries)
    ensures ParseMembers(tokens, entries).Some? ==> ParseMembers(tokens, entries).value.node.ObjectNode?
    decreases Count(tokens)
  {
    if Starts(tokens, Comma) {
      MembersGiveObject(tokens.rest, entries);
    } else if StartsKey(tokens) {
      var v := ParseValue(tokens.rest.rest);
      assert Count(tokens) == 1 + Count(tokens.rest);
      if v.Some? && !HasKey(entries, Unquoted(tokens.token.text)) {
        MembersGiveObject(v.value.rest, Entry(entries, Unquoted(tokens.token.text), v.value.node));
      }
    }
  }

  /** Right in an object, and right behind a key, no list and no object can stand. */
  lemma {:induction false} NoComposite(s: Stack, tokens: Tokens)
    requires TopIsObject(s) || TopIsScalar(s)
    requires tokens.Next? && (tokens.token.OpenList? || tokens.token.OpenObj?)
    ensures Finished(ReadAll(Parser(s, None), tokens)) == None
    decreases Count(tokens), 1
  {
    ValueFollows(s, tokens);
    OpensComposite(tokens);
    var v := ParseValue(tokens);
    if v.Some? { assert Completed(s, v.value.node).Failure?; }
  }

  /** Behind a key there must be a colon. */
  lemma {:induction false} KeyNeedsColon(s: Stack, tokens: Tokens)
    requires TopIsScalar(s) && (tokens.Next? ==> !tokens.token.Colon?)
    ensures Finished(ReadAll(Parser(s, None), tokens)) == None
    decreases Count(tokens), 2
  {
    if tokens.Next? && (tokens.token.OpenList? || tokens.token.OpenObj?) { NoComposite(s, tokens); }
  }

  lemma {:induction false} MembersFollow(s: Stack, tokens: Tokens, entries: Entries)
    ensures Follows(Parsing(s, ObjectNode(entries)), tokens, s, ParseMembers(tokens, entries))
    decreases Count(tokens), 2
  {
    var p := Parsing(s, ObjectNode(entries));
    match tokens
    case End =>
    case Next(CloseObj, _) =>
    case Next(Comma, rest) => MembersFollow(s, rest, entries);
    case Next(Scalar(kind, text), rest) =>
      if kind == STRING {
        var q := Push(p, Tok(Leaf(STRING, text)));
        assert ReadAll(p, tokens) == ReadAll(q, rest);
        if rest.Next? && rest.token.Colon? {
          MemberFollows(s, text, rest.rest, entries);
          assert ReadAll(q, rest) == ReadAll(Push(q, Char), rest.rest);
        } else {
          KeyNeedsColon(q.stack, rest);
        }
      }
    case Next(OpenList, _) => NoComposite(p.stack, tokens);
    case Next(OpenObj, _) => NoComposite(p.stack, tokens);
    case _ =>
  }

  /** The value after a key and its colon, and the members after it. */
  lemma {:induction false} MemberFollows(s: Stack, text: string, tokens: Tokens, entries: Entries)
    ensures var p := Parsing(s, ObjectNode(entries));
      var waiting := Above(Above(p.stack, Tok(Leaf(STRING, text))), Char);
      Follows(Parser(waiting, None), tokens, s,
              ParseMembers(Next(Scalar(STRING, text), Next(Colon, tokens)), entries))
    decreases Count(tokens), 3
  {
    var p := Parsing(s, ObjectNode(entries));
    var waiting := Above(Above(p.stack, Tok(Leaf(STRING, text))), Char);
    ValueFollows(waiting, tokens);
    var v := ParseValue(tokens);
    if v.Some? {
      var key := Unquoted(text);
      if HasKey(entries, key) {
        assert Completed(waiting, v.value.node) == Failure(DuplicateKey);
      } else {
        var more := Entry(entries, key, v.value.node);
        assert Completed(waiting, v.value.node) == Success(Parsing(s, ObjectNode(more)));
        MembersFollow(s, v.value.rest, more);
      }
    }
  }

  /** A list of tokens is read as a document exactly when the descent takes all of it. */
  lemma TokensParseIff(tokens: Tokens, node: Node)
    ensures Finished(ReadAll(Initial, tokens)) == Some(node) <==> ParseValue(tokens) == Some(Parsed(node, End))
  {
    if tokens.Next? {
      ValueFollows(Bottom, tokens);
      var v := ParseValue(tokens);
      if v.Some? {
        assert Completed(Bottom, v.value.node) == Success(Parser(Bottom, Some(Tok(v.value.node))));
      }
    }
  }

  // ---- From the text --------------------------------------------------------------------------

  /** All tokens of the text from `pos` on, if it is nothing but tokens and white space. */
  function LexAll(text: string, pos: nat): Option<Tokens>
    requires pos <= |text|
    decreases |text| - pos
  {
    if pos == |text| then Some(End)
    else if IsSpace(text[pos]) then LexAll(text, pos + 1)
    else
      match Lex(text, pos)
      case Failure(_) => None
      case Success(x) =>
        match LexAll(text, x.end)
        case None => None
        case Some(tokens) => Some(Next(x.token, tokens))
  }

  lemma {:induction false} RunReads(text: string, pos: nat, p: Parser)
    requires pos <= |text|
    ensures match LexAll(text, pos)
      case Some(tokens) => Run(text, pos, p) == ReadAll(p, tokens)
      case None => Run(text, pos, p).Failure?
    decreases |text| - pos
  {
    if pos < |text| {
      if IsSpace(text[pos]) { RunReads(text, pos + 1, p); }
      else {
        var x := Lex(text, pos);
        if x.Success? {
          var r := Read(p, x.value.token);
          if r.Success? { RunReads(text, x.value.end, r.value); }
        }
      }
    }
  }

  /** A document parses exactly when it is all tokens and they are one value of the grammar above. */
  lemma ParsesIff(text: string, node: Node)
    ensures Parse(text) == Success(node) <==>
      LexAll(text, 0).Some? && ParseValue(LexAll(text, 0).value) == Some(Parsed(node, End))
  {
    RunReads(text, 0, Initial);
    if LexAll(text, 0).Some? { TokensParseIff(LexAll(text, 0).value, node); }
  }

  lemma FirstToken(text: string, pos: nat, t: Token, end: nat, rest: Tokens)
    requires pos < end <= |text| && !IsSpace(text[pos])
    requires Lex(text, pos) == Success(Lexeme(t, end)) && LexAll(text, end) == Some(rest)
    ensures LexAll(text, pos) == Some(Next(t, rest))
  {
  }

  // ---- Numbers --------------------------------------------------------------------------------

  /** For one: a plus sign is no part of a number in section 6 of RFC 8259, but is read here. */
  lemma PlusIsRead()
    ensures Parse("+1") == Success(Leaf(INTEGER, "+1"))
  {
    var text := "+1";
    assert text[0..2] == text && text[1..] == "1";
    assert NumeralParts("1", 1, INTEGER);
    LexIff(text, 0, 2, Scalar(INTEGER, text));
    assert LexAll(text, 2) == Some(End);
    FirstToken(text, 0, Scalar(INTEGER, text), 2, End);
    ParsesIff(text, Leaf(INTEGER, text));
  }

  /** For one: an exponent is part of a number there, but is not read here. */
  lemma ExponentIsRefused()
    ensures Parse("1e5").Failure?
  {
    var text := "1e5";
    LexesOne(text, 0);
    assert Lex(text, 1).Failure?;
    assert LexAll(text, 1) == None;
    if Parse(text).Success? { ParsesIff(text, Parse(text).value); }
  }

  // ---- Commas are free ------------------------------------------------------------------------

  /** For one: in "[,1 1]" a comma stands before the first value and none after it. */
  lemma CommasAreFree()
    ensures Parse("[,1 1]") == Success(ListNode(Snoc(Snoc(NoNodes, Leaf(INTEGER, "1")), Leaf(INTEGER, "1"))))
  {
    var text := "[,1 1]";
    var close := Next(CloseList, End);
    var one := Scalar(INTEGER, "1");
    var tail, both := Next(one, close), Next(one, Next(one, close));
    assert LexAll(text, 6) == Some(End);
    FirstToken(text, 5, CloseList, 6, End);
    LexesOne(text, 4);
    FirstToken(text, 4, one, 5, close);
    LexesOne(text, 2);
    assert LexAll(text, 3) == Some(tail);
    FirstToken(text, 2, one, 3, tail);
    FirstToken(text, 1, Comma, 2, both);
    FirstToken(text, 0, OpenList, 1, Next(Comma, both));
    OnesParse(both);
    ParsesIff(text, ListNode(Snoc(Snoc(NoNodes, Leaf(INTEGER, "1")), Leaf(INTEGER, "1"))));
  }

  lemma OnesParse(both: Tokens)
    requires var one := Scalar(INTEGER, "1"); both == Next(one, Next(one, Next(CloseList, End)))
    ensures var two := Snoc(Snoc(NoNodes, Leaf(INTEGER, "1")), Leaf(INTEGER, "1"));
      ParseValue(Next(OpenList, Next(Comma, both))) == Some(Parsed(ListNode(two), End))
  {
    var two := Snoc(Snoc(NoNodes, Leaf(INTEGER, "1")), Leaf(INTEGER, "1"));
    assert ParseItems(both.rest.rest, two) == Some(Parsed(ListNode(two), End));
    assert ParseItems(both.rest, two.init) == Some(Parsed(ListNode(two), End));
    assert ParseItems(both, NoNodes) == Some(Parsed(ListNode(two), End));
  }

  lemma LexesOne(text: string, pos: nat)
    requires pos + 1 < |text| && text[pos] == '1' && !IsDigit(text[pos + 1]) && text[pos + 1] != '.'
    ensures Lex(text, pos) == Success(Lexeme(Scalar(INTEGER, "1"), pos + 1))
  {
    assert text[pos..pos + 1] == "1";
    assert NumberFrom(text, pos + 1, INTEGER) == Numeric(INTEGER, pos + 1);
  }
}
