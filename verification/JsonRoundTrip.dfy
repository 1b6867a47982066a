/** Parsing a printed value, with any white space between the tokens, gives the value back. */
module JsonRoundTrip {
  import opened Wrappers
  import opened JsonText
  import opened JsonParsing

  // ---- The node a value is printed for --------------------------------------------------------

  function NodeOf(v: Value): Node
    decreases v, 1
  {
    match v
    case List(items) => ListNode(AddItems(NoNodes, items))
    case Obj(pairs) => ObjectNode(AddPairs(NoEntries, pairs))
    case _ => Leaf(ScalarOf(v).kind, ScalarOf(v).text)
  }

  function AddItems(init: Nodes, items: Values): Nodes
    decreases items, 0
  {
    match items
    case NoValues => init
    case Cons(v, tail) => AddItems(Snoc(init, NodeOf(v)), tail)
  }

  /** Keys are stored as they are written. */
  function AddPairs(init: Entries, pairs: Pairs): Entries
    decreases pairs, 0
  {
    match pairs
    case NoPairs => init
    case Pair(k, v, tail) => AddPairs(Entry(init, Escape(k), NodeOf(v)), tail)
  }

  /** No object has two keys that are written alike. */
  predicate Clean(v: Value)
    decreases v, 1
  {
    match v
    case List(items) => CleanItems(items)
    case Obj(pairs) => CleanPairs(NoEntries, pairs)
    case _ => true
  }

  predicate CleanItems(items: Values)
    decreases items, 0
  {
    match items
    case NoValues => true
    case Cons(v, tail) => Clean(v) && CleanItems(tail)
  }

  predicate CleanPairs(init: Entries, pairs: Pairs)
    decreases pairs, 0
  {
    match pairs
    case NoPairs => true
    case Pair(k, v, tail) => Clean(v) && !HasKey(init, Escape(k)) && CleanPairs(Entry(init, Escape(k), NodeOf(v)), tail)
  }

  // ---- Tokens to nodes ------------------------------------------------------------------------

  function ReadAll(p: Parser, tokens: Tokens): Result<Parser, Error>
    decreases tokens
  {
    match tokens
    case End => Success(p)
    case Next(t, rest) =>
      if p.final.Some? then Failure(Extra)
      else
        match Read(p, t)
        case Failure(e) => Failure(e)
        case Success(q) => ReadAll(q, rest)
  }

  function Then(r: Result<Parser, Error>, tokens: Tokens): Result<Parser, Error> {
    match r
    case Failure(e) => Failure(e)
    case Success(p) => ReadAll(p, tokens)
  }

  /** A node completed on top of the stack `s`. */
  function Completed(s: Stack, node: Node): Result<Parser, Error> {
    PopTop(Parser(Above(s, Tok(node)), None))
  }

  function Parsing(s: Stack, node: Node): Parser { Parser(Above(s, Tok(node)), None) }

  /** Whatever the stack below it, the tokens of a value complete the value's node on it. */
  lemma {:induction false} ValueRuns(s: Stack, v: Value, rest: Tokens)
    ensures ReadAll(Parser(s, None), ValueTokens(v, rest))
      == if Clean(v) then Then(Completed(s, NodeOf(v)), rest) else Failure(DuplicateKey)
    decreases v, 1
  {
    match v
    case List(items) => ItemsRun(s, NoNodes, items, true, rest);
    case Obj(pairs) => PairsRun(s, NoEntries, pairs, true, rest);
    case _ =>
  }

  lemma {:induction false} ItemsRun(s: Stack, init: Nodes, items: Values, first: bool, rest: Tokens)
    ensures ReadAll(Parsing(s, ListNode(init)), ItemTokens(items, first, rest))
      == if CleanItems(items) then Then(Completed(s, ListNode(AddItems(init, items))), rest) else Failure(DuplicateKey)
    decreases items, 0
  {
    match items
    case NoValues =>
    case Cons(v, tail) =>
      var after := ItemTokens(tail, false, rest);
      SeparatorRuns(Parsing(s, ListNode(init)), first, ValueTokens(v, after));
      ValueRuns(Parsing(s, ListNode(init)).stack, v, after);
      if Clean(v) { ItemsRun(s, Snoc(init, NodeOf(v)), tail, false, rest); }
  }

  lemma SeparatorRuns(p: Parser, first: bool, tokens: Tokens)
    requires p.final.None? && (TopIsList(p.stack) || TopIsObject(p.stack))
    ensures ReadAll(p, Separated(first, tokens)) == ReadAll(p, tokens)
  {
  }

  lemma QuoteUnquoted(k: string)
    ensures Unquoted(Quote(k)) == Escape(k)
  {
  }

  /** A key and its ':' leave the parser waiting for the value. */
  lemma KeyRuns(s: Stack, init: Entries, k: string, tokens: Tokens)
    ensures var keyed := Above(Parsing(s, ObjectNode(init)).stack, Tok(Leaf(STRING, Quote(k))));
      ReadAll(Parsing(s, ObjectNode(init)), Next(Scalar(STRING, Quote(k)), Next(Colon, tokens)))
      == ReadAll(Parser(Above(keyed, Char), None), tokens)
  {
    var p := Parsing(s, ObjectNode(init));
    var q := Push(p, Tok(Leaf(STRING, Quote(k))));
    assert Read(p, Scalar(STRING, Quote(k))) == Success(q);
    assert Read(q, Colon) == Success(Push(q, Char));
    assert ReadAll(q, Next(Colon, tokens)) == ReadAll(Push(q, Char), tokens);
  }

  lemma {:induction false} PairsRun(s: Stack, init: Entries, pairs: Pairs, first: bool, rest: Tokens)
    ensures ReadAll(Parsing(s, ObjectNode(init)), PairTokens(pairs, first, rest))
      == if CleanPairs(init, pairs) then Then(Completed(s, ObjectNode(AddPairs(init, pairs))), rest)
         else Failure(DuplicateKey)
    decreases pairs, 0
  {
    match pairs
    case NoPairs =>
    case Pair(k, v, tail) =>
      var after := PairTokens(tail, false, rest);
      var p := Parsing(s, ObjectNode(init));
      SeparatorRuns(p, first, Next(Scalar(STRING, Quote(k)), Next(Colon, ValueTokens(v, after))));
      KeyRuns(s, init, k, ValueTokens(v, after));
      var waiting := Above(Above(p.stack, Tok(Leaf(STRING, Quote(k)))), Char);
      ValueRuns(waiting, v, after);
      QuoteUnquoted(k);
      if Clean(v) && !HasKey(init, Escape(k)) {
        assert Completed(waiting, NodeOf(v)) == Success(Parsing(s, ObjectNode(Entry(init, Escape(k), NodeOf(v)))));
        PairsRun(s, Entry(init, Escape(k), NodeOf(v)), tail, false, rest);
      }
  }

  lemma TokensParse(v: Value)
    ensures ReadAll(Initial, ValueTokens(v, End))
      == if Clean(v) then Success(Parser(Bottom, Some(Tok(NodeOf(v))))) else Failure(DuplicateKey)
  {
    ValueRuns(Bottom, v, End);
  }
}
