/**
 * For exactly which values the parser undoes the printer. A node means a value when its accessors
 * return the value's parts; a value is faithful when its strings hold no quotation mark, its keys
 * need no escaping, and no object has a key twice. Faithful values come back.
 */
module JsonFaithful {
  import opened Wrappers
  import opened Chars
  import opened JsonText
  import opened JsonParsing
  import opened JsonRoundTrip
  import opened JsonLayout

  // ---- What a node says about a value ---------------------------------------------------------

  /** What from_chars reads, after a leading plus sign. */
  function IntegerIn(text: string): Option<int> {
    var t := if text != "" && text[0] == '+' then text[1..] else text;
    var digits := if t != "" && t[0] == '-' then t[1..] else t;
    if digits == "" || !AllDigits(digits) then None
    else
      var n := DigitsValue(digits);
      Some(if |digits| < |t| then -n else n)
  }

  function GetSigned(node: Node): Option<int> {
    if !node.Leaf? || node.kind != INTEGER then None
    else
      match IntegerIn(node.text)
      case Some(n) => if -0x8000_0000_0000_0000 <= n < 0x8000_0000_0000_0000 then Some(n) else None
      case None => None
  }

  function GetUnsigned(node: Node): Option<int> {
    if !node.Leaf? || node.kind != INTEGER || node.text == "" || node.text[0] == '-' then None
    else
      match IntegerIn(node.text)
      case Some(n) => if n < 0x1_0000_0000_0000_0000 then Some(n) else None
      case None => None
  }

  function First(nodes: Nodes): Node
    requires nodes.Snoc?
  {
    if nodes.init.Snoc? then First(nodes.init) else nodes.last
  }

  function ButFirst(nodes: Nodes): Nodes
    requires nodes.Snoc?
  {
    if nodes.init.Snoc? then Snoc(ButFirst(nodes.init), nodes.last) else NoNodes
  }

  function Get(entries: Entries, key: string): Node
    requires HasKey(entries, key)
  {
    if entries.key == key then entries.value else Get(entries.init, key)
  }

  function Without(entries: Entries, key: string): Entries
    requires HasKey(entries, key)
  {
    if entries.key == key then entries.init else Entry(Without(entries.init, key), entries.key, entries.value)
  }

  /** The accessors of the node return the parts of the value; the order of keys is no part of it. */
  predicate Means(node: Node, v: Value)
    decreases v, 1
  {
    match v
    case Null => node.Leaf? && node.kind == NUL
    case Bool(b) => node.Leaf? && node.kind == BOOLEAN && b == (node.text == "true")
    case Int(n) => node.Leaf? && node.kind == INTEGER && IntegerIn(node.text) == Some(n)
    case Str(s) => node.Leaf? && node.kind == STRING && Decode(node.text) == s
    case List(items) => node.ListNode? && MeansItems(node.items, items)
    case Obj(pairs) => node.ObjectNode? && MeansPairs(node.entries, pairs)
  }

  predicate MeansItems(nodes: Nodes, items: Values)
    decreases items, 0
  {
    match items
    case NoValues => nodes.NoNodes?
    case Cons(v, tail) => nodes.Snoc? && Means(First(nodes), v) && MeansItems(ButFirst(nodes), tail)
  }

  predicate MeansPairs(entries: Entries, pairs: Pairs)
    decreases pairs, 0
  {
    match pairs
    case NoPairs => entries.NoEntries?
    case Pair(k, v, tail) => HasKey(entries, k) && Means(Get(entries, k), v) && MeansPairs(Without(entries, k), tail)
  }

  // ---- The values that come back --------------------------------------------------------------

  predicate Plain(key: string) { forall i | 0 <= i < |key| :: EscapeChar(key[i]) == [key[i]] }

  predicate KeyIn(pairs: Pairs, key: string) { pairs.Pair? && (pairs.key == key || KeyIn(pairs.tail, key)) }

  /** No quotation mark in a string, nothing to escape in a key, no key twice in an object. */
  predicate Faithful(v: Value) {
    match v
    case Str(s) => QuoteFree(s)
    case List(items) => FaithfulItems(items)
    case Obj(pairs) => FaithfulPairs(pairs)
    case _ => true
  }

  predicate FaithfulItems(items: Values) {
    items.Cons? ==> Faithful(items.head) && FaithfulItems(items.tail)
  }

  predicate FaithfulPairs(pairs: Pairs) {
    pairs.Pair? ==>
      && Plain(pairs.key) && !KeyIn(pairs.tail, pairs.key)
      && Faithful(pairs.value) && FaithfulPairs(pairs.tail)
  }

  // ---- Faithful values come back --------------------------------------------------------------

  lemma PlainHead(key: string)
    requires key != ""
    ensures Plain(key) <==> EscapeChar(key[0]) == [key[0]] && Plain(key[1..])
  {
    assert forall i | 0 < i < |key| :: key[i] == key[1..][i - 1];
  }

  lemma {:induction false} PlainEscape(key: string)
    ensures |Escape(key)| >= |key|
    ensures |Escape(key)| == |key| <==> Plain(key)
    ensures Plain(key) ==> Escape(key) == key
  {
    if key != "" {
      PlainEscape(key[1..]);
      PlainHead(key);
      assert key == [key[0]] + key[1..];
    }
  }

  /** Digits are read as the number they denote, also after a minus sign. */
  lemma DigitsMean(digits: string)
    requires digits != "" && AllDigits(digits)
    ensures IntegerIn(digits) == Some(DigitsValue(digits))
    ensures IntegerIn("-" + digits) == Some(-DigitsValue(digits))
  {
    assert IsDigit(digits[0]);
    assert ("-" + digits)[1..] == digits;
  }

  lemma DecimalTextRead(n: int)
    ensures IntegerIn(DecimalText(n)) == Some(n)
  {
    var m := if n < 0 then -n else n;
    DecimalDigits(m);
    DigitsMean(Decimal(m));
  }

  /** The getters return the number exactly when it fits their type. */
  lemma IntegerGetters(n: int)
    ensures GetSigned(NodeOf(Int(n))) == Some(n) <==> -0x8000_0000_0000_0000 <= n < 0x8000_0000_0000_0000
    ensures GetUnsigned(NodeOf(Int(n))) == Some(n) <==> 0 <= n < 0x1_0000_0000_0000_0000
  {
    DecimalTextRead(n);
    DecimalTextIsNumeral(n);
  }

  /** The getters of any integer token, with or without a sign: its number if it fits; none below zero. */
  lemma GettersRead(sign: string, digits: string)
    requires sign in ["", "+", "-"] && digits != "" && AllDigits(digits)
    ensures var n := if sign == "-" then -DigitsValue(digits) else DigitsValue(digits);
      var node := Leaf(INTEGER, sign + digits);
      && GetSigned(node) == (if -0x8000_0000_0000_0000 <= n < 0x8000_0000_0000_0000 then Some(n) else None)
      && GetUnsigned(node) == if sign == "-" || n >= 0x1_0000_0000_0000_0000 then None else Some(n)
  {
    var text := sign + digits;
    assert IsDigit(digits[0]) && text[|sign|] == digits[0] && text[|sign|..] == digits;
    assert text[0..] == text;
  }

  lemma {:induction false} FirstAdded(init: Nodes, items: Values)
    requires init.Snoc?
    ensures AddItems(init, items).Snoc? && First(AddItems(init, items)) == First(init)
    ensures ButFirst(AddItems(init, items)) == AddItems(ButFirst(init), items)
    decreases items
  {
    if items.Cons? { FirstAdded(Snoc(init, NodeOf(items.head)), items.tail); }
  }

  lemma {:induction false} KeyAdded(init: Entries, pairs: Pairs, k: string)
    requires HasKey(init, k) && FaithfulPairs(pairs) && !KeyIn(pairs, k)
    ensures HasKey(AddPairs(init, pairs), k) && Get(AddPairs(init, pairs), k) == Get(init, k)
    ensures Without(AddPairs(init, pairs), k) == AddPairs(Without(init, k), pairs)
    decreases pairs
  {
    if pairs.Pair? {
      PlainEscape(pairs.key);
      KeyAdded(Entry(init, Escape(pairs.key), NodeOf(pairs.value)), pairs.tail, k);
    }
  }

  lemma {:induction false} FaithfulMeans(v: Value)
    requires Faithful(v)
    ensures Means(NodeOf(v), v)
    decreases v, 1
  {
    match v
    case Int(n) => DecimalTextRead(n);
    case Str(s) => DecodeQuote(s);
    case List(items) => FaithfulMeansItems(items);
    case Obj(pairs) => FaithfulMeansPairs(pairs);
    case _ =>
  }

  lemma {:induction false} FaithfulMeansItems(items: Values)
    requires FaithfulItems(items)
    ensures MeansItems(AddItems(NoNodes, items), items)
    decreases items, 0
  {
    if items.Cons? {
      FirstAdded(Snoc(NoNodes, NodeOf(items.head)), items.tail);
      FaithfulMeans(items.head);
      FaithfulMeansItems(items.tail);
    }
  }

  lemma {:induction false} FaithfulMeansPairs(pairs: Pairs)
    requires FaithfulPairs(pairs)
    ensures MeansPairs(AddPairs(NoEntries, pairs), pairs)
    decreases pairs, 0
  {
    if pairs.Pair? {
      PlainEscape(pairs.key);
      KeyAdded(Entry(NoEntries, pairs.key, NodeOf(pairs.value)), pairs.tail, pairs.key);
      FaithfulMeans(pairs.value);
      FaithfulMeansPairs(pairs.tail);
    }
  }

  predicate Disjoint(init: Entries, pairs: Pairs) {
    pairs.Pair? ==> !HasKey(init, pairs.key) && Disjoint(init, pairs.tail)
  }

  lemma {:induction false} DisjointMore(init: Entries, key: string, node: Node, pairs: Pairs)
    requires Disjoint(init, pairs) && !KeyIn(pairs, key)
    ensures Disjoint(Entry(init, key, node), pairs)
  {
    if pairs.Pair? { DisjointMore(init, key, node, pairs.tail); }
  }

  lemma {:induction false} DisjointEmpty(pairs: Pairs)
    ensures Disjoint(NoEntries, pairs)
  {
    if pairs.Pair? { DisjointEmpty(pairs.tail); }
  }

  lemma {:induction false} FaithfulClean(v: Value)
    requires Faithful(v)
    ensures Clean(v)
    decreases v, 1
  {
    match v
    case List(items) => FaithfulCleanItems(items);
    case Obj(pairs) =>
      DisjointEmpty(pairs);
      FaithfulCleanPairs(NoEntries, pairs);
    case _ =>
  }

  lemma {:induction false} FaithfulCleanItems(items: Values)
    requires FaithfulItems(items)
    ensures CleanItems(items)
    decreases items, 0
  {
    if items.Cons? {
      FaithfulClean(items.head);
      FaithfulCleanItems(items.tail);
    }
  }

  lemma {:induction false} FaithfulCleanPairs(init: Entries, pairs: Pairs)
    requires FaithfulPairs(pairs) && Disjoint(init, pairs)
    ensures CleanPairs(init, pairs)
    decreases pairs, 0
  {
    if pairs.Pair? {
      PlainEscape(pairs.key);
      FaithfulClean(pairs.value);
      DisjointMore(init, pairs.key, NodeOf(pairs.value), pairs.tail);
      FaithfulCleanPairs(Entry(init, pairs.key, NodeOf(pairs.value)), pairs.tail);
    }
  }

  // ---- Values without quotation marks inside are legible ---------------------------------------

  predicate Tame(v: Value) {
    match v
    case Str(s) => QuoteFree(s)
    case List(items) => TameItems(items)
    case Obj(pairs) => TamePairs(pairs)
    case _ => true
  }

  predicate TameItems(items: Values) { items.Cons? ==> Tame(items.head) && TameItems(items.tail) }

  predicate TamePairs(pairs: Pairs) {
    pairs.Pair? ==> QuoteFree(pairs.key) && Tame(pairs.value) && TamePairs(pairs.tail)
  }

  lemma {:induction false} EscapeQuoteFree(s: string)
    requires QuoteFree(s)
    ensures QuoteFree(Escape(s))
  {
    if s != "" {
      assert forall i | 0 <= i < |s| - 1 :: s[1..][i] == s[i + 1];
      EscapeQuoteFree(s[1..]);
      assert s[0] != '"' && QuoteFree(EscapeChar(s[0]));
    }
  }

  lemma QuoteIsString(s: string)
    requires QuoteFree(s)
    ensures IsString(Scalar(STRING, Quote(s)))
  {
    EscapeQuoteFree(s);
    assert Quote(s)[1..|Quote(s)| - 1] == Escape(s);
  }

  ghost predicate After(rest: Tokens) { Legible(rest) && (rest.Next? ==> Punctuation(rest.token)) }

  lemma {:induction false} TameLegible(v: Value, rest: Tokens)
    requires Tame(v) && After(rest)
    ensures Legible(ValueTokens(v, rest))
    decreases v, 1
  {
    match v
    case Int(n) => assert IsInteger(ScalarOf(v));
    case Str(s) => QuoteIsString(s);
    case List(items) => TameLegibleItems(items, true, rest);
    case Obj(pairs) => TameLegiblePairs(pairs, true, rest);
    case _ =>
  }

  lemma {:induction false} TameLegibleItems(items: Values, first: bool, rest: Tokens)
    requires TameItems(items) && After(rest)
    ensures Legible(ItemTokens(items, first, rest))
    ensures !first ==> After(ItemTokens(items, first, rest))
    decreases items, 0
  {
    if items.Cons? {
      TameLegibleItems(items.tail, false, rest);
      TameLegible(items.head, ItemTokens(items.tail, false, rest));
    }
  }

  lemma {:induction false} TameLegiblePairs(pairs: Pairs, first: bool, rest: Tokens)
    requires TamePairs(pairs) && After(rest)
    ensures Legible(PairTokens(pairs, first, rest))
    ensures !first ==> After(PairTokens(pairs, first, rest))
    decreases pairs, 0
  {
    if pairs.Pair? {
      TameLegiblePairs(pairs.tail, false, rest);
      var value := ValueTokens(pairs.value, PairTokens(pairs.tail, false, rest));
      TameLegible(pairs.value, PairTokens(pairs.tail, false, rest));
      QuoteIsString(pairs.key);
      assert Legible(Next(Colon, value));
      assert Legible(Next(Scalar(STRING, Quote(pairs.key)), Next(Colon, value)));
    }
  }

  lemma {:induction false} FaithfulTame(v: Value)
    requires Faithful(v)
    ensures Tame(v)
    decreases v, 1
  {
    match v
    case List(items) => FaithfulTameItems(items);
    case Obj(pairs) => FaithfulTamePairs(pairs);
    case _ =>
  }

  lemma {:induction false} FaithfulTameItems(items: Values)
    requires FaithfulItems(items)
    ensures TameItems(items)
    decreases items, 0
  {
    if items.Cons? {
      FaithfulTame(items.head);
      FaithfulTameItems(items.tail);
    }
  }

  lemma {:induction false} FaithfulTamePairs(pairs: Pairs)
    requires FaithfulPairs(pairs)
    ensures TamePairs(pairs)
    decreases pairs, 0
  {
    if pairs.Pair? {
      assert QuoteFree(pairs.key) by {
        forall i | 0 <= i < |pairs.key| ensures pairs.key[i] != '"' {
          assert EscapeChar(pairs.key[i]) == [pairs.key[i]];
        }
      }
      FaithfulTame(pairs.value);
      FaithfulTamePairs(pairs.tail);
    }
  }

  /** What the parser makes of a value without quotation marks inside, however it is spaced. */
  lemma TameParse(v: Value, l: Layout)
    requires Tame(v) && BlankGaps(l) && Erase(l) == ValueTokens(v, End)
    ensures Parse(LayoutText(l)) == if Clean(v) then Success(NodeOf(v)) else Failure(DuplicateKey)
  {
    TameLegible(v, End);
    LayoutRuns("", l, Initial);
    assert "" + LayoutText(l) == LayoutText(l);
    TokensParse(v);
  }
}
