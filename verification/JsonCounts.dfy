module JsonCounts {
  // What parsing conserves. Every string the parser reads takes two quotation marks, so a value
  // that comes back has none inside its strings; and keys come back as they were written, so they
  // had nothing to escape.

  import opened Wrappers
  import opened Chars
  import opened JsonText
  import opened JsonParsing
  import opened JsonRoundTrip
  import opened JsonLayout
  import opened JsonFaithful
  import Fmt = JsonFormatters

  // ---- Counting quotation marks ---------------------------------------------------------------

  function Mark(c: char): nat { if c == '"' then 1 else 0 }

  function Marks(s: string): nat { if s == "" then 0 else Mark(s[0]) + Marks(s[1..]) }

  lemma {:induction false} MarksAppend(a: string, b: string)
    ensures Marks(a + b) == Marks(a) + Marks(b)
  {
    if a == "" { assert a + b == b; }
    else {
      assert (a + b)[1..] == a[1..] + b;
      MarksAppend(a[1..], b);
    }
  }

  lemma {:induction false} MarksNone(s: string)
    ensures Marks(s) == 0 <==> QuoteFree(s)
  {
    if s != "" {
      assert forall i | 0 <= i < |s| - 1 :: s[1..][i] == s[i + 1];
      MarksNone(s[1..]);
      assert QuoteFree(s) <==> s[0] != '"' && QuoteFree(s[1..]);
    }
  }

  lemma {:induction false} MarksEscape(s: string)
    ensures Marks(Escape(s)) == Marks(s)
  {
    if s != "" {
      MarksEscape(s[1..]);
      MarksAppend(EscapeChar(s[0]), Escape(s[1..]));
      MarksChar(s[0]);
    }
  }

  lemma MarksChar(c: char)
    ensures Marks(EscapeChar(c)) == Mark(c)
  {
    var e := EscapeChar(c);
    assert Marks(e[|e| - 1..]) == Mark(e[|e| - 1]);
    assert |e| == 2 ==> e[1..][1..] == "" && Marks(e[1..]) == Mark(e[1]);
  }

  lemma MarksQuote(s: string)
    ensures Marks(Quote(s)) == 2 + Marks(s)
  {
    MarksEscape(s);
    MarksAppend("\"", Escape(s));
    MarksAppend("\"" + Escape(s), "\"");
  }

  /** The strings in a node, keys included. */
  function Strings(node: Node): nat
    decreases node, 1
  {
    match node
    case Leaf(kind, _) => if kind == STRING then 1 else 0
    case ListNode(items) => StringsIn(items)
    case ObjectNode(entries) => StringsOf(entries)
  }

  function StringsIn(items: Nodes): nat
    decreases items, 0
  {
    if items.NoNodes? then 0 else StringsIn(items.init) + Strings(items.last)
  }

  function StringsOf(entries: Entries): nat
    decreases entries, 0
  {
    if entries.NoEntries? then 0 else StringsOf(entries.init) + 1 + Strings(entries.value)
  }

  function StringsOn(s: Stack): nat {
    if s.Bottom? then 0 else StringsOn(s.below) + if s.top.Tok? then Strings(s.top.node) else 0
  }

  function Held(p: Parser): nat {
    StringsOn(p.stack) + if p.final.Some? && p.final.value.Tok? then Strings(p.final.value.node) else 0
  }

  function Brings(t: Token): nat { if t.Scalar? && t.kind == STRING then 1 else 0 }

  lemma PopHolds(s: Stack, node: Node)
    requires Shape(s)
    ensures var r := PopTop(Parser(Above(s, Tok(node)), None));
      r.Success? ==> Held(r.value) == StringsOn(s) + Strings(node)
  {
    if TopIsChar(s) {
      assert Shape(s.below) && TopIsScalar(s.below) && TopIsObject(s.below.below);
      PairHolds(s.below.below, s.below.top.node.text, node);
      assert StringsOn(s) == StringsOn(s.below) == StringsOn(s.below.below) + 1;
    } else if TopIsList(s) {
      var items := s.top.node.items;
      assert Strings(ListNode(Snoc(items, node))) == StringsIn(Snoc(items, node)) == StringsIn(items) + Strings(node);
      assert Strings(ListNode(items)) == StringsIn(items);
    }
  }

  lemma PairHolds(s: Stack, text: string, node: Node)
    requires TopIsObject(s)
    ensures var r := AddPair(s, Unquoted(text), node);
      r.Success? ==> StringsOn(r.value) == StringsOn(s) + 1 + Strings(node)
  {
    var entries, key := s.top.node.entries, Unquoted(text);
    var more := Entry(entries, key, node);
    assert StringsOf(more) == StringsOf(entries) + 1 + Strings(node);
    assert Strings(ObjectNode(more)) == StringsOf(more);
    assert Strings(ObjectNode(entries)) == StringsOf(entries);
  }

  lemma ReadHolds(p: Parser, t: Token)
    requires Shaped(p) && p.final.None? && Read(p, t).Success?
    ensures Held(Read(p, t).value) == Held(p) + Brings(t)
  {
    match t
    case Scalar(kind, text) => PopHolds(p.stack, Leaf(kind, text));
    case CloseObj => PopHolds(p.stack.below, p.stack.top.node);
    case CloseList => PopHolds(p.stack.below, p.stack.top.node);
    case _ =>
  }

  lemma {:induction false} MarksSkipped(text: string, i: nat, j: nat)
    requires i <= j <= |text| && forall k | i <= k < j :: text[k] != '"'
    ensures Marks(text[i..]) == Marks(text[j..])
    decreases j - i
  {
    if i < j {
      assert text[i..][1..] == text[i + 1..];
      MarksSkipped(text, i + 1, j);
    }
  }

  lemma MarkTaken(text: string, i: nat)
    requires i < |text| && text[i] == '"'
    ensures Marks(text[i..]) == 1 + Marks(text[i + 1..])
  {
    assert text[i..][1..] == text[i + 1..];
  }

  lemma {:induction false} NumberHasNoMarks(text: string, i: nat, kind: Kind)
    requires i <= |text| && NumberFrom(text, i, kind).Numeric? && kind != STRING
    ensures NumberFrom(text, i, kind).kind != STRING
    ensures forall k | i <= k < NumberFrom(text, i, kind).end :: text[k] != '"'
    decreases |text| - i
  {
    if i < |text| && text[i] == '.' && kind != FLOAT { NumberHasNoMarks(text, i + 1, FLOAT); }
    else if i < |text| && IsDigit(text[i]) { NumberHasNoMarks(text, i + 1, kind); }
  }

  lemma NumberTakes(text: string, pos: nat)
    requires pos < |text| && LexNumber(text, pos).Success?
    ensures LexNumber(text, pos).value.token.Scalar? && LexNumber(text, pos).value.token.kind != STRING
    ensures forall k | pos <= k < LexNumber(text, pos).value.end :: text[k] != '"'
  {
    var i := Unsigned(text, pos);
    NumberHasNoMarks(text, if text[i] == '0' then i + 1 else i, INTEGER);
  }

  lemma KeywordTakes(text: string, pos: nat)
    requires pos < |text| && LexKeyword(text, pos).Success?
    ensures forall k | pos <= k < LexKeyword(text, pos).value.end :: text[k] != '"'
  {
    var end := LexKeyword(text, pos).value.end;
    assert text[pos..end] == Keyword(text, pos).text;
    assert forall k | pos <= k < end :: text[k] == text[pos..end][k - pos];
  }

  /** A token takes two quotation marks from the text if it is a string, otherwise none. */
  lemma LexTakes(text: string, pos: nat)
    requires pos < |text| && Lex(text, pos).Success?
    ensures Marks(text[pos..]) == 2 * Brings(Lex(text, pos).value.token) + Marks(text[Lex(text, pos).value.end..])
  {
    var c, end := text[pos], Lex(text, pos).value.end;
    if c == '"' {
      StringTakes(text, pos);
    } else {
      OthersTake(text, pos);
      MarksSkipped(text, pos, end);
    }
  }

  lemma StringTakes(text: string, pos: nat)
    requires pos < |text| && text[pos] == '"' && LexString(text, pos).Success?
    ensures Marks(text[pos..]) == 2 + Marks(text[LexString(text, pos).value.end..])
  {
    var end := FindQuote(text, pos + 1);
    MarkTaken(text, pos);
    MarksSkipped(text, pos + 1, end);
    MarkTaken(text, end);
  }

  lemma OthersTake(text: string, pos: nat)
    requires pos < |text| && text[pos] != '"' && Lex(text, pos).Success?
    ensures Brings(Lex(text, pos).value.token) == 0
    ensures forall k | pos <= k < Lex(text, pos).value.end :: text[k] != '"'
  {
    var c := text[pos];
    if c == 't' || c == 'f' || c == 'n' { KeywordTakes(text, pos); }
    else if c == '+' || c == '-' || IsDigit(c) { NumberTakes(text, pos); }
  }

  lemma {:induction false} RunConserves(text: string, pos: nat, p: Parser)
    requires pos <= |text| && Shaped(p) && Run(text, pos, p).Success?
    ensures 2 * Held(Run(text, pos, p).value) == 2 * Held(p) + Marks(text[pos..])
    decreases |text| - pos
  {
    if pos == |text| {
    } else if IsSpace(text[pos]) {
      MarksSkipped(text, pos, pos + 1);
      RunConserves(text, pos + 1, p);
    } else {
      var x := Lex(text, pos).value;
      LexTakes(text, pos);
      ReadKeepsShape(p, x.token);
      ReadHolds(p, x.token);
      RunConserves(text, x.end, Read(p, x.token).value);
    }
  }

  /** In every document that parses, each string of the result took two quotation marks. */
  lemma ParseConserves(text: string)
    requires Parse(text).Success?
    ensures Marks(text) == 2 * Strings(Parse(text).value)
  {
    RunConserves(text, 0, Initial);
    assert text[0..] == text;
  }

  // ---- The marks of a printed value -----------------------------------------------------------

  function ValueStrings(v: Value): nat {
    match v
    case Str(_) => 1
    case List(items) => ItemStrings(items)
    case Obj(pairs) => PairStrings(pairs)
    case _ => 0
  }

  function ItemStrings(items: Values): nat {
    if items.NoValues? then 0 else ValueStrings(items.head) + ItemStrings(items.tail)
  }

  function PairStrings(pairs: Pairs): nat {
    if pairs.NoPairs? then 0 else 1 + ValueStrings(pairs.value) + PairStrings(pairs.tail)
  }

  /** The quotation marks inside the strings and keys of a value. */
  function Inner(v: Value): nat {
    match v
    case Str(s) => Marks(s)
    case List(items) => InnerItems(items)
    case Obj(pairs) => InnerPairs(pairs)
    case _ => 0
  }

  function InnerItems(items: Values): nat {
    if items.NoValues? then 0 else Inner(items.head) + InnerItems(items.tail)
  }

  function InnerPairs(pairs: Pairs): nat {
    if pairs.NoPairs? then 0 else Marks(pairs.key) + Inner(pairs.value) + InnerPairs(pairs.tail)
  }

  function TokenMarks(tokens: Tokens): nat {
    if tokens.End? then 0 else Marks(TokenText(tokens.token)) + TokenMarks(tokens.rest)
  }

  lemma {:induction false} LayoutMarks(l: Layout)
    requires BlankGaps(l)
    ensures Marks(LayoutText(l)) == TokenMarks(Erase(l))
  {
    MarksNone(l.gap);
    if l.Spaced? {
      MarksAppend(l.gap, TokenText(l.token));
      MarksAppend(l.gap + TokenText(l.token), LayoutText(l.rest));
      LayoutMarks(l.rest);
    }
  }

  lemma ScalarMarks(v: Value)
    requires !v.List? && !v.Obj?
    ensures Marks(ScalarOf(v).text) == 2 * ValueStrings(v) + Inner(v)
  {
    match v
    case Str(s) => MarksQuote(s);
    case Int(n) =>
      DecimalTextIsNumeral(n);
      MarksNone(DecimalText(n));
    case Null => MarksNone("null");
    case Bool(b) => MarksNone(ScalarOf(v).text);
  }

  lemma PunctuationMarks()
    ensures forall t: Token | Punctuation(t) :: Marks(TokenText(t)) == 0
  {
    forall t: Token | Punctuation(t) ensures Marks(TokenText(t)) == 0 { MarksNone(TokenText(t)); }
  }

  lemma {:induction false} ValueMarks(v: Value, rest: Tokens)
    ensures TokenMarks(ValueTokens(v, rest)) == 2 * ValueStrings(v) + Inner(v) + TokenMarks(rest)
    decreases v, 1
  {
    PunctuationMarks();
    match v
    case List(items) => ItemMarks(items, true, rest);
    case Obj(pairs) => PairMarks(pairs, true, rest);
    case _ => ScalarMarks(v);
  }

  lemma {:induction false} ItemMarks(items: Values, first: bool, rest: Tokens)
    ensures TokenMarks(ItemTokens(items, first, rest)) == 2 * ItemStrings(items) + InnerItems(items) + TokenMarks(rest)
    decreases items, 0
  {
    PunctuationMarks();
    if items.Cons? {
      ItemMarks(items.tail, false, rest);
      ValueMarks(items.head, ItemTokens(items.tail, false, rest));
    }
  }

  lemma {:induction false} PairMarks(pairs: Pairs, first: bool, rest: Tokens)
    ensures TokenMarks(PairTokens(pairs, first, rest)) == 2 * PairStrings(pairs) + InnerPairs(pairs) + TokenMarks(rest)
    decreases pairs, 0
  {
    PunctuationMarks();
    if pairs.Pair? {
      var value := ValueTokens(pairs.value, PairTokens(pairs.tail, false, rest));
      PairMarks(pairs.tail, false, rest);
      ValueMarks(pairs.value, PairTokens(pairs.tail, false, rest));
      MarksQuote(pairs.key);
      assert TokenMarks(Next(Colon, value)) == TokenMarks(value);
      assert TokenMarks(Next(Scalar(STRING, Quote(pairs.key)), Next(Colon, value)))
        == 2 + Marks(pairs.key) + TokenMarks(value);
    }
  }

  lemma {:induction false} InnerNone(v: Value)
    ensures Inner(v) == 0 <==> Tame(v)
    decreases v, 1
  {
    match v
    case Str(s) => MarksNone(s);
    case List(items) => InnerNoneItems(items);
    case Obj(pairs) => InnerNonePairs(pairs);
    case _ =>
  }

  lemma {:induction false} InnerNoneItems(items: Values)
    ensures InnerItems(items) == 0 <==> TameItems(items)
    decreases items, 0
  {
    if items.Cons? {
      InnerNone(items.head);
      InnerNoneItems(items.tail);
    }
  }

  lemma {:induction false} InnerNonePairs(pairs: Pairs)
    ensures InnerPairs(pairs) == 0 <==> TamePairs(pairs)
    decreases pairs, 0
  {
    if pairs.Pair? {
      MarksNone(pairs.key);
      InnerNone(pairs.value);
      InnerNonePairs(pairs.tail);
    }
  }

  // ---- What a node that means a value has in common with it ------------------------------------

  /** The total length of the keys in a node. */
  function KeyChars(node: Node): nat
    decreases node, 1
  {
    match node
    case Leaf(_, _) => 0
    case ListNode(items) => KeyCharsIn(items)
    case ObjectNode(entries) => KeyCharsOf(entries)
  }

  function KeyCharsIn(items: Nodes): nat
    decreases items, 0
  {
    if items.NoNodes? then 0 else KeyCharsIn(items.init) + KeyChars(items.last)
  }

  function KeyCharsOf(entries: Entries): nat
    decreases entries, 0
  {
    if entries.NoEntries? then 0 else KeyCharsOf(entries.init) + |entries.key| + KeyChars(entries.value)
  }

  /** The total length of the keys of a value, as they are or as they are written. */
  function KeyLength(v: Value, written: bool): nat {
    match v
    case List(items) => KeyLengthIn(items, written)
    case Obj(pairs) => KeyLengthOf(pairs, written)
    case _ => 0
  }

  function KeyLengthIn(items: Values, written: bool): nat {
    if items.NoValues? then 0 else KeyLength(items.head, written) + KeyLengthIn(items.tail, written)
  }

  function KeyLengthOf(pairs: Pairs, written: bool): nat {
    if pairs.NoPairs? then 0
    else
      (if written then |Escape(pairs.key)| else |pairs.key|)
      + KeyLength(pairs.value, written) + KeyLengthOf(pairs.tail, written)
  }

  lemma {:induction false} CountFirst(nodes: Nodes)
    requires nodes.Snoc?
    ensures StringsIn(nodes) == Strings(First(nodes)) + StringsIn(ButFirst(nodes))
    ensures KeyCharsIn(nodes) == KeyChars(First(nodes)) + KeyCharsIn(ButFirst(nodes))
  {
    if nodes.init.Snoc? { CountFirst(nodes.init); }
  }

  lemma {:induction false} CountKey(entries: Entries, key: string)
    requires HasKey(entries, key)
    ensures StringsOf(entries) == 1 + Strings(Get(entries, key)) + StringsOf(Without(entries, key))
    ensures KeyCharsOf(entries) == |key| + KeyChars(Get(entries, key)) + KeyCharsOf(Without(entries, key))
  {
    if entries.key != key { CountKey(entries.init, key); }
  }

  lemma {:induction false} MeansCounts(node: Node, v: Value)
    requires Means(node, v)
    ensures Strings(node) == ValueStrings(v) && KeyChars(node) == KeyLength(v, false)
    decreases v, 1
  {
    match v
    case List(items) => MeansCountsItems(node.items, items);
    case Obj(pairs) => MeansCountsPairs(node.entries, pairs);
    case _ =>
  }

  lemma {:induction false} MeansCountsItems(nodes: Nodes, items: Values)
    requires MeansItems(nodes, items)
    ensures StringsIn(nodes) == ItemStrings(items) && KeyCharsIn(nodes) == KeyLengthIn(items, false)
    decreases items, 0
  {
    if items.Cons? {
      CountFirst(nodes);
      MeansCounts(First(nodes), items.head);
      MeansCountsItems(ButFirst(nodes), items.tail);
    }
  }

  lemma {:induction false} MeansCountsPairs(entries: Entries, pairs: Pairs)
    requires MeansPairs(entries, pairs)
    ensures StringsOf(entries) == PairStrings(pairs) && KeyCharsOf(entries) == KeyLengthOf(pairs, false)
    decreases pairs, 0
  {
    if pairs.Pair? {
      CountKey(entries, pairs.key);
      MeansCounts(Get(entries, pairs.key), pairs.value);
      MeansCountsPairs(Without(entries, pairs.key), pairs.tail);
    }
  }

  lemma {:induction false} NodeKeys(v: Value)
    ensures KeyChars(NodeOf(v)) == KeyLength(v, true)
    decreases v, 1
  {
    match v
    case List(items) => NodeKeysItems(NoNodes, items);
    case Obj(pairs) => NodeKeysPairs(NoEntries, pairs);
    case _ =>
  }

  lemma {:induction false} NodeKeysItems(init: Nodes, items: Values)
    ensures KeyCharsIn(AddItems(init, items)) == KeyCharsIn(init) + KeyLengthIn(items, true)
    decreases items, 0
  {
    if items.Cons? {
      NodeKeys(items.head);
      NodeKeysItems(Snoc(init, NodeOf(items.head)), items.tail);
    }
  }

  lemma {:induction false} NodeKeysPairs(init: Entries, pairs: Pairs)
    ensures KeyCharsOf(AddPairs(init, pairs)) == KeyCharsOf(init) + KeyLengthOf(pairs, true)
    decreases pairs, 0
  {
    if pairs.Pair? {
      NodeKeys(pairs.value);
      NodeKeysPairs(Entry(init, Escape(pairs.key), NodeOf(pairs.value)), pairs.tail);
    }
  }

  /** Keys that are no longer written than they are have nothing to escape. */
  lemma {:induction false} PlainKeys(v: Value)
    ensures KeyLength(v, false) <= KeyLength(v, true)
    ensures KeyLength(v, false) == KeyLength(v, true) && Clean(v) && Tame(v) ==> Faithful(v)
    decreases v, 1
  {
    match v
    case List(items) => PlainKeysItems(items);
    case Obj(pairs) => PlainKeysPairs(NoEntries, pairs);
    case _ =>
  }

  lemma {:induction false} PlainKeysItems(items: Values)
    ensures KeyLengthIn(items, false) <= KeyLengthIn(items, true)
    ensures KeyLengthIn(items, false) == KeyLengthIn(items, true) && CleanItems(items) && TameItems(items) ==>
      FaithfulItems(items)
    decreases items, 0
  {
    if items.Cons? {
      PlainKeys(items.head);
      PlainKeysItems(items.tail);
    }
  }

  lemma {:induction false} PlainKeysPairs(init: Entries, pairs: Pairs)
    ensures KeyLengthOf(pairs, false) <= KeyLengthOf(pairs, true)
    ensures KeyLengthOf(pairs, false) == KeyLengthOf(pairs, true) && CleanPairs(init, pairs) && TamePairs(pairs) ==>
      FaithfulPairs(pairs) && Disjoint(init, pairs)
    decreases pairs, 0
  {
    if pairs.Pair? {
      var next := Entry(init, Escape(pairs.key), NodeOf(pairs.value));
      PlainEscape(pairs.key);
      PlainKeys(pairs.value);
      PlainKeysPairs(next, pairs.tail);
      if Disjoint(next, pairs.tail) { DisjointFrom(init, Escape(pairs.key), NodeOf(pairs.value), pairs.tail); }
    }
  }

  lemma {:induction false} DisjointFrom(init: Entries, key: string, node: Node, pairs: Pairs)
    requires Disjoint(Entry(init, key, node), pairs)
    ensures Disjoint(init, pairs) && !KeyIn(pairs, key)
  {
    if pairs.Pair? { DisjointFrom(init, key, node, pairs.tail); }
  }

  // ---- The round trip -------------------------------------------------------------------------

  /**
   * However the printed tokens of a value are spaced, parsing them gives the value back exactly
   * when no string has a quotation mark in it, no key has a character to escape, and no object
   * has a key twice.
   */
  lemma ParsesBackIff(v: Value, l: Layout)
    requires BlankGaps(l) && Erase(l) == ValueTokens(v, End)
    ensures Parse(LayoutText(l)).Success? && Means(Parse(LayoutText(l)).value, v) <==> Faithful(v)
  {
    var r := Parse(LayoutText(l));
    if r.Success? && Means(r.value, v) {
      ParseConserves(LayoutText(l));
      LayoutMarks(l);
      ValueMarks(v, End);
      MeansCounts(r.value, v);
      InnerNone(v);
      TameParse(v, l);
      NodeKeys(v);
      PlainKeys(v);
    }
    if Faithful(v) {
      FaithfulTame(v);
      FaithfulClean(v);
      TameParse(v, l);
      FaithfulMeans(v);
    }
  }

  /** For one: the string of a single quotation mark does not come back. */
  lemma QuotationMarkIsLost()
    ensures var r := Parse(Canonical(Str("\"")));
      !(r.Success? && Means(r.value, Str("\"")))
  {
    var v := Str("\"");
    assert v.s[0] == '"' && !QuoteFree(v.s);
    TightIsCompact(ValueTokens(v, End));
    ParsesBackIff(v, Tight(ValueTokens(v, End)));
  }

  function Tight(tokens: Tokens): Layout {
    if tokens.End? then Last("") else Spaced("", tokens.token, Tight(tokens.rest))
  }

  lemma {:induction false} TightIsCompact(tokens: Tokens)
    ensures BlankGaps(Tight(tokens)) && Erase(Tight(tokens)) == tokens
    ensures LayoutText(Tight(tokens)) == Compact(tokens)
  {
    if tokens.Next? {
      TightIsCompact(tokens.rest);
      assert "" + TokenText(tokens.token) == TokenText(tokens.token);
    }
  }

  /** Serializing a value and parsing the output gives the value back: exactly when. */
  lemma SerializeThenParse(v: Value)
    ensures (var f := Fmt.Write(Fmt.Fresh, v);
      !f.thrown && Parse(f.out).Success? && Means(Parse(f.out).value, v)) <==> Fmt.Uniform(v) && Faithful(v)
  {
    Fmt.SerializesIffUniform(v);
    TightIsCompact(ValueTokens(v, End));
    ParsesBackIff(v, Tight(ValueTokens(v, End)));
  }
}
