module JsonFormatters {
  // The JSON formatter: a stack of states that decides where a value may stand and where a comma
  // is due, and the serializer that drives it over a value.

  import opened JsonText

  datatype State = VALUE | LIST | LIST_VALUE | OBJECT | OBJECT_VALUE | KEY_STARTED | KEY_ADDED | KEY_ENDED
  datatype Stack = Empty | On(below: Stack, top: State)

  /** `thrown`: an exception has ended the serialization. Reading the top of an empty stack counts. */
  datatype Formatter = Formatter(stack: Stack, out: string, thrown: bool)

  const Fresh := Formatter(On(Empty, VALUE), [], false)

  function Top(f: Formatter): State { if f.stack.On? then f.stack.top else KEY_ADDED }

  function Thrown(f: Formatter): Formatter { f.(thrown := true) }

  function Put(f: Formatter, text: string): Formatter { f.(out := f.out + text) }

  function Push(f: Formatter, s: State): Formatter { f.(stack := On(f.stack, s)) }

  function Replace(f: Formatter, s: State): Formatter
    requires f.stack.On?
  {
    f.(stack := On(f.stack.below, s))
  }

  function MaybeComma(f: Formatter): Formatter {
    if Top(f) == LIST_VALUE || Top(f) == OBJECT_VALUE then Put(f, ",") else f
  }

  predicate TakesValue(s: State) { s == VALUE || s == LIST || s == LIST_VALUE || s == KEY_ENDED }

  predicate TakesKey(s: State) { s == OBJECT || s == OBJECT_VALUE }

  function ValueAdded(f: Formatter): Formatter
    requires f.stack.On?
  {
    match f.stack.top
    case LIST => Replace(f, LIST_VALUE)
    case OBJECT => Replace(f, OBJECT_VALUE)
    case VALUE => f.(stack := f.stack.below)
    case KEY_ENDED => f.(stack := f.stack.below)
    case LIST_VALUE => f
    case OBJECT_VALUE => f
    case _ => Thrown(f)
  }

  function PutScalar(f: Formatter, text: string): Formatter {
    if !TakesValue(Top(f)) then Thrown(f) else ValueAdded(Put(MaybeComma(f), text))
  }

  function PutString(f: Formatter, s: string): Formatter {
    if Top(f) == KEY_STARTED && f.stack.On? then Replace(Put(f, Quote(s)), KEY_ADDED)
    else PutScalar(f, Quote(s))
  }

  function StartList(f: Formatter): Formatter {
    if !TakesValue(Top(f)) then Thrown(f) else Push(Put(MaybeComma(f), "["), LIST)
  }

  function EndList(f: Formatter): Formatter {
    if Top(f) != LIST && Top(f) != LIST_VALUE then Thrown(f) else ValueAdded(Put(f, "]"))
  }

  function StartObject(f: Formatter): Formatter {
    if !TakesValue(Top(f)) then Thrown(f) else Push(Put(MaybeComma(f), "{"), OBJECT)
  }

  function EndObject(f: Formatter): Formatter {
    if !TakesKey(Top(f)) then Thrown(f) else ValueAdded(Put(f, "}"))
  }

  function StartPairKey(f: Formatter): Formatter {
    if !TakesKey(Top(f)) then Thrown(f) else Push(MaybeComma(f), KEY_STARTED)
  }

  function EndPairKey(f: Formatter): Formatter {
    if Top(f) != KEY_ADDED || f.stack.Empty? then Thrown(f) else Replace(Put(f, ":"), KEY_ENDED)
  }

  function EndPair(f: Formatter): Formatter {
    if !TakesKey(Top(f)) then Thrown(f) else ValueAdded(f)
  }

  // ---- The serializer -------------------------------------------------------------------------

  function Write(f: Formatter, v: Value): Formatter
    decreases v, 1
  {
    if f.thrown then f
    else
      match v
      case List(items) =>
        var g := WriteItems(StartList(f), items);
        if g.thrown then g else EndList(g)
      case Obj(pairs) =>
        var g := WritePairs(StartObject(f), pairs);
        if g.thrown then g else EndObject(g)
      case Str(s) => PutString(f, s)
      case _ => PutScalar(f, ScalarOf(v).text)
  }

  function WriteItems(f: Formatter, items: Values): Formatter
    decreases items, 0
  {
    match items
    case NoValues => f
    case Cons(v, tail) => WriteItems(Write(f, v), tail)
  }

  function WriteKey(f: Formatter, key: string): Formatter {
    if f.thrown then f
    else
      var g := StartPairKey(f);
      if g.thrown then g else
      var h := PutString(g, key);
      if h.thrown then h else EndPairKey(h)
  }

  function WritePairs(f: Formatter, pairs: Pairs): Formatter
    decreases pairs, 0
  {
    match pairs
    case NoPairs => f
    case Pair(k, v, tail) =>
      var g := Write(WriteKey(f, k), v);
      WritePairs(if g.thrown then g else EndPair(g), tail)
  }

  // ---- What it does ---------------------------------------------------------------------------

  /** No list is an element next to or inside an object directly, nor the other way round. */
  predicate Uniform(v: Value) {
    match v
    case List(items) => UniformItems(items)
    case Obj(pairs) => UniformPairs(pairs)
    case _ => true
  }

  predicate UniformItems(items: Values) {
    match items
    case NoValues => true
    case Cons(v, tail) => !v.Obj? && Uniform(v) && UniformItems(tail)
  }

  predicate UniformPairs(pairs: Pairs) {
    match pairs
    case NoPairs => true
    case Pair(_, v, tail) => !v.List? && Uniform(v) && UniformPairs(tail)
  }

  /** A place a value is expected at: the start, a list, or after a key of an object. */
  predicate AtValue(f: Formatter) {
    && !f.thrown && f.stack.On? && TakesValue(f.stack.top)
    && (f.stack.top == KEY_ENDED ==> f.stack.below.On? && TakesKey(f.stack.below.top))
  }

  predicate InList(f: Formatter) { !f.thrown && f.stack.On? && (f.stack.top == LIST || f.stack.top == LIST_VALUE) }

  predicate InObject(f: Formatter) { !f.thrown && f.stack.On? && TakesKey(f.stack.top) }

  /** Where writing `v` at a place of state `top` leads: on in the list, or on in the object. */
  predicate LeadsOn(top: State, v: Value, g: Formatter) {
    && !g.thrown
    && (top == LIST || top == LIST_VALUE ==>
          if v.Obj? then InObject(g) else g.stack.On? && g.stack.top == LIST_VALUE)
    && (top == KEY_ENDED ==> if v.List? then InList(g) else InObject(g))
  }

  lemma {:induction false} ThrownItemsStay(f: Formatter, items: Values)
    requires f.thrown
    ensures WriteItems(f, items) == f
  {
    if items.Cons? { ThrownItemsStay(f, items.tail); }
  }

  lemma {:induction false} ThrownPairsStay(f: Formatter, pairs: Pairs)
    requires f.thrown
    ensures WritePairs(f, pairs) == f
  {
    if pairs.Pair? { ThrownPairsStay(f, pairs.tail); }
  }

  /** From any place for a value: writing throws exactly when the value is not uniform. */
  lemma {:induction false} WriteControl(f: Formatter, v: Value)
    requires AtValue(f)
    ensures if Uniform(v) then LeadsOn(f.stack.top, v, Write(f, v)) else Write(f, v).thrown
    decreases v, 1
  {
    match v
    case List(items) =>
      ItemsControl(StartList(f), items);
    case Obj(pairs) =>
      PairsControl(StartObject(f), pairs);
    case Str(_) =>
    case _ =>
  }

  lemma {:induction false} ItemsControl(f: Formatter, items: Values)
    requires InList(f)
    ensures InList(WriteItems(f, items)) <==> UniformItems(items)
    decreases items, 0
  {
    match items
    case NoValues =>
    case Cons(v, tail) =>
      var g := Write(f, v);
      WriteControl(f, v);
      if g.thrown { ThrownItemsStay(g, tail); }
      else if v.Obj? { NothingAfterObject(g, tail); }
      else { ItemsControl(g, tail); }
  }

  /** After an object in a list nothing can follow, and the list cannot end. */
  lemma {:induction false} NothingAfterObject(f: Formatter, items: Values)
    requires InObject(f)
    ensures !InList(WriteItems(f, items))
  {
    if items.Cons? {
      var v := items.head;
      if v.List? { ThrownItemsStay(StartList(f), v.items); }
      if v.Obj? { ThrownPairsStay(StartObject(f), v.pairs); }
      ThrownItemsStay(Write(f, v), items.tail);
    }
  }

  lemma KeyWritten(f: Formatter, key: string)
    requires InObject(f)
    ensures var g := WriteKey(f, key);
      && AtValue(g) && g.stack.top == KEY_ENDED && g.stack.below == f.stack
      && g.out == f.out + Lead(f.stack.top) + Quote(key) + ":"
  {
    assert MaybeComma(f).out == f.out + Lead(f.stack.top);
  }

  lemma {:induction false} PairsControl(f: Formatter, pairs: Pairs)
    requires InObject(f)
    ensures if UniformPairs(pairs) then InObject(WritePairs(f, pairs)) else WritePairs(f, pairs).thrown
    decreases pairs, 0
  {
    match pairs
    case NoPairs =>
    case Pair(k, v, tail) =>
      var g := WriteKey(f, k);
      KeyWritten(f, k);
      WriteControl(g, v);
      var h := Write(g, v);
      var e := if h.thrown then h else EndPair(h);
      if e.thrown { ThrownPairsStay(e, tail); } else { PairsControl(e, tail); }
  }

  function Lead(s: State): string { if s == LIST_VALUE || s == OBJECT_VALUE then "," else "" }

  lemma Glue(a: string, b: string, c: string)
    ensures (a + b) + c == a + (b + c)
  {
  }

  lemma ScalarText(f: Formatter, v: Value, rest: Tokens)
    requires AtValue(f) && !v.List? && !v.Obj?
    ensures Write(f, v).out + Compact(rest) == f.out + Lead(f.stack.top) + Compact(ValueTokens(v, rest))
  {
    ScalarOut(f, v);
    Glue(f.out + Lead(f.stack.top), ScalarOf(v).text, Compact(rest));
  }

  lemma ScalarOut(f: Formatter, v: Value)
    requires AtValue(f) && !v.List? && !v.Obj?
    ensures Write(f, v).out == f.out + Lead(f.stack.top) + ScalarOf(v).text
  {
    assert MaybeComma(f).out == f.out + Lead(f.stack.top);
  }

  lemma Started(f: Formatter)
    requires AtValue(f)
    ensures InList(StartList(f)) && StartList(f).stack.top == LIST
    ensures InObject(StartObject(f)) && StartObject(f).stack.top == OBJECT
    ensures StartList(f).out == f.out + Lead(f.stack.top) + "["
    ensures StartObject(f).out == f.out + Lead(f.stack.top) + "{"
  {
    assert MaybeComma(f).out == f.out + Lead(f.stack.top);
  }

  lemma Ended(f: Formatter, v: Value)
    requires AtValue(f) && Uniform(v)
    ensures v.List? ==> Write(f, v).out == WriteItems(StartList(f), v.items).out + "]"
    ensures v.Obj? ==> Write(f, v).out == WritePairs(StartObject(f), v.pairs).out + "}"
  {
    match v
    case List(items) => ItemsControl(StartList(f), items);
    case Obj(pairs) => PairsControl(StartObject(f), pairs);
    case _ =>
  }

  /** What is written where it is written. */
  lemma {:induction false} WriteText(f: Formatter, v: Value, rest: Tokens)
    requires AtValue(f) && Uniform(v)
    ensures Write(f, v).out + Compact(rest) == f.out + Lead(f.stack.top) + Compact(ValueTokens(v, rest))
    decreases v, 1
  {
    Started(f);
    Ended(f, v);
    match v
    case List(items) =>
      ItemsText(StartList(f), items, rest);
      Glue(f.out + Lead(f.stack.top), "[", Compact(ItemTokens(items, true, rest)));
    case Obj(pairs) =>
      PairsText(StartObject(f), pairs, rest);
      Glue(f.out + Lead(f.stack.top), "{", Compact(PairTokens(pairs, true, rest)));
    case _ =>
      ScalarText(f, v, rest);
  }

  lemma {:induction false} ItemsText(f: Formatter, items: Values, rest: Tokens)
    requires InList(f) && UniformItems(items)
    ensures WriteItems(f, items).out + "]" + Compact(rest)
      == f.out + Compact(ItemTokens(items, f.stack.top == LIST, rest))
    decreases items, 0
  {
    match items
    case NoValues => Glue(f.out, "]", Compact(rest));
    case Cons(v, tail) =>
      var after := ItemTokens(tail, false, rest);
      WriteControl(f, v);
      ItemsText(Write(f, v), tail, rest);
      WriteText(f, v, after);
      Glue(f.out, Lead(f.stack.top), Compact(ValueTokens(v, after)));
      assert "" + Compact(ValueTokens(v, after)) == Compact(ValueTokens(v, after));
  }

  lemma {:induction false} PairsText(f: Formatter, pairs: Pairs, rest: Tokens)
    requires InObject(f) && UniformPairs(pairs)
    ensures WritePairs(f, pairs).out + "}" + Compact(rest)
      == f.out + Compact(PairTokens(pairs, f.stack.top == OBJECT, rest))
    decreases pairs, 0
  {
    match pairs
    case NoPairs => Glue(f.out, "}", Compact(rest));
    case Pair(k, v, tail) =>
      var g := WriteKey(f, k);
      KeyWritten(f, k);
      WriteControl(g, v);
      var e := EndPair(Write(g, v));
      PairsText(e, tail, rest);
      var after := PairTokens(tail, false, rest);
      WriteText(g, v, after);
      assert WritePairs(f, pairs) == WritePairs(e, tail);
      PairText(f.out, Lead(f.stack.top), Quote(k), Compact(ValueTokens(v, after)));
      HeadText(f.stack.top == OBJECT, k, ValueTokens(v, after));
  }

  lemma HeadText(first: bool, key: string, value: Tokens)
    ensures Compact(Separated(first, Next(Scalar(STRING, Quote(key)), Next(Colon, value))))
      == (if first then "" else ",") + (Quote(key) + (":" + Compact(value)))
  {
    assert Compact(Next(Colon, value)) == ":" + Compact(value);
    var pair := Next(Scalar(STRING, Quote(key)), Next(Colon, value));
    assert Compact(pair) == Quote(key) + (":" + Compact(value));
    assert "" + Compact(pair) == Compact(pair);
  }

  lemma PairText(out: string, lead: string, key: string, value: string)
    ensures out + lead + key + ":" + "" + value == out + (lead + (key + (":" + value)))
  {
  }

  /**
   * Serializing completes exactly when no list is nested directly with an object, in either
   * order, and then the output is the canonical text of the value.
   */
  lemma SerializesIffUniform(v: Value)
    ensures !Write(Fresh, v).thrown <==> Uniform(v)
    ensures Uniform(v) ==> Write(Fresh, v).out == Canonical(v)
  {
    WriteControl(Fresh, v);
    if Uniform(v) { WriteText(Fresh, v, End); }
    assert Write(Fresh, v).out + Compact(End) == Write(Fresh, v).out;
  }

  /** For one: a list as a member of an object. */
  lemma ListInObjectThrows(key: string)
    ensures Write(Fresh, Obj(Pair(key, List(NoValues), NoPairs))).thrown
  {
    SerializesIffUniform(Obj(Pair(key, List(NoValues), NoPairs)));
  }

  /**
   * A second value on the same formatter, a scalar: it is refused, except after a list, whose ended
   * frame takes it.
   */
  lemma SecondValueIff(v: Value, w: Value)
    requires Uniform(v) && !w.List? && !w.Obj?
    ensures Write(Write(Fresh, v), w).thrown <==> !v.List?
    ensures v.List? ==> Write(Write(Fresh, v), w).out == Canonical(v) + "," + ScalarOf(w).text
  {
    if v.List? {
      AfterList(v);
      SerializesIffUniform(v);
      ScalarOut(Write(Fresh, v), w);
      WriteControl(Write(Fresh, v), w);
    } else if v.Obj? {
      PairsControl(StartObject(Fresh), v.pairs);
    }
  }

  lemma AfterList(v: Value)
    requires v.List? && Uniform(v)
    ensures AtValue(Write(Fresh, v)) && Write(Fresh, v).stack.top == LIST_VALUE
  {
    ItemsControl(StartList(Fresh), v.items);
  }

  // ---- The formatter and the serializer as they run -------------------------------------------

  class JSONSerializationFormatter {
    var state: Stack
    var output: string

    constructor ()
      ensures Contents() == Fresh
    {
      state, output := On(Empty, VALUE), [];
    }

    function Contents(): Formatter
      reads this
    {
      Formatter(state, output, false)
    }

    /** The formatter after an operation that threw, or did not. */
    function Outcome(threw: bool): Formatter
      reads this
    {
      Formatter(state, output, threw)
    }

    method AddComma()
      modifies this
      ensures Contents() == MaybeComma(old(Contents()))
    {
      if Top(Contents()) == LIST_VALUE || Top(Contents()) == OBJECT_VALUE { output := output + ","; }
    }

    method NoteValue() returns (threw: bool)
      requires state.On?
      modifies this
      ensures Outcome(threw) == ValueAdded(old(Contents()))
    {
      threw := false;
      match state.top {
        case LIST => state := On(state.below, LIST_VALUE);
        case OBJECT => state := On(state.below, OBJECT_VALUE);
        case VALUE => state := state.below;
        case KEY_ENDED => state := state.below;
        case LIST_VALUE =>
        case OBJECT_VALUE =>
        case _ => threw := true;
      }
    }

    /** Null, booleans and numbers. */
    method PutText(text: string) returns (threw: bool)
      modifies this
      ensures Outcome(threw) == PutScalar(old(Contents()), text)
    {
      if !TakesValue(Top(Contents())) { return true; }
      AddComma();
      output := output + text;
      threw := NoteValue();
    }

    method PutQuoted(s: string) returns (threw: bool)
      modifies this
      ensures Outcome(threw) == PutString(old(Contents()), s)
    {
      var key := state.On? && state.top == KEY_STARTED;
      if !key && !TakesValue(Top(Contents())) { return true; }
      AddComma();
      ghost var before := output;
      output := output + "\"";
      var i := 0;
      while i < |s|
        invariant 0 <= i <= |s| && state == old(state)
        invariant output + Escape(s[i..]) + "\"" == before + Quote(s)
      {
        assert s[i..][1..] == s[i + 1..];
        Glue(output, EscapeChar(s[i]), Escape(s[i + 1..]));
        output := output + EscapeChar(s[i]);
        i := i + 1;
      }
      assert output + Escape(s[i..]) == output;
      output := output + "\"";
      if key { state := On(state.below, KEY_ADDED); threw := false; } else { threw := NoteValue(); }
    }

    method OpenList() returns (threw: bool)
      modifies this
      ensures Outcome(threw) == StartList(old(Contents()))
    {
      if !TakesValue(Top(Contents())) { return true; }
      AddComma();
      output := output + "[";
      state := On(state, LIST);
      threw := false;
    }

    method CloseList() returns (threw: bool)
      modifies this
      ensures Outcome(threw) == EndList(old(Contents()))
    {
      if Top(Contents()) != LIST && Top(Contents()) != LIST_VALUE { return true; }
      output := output + "]";
      threw := NoteValue();
    }

    method OpenObject() returns (threw: bool)
      modifies this
      ensures Outcome(threw) == StartObject(old(Contents()))
    {
      if !TakesValue(Top(Contents())) { return true; }
      AddComma();
      output := output + "{";
      state := On(state, OBJECT);
      threw := false;
    }

    method CloseObject() returns (threw: bool)
      modifies this
      ensures Outcome(threw) == EndObject(old(Contents()))
    {
      if !TakesKey(Top(Contents())) { return true; }
      output := output + "}";
      threw := NoteValue();
    }

    method OpenPairKey() returns (threw: bool)
      modifies this
      ensures Outcome(threw) == StartPairKey(old(Contents()))
    {
      if !TakesKey(Top(Contents())) { return true; }
      AddComma();
      state := On(state, KEY_STARTED);
      threw := false;
    }

    method ClosePairKey() returns (threw: bool)
      modifies this
      ensures Outcome(threw) == EndPairKey(old(Contents()))
    {
      if Top(Contents()) != KEY_ADDED || state.Empty? { return true; }
      output := output + ":";
      state := On(state.below, KEY_ENDED);
      threw := false;
    }

    method ClosePair() returns (threw: bool)
      modifies this
      ensures Outcome(threw) == EndPair(old(Contents()))
    {
      if !TakesKey(Top(Contents())) { return true; }
      threw := NoteValue();
    }
  }

  /** Drives a formatter over a value; an exception ends it at once. */
  class Serializer {
    const formatter: JSONSerializationFormatter

    constructor (formatter: JSONSerializationFormatter)
      ensures this.formatter == formatter
    {
      this.formatter := formatter;
    }

    method WriteValue(v: Value) returns (threw: bool)
      modifies formatter
      ensures formatter.Outcome(threw) == Write(old(formatter.Contents()), v)
      decreases v, 1
    {
      match v
      case List(items) =>
        threw := formatter.OpenList();
        ghost var begun := formatter.Outcome(threw);
        if threw { ThrownItemsStay(begun, items); return; }
        threw := WriteList(items);
        if threw { return; }
        threw := formatter.CloseList();
      case Obj(pairs) =>
        threw := formatter.OpenObject();
        ghost var begun := formatter.Outcome(threw);
        if threw { ThrownPairsStay(begun, pairs); return; }
        threw := WriteObject(pairs);
        if threw { return; }
        threw := formatter.CloseObject();
      case Str(s) => threw := formatter.PutQuoted(s);
      case _ => threw := formatter.PutText(ScalarOf(v).text);
    }

    method WriteList(items: Values) returns (threw: bool)
      modifies formatter
      ensures formatter.Outcome(threw) == WriteItems(old(formatter.Contents()), items)
      decreases items, 0
    {
      var left := items;
      threw := false;
      while left.Cons? && !threw
        invariant left == items || left < items
        invariant WriteItems(formatter.Outcome(threw), left) == WriteItems(old(formatter.Contents()), items)
        decreases left
      {
        threw := WriteValue(left.head);
        left := left.tail;
      }
      if threw { ThrownItemsStay(formatter.Outcome(threw), left); }
    }

    method WriteObject(pairs: Pairs) returns (threw: bool)
      modifies formatter
      ensures formatter.Outcome(threw) == WritePairs(old(formatter.Contents()), pairs)
      decreases pairs, 0
    {
      var left := pairs;
      threw := false;
      while left.Pair? && !threw
        invariant left == pairs || left < pairs
        invariant WritePairs(formatter.Outcome(threw), left) == WritePairs(old(formatter.Contents()), pairs)
        decreases left
      {
        threw := WritePair(left.key, left.value);
        left := left.tail;
      }
      if threw { ThrownPairsStay(formatter.Outcome(threw), left); }
    }

    method WritePair(key: string, value: Value) returns (threw: bool)
      modifies formatter
      ensures var g := Write(WriteKey(old(formatter.Contents()), key), value);
        formatter.Outcome(threw) == if g.thrown then g else EndPair(g)
      decreases value, 2
    {
      threw := formatter.OpenPairKey();
      if threw { return; }
      threw := formatter.PutQuoted(key);
      if threw { return; }
      threw := formatter.ClosePairKey();
      if threw { return; }
      threw := WriteValue(value);
      if threw { return; }
      threw := formatter.ClosePair();
    }
  }
}
