module JsonGrammar {
  // The grammar of RFC 8259, without the white space it allows between tokens, as a relation
  // between texts and the values they denote; and which of the formatter's texts are in it.

  import opened Chars
  import opened JsonText
  import opened JsonFormatters

  // ---- The grammar ----------------------------------------------------------------------------

  /** Section 7: the character that an escape of two characters stands for. */
  predicate Stands(e: char, c: char) {
    || ((e == '"' || e == '\\' || e == '/') && c == e)
    || (e == 'b' && c as int == 0x08)
    || (e == 'f' && c as int == 0x0c)
    || (e == 'n' && c as int == 0x0a)
    || (e == 'r' && c as int == 0x0d)
    || (e == 't' && c as int == 0x09)
  }

  /** Section 7: the characters of a string that may stand for themselves. */
  predicate Plain(c: char) { c as int >= 0x20 && c != '"' && c != '\\' }

  /** Section 7: `t` is the inside of a string that denotes `s`. (The printer writes no \u escapes.) */
  predicate CharsDenote(t: string, s: string)
    decreases |t|
  {
    if t == "" || s == "" then t == s
    else if t[0] == '\\' then |t| > 1 && Stands(t[1], s[0]) && CharsDenote(t[2..], s[1..])
    else Plain(t[0]) && t[0] == s[0] && CharsDenote(t[1..], s[1..])
  }

  predicate Enclosed(text: string, open: char, close: char) {
    |text| > 1 && text[0] == open && text[|text| - 1] == close
  }

  function Inside(text: string): string
    requires |text| > 1
  {
    text[1..|text| - 1]
  }

  predicate StringDenotes(text: string, s: string) { Enclosed(text, '"', '"') && CharsDenote(Inside(text), s) }

  /** Section 6: no leading zeros. */
  predicate NaturalDenotes(text: string, n: int) {
    text != "" && AllDigits(text) && (text[0] == '0' ==> |text| == 1) && DigitsValue(text) == n
  }

  predicate IntDenotes(text: string, n: int) {
    if text != "" && text[0] == '-' then NaturalDenotes(text[1..], -n) else NaturalDenotes(text, n)
  }

  /** Sections 3 to 7: the text of a value. */
  ghost predicate Denotes(text: string, v: Value)
    decreases v, 1
  {
    match v
    case Null => text == "null"
    case Bool(b) => text == if b then "true" else "false"
    case Int(n) => IntDenotes(text, n)
    case Str(s) => StringDenotes(text, s)
    case List(items) => Enclosed(text, '[', ']') && ItemsDenote(Inside(text), items)
    case Obj(pairs) => Enclosed(text, '{', '}') && PairsDenote(Inside(text), pairs)
  }

  /** Section 5: values with a comma between any two. */
  ghost predicate ItemsDenote(text: string, items: Values)
    decreases items, 0
  {
    match items
    case NoValues => text == ""
    case Cons(v, NoValues) => Denotes(text, v)
    case Cons(v, tail) =>
      exists k | 0 <= k < |text| && text[k] == ',' :: Denotes(text[..k], v) && ItemsDenote(text[k + 1..], tail)
  }

  /** Section 4: a name, a colon and a value. */
  ghost predicate MemberDenotes(text: string, key: string, v: Value)
    decreases v, 2
  {
    exists k | 0 <= k < |text| && text[k] == ':' :: StringDenotes(text[..k], key) && Denotes(text[k + 1..], v)
  }

  ghost predicate PairsDenote(text: string, pairs: Pairs)
    decreases pairs, 0
  {
    match pairs
    case NoPairs => text == ""
    case Pair(key, v, NoPairs) => MemberDenotes(text, key, v)
    case Pair(key, v, tail) =>
      exists k | 0 <= k < |text| && text[k] == ',' ::
        MemberDenotes(text[..k], key, v) && PairsDenote(text[k + 1..], tail)
  }

  // ---- What the formatter escapes -------------------------------------------------------------

  /** A control character that has an escape of two characters. */
  predicate ShortEscape(c: char) {
    c as int == 0x08 || c as int == 0x09 || c as int == 0x0a || c as int == 0x0c || c as int == 0x0d
  }

  predicate Escapable(s: string) { forall i | 0 <= i < |s| :: s[i] as int >= 0x20 || ShortEscape(s[i]) }

  /** What is written between the quotation marks denotes the string, or with other controls nothing. */
  lemma {:induction false} EscapeDenotesIff(s: string, r: string)
    ensures CharsDenote(Escape(s), r) <==> r == s && Escapable(s)
    decreases |s|
  {
    if s != "" {
      var e, t := EscapeChar(s[0]), Escape(s[1..]);
      assert (e + t)[|e|..] == t;
      assert Escapable(s) <==> (s[0] as int >= 0x20 || ShortEscape(s[0])) && Escapable(s[1..]) by {
        if Escapable(s[1..]) {
          assert forall i | 0 < i < |s| :: s[i] == s[1..][i - 1];
        }
      }
      if r != "" {
        EscapeDenotesIff(s[1..], r[1..]);
        assert r == s <==> r[0] == s[0] && r[1..] == s[1..] by { assert [r[0]] + r[1..] == r && [s[0]] + s[1..] == s; }
        OneEscape(s[0], t, r);
      }
    }
  }

  lemma OneEscape(c: char, t: string, r: string)
    requires r != ""
    ensures CharsDenote(EscapeChar(c) + t, r) <==>
      (c as int >= 0x20 || ShortEscape(c)) && r[0] == c && CharsDenote(t, r[1..])
  {
    var text := EscapeChar(c) + t;
    if |EscapeChar(c)| == 2 { assert text[2..] == t; } else { assert text[1..] == t; }
  }

  /** A character the formatter never writes without a backslash before it. */
  predicate HasEscape(c: char) { c == '"' || c == '\\' || c == '/' || ShortEscape(c) }

  /** `t` writes `s` with an escape for every character that has one, and for no other. */
  predicate CharsSpell(t: string, s: string)
    decreases |t|
  {
    if t == "" || s == "" then t == s
    else if t[0] == '\\' then |t| > 1 && Stands(t[1], s[0]) && CharsSpell(t[2..], s[1..])
    else !HasEscape(t[0]) && t[0] == s[0] && CharsSpell(t[1..], s[1..])
  }

  /** What is written between the quotation marks, exactly. */
  lemma {:induction false} EscapeIff(t: string, s: string)
    ensures CharsSpell(t, s) <==> t == Escape(s)
    decreases |t|
  {
    if t != "" && s != "" {
      var e, rest := EscapeChar(s[0]), Escape(s[1..]);
      if t[0] == '\\' {
        if |t| > 1 {
          EscapeIff(t[2..], s[1..]);
          assert t == [t[0], t[1]] + t[2..];
          assert |e| == 2 ==> e + rest == [e[0], e[1]] + rest;
          if t == e + rest { assert |e| == 2; assert t[2..] == rest; }
        }
      } else {
        EscapeIff(t[1..], s[1..]);
        assert t == [t[0]] + t[1..];
        if t == e + rest { assert |e| == 1; assert t[1..] == rest; }
      }
    }
  }

  predicate ControlFree(v: Value) {
    match v
    case Str(s) => Escapable(s)
    case List(items) => ControlFreeItems(items)
    case Obj(pairs) => ControlFreePairs(pairs)
    case _ => true
  }

  predicate ControlFreeItems(items: Values) {
    items.Cons? ==> ControlFree(items.head) && ControlFreeItems(items.tail)
  }

  predicate ControlFreePairs(pairs: Pairs) {
    pairs.Pair? ==> Escapable(pairs.key) && ControlFree(pairs.value) && ControlFreePairs(pairs.tail)
  }

  // ---- What the accessors decode --------------------------------------------------------------

  lemma {:induction false} DecodesFrom(token: string, i: nat, s: string)
    requires 0 < i < |token| && CharsDenote(token[i..|token| - 1], s)
    ensures DecodeFrom(token, i) == s
    decreases |token| - i
  {
    var t := token[i..|token| - 1];
    if t != "" {
      assert t[0] == token[i];
      if t[0] == '\\' {
        assert t[1] == token[i + 1] && t[2..] == token[i + 2..|token| - 1];
        DecodesFrom(token, i + 2, s[1..]);
        assert s == [s[0]] + s[1..];
      } else {
        assert t[1..] == token[i + 1..|token| - 1];
        DecodesFrom(token, i + 1, s[1..]);
      }
    }
  }

  /** A string of the grammar decodes to what it denotes. */
  lemma DecodeDenoted(text: string, s: string)
    requires StringDenotes(text, s)
    ensures Decode(text) == s
  {
    DecodesFrom(text, 1, s);
  }

  /** An escape by number loses its backslash and its letter: "\u0041", which is "A", decodes to "0041". */
  lemma EscapeByNumberLost()
    ensures Decode(['"', '\\', 'u', '0', '0', '4', '1', '"']) == "0041"
  {
    var token := ['"', '\\', 'u', '0', '0', '4', '1', '"'];
    assert token[3..7] == "0041";
    assert CharsDenote("0041", "0041") by {
      assert CharsDenote("1", "1") && "41"[1..] == "1" && "041"[1..] == "41" && "0041"[1..] == "041";
      assert CharsDenote("41", "41");
      assert CharsDenote("041", "041");
    }
    DecodesFrom(token, 3, "0041");
  }

  // ---- The formatter's text, part by part -----------------------------------------------------

  function ItemsInside(items: Values): string {
    match items
    case NoValues => ""
    case Cons(v, NoValues) => Canonical(v)
    case Cons(v, tail) => Canonical(v) + ("," + ItemsInside(tail))
  }

  function MemberInside(key: string, v: Value): string { Quote(key) + (":" + Canonical(v)) }

  function PairsInside(pairs: Pairs): string {
    match pairs
    case NoPairs => ""
    case Pair(key, v, NoPairs) => MemberInside(key, v)
    case Pair(key, v, tail) => MemberInside(key, v) + ("," + PairsInside(tail))
  }

  function After(first: bool, inside: string): string { if first || inside == "" then inside else "," + inside }

  lemma SeparatedText(first: bool, tokens: Tokens)
    ensures Compact(Separated(first, tokens)) == (if first then "" else ",") + Compact(tokens)
  {
  }

  lemma MemberText(key: string, v: Value, after: Tokens)
    requires Compact(ValueTokens(v, after)) == Canonical(v) + Compact(after)
    ensures Quote(key) + (":" + Compact(ValueTokens(v, after))) == MemberInside(key, v) + Compact(after)
  {
  }

  lemma Joins(first: bool, head: string, tail: string, close: string)
    requires head != ""
    ensures (if first then "" else ",") + (head + (After(false, tail) + close))
      == After(first, if tail == "" then head else head + ("," + tail)) + close
  {
    var lead := if first then "" else ",";
    if tail == "" {
      assert After(false, tail) + close == close;
      assert lead + (head + close) == (lead + head) + close;
      assert lead + head == After(first, head);
    } else {
      assert lead + (head + (("," + tail) + close)) == (lead + (head + ("," + tail))) + close;
      assert lead + (head + ("," + tail)) == After(first, head + ("," + tail));
    }
  }

  lemma CanonicalScalar(v: Value)
    requires !v.List? && !v.Obj?
    ensures Canonical(v) == ScalarOf(v).text
  {
    assert Compact(Tokens.Next(ScalarOf(v), End)) == ScalarOf(v).text + "";
  }

  lemma CanonicalNonempty(v: Value)
    ensures Canonical(v) != ""
  {
    if v.Int? {
      DecimalDigits(if v.n < 0 then -v.n else v.n);
      CanonicalScalar(v);
    }
  }

  lemma {:induction false} ValueParts(v: Value, rest: Tokens)
    ensures Compact(ValueTokens(v, rest)) == Canonical(v) + Compact(rest)
    decreases v, 1
  {
    match v
    case List(items) =>
      ItemsParts(items, true, rest);
      ItemsParts(items, true, End);
      Bracketed("[", ItemsInside(items), "]", rest);
    case Obj(pairs) =>
      PairsParts(pairs, true, rest);
      PairsParts(pairs, true, End);
      Bracketed("{", PairsInside(pairs), "}", rest);
    case _ => CanonicalScalar(v);
  }

  lemma CanonicalParts(v: Value)
    ensures v.List? ==> Canonical(v) == "[" + ItemsInside(v.items) + "]"
    ensures v.Obj? ==> Canonical(v) == "{" + PairsInside(v.pairs) + "}"
  {
    match v
    case List(items) =>
      ItemsParts(items, true, End);
      Bracketed("[", ItemsInside(items), "]", End);
    case Obj(pairs) =>
      PairsParts(pairs, true, End);
      Bracketed("{", PairsInside(pairs), "}", End);
    case _ =>
  }

  lemma Bracketed(open: string, inside: string, close: string, rest: Tokens)
    ensures open + (inside + (close + Compact(rest))) == (open + inside + close) + Compact(rest)
    ensures open + (inside + (close + Compact(End))) == open + inside + close
  {
  }

  lemma {:induction false} ItemsParts(items: Values, first: bool, rest: Tokens)
    ensures Compact(ItemTokens(items, first, rest)) == After(first, ItemsInside(items)) + ("]" + Compact(rest))
    ensures items.Cons? ==> ItemsInside(items) != ""
    decreases items, 0
  {
    match items
    case NoValues =>
    case Cons(v, tail) =>
      var after := ItemTokens(tail, false, rest);
      ValueParts(v, after);
      CanonicalNonempty(v);
      ItemsParts(tail, false, rest);
      SeparatedText(first, ValueTokens(v, after));
      Joins(first, Canonical(v), ItemsInside(tail), "]" + Compact(rest));
  }

  lemma {:induction false} PairsParts(pairs: Pairs, first: bool, rest: Tokens)
    ensures Compact(PairTokens(pairs, first, rest)) == After(first, PairsInside(pairs)) + ("}" + Compact(rest))
    ensures pairs.Pair? ==> PairsInside(pairs) != ""
    decreases pairs, 0
  {
    match pairs
    case NoPairs =>
    case Pair(key, v, tail) =>
      var after := PairTokens(tail, false, rest);
      ValueParts(v, after);
      PairsParts(tail, false, rest);
      HeadText(first, key, ValueTokens(v, after));
      MemberText(key, v, after);
      Joins(first, MemberInside(key, v), PairsInside(tail), "}" + Compact(rest));
  }

  // ---- Without controls, the text denotes the value -------------------------------------------

  lemma Wraps(open: char, inside: string, close: char)
    ensures Enclosed([open] + inside + [close], open, close) && Inside([open] + inside + [close]) == inside
  {
  }

  lemma Splits(a: string, c: char, b: string)
    ensures var text := a + ([c] + b); text[|a|] == c && text[..|a|] == a && text[|a| + 1..] == b
  {
  }

  lemma QuoteDenotes(s: string)
    ensures StringDenotes(Quote(s), s) <==> Escapable(s)
  {
    Wraps('"', Escape(s), '"');
    EscapeDenotesIff(s, s);
  }

  lemma IntTextDenotes(n: int)
    ensures IntDenotes(DecimalText(n), n)
  {
    DecimalDigits(if n < 0 then -n else n);
    if n >= 0 { assert IsDigit(Decimal(n)[0]); }
  }

  lemma MoreItems(a: string, b: string, items: Values)
    requires items.Cons? && items.tail.Cons? && Denotes(a, items.head) && ItemsDenote(b, items.tail)
    ensures ItemsDenote(a + ("," + b), items)
  {
    Splits(a, ',', b);
  }

  lemma MorePairs(a: string, b: string, pairs: Pairs)
    requires pairs.Pair? && pairs.tail.Pair? && MemberDenotes(a, pairs.key, pairs.value) && PairsDenote(b, pairs.tail)
    ensures PairsDenote(a + ("," + b), pairs)
  {
    Splits(a, ',', b);
  }

  lemma ScalarDenotes(v: Value)
    requires ControlFree(v) && !v.List? && !v.Obj?
    ensures Denotes(ScalarOf(v).text, v)
  {
    if v.Int? { IntTextDenotes(v.n); }
    if v.Str? { QuoteDenotes(v.s); }
  }

  lemma {:induction false} CanonicalDenotes(v: Value)
    requires ControlFree(v)
    ensures Denotes(Canonical(v), v)
    decreases v, 1
  {
    match v
    case List(items) =>
      CanonicalParts(v);
      Wraps('[', ItemsInside(items), ']');
      ItemsInsideDenote(items);
    case Obj(pairs) =>
      CanonicalParts(v);
      Wraps('{', PairsInside(pairs), '}');
      PairsInsideDenote(pairs);
    case _ =>
      CanonicalScalar(v);
      ScalarDenotes(v);
  }

  lemma {:induction false} ItemsInsideDenote(items: Values)
    requires ControlFreeItems(items)
    ensures ItemsDenote(ItemsInside(items), items)
    decreases items, 0
  {
    if items.Cons? {
      CanonicalDenotes(items.head);
      ItemsInsideDenote(items.tail);
      if items.tail.Cons? { MoreItems(Canonical(items.head), ItemsInside(items.tail), items); }
    }
  }

  lemma {:induction false} MemberInsideDenotes(key: string, v: Value)
    requires Escapable(key) && ControlFree(v)
    ensures MemberDenotes(MemberInside(key, v), key, v)
    decreases v, 2
  {
    QuoteDenotes(key);
    CanonicalDenotes(v);
    Splits(Quote(key), ':', Canonical(v));
  }

  lemma {:induction false} PairsInsideDenote(pairs: Pairs)
    requires ControlFreePairs(pairs)
    ensures PairsDenote(PairsInside(pairs), pairs)
    decreases pairs, 0
  {
    if pairs.Pair? {
      MemberInsideDenotes(pairs.key, pairs.value);
      PairsInsideDenote(pairs.tail);
      if pairs.tail.Pair? { MorePairs(MemberInside(pairs.key, pairs.value), PairsInside(pairs.tail), pairs); }
    }
  }

  // ---- No text of the grammar holds a control character ---------------------------------------

  predicate Clean(text: string) { forall i | 0 <= i < |text| :: text[i] as int >= 0x20 }

  lemma {:induction false} CharsAreClean(t: string, s: string)
    requires CharsDenote(t, s)
    ensures Clean(t)
    decreases |t|
  {
    if t != "" {
      if t[0] == '\\' {
        CharsAreClean(t[2..], s[1..]);
        assert forall i | 2 <= i < |t| :: t[i] == t[2..][i - 2];
      } else {
        CharsAreClean(t[1..], s[1..]);
        assert forall i | 1 <= i < |t| :: t[i] == t[1..][i - 1];
      }
    }
  }

  lemma CleanInside(text: string, open: char, close: char)
    requires Enclosed(text, open, close) && open as int >= 0x20 && close as int >= 0x20
    ensures Clean(text) <==> Clean(Inside(text))
  {
    assert forall i | 0 < i < |text| - 1 :: text[i] == Inside(text)[i - 1];
  }

  lemma CleanSplit(text: string, k: nat)
    requires k < |text| && text[k] as int >= 0x20
    ensures Clean(text) <==> Clean(text[..k]) && Clean(text[k + 1..])
  {
    assert forall i | 0 <= i < k :: text[i] == text[..k][i];
    assert forall i | k < i < |text| :: text[i] == text[k + 1..][i - (k + 1)];
  }

  lemma {:induction false} DenotedIsClean(text: string, v: Value)
    requires Denotes(text, v)
    ensures Clean(text)
    decreases v, 1
  {
    match v
    case List(items) =>
      CleanInside(text, '[', ']');
      ItemsAreClean(Inside(text), items);
    case Obj(pairs) =>
      CleanInside(text, '{', '}');
      PairsAreClean(Inside(text), pairs);
    case Int(n) => if text[0] == '-' { assert forall i | 1 <= i < |text| :: text[i] == text[1..][i - 1]; }
    case Str(s) => StringIsClean(text, s);
    case _ =>
  }

  lemma StringIsClean(text: string, s: string)
    requires StringDenotes(text, s)
    ensures Clean(text)
  {
    CleanInside(text, '"', '"');
    CharsAreClean(Inside(text), s);
  }

  lemma {:induction false} ItemsAreClean(text: string, items: Values)
    requires ItemsDenote(text, items)
    ensures Clean(text)
    decreases items, 0
  {
    if items.Cons? && items.tail.NoValues? {
      DenotedIsClean(text, items.head);
    } else if items.Cons? {
      var k :| 0 <= k < |text| && text[k] == ','
        && Denotes(text[..k], items.head) && ItemsDenote(text[k + 1..], items.tail);
      DenotedIsClean(text[..k], items.head);
      ItemsAreClean(text[k + 1..], items.tail);
      CleanSplit(text, k);
    }
  }

  lemma {:induction false} MemberIsClean(text: string, key: string, v: Value)
    requires MemberDenotes(text, key, v)
    ensures Clean(text)
    decreases v, 2
  {
    var k :| 0 <= k < |text| && text[k] == ':' && StringDenotes(text[..k], key) && Denotes(text[k + 1..], v);
    StringIsClean(text[..k], key);
    DenotedIsClean(text[k + 1..], v);
    CleanSplit(text, k);
  }

  lemma {:induction false} PairsAreClean(text: string, pairs: Pairs)
    requires PairsDenote(text, pairs)
    ensures Clean(text)
    decreases pairs, 0
  {
    if pairs.Pair? && pairs.tail.NoPairs? {
      MemberIsClean(text, pairs.key, pairs.value);
    } else if pairs.Pair? {
      var k :| 0 <= k < |text| && text[k] == ','
        && MemberDenotes(text[..k], pairs.key, pairs.value) && PairsDenote(text[k + 1..], pairs.tail);
      MemberIsClean(text[..k], pairs.key, pairs.value);
      PairsAreClean(text[k + 1..], pairs.tail);
      CleanSplit(text, k);
    }
  }

  // ---- Other controls are written as they are -------------------------------------------------

  lemma CleanParts(a: string, b: string)
    ensures Clean(a + b) <==> Clean(a) && Clean(b)
  {
    if Clean(a + b) {
      assert forall i | 0 <= i < |a| :: a[i] == (a + b)[i];
      assert forall i | 0 <= i < |b| :: b[i] == (a + b)[|a| + i];
    }
  }

  lemma {:induction false} CleanQuote(s: string)
    ensures Clean(Quote(s)) ==> Escapable(s)
  {
    CleanParts("\"" + Escape(s), "\"");
    CleanParts("\"", Escape(s));
    CleanEscape(s);
  }

  lemma {:induction false} CleanEscape(s: string)
    ensures Clean(Escape(s)) ==> Escapable(s)
    decreases |s|
  {
    if s != "" {
      CleanParts(EscapeChar(s[0]), Escape(s[1..]));
      CleanEscape(s[1..]);
      assert forall i | 0 < i < |s| :: s[i] == s[1..][i - 1];
      if Clean(EscapeChar(s[0])) && !ShortEscape(s[0]) {
        assert EscapeChar(s[0])[|EscapeChar(s[0])| - 1] == s[0];
      }
    }
  }

  lemma {:induction false} CleanIsControlFree(v: Value)
    requires Clean(Canonical(v))
    ensures ControlFree(v)
    decreases v, 1
  {
    CanonicalParts(v);
    match v
    case List(items) =>
      Wraps('[', ItemsInside(items), ']');
      CleanInside(Canonical(v), '[', ']');
      CleanItems(items);
    case Obj(pairs) =>
      Wraps('{', PairsInside(pairs), '}');
      CleanInside(Canonical(v), '{', '}');
      CleanPairs(pairs);
    case Str(s) =>
      CanonicalScalar(v);
      CleanQuote(s);
    case _ =>
  }

  lemma {:induction false} CleanItems(items: Values)
    requires Clean(ItemsInside(items))
    ensures ControlFreeItems(items)
    decreases items, 0
  {
    if items.Cons? {
      if items.tail.Cons? {
        CleanParts(Canonical(items.head), "," + ItemsInside(items.tail));
        CleanParts(",", ItemsInside(items.tail));
      } else {
        assert Clean("");
      }
      CleanIsControlFree(items.head);
      CleanItems(items.tail);
    }
  }

  lemma {:induction false} CleanMember(key: string, v: Value)
    requires Clean(MemberInside(key, v))
    ensures Escapable(key) && ControlFree(v)
    decreases v, 2
  {
    CleanParts(Quote(key), ":" + Canonical(v));
    CleanParts(":", Canonical(v));
    CleanQuote(key);
    CleanIsControlFree(v);
  }

  lemma {:induction false} CleanPairs(pairs: Pairs)
    requires Clean(PairsInside(pairs))
    ensures ControlFreePairs(pairs)
    decreases pairs, 0
  {
    if pairs.Pair? {
      if pairs.tail.Pair? {
        CleanParts(MemberInside(pairs.key, pairs.value), "," + PairsInside(pairs.tail));
        CleanParts(",", PairsInside(pairs.tail));
      } else {
        assert Clean("");
      }
      CleanMember(pairs.key, pairs.value);
      CleanPairs(pairs.tail);
    }
  }

  // ---- Exactly when what is written is JSON ---------------------------------------------------

  /**
   * The canonical text of a value is in the grammar, and then denotes it, exactly when no string and
   * no key has a control character other than those with an escape of two characters.
   */
  lemma CanonicalDenotesIff(v: Value)
    ensures Denotes(Canonical(v), v) <==> ControlFree(v)
    ensures (exists w :: Denotes(Canonical(v), w)) <==> ControlFree(v)
  {
    if ControlFree(v) { CanonicalDenotes(v); }
    if w :| Denotes(Canonical(v), w) {
      DenotedIsClean(Canonical(v), w);
      CleanIsControlFree(v);
    }
  }

  /** What the serializer writes is JSON for the value it was given, exactly when. */
  lemma SerializesToJson(v: Value)
    ensures !Write(Fresh, v).thrown && Denotes(Write(Fresh, v).out, v) <==> Uniform(v) && ControlFree(v)
  {
    SerializesIffUniform(v);
    CanonicalDenotesIff(v);
  }

  /** For one: U+0001 is written as it is, and the text is no JSON. */
  lemma RawControl()
    ensures var v := Str("\U{1}"); Uniform(v) && forall w :: !Denotes(Write(Fresh, v).out, w)
  {
    var v := Str("\U{1}");
    SerializesIffUniform(v);
    CanonicalDenotesIff(v);
    assert !Escapable(v.s) by { assert v.s[0] as int == 1; }
  }
}
