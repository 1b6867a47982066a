module RouteRules {
  // What the parser makes of a route is a route for the trie; and where that goes wrong.

  import opened Wrappers
  import opened Chars
  import opened PathMatchers
  import opened RouteParser
  import opened TrieSearch
  import opened TrieInsert
  import opened TrieRoutes

  /** The parameter type in force after the chunks of some parameters. */
  function TypeOf(seen: seq<string>): string {
    if seen == [] then "" else TypeAfter(TypeOf(seen[..|seen| - 1]), seen[|seen| - 1])
  }

  function ParsedAs(seen: seq<string>, chunk: string): Matcher {
    var m := if chunk == "" then None else ChunkMatcher(TypeOf(seen), chunk);
    if m.None? then Literal(chunk) else m.value
  }

  const PARSER_RULE: Rule := ParsedAs

  /** One chunk's matcher is the one the rule gives, and a literal leaves the type in force alone. */
  lemma ChunkFollows(typ: string, chunk: string, seen: seq<string>)
    requires chunk != "" && ChunkMatcher(typ, chunk).Some? && TypeOf(seen) == typ
    ensures var m := ChunkMatcher(typ, chunk).value;
            && m.chunk == chunk
            && (if m.Literal? then TypeAfter(typ, chunk) == typ
                else m == PARSER_RULE(seen, chunk) && TypeOf(seen + [chunk]) == TypeAfter(typ, chunk))
  {
    assert (seen + [chunk])[..|seen|] == seen;
  }

  lemma FollowsCons(rule: Rule, seen: seq<string>, m: Matcher, rest: seq<Matcher>)
    requires if m.Literal? then Follows(rule, seen, rest)
             else m == rule(seen, m.chunk) && Follows(rule, seen + [m.chunk], rest)
    ensures Follows(rule, seen, [m] + rest)
  {
    assert ([m] + rest)[1..] == rest;
  }

  lemma {:induction false} ReadChunksFollows(typ: string, s: string, i: nat, seen: seq<string>)
    requires i <= |s| && ReadChunks(typ, s, i).Some? && TypeOf(seen) == typ
    ensures Follows(PARSER_RULE, seen, ReadChunks(typ, s, i).value)
    decreases |s| - i
  {
    if i < |s| {
      if s[i] == SEP {
        ReadChunksFollows(typ, s, i + 1, seen);
      } else {
        var end := Find(s, i, SEP);
        var chunk := s[i..end];
        var m := ChunkMatcher(typ, chunk).value;
        ChunkFollows(typ, chunk, seen);
        ReadChunksFollows(TypeAfter(typ, chunk), s, end, if m.Literal? then seen else seen + [chunk]);
        FollowsCons(PARSER_RULE, seen, m, ReadChunks(TypeAfter(typ, chunk), s, end).value);
      }
    }
  }

  lemma ChunkHasNoSeparator(s: string, i: nat)
    requires i < |s|
    ensures SEP !in s[i..Find(s, i, SEP)]
  {
    var end := Find(s, i, SEP);
    assert forall k | 0 <= k < end - i :: s[i..end][k] == s[i + k];
  }

  lemma {:induction false} ReadChunksValid(typ: string, s: string, i: nat)
    requires i <= |s| && ReadChunks(typ, s, i).Some?
    ensures ValidChunks(ReadChunks(typ, s, i).value)
    decreases |s| - i
  {
    if i < |s| {
      if s[i] == SEP {
        ReadChunksValid(typ, s, i + 1);
      } else {
        var end := Find(s, i, SEP);
        ChunkHasNoSeparator(s, i);
        ReadChunksValid(TypeAfter(typ, s[i..end]), s, end);
      }
    }
  }

  /** A parsed route with distinct names is one the trie can hold, whatever it holds already. */
  lemma ParsedRouteValid(s: string)
    requires ReadRoute(s).Some? && ReadRoute(s).value != [] && FreshNames({}, ReadRoute(s).value)
    ensures ValidRoute(PARSER_RULE, ReadRoute(s).value)
  {
    ReadChunksFollows("", s, 0, []);
    ReadChunksValid("", s, 0);
  }

  predicate OwnType(chunk: string) { TypeAfter("", chunk) != "" }

  /** A type is in force exactly when some earlier parameter of the route has one: it is never reset. */
  lemma {:induction false} TypeInForceIff(seen: seq<string>)
    requires forall c | c in seen :: |c| >= 2 && c[1] == TYPE_START ==> OwnType(c)
    ensures TypeOf(seen) != "" <==> exists k :: 0 <= k < |seen| && OwnType(seen[k])
    decreases |seen|
  {
    if seen != [] {
      var before := seen[..|seen| - 1];
      TypeInForceIff(before);
      if OwnType(seen[|seen| - 1]) {
      } else if TypeOf(before) != "" {
        var k :| 0 <= k < |before| && OwnType(before[k]);
        assert OwnType(seen[k]);
      } else {
        forall k | 0 <= k < |seen| ensures !OwnType(seen[k]) {
          if k < |before| { assert before[k] == seen[k]; }
        }
      }
    }
  }

  lemma OneMore(typ: string, s: string, i: nat, end: nat, m: Matcher, rest: seq<Matcher>)
    requires i < end <= |s| && s[i] != SEP && Find(s, i, SEP) == end
    requires ChunkMatcher(typ, s[i..end]) == Some(m) && ReadChunks(TypeAfter(typ, s[i..end]), s, end) == Some(rest)
    ensures ReadChunks(typ, s, i) == Some([m] + rest)
  {
  }

  /** A parameter chunk of one letter, without a type of its own. */
  lemma PlainChunk(typ: string, c: char)
    requires ValidatorFor(typ).Some? && IsAlnum(c)
    ensures ChunkMatcher(typ, [PARAM, c]) == Some(Parameter([PARAM, c], [c], "", ValidatorFor(typ).value))
    ensures TypeAfter(typ, [PARAM, c]) == typ
  {
    var b := [PARAM, c];
    FindIs(b, 1, FILE_EXT, 2);
    assert b[1..2] == [c] && b[2..] == "";
  }

  lemma TypedA()
    ensures ChunkMatcher("", ":[int]a") == Some(Parameter(":[int]a", "a", "", IntText))
    ensures TypeAfter("", ":[int]a") == "int"
  {
    var a := ":[int]a";
    FindIs(a, 2, TYPE_END, 5);
    FindIs(a, 6, FILE_EXT, 7);
    assert a[2..5] == "int" && a[6..7] == "a" && a[7..] == "";
  }

  /** So a parameter without a type of its own is validated as the nearest typed parameter before it. */
  lemma TypeLeaks()
    ensures ReadRoute("/:[int]a/:b") ==
            Some([Parameter(":[int]a", "a", "", IntText)] + ([Parameter(":b", "b", "", IntText)] + []))
    ensures ReadRoute("/:b") == Some([Parameter(":b", "b", "", AnyText)] + [])
  {
    var s, r := "/:[int]a/:b", "/:b";
    TypedA();
    PlainChunk("int", 'b');
    PlainChunk("", 'b');
    FindIs(s, 9, SEP, 11);
    assert s[9..11] == ":b";
    OneMore("int", s, 9, 11, Parameter(":b", "b", "", IntText), []);
    FindIs(s, 1, SEP, 8);
    assert s[1..8] == ":[int]a";
    OneMore("", s, 1, 8, Parameter(":[int]a", "a", "", IntText), [Parameter(":b", "b", "", IntText)] + []);
    FindIs(r, 1, SEP, 3);
    assert r[1..3] == ":b";
    OneMore("", r, 1, 3, Parameter(":b", "b", "", AnyText), []);
  }

  // -------------------------------------------------------- routes read back

  /** One chunk of a route as it is written: a literal, or a parameter with a type or without. */
  datatype Piece = Text(text: string) | Plain(name: string, extension: string)
                 | Typed(kind: Validator, name: string, extension: string)

  function TypeText(kind: Validator): string {
    match kind
    case AnyText => ""
    case IntText => "int"
    case UintText => "uint"
  }

  function PieceText(piece: Piece): string {
    match piece
    case Text(text) => text
    case Plain(name, extension) => ":" + name + extension
    case Typed(kind, name, extension) => ":[" + TypeText(kind) + "]" + name + extension
  }

  predicate LetterOrDigit(c: char) { '0' <= c <= '9' || 'A' <= c <= 'Z' || 'a' <= c <= 'z' }

  /** Names are alphanumeric; an extension is a dot and something alphanumeric or dots after it, or nothing. */
  predicate GoodName(name: string, extension: string) {
    && name != "" && (forall k | 0 <= k < |name| :: LetterOrDigit(name[k]))
    && (extension != "" ==> extension[0] == '.' && |extension| > 1)
    && forall k | 0 <= k < |extension| :: LetterOrDigit(extension[k]) || extension[k] == '.'
  }

  predicate GoodPiece(piece: Piece) {
    match piece
    case Text(text) => text != "" && text[0] != PARAM && SEP !in text
    case Plain(name, extension) => GoodName(name, extension)
    case Typed(kind, name, extension) => kind != AnyText && GoodName(name, extension)
  }

  predicate GoodPieces(pieces: seq<Piece>) { forall k | 0 <= k < |pieces| :: GoodPiece(pieces[k]) }

  function KindAfter(kind: Validator, piece: Piece): Validator { if piece.Typed? then piece.kind else kind }

  /** What a piece is matched by when parameters have been of a kind before it. */
  function PieceMatcher(kind: Validator, piece: Piece): Matcher {
    match piece
    case Text(text) => Literal(text)
    case Plain(name, extension) => Parameter(PieceText(piece), name, extension, kind)
    case Typed(own, name, extension) => Parameter(PieceText(piece), name, extension, own)
  }

  function RouteText(pieces: seq<Piece>): string
    decreases |pieces|
  {
    if pieces == [] then "" else "/" + PieceText(pieces[0]) + RouteText(pieces[1..])
  }

  function RouteMatchers(kind: Validator, pieces: seq<Piece>): seq<Matcher>
    decreases |pieces|
  {
    if pieces == [] then []
    else [PieceMatcher(kind, pieces[0])] + RouteMatchers(KindAfter(kind, pieces[0]), pieces[1..])
  }

  /** A parameter chunk put together from its parts is read as those parts. */
  lemma ChunkComesBack(typ0: string, typ: string, typed: bool, name: string, extension: string)
    requires GoodName(name, extension) && (if typed then typ != "" && typ != "re" && TYPE_END !in typ else typ == typ0)
    ensures var chunk := (if typed then ":[" + typ + "]" else ":") + name + extension;
      && TypeAfter(typ0, chunk) == typ
      && ChunkMatcher(typ0, chunk) ==
           if ValidatorFor(typ).None? then None
           else Some(Parameter(chunk, name, extension, ValidatorFor(typ).value))
  {
    var front := if typed then ":[" + typ + "]" else ":";
    var chunk := front + name + extension;
    var n, e := |front|, |front| + |name|;
    assert chunk[n..e] == name && chunk[e..] == extension && chunk[0..|chunk|] == chunk;
    if typed { assert chunk[2..n - 1] == typ; } else { assert chunk[n] == name[0] && IsAlnum(name[0]); }
    forall k | n <= k < e ensures IsAlnum(chunk[k]) { assert chunk[k] == name[k - n]; }
    forall k | e <= k < |chunk| ensures chunk[k] == FILE_EXT || IsAlnum(chunk[k]) {
      assert chunk[k] == extension[k - e];
    }
    ParameterChunk(chunk, 0, n, e, |chunk|, typ0, typ);
    ChunkOpens(chunk, 0, n, |chunk|, typ0, typ);
    assert chunk[e..|chunk|] == extension;
  }

  ghost predicate ReadsAs(kind: Validator, piece: Piece) {
    var chunk := PieceText(piece);
    && chunk != "" && SEP !in chunk
    && ChunkMatcher(TypeText(kind), chunk) == Some(PieceMatcher(kind, piece))
    && TypeAfter(TypeText(kind), chunk) == TypeText(KindAfter(kind, piece))
  }

  lemma PlainComesBack(kind: Validator, name: string, extension: string)
    requires GoodName(name, extension)
    ensures ReadsAs(kind, Plain(name, extension))
  {
    ChunkComesBack(TypeText(kind), TypeText(kind), false, name, extension);
    NoSeparatorIn(":", name, extension);
  }

  lemma TypedComesBack(kind: Validator, own: Validator, name: string, extension: string)
    requires GoodName(name, extension) && own != AnyText
    ensures ReadsAs(kind, Typed(own, name, extension))
  {
    TypeTextIs(own);
    ChunkComesBack(TypeText(kind), TypeText(own), true, name, extension);
    NoSeparatorIn(":[" + TypeText(own) + "]", name, extension);
  }

  lemma TypeTextIs(kind: Validator)
    ensures var typ := TypeText(kind);
      && ValidatorFor(typ) == Some(kind) && typ != "re" && TYPE_END !in typ && SEP !in typ
      && (typ == "" <==> kind == AnyText)
  {
  }

  lemma PieceComesBack(kind: Validator, piece: Piece)
    requires GoodPiece(piece)
    ensures ReadsAs(kind, piece)
  {
    match piece
    case Text(_) =>
    case Plain(name, extension) => PlainComesBack(kind, name, extension);
    case Typed(own, name, extension) => TypedComesBack(kind, own, name, extension);
  }

  lemma NoSeparatorIn(front: string, name: string, extension: string)
    requires SEP !in front && GoodName(name, extension)
    ensures SEP !in front + name + extension
  {
  }

  /** The route without its empty chunks. */
  function Squeezed(s: string, i: nat): string
    requires i <= |s|
    decreases |s| - i
  {
    if i == |s| then ""
    else if s[i] == SEP then Squeezed(s, i + 1)
    else "/" + s[i..Find(s, i, SEP)] + Squeezed(s, Find(s, i, SEP))
  }

  /** A chunk that is read is a piece. */
  lemma ChunkIsPiece(kind: Validator, chunk: string) returns (piece: Piece)
    requires chunk != "" && SEP !in chunk && ChunkMatcher(TypeText(kind), chunk).Some?
    ensures GoodPiece(piece) && PieceText(piece) == chunk
  {
    if chunk[0] != PARAM { return Text(chunk); }
    var n := NameStart(chunk).value;
    var e := Find(chunk, n, FILE_EXT);
    NameIsGood(chunk[n..e], chunk[e..]);
    if n == 1 {
      assert chunk == ":" + chunk[1..e] + chunk[e..];
      return Plain(chunk[1..e], chunk[e..]);
    }
    var own := OwnKind(kind, chunk);
    TypedText(chunk, n, e);
    return Typed(own, chunk[n..e], chunk[e..]);
  }

  /** The type of a parameter chunk that has one. */
  lemma OwnKind(kind: Validator, chunk: string) returns (own: Validator)
    requires chunk != "" && ChunkMatcher(TypeText(kind), chunk).Some? && chunk[0] == PARAM
    requires NameStart(chunk) != Some(1)
    ensures own != AnyText && TypeText(own) == chunk[2..NameStart(chunk).value - 1]
  {
    var typ := chunk[2..NameStart(chunk).value - 1];
    assert TypeAfter(TypeText(kind), chunk) == typ;
    own := if typ == "int" then IntText else UintText;
  }

  lemma TypedText(chunk: string, n: nat, e: nat)
    requires 3 <= n <= e <= |chunk| && chunk[0] == PARAM && chunk[1] == TYPE_START && chunk[n - 1] == TYPE_END
    ensures chunk == ":[" + chunk[2..n - 1] + "]" + chunk[n..e] + chunk[e..]
  {
    assert chunk == chunk[..2] + chunk[2..n - 1] + chunk[n - 1..n] + chunk[n..e] + chunk[e..];
    assert chunk[..2] == ":[" && chunk[n - 1..n] == "]";
  }

  lemma NameIsGood(name: string, extension: string)
    requires name != "" && AllAlnum(name) && |extension| != 1 && ExtensionChars(extension)
    requires extension != "" ==> extension[0] == FILE_EXT
    ensures GoodName(name, extension)
  {
    forall k | 0 <= k < |name| ensures LetterOrDigit(name[k]) { assert IsAlnum(name[k]); }
    forall k | 0 <= k < |extension| ensures LetterOrDigit(extension[k]) || extension[k] == '.' {
      assert extension[k] == FILE_EXT || IsAlnum(extension[k]);
    }
  }

  /** What is read is read from pieces. */
  lemma {:induction false} ReadIsPieces(s: string, i: nat, kind: Validator) returns (pieces: seq<Piece>)
    requires i <= |s| && ReadChunks(TypeText(kind), s, i).Some?
    ensures GoodPieces(pieces) && RouteText(pieces) == Squeezed(s, i)
    decreases |s| - i
  {
    if i == |s| { return []; }
    if s[i] == SEP {
      pieces := ReadIsPieces(s, i + 1, kind);
      return;
    }
    var end := Find(s, i, SEP);
    var chunk := s[i..end];
    ChunkHasNoSeparator(s, i);
    var piece := ChunkIsPiece(kind, chunk);
    PieceComesBack(kind, piece);
    var rest := ReadIsPieces(s, end, KindAfter(kind, piece));
    pieces := [piece] + rest;
    assert pieces[1..] == rest;
  }

  /** Two chunks in front of a separator or the end are the same if the texts are. */
  lemma SameChunk(a: string, x: string, b: string, y: string)
    requires SEP !in a && SEP !in b && (x != "" ==> x[0] == SEP) && (y != "" ==> y[0] == SEP)
    requires "/" + a + x == "/" + b + y
    ensures a == b && x == y
  {
    var s := "/" + a + x;
    assert s[1..1 + |a|] == a && s[1 + |a|..] == x;
    assert s[1..1 + |b|] == b && s[1 + |b|..] == y;
    assert forall k | 1 <= k <= |a| :: s[k] == a[k - 1];
    assert forall k | 1 <= k <= |b| :: s[k] == b[k - 1];
    assert 1 + |a| < |s| ==> s[1 + |a|] == SEP;
    assert 1 + |b| < |s| ==> s[1 + |b|] == SEP;
  }

  lemma {:induction false} SqueezedStarts(s: string, i: nat)
    requires i <= |s|
    ensures Squeezed(s, i) != "" ==> Squeezed(s, i)[0] == SEP
    decreases |s| - i
  {
    if i < |s| && s[i] == SEP { SqueezedStarts(s, i + 1); }
  }

  /** Pieces that spell the route without its empty chunks are what is read. */
  lemma {:induction false} PiecesAreRead(s: string, i: nat, kind: Validator, pieces: seq<Piece>)
    requires i <= |s| && GoodPieces(pieces) && RouteText(pieces) == Squeezed(s, i)
    ensures ReadChunks(TypeText(kind), s, i) == Some(RouteMatchers(kind, pieces))
    decreases |s| - i
  {
    if i < |s| && s[i] == SEP {
      PiecesAreRead(s, i + 1, kind, pieces);
    } else if i < |s| {
      var end := Find(s, i, SEP);
      var chunk, piece, rest := s[i..end], pieces[0], pieces[1..];
      ChunkHasNoSeparator(s, i);
      PieceComesBack(kind, piece);
      SqueezedStarts(s, end);
      SameChunk(chunk, Squeezed(s, end), PieceText(piece), RouteText(rest));
      PiecesAreRead(s, end, KindAfter(kind, piece), rest);
      OneMore(TypeText(kind), s, i, end, PieceMatcher(kind, piece), RouteMatchers(KindAfter(kind, piece), rest));
    } else {
      assert pieces == [];
    }
  }

  /**
   * A route is readable exactly when, but for empty chunks, it is written from literals and from
   * parameters that have a name, perhaps an extension, and perhaps int or uint as their type; and
   * then it is read as those.
   */
  lemma ReadRouteIff(s: string)
    ensures ReadRoute(s).Some? <==> exists pieces :: GoodPieces(pieces) && RouteText(pieces) == Squeezed(s, 0)
    ensures forall pieces | GoodPieces(pieces) && RouteText(pieces) == Squeezed(s, 0) ::
      ReadRoute(s) == Some(RouteMatchers(AnyText, pieces))
  {
    if ReadRoute(s).Some? { var pieces := ReadIsPieces(s, 0, AnyText); }
    forall pieces | GoodPieces(pieces) && RouteText(pieces) == Squeezed(s, 0)
      ensures ReadRoute(s) == Some(RouteMatchers(AnyText, pieces))
    {
      PiecesAreRead(s, 0, AnyText, pieces);
    }
  }

  // ------------------------------------------------------ a route that is hidden

  lemma LiteralBuilt(t: Trie, w: Word, c: char, rest: seq<Matcher>)
    ensures var slash := Kid(w, Lit(SEP)); var next := Kid(slash, Lit(c));
            BuildPath(t, w, [Literal([c])] + rest) == BuildPath(AddNode(AddNode(t, slash), next), next, rest)
  {
    var slash := Kid(w, Lit(SEP));
    assert ([Literal([c])] + rest)[1..] == rest && [c][1..] == "";
    assert AddLiterals(AddNode(t, slash), slash, [c]) == AddNode(AddNode(t, slash), Kid(slash, Lit(c)));
    assert LitsFrom(slash, [c]) == Kid(slash, Lit(c));
  }

  /** The trie after "/a/b" and "/:x", inserted in this order. */
  lemma TwoRoutes(endpoint1: Endpoint, endpoint2: Endpoint)
    ensures var ab, x := [Literal("a")] + ([Literal("b")] + []), [Parameter(":x", "x", "", AnyText)];
            var r := InsertAll(EMPTY, [(ab, endpoint1)] + ([(x, endpoint2)] + []));
            r.Some? && WordOf([Literal("a")]) in r.value && r.value[WordOf([Literal("a")])].endpoint.None?
  {
    var s1 := Kid(Root, Lit(SEP));
    var a := Kid(s1, Lit('a'));
    var s2 := Kid(a, Lit(SEP));
    var b := Kid(s2, Lit('b'));
    LiteralBuilt(EMPTY, Root, 'a', [Literal("b")] + []);
    var t := AddNode(AddNode(EMPTY, s1), a);
    LiteralBuilt(t, a, 'b', []);
    var t' := AddNode(AddNode(t, s2), b);
    var ab, x := [Literal("a")] + ([Literal("b")] + []), [Parameter(":x", "x", "", AnyText)];
    assert BuildPath(EMPTY, Root, ab) == Built(t', b);
    var t1 := t'[b := BLANK.(endpoint := Some(endpoint1))];
    assert Insertion(EMPTY, ab, endpoint1) == (t1, None);
    var t2 := AddWild(t1, s1, x[0]);
    assert x[1..] == [];
    assert BuildPath(t1, Root, x) == Built(t2, Kid(s1, Wild));
    var t3 := t2[Kid(s1, Wild) := BLANK.(endpoint := Some(endpoint2))];
    assert Insertion(t1, x, endpoint2) == (t3, None);
    assert ([(ab, endpoint1)] + ([(x, endpoint2)] + []))[1..] == [(x, endpoint2)];
    assert InsertAll(t3, []) == Some(t3);
    assert InsertAll(t1, [(x, endpoint2)]) == Some(t3);
    assert WordOf([Literal("a")]) == a by { LitOne(s1); }
  }

  lemma LitOne(slash: Word)
    requires slash == Kid(Root, Lit(SEP))
    ensures WordOf([Literal("a")]) == Kid(slash, Lit('a'))
  {
    assert LitsFrom(slash, "a") == LitsFrom(Kid(slash, Lit('a')), "");
    assert [Literal("a")][1..] == [];
  }

  lemma BothValid()
    ensures ValidRoute(PARSER_RULE, [Literal("a")] + ([Literal("b")] + []))
    ensures ValidRoute(PARSER_RULE, [Parameter(":x", "x", "", AnyText)])
  {
    var ab, x := [Literal("a")] + ([Literal("b")] + []), [Parameter(":x", "x", "", AnyText)];
    PlainChunk("", 'x');
    assert [PARAM, 'x'] == ":x" && ['x'] == "x";
    FollowsCons(PARSER_RULE, [":x"], x[0], []);
    FollowsCons(PARSER_RULE, [], x[0], []);
    assert x == [x[0]] + [];
    FollowsCons(PARSER_RULE, [], Literal("b"), []);
    FollowsCons(PARSER_RULE, [], Literal("a"), [Literal("b")] + []);
    assert ab[1..] == [Literal("b")] && ab[1..][1..] == [];
  }

  /**
   * So it happens: after "/a/b" and "/:x" have been inserted into an empty trie, the path "/a" gets
   * no answer, though the second route's own matcher accepts it.
   */
  lemma HiddenRouteArises(endpoint1: Endpoint, endpoint2: Endpoint)
    ensures var ab, x := [Literal("a")] + ([Literal("b")] + []), [Parameter(":x", "x", "", AnyText)];
            var r := InsertAll(EMPTY, [(ab, endpoint1)] + ([(x, endpoint2)] + []));
            r.Some? && Rooted(r.value) && Answer(r.value, "/a") == None && MountMatch(x, "/a", 0, map[]).Some?
  {
    var ab, x := [Literal("a")] + ([Literal("b")] + []), [Parameter(":x", "x", "", AnyText)];
    var inserts := [(ab, endpoint1)] + ([(x, endpoint2)] + []);
    TwoRoutes(endpoint1, endpoint2);
    BothValid();
    EmptyServes(PARSER_RULE, map[]);
    EveryInsertedRouteStays(EMPTY, PARSER_RULE, map[], inserts);
    var t := InsertAll(EMPTY, inserts).value;
    assert Stands(t, inserts[0].0, inserts[0].1) && Stands(t, inserts[1].0, inserts[1].1);
    assert ab == [Literal("a"), Literal("b")];
    HiddenRoute(t, PARSER_RULE, RoutesAfter(map[], inserts), endpoint1, endpoint2);
  }

  // --------------------------------------- a parameter of an abandoned route

  /** The search goes on along the literal child, for good or in vain. */
  lemma ThroughLiteral(t: Trie, path: string, w: Word, i: nat, params: Parameters)
    requires Rooted(t) && w in t && i < |path| && Kid(w, Lit(path[i])) in t
    ensures var o := Explore(t, path, TakerOf(path), Kid(w, Lit(path[i])), i + 1, params);
      o.node.Some? || t[w].wild.None? ==> Explore(t, path, TakerOf(path), w, i, params) == o
  {
  }

  lemma DeadEnd(t: Trie, path: string, w: Word, i: nat, params: Parameters)
    requires Rooted(t) && w in t && i < |path| && Kid(w, Lit(path[i])) !in t && t[w].wild.None?
    ensures Explore(t, path, TakerOf(path), w, i, params) == Outcome(None, params)
  {
  }

  /** The wildcard takes its segment, when the literal child has been tried in vain. */
  lemma ThroughWild(t: Trie, path: string, w: Word, i: nat, params: Parameters, written: Parameters)
    requires Rooted(t) && w in t && i < |path| && t[w].wild.Some? && t[w].wild.value.Parameter?
    requires t[w].wild.value.extension == "" && t[w].wild.value.validator == AnyText
    requires var lit := Kid(w, Lit(path[i]));
      if lit in t then Explore(t, path, TakerOf(path), lit, i + 1, params) == Outcome(None, written)
      else written == params
    ensures var part := Segment(path, i);
      Explore(t, path, TakerOf(path), w, i, params) ==
      Explore(t, path, TakerOf(path), Kid(w, Wild), i + |part|, written[Fold(t[w].wild.value.name) := part])
  {
    assert TakerOf(path)(t[w].wild.value, i) == Some(Segment(path, i));
  }

  const X: Matcher := Parameter(":x", "x", "", AnyText)
  const Y: Matcher := Parameter(":y", "y", "", AnyText)

  /** "/a/:x" and "/:y/c/d". */
  const ROUTE_AX: seq<Matcher> := [Literal("a")] + ([X] + [])
  const ROUTE_YCD: seq<Matcher> := [Y] + ([Literal("c")] + ([Literal("d")] + []))

  lemma WildBuilt(t: Trie, w: Word, m: Matcher, rest: seq<Matcher>)
    requires !m.Literal? && Kid(w, Lit(SEP)) in AddNode(t, Kid(w, Lit(SEP)))
    requires AddNode(t, Kid(w, Lit(SEP)))[Kid(w, Lit(SEP))].wild.None?
    ensures var slash := Kid(w, Lit(SEP));
      BuildPath(t, w, [m] + rest) == BuildPath(AddWild(AddNode(t, slash), slash, m), Kid(slash, Wild), rest)
  {
    assert ([m] + rest)[1..] == rest;
  }

  /** The words of the trie that holds just these two routes. */
  datatype Words = Words(s1: Word, a: Word, s2: Word, ax: Word, y: Word, s3: Word, c: Word, s4: Word, d: Word)

  function TwoWords(): Words {
    var s1 := Kid(Root, Lit(SEP));
    var a, y := Kid(s1, Lit('a')), Kid(s1, Wild);
    var s2, s3 := Kid(a, Lit(SEP)), Kid(y, Lit(SEP));
    var c := Kid(s3, Lit('c'));
    var s4 := Kid(c, Lit(SEP));
    Words(s1, a, s2, Kid(s2, Wild), y, s3, c, s4, Kid(s4, Lit('d')))
  }

  ghost predicate HoldsBoth(t: Trie, endpoint2: Endpoint) {
    var n := TwoWords();
    && t.Keys == {Root, n.s1, n.a, n.s2, n.ax, n.y, n.s3, n.c, n.s4, n.d}
    && t[n.s1].wild == Some(Y) && t[n.s2].wild == Some(X) && t[n.d].endpoint == Some(endpoint2)
    && forall w | w in t && w != n.s1 && w != n.s2 :: t[w].wild.None?
  }

  function FirstTrie(endpoint1: Endpoint): Trie {
    var n := TwoWords();
    map[Root := BLANK, n.s1 := BLANK, n.a := BLANK, n.s2 := BLANK.(wild := Some(X)),
        n.ax := BLANK.(endpoint := Some(endpoint1))]
  }

  lemma FirstInserted(endpoint1: Endpoint)
    ensures Insertion(EMPTY, ROUTE_AX, endpoint1) == (FirstTrie(endpoint1), None)
  {
    var n := TwoWords();
    LiteralBuilt(EMPTY, Root, 'a', [X] + []);
    var t := AddNode(AddNode(EMPTY, n.s1), n.a);
    WildBuilt(t, n.a, X, []);
    var t' := AddWild(AddNode(t, n.s2), n.s2, X);
    assert BuildPath(EMPTY, Root, ROUTE_AX) == Built(t', n.ax);
    assert t'[n.ax := BLANK.(endpoint := Some(endpoint1))] == FirstTrie(endpoint1);
  }

  lemma SecondBuilt(t: Trie)
    requires var n := TwoWords(); t.Keys == {Root, n.s1, n.a, n.s2, n.ax} && t[n.s1] == BLANK
    ensures var n := TwoWords();
      BuildPath(t, Root, ROUTE_YCD) ==
      Built(t[n.s1 := BLANK.(wild := Some(Y))][n.y := BLANK][n.s3 := BLANK][n.c := BLANK][n.s4 := BLANK][n.d := BLANK],
            n.d)
  {
    var n := TwoWords();
    WildBuilt(t, Root, Y, [Literal("c")] + ([Literal("d")] + []));
    var t2 := t[n.s1 := BLANK.(wild := Some(Y))][n.y := BLANK];
    assert AddWild(AddNode(t, n.s1), n.s1, Y) == t2;
    LiteralBuilt(t2, n.y, 'c', [Literal("d")] + []);
    var t3 := t2[n.s3 := BLANK][n.c := BLANK];
    assert AddNode(AddNode(t2, n.s3), n.c) == t3;
    LiteralBuilt(t3, n.c, 'd', []);
    assert AddNode(AddNode(t3, n.s4), n.d) == t3[n.s4 := BLANK][n.d := BLANK];
  }

  lemma SecondInserted(endpoint1: Endpoint, endpoint2: Endpoint)
    ensures var (t, error) := Insertion(FirstTrie(endpoint1), ROUTE_YCD, endpoint2);
      error == None && HoldsBoth(t, endpoint2)
  {
    SecondBuilt(FirstTrie(endpoint1));
  }

  lemma BothInserted(endpoint1: Endpoint, endpoint2: Endpoint)
    ensures var r := InsertAll(EMPTY, [(ROUTE_AX, endpoint1)] + ([(ROUTE_YCD, endpoint2)] + []));
      r.Some? && HoldsBoth(r.value, endpoint2)
  {
    FirstInserted(endpoint1);
    SecondInserted(endpoint1, endpoint2);
    var t1 := FirstTrie(endpoint1);
    var t2 := Insertion(t1, ROUTE_YCD, endpoint2).0;
    assert ([(ROUTE_AX, endpoint1)] + ([(ROUTE_YCD, endpoint2)] + []))[1..] == [(ROUTE_YCD, endpoint2)];
    assert [(ROUTE_YCD, endpoint2)][1..] == [];
    assert InsertAll(t2, []) == Some(t2);
    assert InsertAll(t1, [(ROUTE_YCD, endpoint2)]) == Some(t2);
  }

  /** The search turns back at "/a/:x" and finds "/:y/c/d", with the parameters of both. */
  lemma TurnsBack(t: Trie, endpoint2: Endpoint)
    requires Rooted(t) && HoldsBoth(t, endpoint2)
    ensures Answer(t, "/a/c/d") == Some((map["X" := "c"]["Y" := "a"], endpoint2))
  {
    var n, path := TwoWords(), "/a/c/d";
    var p1 := map["X" := "c"];
    var p2 := p1["Y" := "a"];
    assert SegmentEnd(path, 1) == 2 && SegmentEnd(path, 3) == 4;
    assert Segment(path, 1) == "a" && Segment(path, 3) == "c";
    assert Fold("x") == "X" && Fold("y") == "Y" by {
      assert "x"[1..] == "" && "y"[1..] == "";
    }
    DeadEnd(t, path, n.ax, 4, p1);
    ThroughWild(t, path, n.s2, 3, map[], map[]);
    ThroughLiteral(t, path, n.a, 2, map[]);
    assert Explore(t, path, TakerOf(path), n.a, 2, map[]) == Outcome(None, p1);
    ThroughWild(t, path, n.s1, 1, map[], p1);
    assert Explore(t, path, TakerOf(path), n.d, 6, p2) == Outcome(Some(n.d), p2);
    ThroughLiteral(t, path, n.s4, 5, p2);
    ThroughLiteral(t, path, n.c, 4, p2);
    ThroughLiteral(t, path, n.s3, 3, p2);
    ThroughLiteral(t, path, n.y, 2, p2);
    ThroughLiteral(t, path, Root, 0, map[]);
  }

  /**
   * So it happens: with "/a/:x" and "/:y/c/d" inserted into an empty trie, "/a/c/d" is answered by the
   * second route, with a parameter that only the first one names.
   */
  lemma AbandonedParameter(endpoint1: Endpoint, endpoint2: Endpoint)
    ensures var r := InsertAll(EMPTY, [(ROUTE_AX, endpoint1)] + ([(ROUTE_YCD, endpoint2)] + []));
      r.Some? && Rooted(r.value) && Answer(r.value, "/a/c/d") == Some((map["X" := "c"]["Y" := "a"], endpoint2))
  {
    BothInserted(endpoint1, endpoint2);
    var t := InsertAll(EMPTY, [(ROUTE_AX, endpoint1)] + ([(ROUTE_YCD, endpoint2)] + [])).value;
    BothRooted(t, endpoint2);
    TurnsBack(t, endpoint2);
  }

  lemma BothRooted(t: Trie, endpoint2: Endpoint)
    requires HoldsBoth(t, endpoint2)
    ensures Rooted(t)
  {
  }

  // ------------------------------------------- a route that is never answered

  const JSON_ROUTE: seq<Matcher> := [Parameter(":x.json", "x", ".json", AnyText)]

  lemma JsonRouteValid()
    ensures ValidRoute(PARSER_RULE, JSON_ROUTE)
  {
    var chunk := ":x.json";
    FindIs(chunk, 1, FILE_EXT, 2);
    assert chunk[1..2] == "x" && chunk[2..] == ".json";
    assert ChunkMatcher("", chunk) == Some(JSON_ROUTE[0]);
    FollowsCons(PARSER_RULE, [], JSON_ROUTE[0], []);
    assert JSON_ROUTE == [JSON_ROUTE[0]] + [];
  }

  lemma JsonRouteInserted(endpoint: Endpoint)
    ensures InsertAll(EMPTY, [(JSON_ROUTE, endpoint)]).Some?
  {
    var slash := Kid(Root, Lit(SEP));
    var t := AddWild(AddNode(EMPTY, slash), slash, JSON_ROUTE[0]);
    assert JSON_ROUTE[1..] == [];
    assert BuildPath(EMPTY, Root, JSON_ROUTE) == Built(t, Kid(slash, Wild));
    assert Insertion(EMPTY, JSON_ROUTE, endpoint).1 == None;
    assert [(JSON_ROUTE, endpoint)][1..] == [];
  }

  lemma JsonPathAccepted()
    ensures NormalPath("/a.json") && MountMatch(JSON_ROUTE, "/a.json", 0, map[]).Some?
  {
    var path := "/a.json";
    assert SegmentEnd(path, 1) == 7;
    assert Segment(path, 1) == "a.json";
    assert "a.json"[1..] == ".json" && "a.json"[..1] == "a";
    assert JSON_ROUTE[1..] == [];
  }

  /** "/:x.json" accepts "/a.json" when asked alone; inserted, it is not answered. */
  lemma ExtensionRefused(endpoint: Endpoint)
    ensures var r := InsertAll(EMPTY, [(JSON_ROUTE, endpoint)]);
            r.Some? && Rooted(r.value) && NormalPath("/a.json")
            && MountMatch(JSON_ROUTE, "/a.json", 0, map[]).Some? && Answer(r.value, "/a.json") == None
  {
    JsonRouteValid();
    JsonRouteInserted(endpoint);
    JsonPathAccepted();
    var inserts := [(JSON_ROUTE, endpoint)];
    assert JSON_ROUTE[0].extension != "";
    OnlyExtensions(PARSER_RULE, inserts, "/a.json");
  }
}
