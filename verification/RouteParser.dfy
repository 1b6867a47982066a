/**
 * Route texts read into matchers. A route is read chunk by chunk, between separators: a literal, or
 * a parameter with an optional type, a name and an optional file extension. The parser is a machine
 * that takes one character at a time; it is proved to give the chunk-by-chunk reading, and to fail
 * exactly when there is none.
 */
module RouteParser {
  import opened Wrappers
  import opened Chars
  import opened PathMatchers

  const PARAM := ':'
  const TYPE_START := '['
  const TYPE_END := ']'
  const FILE_EXT := '.'

  predicate IsAlnum(c: char) { IsDigit(c) || 'a' <= c <= 'z' || 'A' <= c <= 'Z' }

  datatype ParseError = UnexpectedEnd | BadCharacter | EmptyType | EmptyName | EmptyExtension | UnknownType | RegexType

  // ------------------------------------------------------- segment by segment

  /** The first position at or after `i` that holds `c`, or the end. */
  function Find(s: string, i: nat, c: char): (r: nat)
    requires i <= |s|
    ensures i <= r <= |s|
    ensures r < |s| ==> s[r] == c
    ensures forall k | i <= k < r :: s[k] != c
    decreases |s| - i
  {
    if i == |s| || s[i] == c then i else Find(s, i + 1, c)
  }

  function ValidatorFor(typ: string): Option<Validator> {
    if typ == "" then Some(AnyText)
    else if typ == "int" then Some(IntText)
    else if typ == "uint" then Some(UintText)
    else None
  }

  /** The parameter type in force after a chunk: a chunk's own type, else the type it found. */
  function TypeAfter(typ: string, chunk: string): string {
    if |chunk| >= 2 && chunk[0] == PARAM && chunk[1] == TYPE_START then chunk[2..Find(chunk, 2, TYPE_END)] else typ
  }

  /** Where the name of a parameter chunk starts, if its type is closed. */
  function NameStart(chunk: string): Option<nat>
    requires chunk != ""
    ensures NameStart(chunk).Some? ==> NameStart(chunk).value <= |chunk|
  {
    if |chunk| >= 2 && chunk[1] == TYPE_START then
      var close := Find(chunk, 2, TYPE_END);
      if close < |chunk| then Some(close + 1) else None
    else Some(1)
  }

  predicate AllAlnum(name: string) { forall k | 0 <= k < |name| :: IsAlnum(name[k]) }

  predicate ExtensionChars(extension: string) {
    forall k | 0 <= k < |extension| :: extension[k] == FILE_EXT || IsAlnum(extension[k])
  }

  /** The matcher of a parameter chunk split into its name and its extension. */
  function ParameterMatcher(chunk: string, typ: string, name: string, extension: string): Option<Matcher> {
    if name == "" || !AllAlnum(name) || |extension| == 1 || !ExtensionChars(extension) then None
    else if ValidatorFor(typ).None? then None
    else Some(Parameter(chunk, name, extension, ValidatorFor(typ).value))
  }

  /** The matcher a chunk means when `typ` is the parameter type in force before it. */
  function ChunkMatcher(typ: string, chunk: string): Option<Matcher>
    requires chunk != ""
  {
    if chunk[0] != PARAM then Some(Literal(chunk))
    else
      var start := NameStart(chunk);
      var typ' := TypeAfter(typ, chunk);
      if start.None? || (start.value > 1 && (typ' == "" || typ' == "re")) then None
      else
        var dot := Find(chunk, start.value, FILE_EXT);
        ParameterMatcher(chunk, typ', chunk[start.value..dot], chunk[dot..])
  }

  /** A route read chunk by chunk from position `i`; empty chunks are skipped. */
  function ReadChunks(typ: string, s: string, i: nat): Option<seq<Matcher>>
    requires i <= |s|
    decreases |s| - i
  {
    if i == |s| then Some([])
    else if s[i] == SEP then ReadChunks(typ, s, i + 1)
    else
      var end := Find(s, i, SEP);
      var m := ChunkMatcher(typ, s[i..end]);
      if m.None? then None
      else
        var rest := ReadChunks(TypeAfter(typ, s[i..end]), s, end);
        if rest.None? then None else Some([m.value] + rest.value)
  }

  function ReadRoute(s: string): Option<seq<Matcher>> { ReadChunks("", s, 0) }

  // -------------------------------------------------- inside a parameter chunk

  function Join(ms: seq<Matcher>, rest: Option<seq<Matcher>>): Option<seq<Matcher>> {
    if rest.None? then None else Some(ms + rest.value)
  }

  /** The chunk at `b` has its name start at `n`, after which the type in force is `typ`. */
  ghost predicate NameBegins(s: string, b: nat, n: nat, typ0: string, typ: string) {
    && b < n <= |s| && s[b] == PARAM
    && if n == b + 1 then typ == typ0 && (n < |s| ==> s[n] != TYPE_START)
       else b + 3 < n && s[b + 1] == TYPE_START && s[n - 1] == TYPE_END && typ == s[b + 2..n - 1] &&
            TYPE_END !in typ && typ != "re"
  }

  ghost predicate NameText(s: string, n: nat, e: nat) {
    n <= e <= |s| && forall k | n <= k < e :: IsAlnum(s[k])
  }

  ghost predicate ExtensionText(s: string, e: nat, i: nat) {
    e <= i <= |s| && (e < i ==> s[e] == FILE_EXT) && forall k | e <= k < i :: s[k] == FILE_EXT || IsAlnum(s[k])
  }

  lemma FindIs(s: string, i: nat, c: char, r: nat)
    requires i <= r <= |s| && (r < |s| ==> s[r] == c) && forall k | i <= k < r :: s[k] != c
    ensures Find(s, i, c) == r
  {
  }

  lemma FindInside(s: string, b: nat, end: nat, i: nat, c: char)
    requires b + i <= end <= |s|
    ensures Find(s[b..end], i, c) == (if Find(s, b + i, c) <= end then Find(s, b + i, c) else end) - b
    decreases end - b - i
  {
    if b + i < end && s[b + i] != c { FindInside(s, b, end, i + 1, c); }
  }

  lemma SliceOfSlice(s: string, b: nat, end: nat, i: nat, j: nat)
    requires b <= i <= j <= end <= |s|
    ensures s[b..end][i - b..j - b] == s[i..j]
  {
    var whole, part := s[b..end], s[i..j];
    forall k | 0 <= k < j - i ensures whole[i - b..j - b][k] == part[k] { assert whole[i - b + k] == s[i + k]; }
  }

  lemma TailOfSlice(s: string, b: nat, end: nat, i: nat)
    requires b <= i <= end <= |s|
    ensures s[b..end][i - b..] == s[i..end]
  {
    SliceOfSlice(s, b, end, i, end);
  }

  /** An unclosed or separator-crossing type makes the chunk unreadable. */
  lemma TypeNotClosed(s: string, b: nat, i: nat, typ0: string)
    requires b + 2 <= i <= |s| && s[b] == PARAM && s[b + 1] == TYPE_START
    requires forall k | b + 2 <= k < i :: s[k] != TYPE_END
    requires i == |s| || exists k :: b + 2 <= k < i && s[k] == SEP
    ensures ReadChunks(typ0, s, b) == None
  {
    var end := Find(s, b, SEP);
    assert end <= i;
    FindInside(s, b, end, 2, TYPE_END);
  }

  lemma ChunkOpens(s: string, b: nat, n: nat, end: nat, typ0: string, typ: string)
    requires NameBegins(s, b, n, typ0, typ) && n <= end <= |s|
    ensures s[b..end][0] == PARAM && NameStart(s[b..end]) == Some(n - b) && TypeAfter(typ0, s[b..end]) == typ
  {
    var chunk := s[b..end];
    if n > b + 1 {
      FindInside(s, b, end, 2, TYPE_END);
      forall k | b + 2 <= k < n - 1 ensures s[k] != TYPE_END { assert s[k] == typ[k - b - 2]; }
      FindIs(s, b + 2, TYPE_END, n - 1);
      SliceOfSlice(s, b, end, b + 2, n - 1);
    }
  }

  /** The separator that ends the chunk is not inside its name or extension. */
  lemma ChunkEnd(s: string, b: nat, n: nat, i: nat, typ0: string, typ: string)
    requires NameBegins(s, b, n, typ0, typ) && n <= i <= |s| && forall k | n <= k < i :: s[k] != SEP
    ensures SEP in typ && n > b + 1 ==> ReadChunks(typ0, s, b) == None
    ensures (SEP in typ && n > b + 1) || Find(s, b, SEP) == Find(s, i, SEP)
  {
    if n > b + 1 && SEP in typ {
      var k :| 0 <= k < |typ| && typ[k] == SEP;
      assert s[b + 2 + k] == SEP;
      forall j | b + 2 <= j < n - 1 ensures s[j] != TYPE_END { assert s[j] == typ[j - b - 2]; }
      TypeNotClosed(s, b, n - 1, typ0);
    } else {
      forall k | b <= k < i ensures s[k] != SEP {
        if b + 2 <= k < n - 1 { assert s[k] == typ[k - b - 2]; }
      }
      FindIs(s, b, SEP, Find(s, i, SEP));
    }
  }

  /** A parameter chunk whose type is closed, read from its name on. */
  lemma NamedChunk(s: string, b: nat, n: nat, e: nat, end: nat, typ0: string, typ: string)
    requires NameBegins(s, b, n, typ0, typ) && (n > b + 1 ==> typ != "") && n <= e <= end <= |s|
    requires (forall k | n <= k < e :: s[k] != FILE_EXT) && (e < end ==> s[e] == FILE_EXT)
    ensures ChunkMatcher(typ0, s[b..end]) == ParameterMatcher(s[b..end], typ, s[n..e], s[e..end])
  {
    ChunkOpens(s, b, n, end, typ0, typ);
    DotInside(s, b, n, e, end);
    SliceOfSlice(s, b, end, n, e);
    TailOfSlice(s, b, end, e);
  }

  lemma DotInside(s: string, b: nat, n: nat, e: nat, end: nat)
    requires b <= n <= e <= end <= |s| && (forall k | n <= k < e :: s[k] != FILE_EXT) && (e < end ==> s[e] == FILE_EXT)
    ensures Find(s[b..end], n - b, FILE_EXT) == e - b
  {
    FindInside(s, b, end, n - b, FILE_EXT);
    if e < end { FindIs(s, n, FILE_EXT, e); }
  }

  /** A complete parameter chunk. */
  lemma ParameterChunk(s: string, b: nat, n: nat, e: nat, end: nat, typ0: string, typ: string)
    requires NameBegins(s, b, n, typ0, typ) && (n > b + 1 ==> typ != "")
    requires NameText(s, n, e) && ExtensionText(s, e, end) && end <= |s|
    ensures ChunkMatcher(typ0, s[b..end]) ==
            if n == e || end - e == 1 || ValidatorFor(typ).None? then None
            else Some(Parameter(s[b..end], s[n..e], s[e..end], ValidatorFor(typ).value))
  {
    NamedChunk(s, b, n, e, end, typ0, typ);
    assert AllAlnum(s[n..e]);
    assert ExtensionChars(s[e..end]);
  }

  /** A parameter chunk is unreadable when its type crosses a separator or its parts make no matcher. */
  lemma Unreadable(s: string, b: nat, n: nat, i: nat, e: nat, typ0: string, typ: string)
    requires NameBegins(s, b, n, typ0, typ) && (n > b + 1 ==> typ != "")
    requires n <= i <= |s| && forall k | n <= k < i :: s[k] != SEP
    requires var end := Find(s, i, SEP);
             && n <= e <= end && (forall k | n <= k < e :: s[k] != FILE_EXT) && (e < end ==> s[e] == FILE_EXT)
             && ParameterMatcher(s[b..end], typ, s[n..e], s[e..end]) == None
    ensures ReadChunks(typ0, s, b) == None
  {
    ChunkEnd(s, b, n, i, typ0, typ);
    if !(SEP in typ && n > b + 1) { NamedChunk(s, b, n, e, Find(s, b, SEP), typ0, typ); }
  }

  lemma EmptyNameUnreadable(s: string, b: nat, n: nat, typ0: string, typ: string)
    requires NameBegins(s, b, n, typ0, typ) && (n > b + 1 ==> typ != "")
    requires n == |s| || s[n] == FILE_EXT || s[n] == SEP
    ensures ReadChunks(typ0, s, b) == None
  {
    Unreadable(s, b, n, n, n, typ0, typ);
  }

  lemma EmptyTypeUnreadable(s: string, b: nat, typ0: string)
    requires b + 2 < |s| && s[b] == PARAM && s[b + 1] == TYPE_START && s[b + 2] == TYPE_END
    ensures ReadChunks(typ0, s, b) == None
  {
    var end := Find(s, b, SEP);
    FindInside(s, b, end, 2, TYPE_END);
  }

  /** Regular expressions have no reading here. */
  lemma RegexUnreadable(s: string, b: nat, i: nat, typ0: string)
    requires b + 2 <= i < |s| && s[b] == PARAM && s[b + 1] == TYPE_START && s[i] == TYPE_END
    requires s[b + 2..i] == "re"
    ensures ReadChunks(typ0, s, b) == None
  {
    assert s[b + 2] == s[b + 2..i][0] && s[b + 3] == s[b + 2..i][1];
    var end := Find(s, b, SEP);
    assert i < end;
    FindInside(s, b, end, 2, TYPE_END);
    FindIs(s, b + 2, TYPE_END, i);
    SliceOfSlice(s, b, end, b + 2, i);
  }

  lemma EmptyExtensionUnreadable(s: string, b: nat, n: nat, e: nat, typ0: string, typ: string)
    requires NameBegins(s, b, n, typ0, typ) && (n > b + 1 ==> typ != "")
    requires NameText(s, n, e) && ExtensionText(s, e, e + 1) && (e + 1 == |s| || s[e + 1] == SEP)
    ensures ReadChunks(typ0, s, b) == None
  {
    Unreadable(s, b, n, e + 1, e, typ0, typ);
  }

  /** A character that fits neither the name nor what may follow it makes the chunk unreadable. */
  lemma BadNameCharacter(s: string, b: nat, n: nat, i: nat, typ0: string, typ: string)
    requires NameBegins(s, b, n, typ0, typ) && (n > b + 1 ==> typ != "") && NameText(s, n, i) && i < |s|
    requires !IsAlnum(s[i]) && s[i] != FILE_EXT && s[i] != SEP
    ensures ReadChunks(typ0, s, b) == None
  {
    var end := Find(s, i, SEP);
    var dot := Find(s, i, FILE_EXT);
    var e := if dot < end then dot else end;
    assert s[n..e][i - n] == s[i];
    Unreadable(s, b, n, i, e, typ0, typ);
  }

  lemma BadExtensionCharacter(s: string, b: nat, n: nat, e: nat, i: nat, typ0: string, typ: string)
    requires NameBegins(s, b, n, typ0, typ) && (n > b + 1 ==> typ != "")
    requires NameText(s, n, e) && ExtensionText(s, e, i) && e < i < |s|
    requires !IsAlnum(s[i]) && s[i] != FILE_EXT && s[i] != SEP
    ensures ReadChunks(typ0, s, b) == None
  {
    assert s[e..Find(s, i, SEP)][i - e] == s[i];
    Unreadable(s, b, n, i, e, typ0, typ);
  }

  // ------------------------------------------------------------- the machine

  datatype State =
    | Start | LiteralChunk
    | ParameterStart | ParameterType | ParameterName | ParameterExtension | ParameterEnd

  /** Where the machine is inside the chunk at `b`, between two characters. */
  ghost predicate Inside(s: string, state: State, b: nat, n: nat, e: nat, i: nat, typ0: string, typ: string) {
    match state
    case Start => i <= |s| + 1 && typ == typ0 && b == if i <= |s| then i else |s|
    case LiteralChunk => b < i <= |s| && s[b] != PARAM && typ == typ0 && forall k | b <= k < i :: s[k] != SEP
    case ParameterStart => i == b + 1 && i <= |s| && s[b] == PARAM && typ == typ0
    case ParameterType =>
      b + 2 <= i <= |s| && s[b] == PARAM && s[b + 1] == TYPE_START && typ == typ0 &&
      forall k | b + 2 <= k < i :: s[k] != TYPE_END
    case ParameterName => i <= |s| && NameBegins(s, b, n, typ0, typ) && (n > b + 1 ==> typ != "") && NameText(s, n, i)
    case ParameterExtension =>
      i <= |s| && NameBegins(s, b, n, typ0, typ) && (n > b + 1 ==> typ != "") && n < e < i &&
      NameText(s, n, e) && ExtensionText(s, e, i)
    case ParameterEnd =>
      0 < i <= |s| + 1 && NameBegins(s, b, n, typ0, typ) && (n > b + 1 ==> typ != "") && n < e < i &&
      NameText(s, n, e) && ExtensionText(s, e, i - 1) && i - 1 - e != 1 && (i - 1 == |s| || s[i - 1] == SEP)
  }

  lemma ChunkRead(s: string, b: nat, end: nat, typ0: string, ms: seq<Matcher>)
    requires b < end <= |s| && s[b] != SEP && Find(s, b, SEP) == end
    ensures var m := ChunkMatcher(typ0, s[b..end]);
            Join(ms, ReadChunks(typ0, s, b)) ==
            if m.None? then None else Join(ms + [m.value], ReadChunks(TypeAfter(typ0, s[b..end]), s, end))
  {
    var m := ChunkMatcher(typ0, s[b..end]);
    if m.Some? {
      var rest := ReadChunks(TypeAfter(typ0, s[b..end]), s, end);
      if rest.Some? { assert ms + ([m.value] + rest.value) == ms + [m.value] + rest.value; }
    }
  }

  /** What a finished parameter chunk becomes. */
  ghost function Finished(s: string, b: nat, n: nat, e: nat, end: nat, typ: string): Option<Matcher>
    requires b <= n <= e <= end <= |s|
  {
    if ValidatorFor(typ).None? then None
    else Some(Parameter(s[b..end], s[n..e], s[e..end], ValidatorFor(typ).value))
  }

  /** The end of a parameter chunk: its matcher is pushed, or its type is not one the code knows. */
  lemma ParameterRead(s: string, b: nat, n: nat, e: nat, end: nat, typ0: string, typ: string, ms: seq<Matcher>)
    requires Inside(s, ParameterEnd, b, n, e, end + 1, typ0, typ)
    ensures var m := Finished(s, b, n, e, end, typ);
            Join(ms, ReadChunks(typ0, s, b)) == if m.None? then None else Join(ms + [m.value], ReadChunks(typ, s, end))
  {
    ChunkEnd(s, b, n, end, typ0, typ);
    if n > b + 1 && SEP in typ {
      assert ValidatorFor(typ).None?;
    } else {
      FindIs(s, end, SEP, end);
      ParameterChunk(s, b, n, e, end, typ0, typ);
      ChunkOpens(s, b, n, end, typ0, typ);
      ChunkRead(s, b, end, typ0, ms);
    }
  }

  /** The end of a literal chunk. */
  lemma LiteralRead(s: string, b: nat, i: nat, typ: string, ms: seq<Matcher>)
    requires Inside(s, LiteralChunk, b, 0, 0, i, typ, typ) && (i == |s| || s[i] == SEP)
    ensures Join(ms, ReadChunks(typ, s, b)) == Join(ms + [Literal(s[b..i])], ReadChunks(typ, s, i))
  {
    FindIs(s, b, SEP, i);
    ChunkRead(s, b, i, typ, ms);
  }

  lemma SkipSeparator(typ: string, s: string, i: nat)
    requires i <= |s| && (i == |s| || s[i] == SEP)
    ensures ReadChunks(typ, s, i) == ReadChunks(typ, s, if i == |s| then i else i + 1)
  {
  }

  lemma JoinNothing(rest: Option<seq<Matcher>>)
    ensures Join([], rest) == rest
  {
    if rest.Some? { assert [] + rest.value == rest.value; }
  }

  /** The variables the machine carries from one character to the next. */
  datatype Machine = Machine(state: State, chunkStart: nat, nameStart: Option<nat>, extensionStart: nat, typeStart: nat,
                             typ: string, name: string, extension: string, ms: seq<Matcher>)

  type Turned = Result<Machine, ParseError>

  predicate Ends(s: string, i: nat)
    requires i <= |s|
  {
    i == |s| || s[i] == SEP
  }

  /** A finished parameter is pushed one turn late; the same character then starts the next chunk. */
  function Push(s: string, end: nat, m: Machine): Turned
    requires m.chunkStart <= end <= |s|
  {
    var validator := ValidatorFor(m.typ);
    if validator.None? then Failure(UnknownType)
    else
      var matcher := Parameter(s[m.chunkStart..end], m.name, m.extension, validator.value);
      Success(m.(state := Start, nameStart := None, ms := m.ms + [matcher]))
  }

  function TurnStart(s: string, i: nat, m: Machine): Turned
    requires i <= |s|
  {
    if Ends(s, i) then Success(m)
    else Success(m.(chunkStart := i, state := if s[i] == PARAM then ParameterStart else LiteralChunk))
  }

  function TurnLiteral(s: string, i: nat, m: Machine): Turned
    requires m.chunkStart <= i <= |s|
  {
    Success(if Ends(s, i) then m.(ms := m.ms + [Literal(s[m.chunkStart..i])], state := Start) else m)
  }

  function TurnParameterStart(s: string, i: nat, m: Machine): Turned
    requires i <= |s|
  {
    if i == |s| then Failure(UnexpectedEnd)
    else if s[i] == TYPE_START then Success(m.(typeStart := i + 1, state := ParameterType))
    else if !IsAlnum(s[i]) then Failure(BadCharacter)
    else Success(m.(nameStart := Some(i), state := ParameterName))
  }

  function TurnType(s: string, i: nat, m: Machine): Turned
    requires m.typeStart <= i <= |s|
  {
    if i == |s| then Failure(UnexpectedEnd)
    else if s[i] != TYPE_END then Success(m)
    else
      var typ := s[m.typeStart..i];
      if typ == "" then Failure(EmptyType)
      else if typ == "re" then Failure(RegexType)
      else Success(m.(typ := typ, state := ParameterName))
  }

  function TurnName(s: string, i: nat, m: Machine): Turned
    requires i <= |s| && (m.nameStart.Some? ==> m.nameStart.value <= i)
  {
    var start := if m.nameStart.None? then i else m.nameStart.value;
    if Ends(s, i) || s[i] == FILE_EXT then
      var name := s[start..i];
      var m' := m.(nameStart := Some(start), name := name);
      if name == "" then Failure(EmptyName)
      else if i < |s| && s[i] == FILE_EXT then Success(m'.(extensionStart := i, state := ParameterExtension))
      else Success(m'.(extension := "", state := ParameterEnd))
    else if !IsAlnum(s[i]) then Failure(BadCharacter)
    else Success(m.(nameStart := Some(start)))
  }

  function TurnExtension(s: string, i: nat, m: Machine): Turned
    requires m.extensionStart <= i <= |s|
  {
    if Ends(s, i) then
      var extension := s[m.extensionStart..i];
      if |extension| == 1 then Failure(EmptyExtension)
      else Success(m.(extension := extension, state := ParameterEnd))
    else if s[i] != FILE_EXT && !IsAlnum(s[i]) then Failure(BadCharacter)
    else Success(m)
  }

  /** The type in force before the current chunk, and where its name and its extension start. */
  datatype Marks = Marks(typ0: string, n: nat, e: nat)

  ghost predicate OpenRest(n: int) { true }

  /** What is left to read from `b`, after the matchers so far, gives `goal`. Unfolded by `OpenRest` only. */
  ghost predicate Rest(s: string, b: nat, typ0: string, ms: seq<Matcher>, goal: Option<seq<Matcher>>) {
    forall n :: OpenRest(n) ==> b <= |s| && goal == Join(ms, ReadChunks(typ0, s, b))
  }

  lemma Unread(s: string, b: nat, typ0: string, ms: seq<Matcher>, goal: Option<seq<Matcher>>)
    requires b <= |s| && ReadChunks(typ0, s, b) == None && Rest(s, b, typ0, ms, goal)
    ensures goal == None
  {
    assert OpenRest(0);
  }

  /** Between two characters: what is left to read, after the matchers so far, is the whole route's reading. */
  ghost predicate Parsing(s: string, i: nat, m: Machine, k: Marks, goal: Option<seq<Matcher>>) {
    && (if m.state == Start then i <= |s| + 1 && m.typ == k.typ0
        else Inside(s, m.state, m.chunkStart, k.n, k.e, i, k.typ0, m.typ))
    && Rest(s, if m.state != Start then m.chunkStart else if i <= |s| then i else |s|, k.typ0, m.ms, goal)
    && (m.state !in {ParameterName, ParameterExtension, ParameterEnd} ==> m.nameStart == None)
    && (m.state == ParameterName ==> k.n == if m.nameStart.Some? then m.nameStart.value else i)
    && (m.state == ParameterType ==> m.typeStart == m.chunkStart + 2)
    && (m.state == ParameterExtension ==> m.extensionStart == k.e)
    && (m.state in {ParameterExtension, ParameterEnd} ==> m.name == s[k.n..k.e])
    && (m.state == ParameterEnd ==> m.extension == s[k.e..i - 1])
  }

  /** A turn that stops did so because the route has no reading; one that goes on keeps the condition. */
  ghost predicate TurnedWell(s: string, i: nat, r: Turned, k: Marks, goal: Option<seq<Matcher>>) {
    match r
    case Success(m) => Parsing(s, i, m, k, goal)
    case Failure(_) => goal == None
  }

  /** The chunk that ends before `i`, with the separator after it skipped. */
  lemma ParameterSkipped(s: string, b: nat, n: nat, e: nat, i: nat, typ0: string, typ: string, ms: seq<Matcher>)
    requires i > 0 && Inside(s, ParameterEnd, b, n, e, i, typ0, typ)
    ensures var m := Finished(s, b, n, e, i - 1, typ);
            Join(ms, ReadChunks(typ0, s, b)) ==
            if m.None? then None else Join(ms + [m.value], ReadChunks(typ, s, if i <= |s| then i else |s|))
  {
    ParameterRead(s, b, n, e, i - 1, typ0, typ, ms);
    SkipSeparator(typ, s, i - 1);
  }

  lemma PushedRest(s: string, b: nat, n: nat, e: nat, i: nat, typ0: string, typ: string,
                   ms: seq<Matcher>, goal: Option<seq<Matcher>>)
    requires i > 0 && Inside(s, ParameterEnd, b, n, e, i, typ0, typ) && Rest(s, b, typ0, ms, goal)
    ensures var m := Finished(s, b, n, e, i - 1, typ);
            if m.None? then goal == None else Rest(s, if i <= |s| then i else |s|, typ, ms + [m.value], goal)
  {
    assert OpenRest(0);
    ParameterSkipped(s, b, n, e, i, typ0, typ, ms);
  }

  lemma PushWell(s: string, i: nat, m: Machine, k: Marks, goal: Option<seq<Matcher>>)
    requires i > 0 && m.state == ParameterEnd && Parsing(s, i, m, k, goal)
    ensures TurnedWell(s, i, Push(s, i - 1, m), k.(typ0 := m.typ), goal)
  {
    PushedRest(s, m.chunkStart, k.n, k.e, i, k.typ0, m.typ, m.ms, goal);
  }

  lemma StartWell(s: string, i: nat, m: Machine, k: Marks, goal: Option<seq<Matcher>>)
    requires i <= |s| && m.state == Start && Parsing(s, i, m, k, goal)
    ensures TurnedWell(s, i + 1, TurnStart(s, i, m), k, goal)
  {
    assert OpenRest(0);
    if Ends(s, i) { SkipSeparator(m.typ, s, i); }
  }

  lemma LiteralWell(s: string, i: nat, m: Machine, k: Marks, goal: Option<seq<Matcher>>)
    requires i <= |s| && m.state == LiteralChunk && Parsing(s, i, m, k, goal) && m.typ == k.typ0
    ensures TurnedWell(s, i + 1, TurnLiteral(s, i, m), k, goal)
  {
    assert OpenRest(0);
    if Ends(s, i) {
      LiteralRead(s, m.chunkStart, i, k.typ0, m.ms);
      SkipSeparator(k.typ0, s, i);
    }
  }

  lemma ParameterStartWell(s: string, i: nat, m: Machine, k: Marks, goal: Option<seq<Matcher>>)
    requires i <= |s| && m.state == ParameterStart && Parsing(s, i, m, k, goal)
    ensures TurnedWell(s, i + 1, TurnParameterStart(s, i, m), k.(n := i), goal)
  {
    if i < |s| && s[i] == TYPE_START {
    } else if i == |s| || s[i] == SEP || s[i] == FILE_EXT {
      EmptyNameUnreadable(s, m.chunkStart, i, k.typ0, m.typ); Unread(s, m.chunkStart, k.typ0, m.ms, goal);
    } else if !IsAlnum(s[i]) {
      BadNameCharacter(s, m.chunkStart, i, i, k.typ0, m.typ); Unread(s, m.chunkStart, k.typ0, m.ms, goal);
    }
  }

  lemma TypeWell(s: string, i: nat, m: Machine, k: Marks, goal: Option<seq<Matcher>>)
    requires i <= |s| && m.state == ParameterType && Parsing(s, i, m, k, goal)
    ensures TurnedWell(s, i + 1, TurnType(s, i, m), if i < |s| && s[i] == TYPE_END then k.(n := i + 1) else k, goal)
  {
    if i == |s| {
      TypeNotClosed(s, m.chunkStart, i, k.typ0); Unread(s, m.chunkStart, k.typ0, m.ms, goal);
    } else if s[i] == TYPE_END && i == m.typeStart {
      EmptyTypeUnreadable(s, m.chunkStart, k.typ0); Unread(s, m.chunkStart, k.typ0, m.ms, goal);
    } else if s[i] == TYPE_END && s[m.typeStart..i] == "re" {
      RegexUnreadable(s, m.chunkStart, i, k.typ0); Unread(s, m.chunkStart, k.typ0, m.ms, goal);
    }
  }

  lemma NameWell(s: string, i: nat, m: Machine, k: Marks, goal: Option<seq<Matcher>>)
    requires i <= |s| && m.state == ParameterName && Parsing(s, i, m, k, goal)
    ensures TurnedWell(s, i + 1, TurnName(s, i, m), if Ends(s, i) || s[i] == FILE_EXT then k.(e := i) else k, goal)
  {
    if Ends(s, i) || s[i] == FILE_EXT {
      if i == k.n {
        EmptyNameUnreadable(s, m.chunkStart, i, k.typ0, m.typ);
        Unread(s, m.chunkStart, k.typ0, m.ms, goal);
      }
    } else if !IsAlnum(s[i]) {
      BadNameCharacter(s, m.chunkStart, k.n, i, k.typ0, m.typ); Unread(s, m.chunkStart, k.typ0, m.ms, goal);
    }
  }

  lemma ExtensionWell(s: string, i: nat, m: Machine, k: Marks, goal: Option<seq<Matcher>>)
    requires i <= |s| && m.state == ParameterExtension && Parsing(s, i, m, k, goal)
    ensures TurnedWell(s, i + 1, TurnExtension(s, i, m), k, goal)
  {
    if Ends(s, i) {
      if i == k.e + 1 {
        EmptyExtensionUnreadable(s, m.chunkStart, k.n, k.e, k.typ0, m.typ);
        Unread(s, m.chunkStart, k.typ0, m.ms, goal);
      }
    } else if s[i] != FILE_EXT && !IsAlnum(s[i]) {
      BadExtensionCharacter(s, m.chunkStart, k.n, k.e, i, k.typ0, m.typ); Unread(s, m.chunkStart, k.typ0, m.ms, goal);
    }
  }

  /** One turn of the machine, in any state but the one that pushes a finished parameter. */
  function Turn(s: string, i: nat, m: Machine): Turned
    requires i <= |s| && m.state != ParameterEnd
    requires m.chunkStart <= i || m.state !in {LiteralChunk}
    requires (m.state == ParameterType ==> m.typeStart <= i)
    requires (m.state == ParameterExtension ==> m.extensionStart <= i)
    requires m.state == ParameterName && m.nameStart.Some? ==> m.nameStart.value <= i
  {
    match m.state
    case Start => TurnStart(s, i, m)
    case LiteralChunk => TurnLiteral(s, i, m)
    case ParameterStart => TurnParameterStart(s, i, m)
    case ParameterType => TurnType(s, i, m)
    case ParameterName => TurnName(s, i, m)
    case ParameterExtension => TurnExtension(s, i, m)
  }

  lemma TurnWell(s: string, i: nat, m: Machine, k: Marks, goal: Option<seq<Matcher>>) returns (k': Marks)
    requires i <= |s| && m.state != ParameterEnd && Sound(s, i, Success(m), k, goal)
    ensures m.chunkStart <= i || m.state != LiteralChunk
    ensures (m.state == ParameterType ==> m.typeStart <= i) && (m.state == ParameterExtension ==> m.extensionStart <= i)
    ensures m.state == ParameterName && m.nameStart.Some? ==> m.nameStart.value <= i
    ensures Sound(s, i + 1, Turn(s, i, m), k', goal)
  {
    assert OpenTurn(0);
    k' := k;
    match m.state
    case Start => StartWell(s, i, m, k, goal);
    case LiteralChunk => LiteralWell(s, i, m, k, goal);
    case ParameterStart => ParameterStartWell(s, i, m, k, goal); k' := k.(n := i);
    case ParameterType => TypeWell(s, i, m, k, goal); if i < |s| && s[i] == TYPE_END { k' := k.(n := i + 1); }
    case ParameterName => NameWell(s, i, m, k, goal); if Ends(s, i) || s[i] == FILE_EXT { k' := k.(e := i); }
    case ParameterExtension => ExtensionWell(s, i, m, k, goal);
  }

  ghost predicate OpenTurn(n: int) { true }

  /** `TurnedWell`, unfolded by `OpenTurn` only: the parser's loop just passes it on. */
  ghost predicate Sound(s: string, i: nat, r: Turned, k: Marks, goal: Option<seq<Matcher>>) {
    forall n :: OpenTurn(n) ==> TurnedWell(s, i, r, k, goal)
  }

  function PushPending(s: string, i: nat, m: Machine): Turned
    requires m.state == ParameterEnd ==> m.chunkStart < i <= |s| + 1
  {
    if m.state == ParameterEnd then Push(s, i - 1, m) else Success(m)
  }

  lemma PendingWell(s: string, i: nat, m: Machine, k: Marks, goal: Option<seq<Matcher>>) returns (k': Marks)
    requires Sound(s, i, Success(m), k, goal)
    ensures m.state == ParameterEnd ==> m.chunkStart < i <= |s| + 1
    ensures PushPending(s, i, m).Success? ==> PushPending(s, i, m).value.state != ParameterEnd
    ensures Sound(s, i, PushPending(s, i, m), k', goal)
  {
    assert OpenTurn(0);
    k' := k;
    if m.state == ParameterEnd {
      PushWell(s, i, m, k, goal);
      k' := k.(typ0 := m.typ);
    }
  }

  const INITIAL := Machine(Start, 0, None, 0, 0, "", "", "", [])

  lemma InitialParsing(s: string)
    ensures Sound(s, 0, Success(INITIAL), Marks("", 0, 0), ReadRoute(s))
  {
    JoinNothing(ReadRoute(s));
  }

  /** The route parser gives the chunk-by-chunk reading, and fails when there is none. */
  method ParseIntoMatchers(s: string) returns (r: Result<seq<Matcher>, ParseError>)
    ensures ReadRoute(s) == if r.Success? then Some(r.value) else None
  {
    var m := INITIAL;
    ghost var k, goal := Marks("", 0, 0), ReadRoute(s);
    InitialParsing(s);
    for i := 0 to |s| + 1
      invariant Sound(s, i, Success(m), k, goal)
    {
      k := PendingWell(s, i, m, k, goal);
      var pushed := PushPending(s, i, m);
      if pushed.Failure? {
        Stopped(s, i, pushed, k, goal);
        return Failure(pushed.error);
      }
      k := TurnWell(s, i, pushed.value, k, goal);
      var turned := Turn(s, i, pushed.value);
      if turned.Failure? {
        Stopped(s, i + 1, turned, k, goal);
        return Failure(turned.error);
      }
      m := turned.value;
    }
    k := PendingWell(s, |s| + 1, m, k, goal);
    var pushed := PushPending(s, |s| + 1, m);
    if pushed.Failure? {
      Stopped(s, |s| + 1, pushed, k, goal);
      return Failure(pushed.error);
    }
    AllRead(s, pushed.value, k, goal);
    return Success(pushed.value.ms);
  }

  lemma Stopped(s: string, i: nat, r: Turned, k: Marks, goal: Option<seq<Matcher>>)
    requires Sound(s, i, r, k, goal) && r.Failure?
    ensures goal == None
  {
    assert OpenTurn(0);
  }

  lemma AllRead(s: string, m: Machine, k: Marks, goal: Option<seq<Matcher>>)
    requires Sound(s, |s| + 1, Success(m), k, goal) && m.state != ParameterEnd
    ensures goal == Some(m.ms)
  {
    assert OpenTurn(0) && OpenRest(0);
    assert m.state == Start;
    assert m.ms + [] == m.ms;
  }
}
