/**
 * The head of an HTTP request: the request line, then header lines up to a blank line.
 */
module HttpHead {
  import opened Wrappers
  import opened Chars
  import opened CaseInsensitive

  /** Every malformed head ends in the same exception. */
  datatype Malformed = Malformed

  const CRLF := "\r\n"

  predicate LineEnd(c: char) { c == '\r' || c == '\n' }

  /** White space within a line. */
  predicate IsBlank(c: char) { IsSpace(c) && !LineEnd(c) }

  predicate CRLFAt(text: string, i: nat) { i + 1 < |text| && text[i] == '\r' && text[i + 1] == '\n' }

  // ---- What the parser computes ---------------------------------------------------------------

  function WordEnd(text: string, i: nat): (r: nat)
    ensures i <= r && (i <= |text| ==> r <= |text|)
    decreases |text| - i
  {
    if i < |text| && !IsSpace(text[i]) then WordEnd(text, i + 1) else i
  }

  function PathEnd(text: string, i: nat): (r: nat)
    ensures i <= r && (i <= |text| ==> r <= |text|)
    decreases |text| - i
  {
    if i < |text| && !IsSpace(text[i]) && text[i] != '?' then PathEnd(text, i + 1) else i
  }

  predicate BlankAt(text: string, i: nat) { i < |text| && IsBlank(text[i]) }

  /** `query` is what is handed to the query parser; `end` is where the header lines start. */
  datatype RequestLine = RequestLine(method_: string, path: string, rawPath: string, query: string, version: string,
                                     end: nat)

  /** Where the method, the path, the query (if any) and the version end. */
  datatype StartSpan = StartSpan(m: nat, path: nat, query: nat, version: nat)

  function StartSpanOf(text: string): (r: Option<StartSpan>)
    ensures r.Some? ==> r.value.m < r.value.path <= r.value.query < r.value.version && r.value.version + 2 <= |text|
  {
    var m := WordEnd(text, 0);
    if !BlankAt(text, m) then None
    else
      var path := PathEnd(text, m + 1);
      var query := if path < |text| && text[path] == '?' then WordEnd(text, path) else path;
      if !BlankAt(text, query) then None
      else
        var version := WordEnd(text, query + 1);
        if !CRLFAt(text, version) then None else Some(StartSpan(m, path, query, version))
  }

  function ParseMethodLine(text: string): (r: Result<RequestLine, Malformed>)
    ensures r.Success? ==> r.value.end <= |text|
  {
    match StartSpanOf(text)
    case None => Failure(Malformed)
    case Some(s) => Success(StartAt(text, s))
  }

  function StartAt(text: string, s: StartSpan): RequestLine
    requires s.m < s.path <= s.query < s.version <= |text|
  {
    var query := if s.path < s.query then text[s.path + 1..s.query + 1] else "";
    RequestLine(text[..s.m], text[s.m + 1..s.path], text[s.m + 1..s.query], query,
                text[s.query + 1..s.version], s.version + 2)
  }

  function ColonFrom(view: string, i: nat): (r: Option<nat>)
    ensures r.Some? ==> i <= r.value < |view| && view[r.value] == ':'
    decreases |view| - i
  {
    if i >= |view| then None
    else if view[i] == ':' then Some(i)
    else if LineEnd(view[i]) then None
    else ColonFrom(view, i + 1)
  }

  function BlankEnd(view: string, i: nat): (r: nat)
    requires i <= |view|
    ensures i <= r <= |view|
    decreases |view| - i
  {
    if BlankAt(view, i) then BlankEnd(view, i + 1) else i
  }

  function CRLFFrom(view: string, i: nat): (r: Option<nat>)
    ensures r.Some? ==> i <= r.value && CRLFAt(view, r.value)
    decreases |view| - i
  {
    if i >= |view| then None else if CRLFAt(view, i) then Some(i) else CRLFFrom(view, i + 1)
  }

  datatype Line = Line(name: string, value: string, end: nat)

  /** Where the name ends, and the value starts and ends. */
  datatype LineSpan = LineSpan(colon: nat, start: nat, end: nat)

  function SpanOf(view: string): (r: Option<LineSpan>)
    ensures r.Some? ==> r.value.colon < r.value.start <= r.value.end && r.value.end + 2 <= |view|
  {
    match ColonFrom(view, 0)
    case None => None
    case Some(colon) =>
      var start := BlankEnd(view, colon + 1);
      match CRLFFrom(view, start)
      case None => None
      case Some(end) => Some(LineSpan(colon, start, end))
  }

  function ParseHeaderLine(view: string): (r: Result<Line, Malformed>)
    ensures r.Success? ==> 0 < r.value.end <= |view|
  {
    match SpanOf(view)
    case None => Failure(Malformed)
    case Some(s) => Success(LineAt(view, s))
  }

  function LineAt(view: string, s: LineSpan): Line
    requires s.colon < s.start <= s.end <= |view|
  {
    Line(view[..s.colon], view[s.start..s.end], s.end + 2)
  }

  function ParseHeaders(view: string, headers: Headers): Result<Headers, Malformed>
    decreases |view|
  {
    if CRLFAt(view, 0) then Success(headers)
    else
      match ParseHeaderLine(view)
      case Failure(e) => Failure(e)
      case Success(line) => ParseHeaders(view[line.end..], Insert(headers, line.name, line.value))
  }

  datatype Head = Head(line: RequestLine, headers: Headers)

  function ParseHead(text: string): Result<Head, Malformed> {
    match ParseMethodLine(text)
    case Failure(e) => Failure(e)
    case Success(line) =>
      match ParseHeaders(text[line.end..], NoHeaders)
      case Failure(e) => Failure(e)
      case Success(headers) => Success(Head(line, headers))
  }

  // ---- Scanning over a known text -------------------------------------------------------------

  predicate NoSpace(s: string) { forall i | 0 <= i < |s| :: !IsSpace(s[i]) }

  /** `part` stands in `text` at `i`. */
  predicate Has(text: string, i: nat, part: string) {
    i + |part| <= |text| && forall k | 0 <= k < |part| :: text[i + k] == part[k]
  }

  lemma {:induction false} WordEnds(text: string, i: nat, end: nat)
    requires i <= end <= |text| && (forall k | i <= k < end :: !IsSpace(text[k]))
    requires end < |text| ==> IsSpace(text[end])
    ensures WordEnd(text, i) == end
    decreases end - i
  {
    if i < end { WordEnds(text, i + 1, end); }
  }

  lemma {:induction false} PathEnds(text: string, i: nat, end: nat)
    requires i <= end <= |text| && (forall k | i <= k < end :: !IsSpace(text[k]) && text[k] != '?')
    requires end < |text| ==> IsSpace(text[end]) || text[end] == '?'
    ensures PathEnd(text, i) == end
    decreases end - i
  {
    if i < end { PathEnds(text, i + 1, end); }
  }

  lemma {:induction false} ColonIs(view: string, i: nat, colon: nat)
    requires i <= colon < |view| && view[colon] == ':'
    requires forall k | i <= k < colon :: view[k] != ':' && !LineEnd(view[k])
    ensures ColonFrom(view, i) == Some(colon)
    decreases colon - i
  {
    if i < colon { ColonIs(view, i + 1, colon); }
  }

  lemma {:induction false} BlankEnds(view: string, i: nat, end: nat)
    requires i <= end <= |view| && !BlankAt(view, end) && forall k | i <= k < end :: IsBlank(view[k])
    ensures BlankEnd(view, i) == end
    decreases end - i
  {
    if i < end { BlankEnds(view, i + 1, end); }
  }

  lemma {:induction false} CRLFIs(view: string, i: nat, end: nat)
    requires i <= end && CRLFAt(view, end) && forall k | i <= k < end :: !CRLFAt(view, k)
    ensures CRLFFrom(view, i) == Some(end)
    decreases end - i
  {
    if i < end { CRLFIs(view, i + 1, end); }
  }

  // ---- One header line ------------------------------------------------------------------------

  predicate NameOk(name: string) {
    forall i | 0 <= i < |name| :: name[i] != ':' && name[i] != '\r' && name[i] != '\n'
  }

  predicate ValueOk(value: string) {
    !BlankAt(value, 0) && forall i | 0 <= i < |value| :: !CRLFAt(value, i)
  }

  /** Blanks, tabs, vertical tabs and form feeds. */
  predicate Blanks(s: string) {
    forall i | 0 <= i < |s| :: s[i] as int in {0x20, 0x09, 0x0b, 0x0c}
  }

  lemma BlankIs(c: char)
    ensures IsBlank(c) <==> c as int in {0x20, 0x09, 0x0b, 0x0c}
  {
    SpaceIs(c);
  }

  /** A header line with white space of any length after the colon, section 5 of RFC 9112. */
  function LineText(name: string, blank: string, value: string): string {
    name + ":" + blank + value + CRLF
  }

  /** `view` starts with the parts of a header line. */
  predicate IsLine(view: string, name: string, blank: string, value: string) {
    && Has(view, 0, name) && |name| < |view| && view[|name|] == ':'
    && Has(view, |name| + 1, blank) && Has(view, |name| + 1 + |blank|, value)
    && CRLFAt(view, |name| + 1 + |blank| + |value|)
  }

  lemma LineParts(name: string, blank: string, value: string, rest: string)
    ensures IsLine(LineText(name, blank, value) + rest, name, blank, value)
    ensures |LineText(name, blank, value)| == |name| + |blank| + |value| + 3
    ensures (LineText(name, blank, value) + rest)[|LineText(name, blank, value)|..] == rest
  {
    var view := name + (":" + (blank + (value + (CRLF + rest))));
    assert LineText(name, blank, value) + rest == view;
    HasFront("", name, ":" + (blank + (value + (CRLF + rest))));
    HasFront(name + ":", blank, value + (CRLF + rest));
    HasFront(name + ":" + blank, value, CRLF + rest);
    HasFront(name + ":" + blank + value, CRLF, rest);
  }

  lemma HasFront(before: string, part: string, after: string)
    ensures Has(before + (part + after), |before|, part)
    ensures part != "" ==> (before + (part + after))[|before|] == part[0]
    ensures |part| > 1 ==> (before + (part + after))[|before| + 1] == part[1]
  {
  }

  lemma HasSlice(text: string, i: nat, part: string)
    requires Has(text, i, part)
    ensures text[i..i + |part|] == part
  {
  }

  /** What stands at `i` is `part`, character by character. */
  lemma HasPart(text: string, i: nat, part: string)
    requires Has(text, i, part)
    ensures text[i..i + |part|] == part
    ensures forall k | i <= k < i + |part| :: text[k] == part[k - i]
    ensures part != "" ==> text[i] == part[0]
  {
    forall k | i <= k < i + |part| ensures text[k] == part[k - i] { assert text[i + (k - i)] == part[k - i]; }
  }

  /** The line ends in the value, or right behind it: the CR of the end is no line feed. */
  lemma ValueEnds(view: string, start: nat, value: string)
    requires Has(view, start, value) && CRLFAt(view, start + |value|)
    ensures (forall i | 0 <= i < |value| :: !CRLFAt(value, i))
      <==> CRLFFrom(view, start) == Some(start + |value|)
  {
    var end := start + |value|;
    HasPart(view, start, value);
    forall i | 0 <= i < |value| ensures CRLFAt(value, i) <==> CRLFAt(view, start + i) {
      assert view[start + i] == value[i];
      if i + 1 < |value| { assert view[start + (i + 1)] == value[i + 1]; } else { assert view[start + i + 1] == '\r'; }
    }
    if forall i | 0 <= i < |value| :: !CRLFAt(value, i) {
      forall k | start <= k < end ensures !CRLFAt(view, k) { assert !CRLFAt(value, k - start); }
      CRLFIs(view, start, end);
    }
    if CRLFFrom(view, start) == Some(end) { CRLFIsFirst(view, start); }
  }

  lemma NameEnds(view: string, name: string)
    requires Has(view, 0, name) && |name| < |view| && view[|name|] == ':'
    ensures NameOk(name) <==> ColonFrom(view, 0) == Some(|name|)
  {
    HasPart(view, 0, name);
    if NameOk(name) { ColonIs(view, 0, |name|); }
    if ColonFrom(view, 0) == Some(|name|) { ColonIsFirst(view, 0); }
  }

  lemma BlankMeetsValue(view: string, i: nat, blank: string, value: string)
    requires Has(view, i, blank) && Blanks(blank)
    requires Has(view, i + |blank|, value) && CRLFAt(view, i + |blank| + |value|)
    ensures !BlankAt(value, 0) <==> BlankEnd(view, i) == i + |blank|
  {
    HasPart(view, i, blank);
    forall k | i <= k < i + |blank| ensures IsBlank(view[k]) { BlankIs(view[k]); }
    HasPart(view, i + |blank|, value);
    if !BlankAt(value, 0) { BlankEnds(view, i, i + |blank|); } else { BlankEndStops(view, i); }
  }

  /** Exactly the well-formed lines are read back. */
  lemma ParsesLineIff(view: string, name: string, blank: string, value: string)
    requires IsLine(view, name, blank, value) && Blanks(blank)
    ensures NameOk(name) && ValueOk(value) <==>
      ParseHeaderLine(view) == Success(Line(name, value, |name| + |blank| + |value| + 3))
  {
    SpansLineIff(view, name, blank, value);
    if s :| SpanOf(view) == Some(s) { SameLineIff(view, s, name, blank, value); }
  }

  lemma SameLineIff(view: string, s: LineSpan, name: string, blank: string, value: string)
    requires s.colon < s.start <= s.end <= |view| && Has(view, 0, name) && Has(view, |name| + 1 + |blank|, value)
    ensures LineAt(view, s) == Line(name, value, |name| + |blank| + |value| + 3)
      <==> s == LineSpan(|name|, |name| + 1 + |blank|, |name| + 1 + |blank| + |value|)
  {
    HasPart(view, 0, name);
    HasPart(view, |name| + 1 + |blank|, value);
    var line := LineAt(view, s);
    assert |line.name| == s.colon && |line.value| == s.end - s.start;
  }

  lemma SpansLineIff(view: string, name: string, blank: string, value: string)
    requires IsLine(view, name, blank, value) && Blanks(blank)
    ensures NameOk(name) && ValueOk(value) <==>
      SpanOf(view) == Some(LineSpan(|name|, |name| + 1 + |blank|, |name| + 1 + |blank| + |value|))
  {
    NameEnds(view, name);
    BlankMeetsValue(view, |name| + 1, blank, value);
    ValueEnds(view, |name| + 1 + |blank|, value);
  }

  /** A header line is read back exactly when it is well formed. */
  lemma LineComesBackIff(name: string, blank: string, value: string, rest: string)
    requires Blanks(blank)
    ensures NameOk(name) && ValueOk(value) <==>
      ParseHeaderLine(LineText(name, blank, value) + rest)
      == Success(Line(name, value, |LineText(name, blank, value)|))
  {
    LineParts(name, blank, value, rest);
    ParsesLineIff(LineText(name, blank, value) + rest, name, blank, value);
  }

  /** A line with a name is not the blank line. */
  lemma NamedLineIsNotBlank(name: string, blank: string, value: string, rest: string)
    requires NameOk(name)
    ensures !CRLFAt(LineText(name, blank, value) + rest, 0)
  {
    LineParts(name, blank, value, rest);
    HasPart(LineText(name, blank, value) + rest, 0, name);
  }

  lemma {:induction false} ColonIsFirst(view: string, i: nat)
    requires ColonFrom(view, i).Some?
    ensures forall k | i <= k < ColonFrom(view, i).value :: view[k] != ':' && !LineEnd(view[k])
    decreases |view| - i
  {
    if view[i] != ':' { ColonIsFirst(view, i + 1); }
  }

  lemma {:induction false} BlankEndStops(view: string, i: nat)
    requires i <= |view|
    ensures !BlankAt(view, BlankEnd(view, i))
    decreases |view| - i
  {
    if BlankAt(view, i) { BlankEndStops(view, i + 1); }
  }

  lemma {:induction false} CRLFIsFirst(view: string, i: nat)
    requires CRLFFrom(view, i).Some?
    ensures forall k | i <= k < CRLFFrom(view, i).value :: !CRLFAt(view, k)
    decreases |view| - i
  {
    if !CRLFAt(view, i) { CRLFIsFirst(view, i + 1); }
  }

  // ---- The request line -----------------------------------------------------------------------

  function StartText(m: string, path: string, version: string): string {
    m + " " + path + " " + version + CRLF
  }

  predicate PathOk(path: string) { forall i | 0 <= i < |path| :: !IsSpace(path[i]) && path[i] != '?' }

  /** `text` starts with the parts of a request line. */
  predicate IsStart(text: string, m: string, path: string, version: string) {
    && Has(text, 0, m) && BlankAt(text, |m|)
    && Has(text, |m| + 1, path) && BlankAt(text, |m| + 1 + |path|)
    && Has(text, |m| + |path| + 2, version) && CRLFAt(text, |m| + |path| + 2 + |version|)
  }

  lemma StartParts(m: string, path: string, version: string, rest: string)
    ensures IsStart(StartText(m, path, version) + rest, m, path, version)
    ensures |StartText(m, path, version)| == |m| + |path| + |version| + 4
    ensures (StartText(m, path, version) + rest)[|StartText(m, path, version)|..] == rest
  {
    var text := StartText(m, path, version) + rest;
    assert text[|m|] == ' ';
    assert forall k | 0 <= k < |path| :: text[|m| + 1 + k] == path[k];
    assert text[|m| + 1 + |path|] == ' ';
    assert forall k | 0 <= k < |version| :: text[|m| + |path| + 2 + k] == version[k];
    var end := |m| + |path| + 2 + |version|;
    assert text[end] == CRLF[0] && text[end + 1] == CRLF[1];
  }

  lemma WordIs(text: string, i: nat, word: string)
    requires Has(text, i, word) && i + |word| < |text| && IsSpace(text[i + |word|])
    ensures NoSpace(word) <==> WordEnd(text, i) == i + |word|
  {
    HasPart(text, i, word);
    if NoSpace(word) { WordEnds(text, i, i + |word|); }
    if WordEnd(text, i) == i + |word| { WordIsFirst(text, i); }
  }

  lemma PathIs(text: string, i: nat, path: string)
    requires Has(text, i, path) && i + |path| < |text| && (IsSpace(text[i + |path|]) || text[i + |path|] == '?')
    ensures PathOk(path) <==> PathEnd(text, i) == i + |path|
  {
    HasPart(text, i, path);
    if PathOk(path) { PathEnds(text, i, i + |path|); }
    if PathEnd(text, i) == i + |path| { PathIsFirst(text, i); }
  }

  lemma {:induction false} WordIsFirst(text: string, i: nat)
    requires i <= |text|
    ensures forall k | i <= k < WordEnd(text, i) :: !IsSpace(text[k])
    decreases |text| - i
  {
    if i < |text| && !IsSpace(text[i]) { WordIsFirst(text, i + 1); }
  }

  lemma {:induction false} PathIsFirst(text: string, i: nat)
    requires i <= |text|
    ensures forall k | i <= k < PathEnd(text, i) :: !IsSpace(text[k]) && text[k] != '?'
    decreases |text| - i
  {
    if i < |text| && !IsSpace(text[i]) && text[i] != '?' { PathIsFirst(text, i + 1); }
  }

  /**
   * A request line without a query, section 3 of RFC 9112, is read back exactly when its method
   * and version have no white space in them, and its path neither white space nor a '?'.
   */
  lemma StartComesBackIff(m: string, path: string, version: string, text: string)
    requires IsStart(text, m, path, version)
    ensures NoSpace(m) && PathOk(path) && NoSpace(version) <==>
      ParseMethodLine(text) == Success(RequestLine(m, path, path, "", version, |m| + |path| + |version| + 4))
  {
    SpansStartIff(text, m, path, version);
    if s :| StartSpanOf(text) == Some(s) { SameStartIff(text, s, m, path, version); }
  }

  lemma SameStartIff(text: string, s: StartSpan, m: string, path: string, version: string)
    requires s.m < s.path <= s.query < s.version <= |text|
    requires Has(text, 0, m) && Has(text, |m| + 1, path) && Has(text, |m| + |path| + 2, version)
    ensures StartAt(text, s) == RequestLine(m, path, path, "", version, |m| + |path| + |version| + 4)
      <==> s == StartSpan(|m|, |m| + 1 + |path|, |m| + 1 + |path|, |m| + |path| + 2 + |version|)
  {
    var span := StartSpan(|m|, |m| + 1 + |path|, |m| + 1 + |path|, |m| + |path| + 2 + |version|);
    if s == span {
      HasSlice(text, 0, m);
      HasSlice(text, |m| + 1, path);
      HasSlice(text, |m| + |path| + 2, version);
    } else {
      SpanSizes(text, s);
    }
  }

  /** The sizes of the parts tell where they are. */
  lemma SpanSizes(text: string, s: StartSpan)
    requires s.m < s.path <= s.query < s.version <= |text|
    ensures var line := StartAt(text, s);
      && |line.method_| == s.m && |line.path| == s.path - s.m - 1
      && |line.rawPath| == s.query - s.m - 1 && |line.version| == s.version - s.query - 1
  {
  }

  lemma SpansStartIff(text: string, m: string, path: string, version: string)
    requires IsStart(text, m, path, version)
    ensures NoSpace(m) && PathOk(path) && NoSpace(version) <==>
      StartSpanOf(text) == Some(StartSpan(|m|, |m| + 1 + |path|, |m| + 1 + |path|, |m| + |path| + 2 + |version|))
  {
    WordIs(text, 0, m);
    PathIs(text, |m| + 1, path);
    WordIs(text, |m| + |path| + 2, version);
  }

  // ---- A request line with a query ------------------------------------------------------------

  function QueryStartText(m: string, path: string, query: string, version: string): string {
    m + " " + path + "?" + query + " " + version + CRLF
  }

  /** `text` starts with the parts of a request line with a query. */
  predicate IsQueryStart(text: string, m: string, path: string, query: string, version: string) {
    && Has(text, 0, m) && BlankAt(text, |m|)
    && Has(text, |m| + 1, path) && Has(text, |m| + 1 + |path|, "?" + query)
    && BlankAt(text, |m| + |path| + |query| + 2)
    && Has(text, |m| + |path| + |query| + 3, version) && CRLFAt(text, |m| + |path| + |query| + 3 + |version|)
  }

  lemma QueryStartParts(m: string, path: string, query: string, version: string, rest: string)
    ensures IsQueryStart(QueryStartText(m, path, query, version) + rest, m, path, query, version)
  {
    var text := QueryStartText(m, path, query, version) + rest;
    QueryStartGrouped(text, m, path, query, version, rest);
    FirstParts(text, m, path, ("?" + query) + (" " + (version + (CRLF + rest))));
    LastParts(text, m + " " + path, "?" + query, version, rest);
    PartsMakeStart(text, m, path, query, version);
  }

  lemma PartsMakeStart(text: string, m: string, path: string, query: string, version: string)
    requires Has(text, 0, m) && Has(text, |m|, " ") && Has(text, |m| + 1, path)
    requires var i := |m| + 1 + |path|; var j := i + 1 + |query|;
      && Has(text, i, "?" + query) && Has(text, j, " ") && Has(text, j + 1, version)
      && Has(text, j + 1 + |version|, CRLF)
    ensures IsQueryStart(text, m, path, query, version)
  {
    var j := |m| + 2 + |path| + |query|;
    HasPart(text, |m|, " ");
    HasPart(text, j, " ");
    HasPart(text, j + 1 + |version|, CRLF);
    assert text[j + 1 + |version| + 1] == CRLF[1];
  }

  lemma FirstParts(text: string, m: string, path: string, after: string)
    requires text == "" + (m + (" " + (path + after)))
    requires text == m + (" " + (path + after)) && text == (m + " ") + (path + after)
    ensures Has(text, 0, m) && Has(text, |m|, " ") && Has(text, |m| + 1, path)
  {
    HasFront("", m, " " + (path + after));
    HasFront(m, " ", path + after);
    HasFront(m + " ", path, after);
  }

  lemma LastParts(text: string, before: string, q: string, version: string, rest: string)
    requires var t5 := CRLF + rest; var t3 := " " + (version + t5);
      && text == before + (q + t3) && text == (before + q) + t3
      && text == (before + q + " ") + (version + t5) && text == (before + q + " " + version) + t5
    ensures var i := |before|; var j := i + |q|;
      && Has(text, i, q) && Has(text, j, " ") && Has(text, j + 1, version) && Has(text, j + 1 + |version|, CRLF)
  {
    var t5 := CRLF + rest;
    HasFront(before, q, " " + (version + t5));
    HasFront(before + q, " ", version + t5);
    HasFront(before + q + " ", version, t5);
    HasFront(before + q + " " + version, CRLF, rest);
  }

  /** The same text, cut at each of its parts. */
  lemma QueryStartGrouped(text: string, m: string, path: string, query: string, version: string, rest: string)
    requires text == QueryStartText(m, path, query, version) + rest
    ensures var q, t5 := "?" + query, CRLF + rest; var t3 := " " + (version + t5);
      && text == "" + (m + (" " + (path + (q + t3))))
      && text == m + (" " + (path + (q + t3)))
      && text == (m + " ") + (path + (q + t3))
      && text == (m + " " + path) + (q + t3)
      && text == (m + " " + path + q) + t3
      && text == (m + " " + path + q + " ") + (version + t5)
      && text == (m + " " + path + q + " " + version) + t5
  {
    var q, t5 := "?" + query, CRLF + rest;
    var t3 := " " + (version + t5);
    Glue(m + " " + path, "?", query);
    Glue(m + " " + path + q + " " + version, CRLF, rest);
    Glue(m + " " + path + q + " ", version, t5);
    Glue(m + " " + path + q, " ", version + t5);
    Glue(m + " " + path, q, t3);
    Glue(m + " ", path, q + t3);
    Glue(m, " ", path + (q + t3));
  }

  lemma Glue(a: string, b: string, c: string)
    ensures (a + b) + c == a + (b + c)
  {
  }

  function QuerySpan(m: string, path: string, query: string, version: string): StartSpan {
    StartSpan(|m|, |m| + 1 + |path|, |m| + |path| + |query| + 2, |m| + |path| + |query| + 3 + |version|)
  }

  lemma SpansQueryStartIff(text: string, m: string, path: string, query: string, version: string)
    requires IsQueryStart(text, m, path, query, version)
    ensures NoSpace(m) && PathOk(path) && NoSpace(query) && NoSpace(version) <==>
      StartSpanOf(text) == Some(QuerySpan(m, path, query, version))
  {
    WordIs(text, 0, m);
    assert text[|m| + 1 + |path| + 0] == ("?" + query)[0];
    PathIs(text, |m| + 1, path);
    WordIs(text, |m| + 1 + |path|, "?" + query);
    assert NoSpace("?" + query) <==> NoSpace(query) by {
      if NoSpace("?" + query) { assert forall i | 0 <= i < |query| :: query[i] == ("?" + query)[i + 1]; }
    }
    WordIs(text, |m| + |path| + |query| + 3, version);
  }

  /** What the parser makes of such a line: the query goes on with the blank behind it. */
  function QueryLine(m: string, path: string, query: string, blank: char, version: string): RequestLine {
    RequestLine(m, path, path + "?" + query, query + [blank], version, |m| + |path| + |query| + |version| + 5)
  }

  lemma SameQueryStartIff(text: string, s: StartSpan, m: string, path: string, query: string, version: string)
    requires s.m < s.path <= s.query < s.version <= |text| && IsQueryStart(text, m, path, query, version)
    ensures StartAt(text, s) == QueryLine(m, path, query, text[|m| + |path| + |query| + 2], version) <==>
      s == QuerySpan(m, path, query, version)
  {
    var span := QuerySpan(m, path, query, version);
    if s == span {
      HasSlice(text, 0, m);
      HasSlice(text, |m| + 1, path);
      HasSlice(text, |m| + 1 + |path|, "?" + query);
      HasSlice(text, |m| + |path| + |query| + 3, version);
      QuerySlices(text, s, path, query);
    } else {
      SpanSizes(text, s);
    }
  }

  lemma QuerySlices(text: string, s: StartSpan, path: string, query: string)
    requires s.m < s.path < s.query < |text|
    requires text[s.m + 1..s.path] == path && text[s.path..s.query] == "?" + query
    ensures text[s.m + 1..s.query] == path + "?" + query && text[s.path + 1..s.query + 1] == query + [text[s.query]]
  {
    assert text[s.m + 1..s.query] == text[s.m + 1..s.path] + text[s.path..s.query];
    assert path + ("?" + query) == path + "?" + query;
    assert text[s.path + 1..s.query + 1] == text[s.path..s.query][1..] + [text[s.query]];
  }

  lemma QueryBlank(m: string, path: string, query: string, version: string, rest: string)
    ensures var text, i := QueryStartText(m, path, query, version) + rest, |m| + |path| + |query| + 2;
      i < |text| && text[i] == ' '
  {
    var before := m + " " + path + "?" + query;
    assert QueryStartText(m, path, query, version) + rest == before + (" " + (version + CRLF + rest));
    assert |before| == |m| + |path| + |query| + 2;
  }

  /** The request line of the text ends at `end`: one with a query, or without. */
  ghost predicate LineEndsAt(text: string, end: nat) {
    || (exists m, path, version :: PlainLine(text, m, path, version, end))
    || (exists m, path, query, version :: LineWithQuery(text, m, path, query, version, end))
  }

  predicate PlainLine(text: string, m: string, path: string, version: string, end: nat) {
    && IsStart(text, m, path, version) && NoSpace(m) && PathOk(path) && NoSpace(version)
    && end == |m| + |path| + |version| + 4
  }

  predicate LineWithQuery(text: string, m: string, path: string, query: string, version: string, end: nat) {
    && IsQueryStart(text, m, path, query, version)
    && NoSpace(m) && PathOk(path) && NoSpace(query) && NoSpace(version)
    && end == |m| + |path| + |query| + |version| + 5
  }

  /** What stands between the ends that were found. */
  lemma SpanParts(text: string, s: StartSpan)
    requires StartSpanOf(text) == Some(s)
    ensures NoSpace(text[..s.m]) && PathOk(text[s.m + 1..s.path]) && NoSpace(text[s.query + 1..s.version])
    ensures s.path < s.query ==> text[s.path] == '?' && NoSpace(text[s.path + 1..s.query])
    ensures BlankAt(text, s.m) && BlankAt(text, s.query) && CRLFAt(text, s.version)
  {
    WordIsFirst(text, 0);
    PathIsFirst(text, s.m + 1);
    WordIsFirst(text, s.query + 1);
    if s.path < s.query { WordIsFirst(text, s.path); }
  }

  lemma SpanIsLine(text: string, s: StartSpan)
    requires StartSpanOf(text) == Some(s)
    ensures LineEndsAt(text, s.version + 2)
  {
    var m, path, version := text[..s.m], text[s.m + 1..s.path], text[s.query + 1..s.version];
    SpanParts(text, s);
    if s.path == s.query {
      assert IsStart(text, m, path, version);
      assert PlainLine(text, m, path, version, s.version + 2);
    } else {
      var query := text[s.path + 1..s.query];
      QueryStands(text, s.path, s.query);
      assert IsQueryStart(text, m, path, query, version);
      assert LineWithQuery(text, m, path, query, version, s.version + 2);
    }
  }

  lemma QueryStands(text: string, i: nat, end: nat)
    requires i < end <= |text| && text[i] == '?'
    ensures Has(text, i, "?" + text[i + 1..end])
  {
  }

  /** A request line is readable exactly when there is one, with a query or without. */
  lemma StartReadIff(text: string, end: nat)
    ensures LineEndsAt(text, end) <==> ParseMethodLine(text).Success? && ParseMethodLine(text).value.end == end
  {
    if s :| StartSpanOf(text) == Some(s) { SpanIsLine(text, s); }
    if m, path, version :| PlainLine(text, m, path, version, end) { SpansStartIff(text, m, path, version); }
    if m, path, query, version :| LineWithQuery(text, m, path, query, version, end) {
      SpansQueryStartIff(text, m, path, query, version);
    }
  }

  /**
   * A request line with a query is read back exactly when no part of it has white space and the path
   * no '?'; but the query goes to its parser with the blank behind it.
   */
  lemma QueryStartComesBackIff(m: string, path: string, query: string, version: string, rest: string)
    ensures NoSpace(m) && PathOk(path) && NoSpace(query) && NoSpace(version) <==>
      ParseMethodLine(QueryStartText(m, path, query, version) + rest)
      == Success(QueryLine(m, path, query, ' ', version))
  {
    var text := QueryStartText(m, path, query, version) + rest;
    QueryStartParts(m, path, query, version, rest);
    assert text[|m| + |path| + |query| + 2] == ' ' by { QueryBlank(m, path, query, version, rest); }
    SpansQueryStartIff(text, m, path, query, version);
    if s :| StartSpanOf(text) == Some(s) { SameQueryStartIff(text, s, m, path, query, version); }
  }

  // ---- The whole head -------------------------------------------------------------------------

  datatype Fields = NoFields | Field(name: string, blank: string, value: string, rest: Fields)

  function FieldsText(fields: Fields): string {
    if fields.NoFields? then CRLF
    else LineText(fields.name, fields.blank, fields.value) + FieldsText(fields.rest)
  }

  predicate LinesOk(fields: Fields) {
    fields.Field? ==>
      && NameOk(fields.name) && Blanks(fields.blank) && ValueOk(fields.value) && LinesOk(fields.rest)
  }

  predicate ShortNames(fields: Fields) { fields.Field? ==> Short(fields.name) && ShortNames(fields.rest) }

  predicate FieldsOk(fields: Fields) { LinesOk(fields) && ShortNames(fields) }

  /** The value of the first field of that name, ignoring case. */
  function FirstValue(fields: Fields, name: string): Option<string> {
    if fields.NoFields? then None
    else if Fold(name) == Fold(fields.name) then Some(fields.value)
    else FirstValue(fields.rest, name)
  }

  function Filled(headers: Headers, fields: Fields): Headers
    decreases fields
  {
    if fields.NoFields? then headers else Filled(Insert(headers, fields.name, fields.value), fields.rest)
  }

  lemma {:induction false} FieldsComeBack(fields: Fields, rest: string, headers: Headers)
    requires LinesOk(fields)
    ensures ParseHeaders(FieldsText(fields) + rest, headers) == Success(Filled(headers, fields))
    decreases fields
  {
    var view := FieldsText(fields) + rest;
    if fields.NoFields? {
      assert CRLFAt(view, 0);
    } else {
      var after := FieldsText(fields.rest) + rest;
      assert view == LineText(fields.name, fields.blank, fields.value) + after;
      LineComesBackIff(fields.name, fields.blank, fields.value, after);
      LineParts(fields.name, fields.blank, fields.value, after);
      NamedLineIsNotBlank(fields.name, fields.blank, fields.value, after);
      FieldsComeBack(fields.rest, rest, Insert(headers, fields.name, fields.value));
    }
  }

  lemma {:induction false} BlankEndBlanks(view: string, i: nat)
    requires i <= |view|
    ensures forall k | i <= k < BlankEnd(view, i) :: IsBlank(view[k])
    decreases |view| - i
  {
    if BlankAt(view, i) { BlankEndBlanks(view, i + 1); }
  }

  /** A line that is read is a header line with good parts. */
  lemma SpanIsField(view: string, s: LineSpan)
    requires SpanOf(view) == Some(s)
    ensures var name, blank, value := view[..s.colon], view[s.colon + 1..s.start], view[s.start..s.end];
      && NameOk(name) && Blanks(blank) && ValueOk(value)
      && view == LineText(name, blank, value) + view[s.end + 2..]
  {
    var name, blank, value := view[..s.colon], view[s.colon + 1..s.start], view[s.start..s.end];
    ColonIsFirst(view, 0);
    BlankEndBlanks(view, s.colon + 1);
    BlankEndStops(view, s.colon + 1);
    CRLFIsFirst(view, s.start);
    forall k | 0 <= k < |blank| ensures blank[k] as int in {0x20, 0x09, 0x0b, 0x0c} { BlankIs(view[s.colon + 1 + k]); }
    forall i | 0 <= i < |value| ensures !CRLFAt(value, i) {
      assert !CRLFAt(view, s.start + i);
      assert i + 1 < |value| ==> value[i + 1] == view[s.start + i + 1];
    }
    LinePieces(view, s);
  }

  lemma LinePieces(view: string, s: LineSpan)
    requires s.colon < s.start <= s.end <= |view| && view[s.colon] == ':' && CRLFAt(view, s.end)
    ensures view == LineText(view[..s.colon], view[s.colon + 1..s.start], view[s.start..s.end]) + view[s.end + 2..]
  {
    assert view[s.colon..s.colon + 1] == ":" && view[s.end..s.end + 2] == CRLF;
    assert view == view[..s.colon] + view[s.colon..s.colon + 1] + view[s.colon + 1..s.start] + view[s.start..s.end]
      + view[s.end..s.end + 2] + view[s.end + 2..];
  }

  /** Headers that are read are header lines up to the blank one. */
  lemma {:induction false} HeadersAreFields(view: string, headers: Headers) returns (fields: Fields, rest: string)
    requires ParseHeaders(view, headers).Success?
    ensures LinesOk(fields) && view == FieldsText(fields) + rest
    ensures ParseHeaders(view, headers) == Success(Filled(headers, fields))
    decreases |view|
  {
    if CRLFAt(view, 0) {
      assert view == CRLF + view[2..];
      return NoFields, view[2..];
    }
    var s := SpanOf(view).value;
    var line := LineAt(view, s);
    SpanIsField(view, s);
    var more, after := HeadersAreFields(view[line.end..], Insert(headers, line.name, line.value));
    fields, rest := Field(line.name, view[s.colon + 1..s.start], line.value, more), after;
    Glue(LineText(fields.name, fields.blank, fields.value), FieldsText(more), after);
  }

  ghost predicate IsHead(text: string, end: nat, fields: Fields, rest: string) {
    end <= |text| && LineEndsAt(text, end) && LinesOk(fields) && text[end..] == FieldsText(fields) + rest
  }

  /**
   * A head is readable exactly when it is a request line, header lines and a blank line, with anything
   * behind them; all else is malformed.
   */
  lemma HeadReadIff(text: string)
    ensures ParseHead(text).Success? <==> exists end, fields, rest :: IsHead(text, end, fields, rest)
  {
    if ParseHead(text).Success? {
      var end := ParseMethodLine(text).value.end;
      StartReadIff(text, end);
      var fields, rest := HeadersAreFields(text[end..], NoHeaders);
      assert IsHead(text, end, fields, rest);
    }
    if end, fields, rest :| IsHead(text, end, fields, rest) {
      StartReadIff(text, end);
      FieldsComeBack(fields, rest, NoHeaders);
    }
  }

  lemma {:induction false} FirstWins(fields: Fields, headers: Headers, q: string)
    requires FieldsOk(fields) && Sorted(headers) && Short(q)
    ensures Find(Filled(headers, fields), q)
      == if Find(headers, q).Some? then Find(headers, q) else FirstValue(fields, q)
    decreases fields
  {
    if fields.Field? {
      InsertSorted(headers, fields.name, fields.value);
      FindInserted(headers, fields.name, fields.value, q);
      FirstWins(fields.rest, Insert(headers, fields.name, fields.value), q);
    }
  }

  /**
   * A printed head is read back: method, path and version as they were, and under every name the
   * first field of that name, ignoring case; and the content length is what the first field of that
   * name says, 0 without one.
   */
  lemma HeadComesBack(m: string, path: string, version: string, fields: Fields, body: string, q: string)
    requires NoSpace(m) && PathOk(path) && NoSpace(version) && FieldsOk(fields) && Short(q)
    ensures var r := ParseHead(StartText(m, path, version) + (FieldsText(fields) + body));
      && r.Success?
      && r.value.line.method_ == m && r.value.line.path == path && r.value.line.version == version
      && Find(r.value.headers, q) == FirstValue(fields, q)
      && ContentLengthOf(r.value.headers) == LengthIn(fields)
  {
    HeadParses(m, path, version, fields, body);
    FirstWins(fields, NoHeaders, q);
    LengthComesBack(fields);
  }

  lemma HeadParses(m: string, path: string, version: string, fields: Fields, body: string)
    requires NoSpace(m) && PathOk(path) && NoSpace(version) && FieldsOk(fields)
    ensures var r := ParseHead(StartText(m, path, version) + (FieldsText(fields) + body));
      && r.Success?
      && r.value.line.method_ == m && r.value.line.path == path && r.value.line.version == version
      && r.value.headers == Filled(NoHeaders, fields)
  {
    StartParts(m, path, version, FieldsText(fields) + body);
    StartComesBackIff(m, path, version, StartText(m, path, version) + (FieldsText(fields) + body));
    FieldsComeBack(fields, body, NoHeaders);
  }

  lemma LengthComesBack(fields: Fields)
    requires FieldsOk(fields)
    ensures ContentLengthOf(Filled(NoHeaders, fields)) == LengthIn(fields)
  {
    LengthNames();
    SameName(fields, "Content-Length", "content-length");
    FirstWins(fields, NoHeaders, "content-length");
  }

  lemma LengthNames()
    ensures SameLetters("Content-Length", "content-length")
  {
  }

  function LengthIn(fields: Fields): Result<nat, Malformed> {
    match FirstValue(fields, "Content-Length")
    case None => Success(0)
    case Some(text) => ContentLengthIn(text)
  }

  lemma {:induction false} SameName(fields: Fields, a: string, b: string)
    requires SameLetters(a, b)
    ensures FirstValue(fields, a) == FirstValue(fields, b)
  {
    FoldIff(a, b);
    if fields.Field? { SameName(fields.rest, a, b); }
  }

  // ---- Content-Length -------------------------------------------------------------------------

  /** The length a Content-Length value stands for. */
  function ContentLengthIn(text: string): Result<nat, Malformed> {
    var r := FromChars(text);
    if r.Number? && r.end == |text| && r.value >= 0 then Success(r.value) else Failure(Malformed)
  }

  function ContentLengthOf(headers: Headers): Result<nat, Malformed> {
    match Find(headers, "content-length")
    case None => Success(0)
    case Some(text) => ContentLengthIn(text)
  }

  /** Decimal digits below 2^63 are accepted, a minus sign before a zero is, and nothing else. */
  lemma ContentLengthIff(text: string, n: nat)
    ensures ContentLengthIn(text) == Success(n) <==>
      && n <= INT64_MAX && text != ""
      && ((AllDigits(text) && DigitsValue(text) == n)
        || (text[0] == '-' && |text| > 1 && AllDigits(text[1..]) && DigitsValue(text[1..]) == n == 0))
  {
    if text != "" && text[0] == '-' { SignedLength(text[1..], n); assert "-" + text[1..] == text; }
    else { UnsignedLength(text, n); }
  }

  lemma UnsignedLength(text: string, n: nat)
    requires text == "" || text[0] != '-'
    ensures ContentLengthIn(text) == Success(n) <==>
      text != "" && AllDigits(text) && DigitsValue(text) == n <= INT64_MAX
  {
    var end := DigitsEnd(text, 0);
    DigitsAreDigits(text, 0);
    assert text[0..|text|] == text;
    if AllDigits(text) {
      DigitsEndAt(text, 0, |text|);
      DigitsAreNatural(text);
    }
  }

  lemma SignedLength(digits: string, n: nat)
    ensures ContentLengthIn("-" + digits) == Success(n) <==>
      digits != "" && AllDigits(digits) && DigitsValue(digits) == n == 0
  {
    var text := "-" + digits;
    DigitsAreDigits(text, 1);
    assert text[1..|text|] == digits;
    if AllDigits(digits) {
      DigitsEndAt(text, 1, |text|);
      DigitsAreNatural(digits);
    }
  }

  // ---- The parser as it runs ------------------------------------------------------------------

  method SkipWord(text: string, from: nat) returns (i: nat)
    requires from <= |text|
    ensures i == WordEnd(text, from)
  {
    i := from;
    while i < |text| && !IsSpace(text[i])
      invariant from <= i <= |text| && WordEnd(text, i) == WordEnd(text, from)
    {
      i := i + 1;
    }
  }

  method SkipPath(text: string, from: nat) returns (i: nat)
    requires from <= |text|
    ensures i == PathEnd(text, from)
  {
    i := from;
    while i < |text| && !IsSpace(text[i]) && text[i] != '?'
      invariant from <= i <= |text| && PathEnd(text, i) == PathEnd(text, from)
    {
      i := i + 1;
    }
  }

  method FindStart(text: string) returns (s: Option<StartSpan>)
    ensures s == StartSpanOf(text)
  {
    var m := SkipWord(text, 0);
    if !BlankAt(text, m) { return None; }
    var path := SkipPath(text, m + 1);
    var query := path;
    if query < |text| && text[query] == '?' { query := SkipWord(text, query); }
    if !BlankAt(text, query) { return None; }
    var version := SkipWord(text, query + 1);
    if !CRLFAt(text, version) { return None; }
    return Some(StartSpan(m, path, query, version));
  }

  method ReadHeaderLine(view: string) returns (r: Result<Line, Malformed>)
    ensures r == ParseHeaderLine(view)
  {
    var i := 0;
    while i < |view| && view[i] != ':'
      invariant 0 <= i <= |view| && ColonFrom(view, i) == ColonFrom(view, 0)
    {
      if LineEnd(view[i]) { return Failure(Malformed); }
      i := i + 1;
    }
    if i >= |view| { return Failure(Malformed); }
    var colon := i;
    i := i + 1;
    while i < |view| && IsSpace(view[i])
      invariant colon < i <= |view| && BlankEnd(view, i) == BlankEnd(view, colon + 1)
    {
      if LineEnd(view[i]) { break; }
      i := i + 1;
    }
    if i >= |view| { return Failure(Malformed); }
    var start := i;
    while i < |view| && !CRLFAt(view, i)
      invariant start <= i <= |view| && CRLFFrom(view, i) == CRLFFrom(view, start)
    {
      i := i + 1;
    }
    if i >= |view| { return Failure(Malformed); }
    return Success(Line(view[..colon], view[start..i], i + 2));
  }

  class HttpRequest {
    var rawHeader: string
    var line: Option<RequestLine>
    var headers: Headers
    var contentLength: int

    /** Until a head has been received there are no headers. */
    predicate Valid()
      reads this
    {
      rawHeader == "" ==> headers == NoHeaders
    }

    constructor ()
      ensures Valid() && rawHeader == "" && contentLength == -1
    {
      rawHeader, line, headers, contentLength := "", None, NoHeaders, -1;
    }

    method ReadMethodLine(text: string) returns (r: Result<RequestLine, Malformed>)
      modifies this`line
      ensures r == ParseMethodLine(text)
      ensures r.Success? ==> line == Some(r.value)
    {
      var span := FindStart(text);
      if span.None? { return Failure(Malformed); }
      r := Success(StartAt(text, span.value));
      line := Some(r.value);
    }

    /** Line after line until the blank one; the view shrinks with each. */
    method ReadHeaders(text: string) returns (ok: bool)
      modifies this`headers
      ensures ParseHeaders(text, old(headers)) == if ok then Success(headers) else Failure(Malformed)
    {
      var view := text;
      while !CRLFAt(view, 0)
        invariant ParseHeaders(view, headers) == ParseHeaders(text, old(headers))
        decreases |view|
      {
        var parsed := ReadHeaderLine(view);
        if parsed.Failure? { return false; }
        headers := Insert(headers, parsed.value.name, parsed.value.value);
        view := view[parsed.value.end..];
      }
      return true;
    }

    method ReadContentLength() returns (ok: bool)
      modifies this`contentLength
      ensures if ok then ContentLengthOf(headers) == Success(contentLength) else ContentLengthOf(headers).Failure?
    {
      var found := Find(headers, "content-length");
      if found.None? {
        contentLength := 0;
        return true;
      }
      var length := ContentLengthIn(found.value);
      if length.Failure? { return false; }
      contentLength := length.value;
      return true;
    }

    /** `received` is what the connection read up to the blank line. */
    method ReadHeader(received: string) returns (ok: bool)
      requires Valid()
      modifies this
      ensures Valid()
      ensures old(rawHeader) != "" ==> !ok
      ensures old(rawHeader) == "" ==>
        && (ok <==> ParseHead(received).Success? && ContentLengthOf(ParseHead(received).value.headers).Success?)
        && (ok ==>
              && line == Some(ParseHead(received).value.line) && headers == ParseHead(received).value.headers
              && ContentLengthOf(headers) == Success(contentLength))
    {
      if rawHeader != "" { return false; }
      rawHeader := received;
      var start := ReadMethodLine(received);
      if start.Failure? { return false; }
      ok := ReadHeaders(received[start.value.end..]);
      if !ok { return; }
      ok := ReadContentLength();
    }
  }
}
