/** Matchers for one URL segment, and the simple matcher that applies a route's matchers in turn. */
module PathMatchers {
  import opened Wrappers
  import opened Chars

  const SEP := '/'

  // ------------------------------------------------------------------ matchers

  datatype Validator = AnyText | IntText | UintText

  /** `Pattern` stands for a regular expression without capture groups. */
  datatype Matcher =
    | Literal(chunk: string)
    | Parameter(chunk: string, name: string, extension: string, validator: Validator)
    | Pattern(chunk: string, name: string, accepts: string -> bool)

  /** The text between two separators. */
  type Part = s: string | s != "" witness "a"

  predicate Validate(v: Validator, text: string) {
    match v
    case AnyText => true
    case IntText => AllDigits(if text != "" && text[0] == '-' then text[1..] else text)
    case UintText => AllDigits(text)
  }

  /** The text captured from a non-empty segment, or None when the segment is refused. */
  function Match(m: Matcher, part: Part): (r: Option<Part>)
    ensures r.Some? ==> r.value <= part
    ensures r.Some? && !(m.Parameter? && m.extension != "") ==> r.value == part
  {
    match m
    case Literal(chunk) => if Fold(chunk) == Fold(part) then Some(part) else None
    case Pattern(_, _, accepts) => if accepts(part) then Some(part) else None
    case Parameter(_, _, extension, validator) =>
      if extension == "" then
        if Validate(validator, part) then Some(part) else None
      else if |part| <= |extension| then None
      else
        var stem := |part| - |extension|;
        if Fold(extension) == Fold(part[stem..]) && Validate(validator, part[..stem]) then Some(part[..stem])
        else None
  }

  /** An int is digits after at most one minus sign, which may stand alone; a uint is digits. */
  predicate Takes(v: Validator, text: string) {
    match v
    case AnyText => true
    case IntText => forall k | 0 <= k < |text| :: IsDigit(text[k]) || (k == 0 && text[k] == '-')
    case UintText => forall k | 0 <= k < |text| :: IsDigit(text[k])
  }

  lemma TakesIff(v: Validator, text: string)
    ensures Validate(v, text) <==> Takes(v, text)
  {
    if v.IntText? && text != "" && text[0] == '-' {
      assert forall k | 0 < k < |text| :: text[k] == text[1..][k - 1];
    }
  }

  /** A parameter captures what is left before its extension, if that is something it takes. */
  lemma ParameterMatchIff(m: Matcher, part: Part, value: string)
    requires m.Parameter?
    ensures Match(m, part) == Some(value) <==>
      && value != "" && |value| <= |part| && part[..|value|] == value
      && SameLetters(m.extension, part[|value|..]) && Takes(m.validator, value)
  {
    TakesIff(m.validator, value);
    if |m.extension| < |part| {
      var stem := |part| - |m.extension|;
      FoldIff(m.extension, part[stem..]);
      assert |value| == stem ==> part[|value|..] == part[stem..];
      assert part[..|part|] == part;
    }
  }

  /** For one: an int parameter takes a minus sign alone. */
  lemma LoneMinus(chunk: string, name: string)
    ensures Match(Parameter(chunk, name, "", IntText), "-") == Some("-")
  {
    TakesIff(IntText, "-");
  }

  /** A literal takes the segment that is equal to it but for the case of letters. */
  lemma LiteralMatchIff(chunk: string, part: Part, value: string)
    ensures Match(Literal(chunk), part) == Some(value) <==> value == part && SameLetters(chunk, part)
  {
    FoldIff(chunk, part);
  }

  /** A pattern takes the whole segment or nothing. */
  lemma PatternMatchIff(m: Matcher, part: Part, value: string)
    requires m.Pattern?
    ensures Match(m, part) == Some(value) <==> value == part && m.accepts(part)
  {
  }

  /** Captured parameters. Names that agree ignoring case are one key. */
  type Parameters = map<string, string>

  function Put(params: Parameters, name: string, value: string): Parameters {
    params[Fold(name) := value]
  }

  // ------------------------------------------------------------------ segments

  /** The end of the segment that starts at `i`: the next separator after `i`, or the end of the path. */
  function SegmentEnd(path: string, i: nat): (r: nat)
    requires i < |path|
    ensures i < r <= |path|
    ensures r < |path| ==> path[r] == SEP
    ensures forall k | i < k < r :: path[k] != SEP
    decreases |path| - i
  {
    if i + 1 == |path| || path[i + 1] == SEP then i + 1 else SegmentEnd(path, i + 1)
  }

  function Segment(path: string, i: nat): Part
    requires i < |path|
  {
    path[i..SegmentEnd(path, i)]
  }

  /** A path from position `i`, where a separator stands before every segment and no segment is empty. */
  predicate Segmented(path: string, i: nat)
    decreases if i < |path| then |path| - i else 0
  {
    i == |path| ||
    (i + 1 < |path| && path[i] == SEP && path[i + 1] != SEP && Segmented(path, SegmentEnd(path, i + 1)))
  }

  /** The paths every part of the code defines: at least one segment, none empty. */
  predicate NormalPath(path: string) { path != "" && Segmented(path, 0) }

  function Segments(path: string, i: nat): seq<Part>
    requires Segmented(path, i)
    decreases if i < |path| then |path| - i else 0
  {
    if i == |path| then [] else [Segment(path, i + 1)] + Segments(path, SegmentEnd(path, i + 1))
  }

  // ---------------------------------------------------------------- mount path

  /** Matching a list of segments against a list of matchers, one for one. */
  function MatchSegments(ms: seq<Matcher>, segments: seq<Part>, params: Parameters): Option<Parameters>
  {
    if ms == [] || segments == [] then
      if ms == [] && segments == [] then Some(params) else None
    else
      var value := Match(ms[0], segments[0]);
      if value.None? then None
      else MatchSegments(ms[1..], segments[1..], Capture(ms[0], value.value, params))
  }

  function MountMatch(ms: seq<Matcher>, path: string, i: nat, params: Parameters): Option<Parameters>
    requires Segmented(path, i)
  {
    MatchSegments(ms, Segments(path, i), params)
  }

  function Capture(m: Matcher, value: string, params: Parameters): Parameters {
    if m.Literal? then params else Put(params, m.name, value)
  }

  lemma MountStep(ms: seq<Matcher>, m: nat, path: string, i: nat, params: Parameters)
    requires m < |ms| && i < |path| && Segmented(path, i)
    ensures MountMatch(ms[m..], path, i, params) ==
            var value := Match(ms[m], Segment(path, i + 1));
            if value.None? then None
            else MountMatch(ms[m + 1..], path, SegmentEnd(path, i + 1), Capture(ms[m], value.value, params))
  {
    assert ms[m..][0] == ms[m] && ms[m..][1..] == ms[m + 1..];
    var segments := Segments(path, i);
    assert segments[0] == Segment(path, i + 1) && segments[1..] == Segments(path, SegmentEnd(path, i + 1));
  }

  // --------------------------------------------------------- the loop of a match

  /** `UnsetView`: the code reads a string view without a start, which is undefined. */
  datatype Matched = Accepted(params: Parameters) | Refused | UnsetView

  /** What the loop over the path comes to from position `i`, for any path at all. */
  function MatchFrom(ms: seq<Matcher>, path: string, i: nat, partStart: Option<nat>, params: Parameters): Matched
    requires partStart.Some? ==> partStart.value <= i
    decreases |path| + 1 - i
  {
    if ms == [] || i > |path| then
      if ms == [] && i >= |path| then Accepted(params) else Refused
    else if i != |path| && path[i] != SEP then
      MatchFrom(ms, path, i + 1, if partStart.None? then Some(i) else partStart, params)
    else if partStart.None? then UnsetView
    else if partStart.value == i then MatchFrom(ms, path, i + 1, None, params)
    else
      var value := Match(ms[0], path[partStart.value..i]);
      if value.None? then Refused
      else MatchFrom(ms[1..], path, i + 1, None, Capture(ms[0], value.value, params))
  }

  /** The parts between separators from `i` on, empty ones included; the first starts at `from`. */
  function Parts(path: string, from: nat, i: nat): (r: seq<string>)
    requires from <= i <= |path|
    ensures r != []
    decreases |path| - i
  {
    if i == |path| then [path[from..]]
    else if path[i] == SEP then [path[from..i]] + Parts(path, i + 1, i + 1)
    else Parts(path, from, i + 1)
  }

  /** The parts of a path; nothing stands before a leading separator. */
  function PathParts(path: string): seq<string> {
    if path != "" && path[0] == SEP then Parts(path, 1, 1) else Parts(path, 0, 0)
  }

  /** Matchers against parts: after the last matcher one empty part may follow, before it none. */
  function MatchParts(ms: seq<Matcher>, parts: seq<string>, params: Parameters): Matched {
    if ms == [] then if parts == [] || parts == [""] then Accepted(params) else Refused
    else if parts == [] then Refused
    else if parts[0] == "" then UnsetView
    else
      var value := Match(ms[0], parts[0]);
      if value.None? then Refused else MatchParts(ms[1..], parts[1..], Capture(ms[0], value.value, params))
  }

  lemma {:induction false} MatchesParts(ms: seq<Matcher>, path: string, i: nat, start: Option<nat>, params: Parameters)
    requires i <= |path| && (start.Some? ==> start.value < i && ms != [])
    ensures MatchFrom(ms, path, i, start, params) ==
            MatchParts(ms, Parts(path, if start.Some? then start.value else i, i), params)
    decreases |path| - i
  {
    var from := if start.Some? then start.value else i;
    if ms == [] {
      NoMoreParts(path, i);
    } else if i < |path| && path[i] != SEP {
      MatchesParts(ms, path, i + 1, Some(from), params);
    } else if start.Some? {
      var value := Match(ms[0], path[from..i]);
      assert Parts(path, from, i)[0] == path[from..i];
      assert |path[from..i]| > 0;
      if value.Some? && i < |path| {
        MatchesParts(ms[1..], path, i + 1, None, Capture(ms[0], value.value, params));
      }
    }
  }

  lemma {:induction false} NoMoreParts(path: string, i: nat)
    requires i <= |path|
    ensures Parts(path, i, i) == [""] <==> i == |path|
  {
    if i < |path| { FirstPart(path, i, i); }
  }

  lemma {:induction false} FirstPart(path: string, from: nat, i: nat)
    requires from <= i <= |path|
    ensures path[from..i] <= Parts(path, from, i)[0]
    ensures i < |path| ==> path[i] != SEP ==> |Parts(path, from, i)[0]| > i - from
    ensures i < |path| ==> path[i] == SEP ==> |Parts(path, from, i)| > 1
    decreases |path| - i
  {
    if i < |path| && path[i] != SEP {
      FirstPart(path, from, i + 1);
      assert path[from..i] <= path[from..i + 1];
    }
  }

  /** On any path the loop is the part-by-part match of the route. */
  lemma MatchIsPartMatch(ms: seq<Matcher>, path: string)
    requires ms != []
    ensures MatchFrom(ms, path, 0, Some(0), map[]) ==
            if path == "" then Refused else MatchParts(ms, PathParts(path), map[])
  {
    if path != "" {
      if path[0] == SEP { MatchesParts(ms, path, 1, None, map[]); } else { MatchesParts(ms, path, 1, Some(0), map[]); }
    }
  }

  /** The first `k` matchers take the first `k` parts, none of them empty. */
  predicate TakesParts(ms: seq<Matcher>, parts: seq<string>, k: nat) {
    k <= |ms| && k <= |parts| && forall j | 0 <= j < k :: parts[j] != "" && Match(ms[j], parts[j]).Some?
  }

  predicate StopsAtEmpty(ms: seq<Matcher>, parts: seq<string>, k: nat) {
    k < |ms| && k < |parts| && parts[k] == "" && TakesParts(ms, parts, k)
  }

  lemma {:induction false} UnsetPartIff(ms: seq<Matcher>, parts: seq<string>, params: Parameters)
    ensures MatchParts(ms, parts, params).UnsetView? <==> exists k: nat :: StopsAtEmpty(ms, parts, k)
    decreases |ms|
  {
    if ms != [] && parts != [] {
      if parts[0] == "" {
        assert StopsAtEmpty(ms, parts, 0);
      } else if Match(ms[0], parts[0]).Some? {
        var value := Match(ms[0], parts[0]);
        UnsetPartIff(ms[1..], parts[1..], Capture(ms[0], value.value, params));
        if k: nat :| StopsAtEmpty(ms, parts, k) { assert StopsAtEmpty(ms[1..], parts[1..], k - 1); }
        if k: nat :| StopsAtEmpty(ms[1..], parts[1..], k) { StopsLater(ms, parts, k); }
      }
    }
  }

  lemma StopsLater(ms: seq<Matcher>, parts: seq<string>, k: nat)
    requires ms != [] && parts != [] && parts[0] != "" && Match(ms[0], parts[0]).Some?
    requires StopsAtEmpty(ms[1..], parts[1..], k)
    ensures StopsAtEmpty(ms, parts, k + 1)
  {
    forall j | 0 <= j < k + 1 ensures parts[j] != "" && Match(ms[j], parts[j]).Some? {
      if j > 0 { assert parts[j] == parts[1..][j - 1] && ms[j] == ms[1..][j - 1]; }
    }
  }

  /** A view without a start is read exactly when the matchers so far leave one for an empty part. */
  lemma UnsetViewIff(ms: seq<Matcher>, path: string)
    requires ms != []
    ensures MatchFrom(ms, path, 0, Some(0), map[]).UnsetView? <==>
            path != "" && exists k: nat :: StopsAtEmpty(ms, PathParts(path), k)
  {
    MatchIsPartMatch(ms, path);
    UnsetPartIff(ms, PathParts(path), map[]);
  }

  /** For one: "/a/" against "/a/:x", while "/a" accepts it. */
  lemma SeparatorAtEnd(x: Matcher)
    ensures MatchFrom([Literal("a"), x], "/a/", 0, Some(0), map[]) == UnsetView
    ensures MatchFrom([Literal("a")], "/a/", 0, Some(0), map[]) == Accepted(map[])
  {
    assert "/a/"[1..2] == "a";
    assert Match(Literal("a"), "a") == Some("a");
  }

  /** The parts of a path without empty segments are its segments. */
  lemma {:induction false} PartsAreSegments(path: string, i: nat)
    requires Segmented(path, i) && i < |path|
    ensures Parts(path, i + 1, i + 1) == Segments(path, i)
    decreases |path| - i
  {
    var end := SegmentEnd(path, i + 1);
    PartsWalk(path, i + 1, i + 1, end);
    if end < |path| {
      PartsAreSegments(path, end);
    } else {
      assert path[i + 1..] == path[i + 1..end] == Segment(path, i + 1);
    }
  }

  lemma {:induction false} PartsWalk(path: string, from: nat, i: nat, end: nat)
    requires from <= i <= end <= |path| && forall k | i <= k < end :: path[k] != SEP
    ensures Parts(path, from, i) == Parts(path, from, end)
    decreases end - i
  {
    if i < end { PartsWalk(path, from, i + 1, end); }
  }

  lemma {:induction false} PartMatchIsMatch(ms: seq<Matcher>, parts: seq<Part>, params: Parameters)
    ensures MatchParts(ms, parts, params)
      == match MatchSegments(ms, parts, params) case Some(q) => Accepted(q) case None => Refused
    decreases |ms|
  {
    assert parts != [""] by { if parts != [] { var part := parts[0]; assert part != ""; } }
    if ms != [] && parts != [] {
      var value := Match(ms[0], parts[0]);
      if value.Some? { PartMatchIsMatch(ms[1..], parts[1..], Capture(ms[0], value.value, params)); }
    }
  }

  /** On a path without empty segments the loop is the segment-by-segment match of the route. */
  lemma MatchIsMountMatch(ms: seq<Matcher>, path: string)
    requires NormalPath(path)
    ensures MatchFrom(ms, path, 0, Some(0), map[])
      == match MountMatch(ms, path, 0, map[]) case Some(q) => Accepted(q) case None => Refused
  {
    if ms != [] {
      MatchIsPartMatch(ms, path);
      PartsAreSegments(path, 0);
      PartMatchIsMatch(ms, Segments(path, 0), map[]);
    }
  }

  /** A route's own matcher: the simple form that the trie speeds up. */
  class MountPath {
    const matchers: seq<Matcher>

    constructor (matchers: seq<Matcher>)
      ensures this.matchers == matchers
    {
      this.matchers := matchers;
    }

    method MatchPath(path: string) returns (result: Matched)
      ensures result == MatchFrom(matchers, path, 0, Some(0), map[])
      ensures NormalPath(path) ==>
        result == match MountMatch(matchers, path, 0, map[]) case Some(q) => Accepted(q) case None => Refused
    {
      if NormalPath(path) { MatchIsMountMatch(matchers, path); }
      var partStart: Option<nat> := Some(0);
      var params: Parameters := map[];
      var m: nat := 0;
      var i: nat := 0;
      while i <= |path| && m < |matchers|
        invariant m <= |matchers| && (partStart.Some? ==> partStart.value <= i)
        invariant MatchFrom(matchers[m..], path, i, partStart, params) == MatchFrom(matchers, path, 0, Some(0), map[])
        decreases |path| + 1 - i
      {
        assert matchers[m..][0] == matchers[m] && matchers[m..][1..] == matchers[m + 1..];
        if i != |path| && path[i] != SEP {
          if partStart.None? { partStart := Some(i); }
          i := i + 1;
          continue;
        }
        if partStart.None? { return UnsetView; }
        var from := partStart.value;
        partStart := None;
        if from == i {
          i := i + 1;
          continue;
        }
        var value := Match(matchers[m], path[from..i]);
        if value.None? { return Refused; }
        if !matchers[m].Literal? { params := Put(params, matchers[m].name, value.value); }
        m := m + 1;
        i := i + 1;
      }
      if i < |path| || m < |matchers| { return Refused; }
      return Accepted(params);
    }
  }
}
