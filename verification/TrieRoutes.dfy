module TrieRoutes {
  // The trie serves its routes: what insertions keep, and agreement with each route's own matcher.

  import opened Wrappers
  import opened PathMatchers
  import opened TrieSearch
  import opened TrieInsert

  ghost predicate ValidChunks(ms: seq<Matcher>) {
    forall k | 0 <= k < |ms| :: ms[k].Literal? ==> ms[k].chunk != "" && SEP !in ms[k].chunk
  }

  /** The routes the parser hands to the trie: at least one matcher, names distinct ignoring case. */
  ghost predicate ValidRoute(rule: Rule, ms: seq<Matcher>) {
    ms != [] && ValidChunks(ms) && Follows(rule, [], ms) && FreshNames({}, ms)
  }

  /** Every endpoint in the trie sits at the word of a valid route, with that route's matchers above it. */
  ghost predicate Serves(t: Trie, rule: Rule, routes: map<Word, seq<Matcher>>) {
    && Healthy(t, rule)
    && forall w | w in t && t[w].endpoint.Some? :: ServedBy(t, rule, routes, w)
  }

  ghost predicate ServedBy(t: Trie, rule: Rule, routes: map<Word, seq<Matcher>>, w: Word) {
    w in routes && ValidRoute(rule, routes[w]) && w == WordOf(routes[w]) && Along(t, Root, routes[w])
  }

  // ---------------------------------------------------------------- insertions

  lemma EmptyServes(rule: Rule, routes: map<Word, seq<Matcher>>)
    ensures Serves(map[Root := BLANK], rule, routes)
  {
  }

  lemma EndpointHealthy(t: Trie, w: Word, endpoint: Endpoint, rule: Rule)
    requires Healthy(t, rule) && w in t && t[w].endpoint.None?
    ensures var t' := t[w := t[w].(endpoint := Some(endpoint))]; Healthy(t', rule) && Extends(t, t')
  {
    var t' := t[w := t[w].(endpoint := Some(endpoint))];
    assert forall u :: SameWild(t, t', u);
    forall u | u in t' && t'[u].wild.Some? ensures Passed(t', u) == Passed(t, u) { PassedSame(t, t', u); }
    assert forall u :: u in t' <==> u in t;
    assert forall u | u in t :: t'[u].wild == t[u].wild;
  }

  lemma ServedAfter(t: Trie, t': Trie, rule: Rule, routes: map<Word, seq<Matcher>>, w: Word)
    requires ServedBy(t, rule, routes, w) && Extends(t, t')
    ensures ServedBy(t', rule, routes, w)
  {
    AlongExtends(t, t', Root, routes[w]);
  }

  /** What an insertion does to the endpoints: it adds the one it was asked for, or none. */
  ghost predicate EndpointAdded(t: Trie, t': Trie, w: Word, endpoint: Option<Endpoint>) {
    && (forall u | u in t' && (endpoint.Some? ==> u != w) :: t'[u].endpoint == if u in t then t[u].endpoint else None)
    && (endpoint.Some? ==> w in t' && t'[w].endpoint == endpoint && (w in t ==> t[w].endpoint.None?))
  }

  lemma InsertionServes(t: Trie, rule: Rule, routes: map<Word, seq<Matcher>>, ms: seq<Matcher>, endpoint: Endpoint)
    requires Serves(t, rule, routes) && ValidRoute(rule, ms)
    ensures var (t', error) := Insertion(t, ms, endpoint);
            && Serves(t', rule, if error.None? then routes[WordOf(ms) := ms] else routes)
            && Extends(t, t') && (error.None? ==> Along(t', Root, ms))
            && EndpointAdded(t, t', WordOf(ms), if error.None? then Some(endpoint) else None)
  {
    var b := BuildPath(t, Root, ms);
    StartReady(t, ms, rule);
    BuildHealthy(t, Root, ms, {}, rule);
    var (t', error) := Insertion(t, ms, endpoint);
    if error.None? {
      EndpointHealthy(b.trie, b.node, endpoint, rule);
      AlongExtends(b.trie, t', Root, ms);
      var routes' := routes[WordOf(ms) := ms];
      forall w | w in t' && t'[w].endpoint.Some? ensures ServedBy(t', rule, routes', w) {
        if w != b.node {
          assert ServedBy(t, rule, routes, w);
          AlongExtends(t, b.trie, Root, routes[w]);
          AlongExtends(b.trie, t', Root, routes[w]);
        }
      }
    } else {
      forall w | w in t' && t'[w].endpoint.Some? ensures ServedBy(t', rule, routes, w) {
        ServedAfter(t, t', rule, routes, w);
      }
    }
  }

  /**
   What an insertion comes to, read off the trie before it: a collision of parameters exactly when the
   trie does not agree with the route; an error exactly when the route's word then has an endpoint, by
   whether that has the same route text; and success otherwise.
   */
  lemma InsertionErrorIff(t: Trie, rule: Rule, ms: seq<Matcher>, endpoint: Endpoint)
    requires Healthy(t, rule) && ValidRoute(rule, ms)
    ensures var error, w := Insertion(t, ms, endpoint).1, WordOf(ms);
            var taken := w in t && t[w].endpoint.Some?;
            && (error == Some(ParameterCollision) <==> !Agrees(t, Root, ms))
            && (error == Some(RouteExists) <==>
                  Agrees(t, Root, ms) && taken && t[w].endpoint.value.route == endpoint.route)
            && (error == Some(RouteCollision) <==>
                  Agrees(t, Root, ms) && taken && t[w].endpoint.value.route != endpoint.route)
            && (error == None <==> Agrees(t, Root, ms) && !taken)
  {
    StartReady(t, ms, rule);
    BuildHealthy(t, Root, ms, {}, rule);
    BuildsIff(t, Root, ms);
  }

  /** A refused insertion leaves the trie as it was, to the last node. */
  lemma RefusedChangesNothing(t: Trie, rule: Rule, ms: seq<Matcher>, endpoint: Endpoint)
    requires Healthy(t, rule) && ValidRoute(rule, ms) && Insertion(t, ms, endpoint).1.Some?
    ensures Insertion(t, ms, endpoint).0 == t
  {
    InsertionErrorIff(t, rule, ms, endpoint);
    BuildsNothing(t, Root, ms);
  }

  const EMPTY: Trie := map[Root := BLANK]

  /** Insertions one after another, each of which must succeed. */
  ghost function InsertAll(t: Trie, inserts: seq<(seq<Matcher>, Endpoint)>): Option<Trie>
    decreases |inserts|
  {
    if inserts == [] then Some(t)
    else
      var (t', error) := Insertion(t, inserts[0].0, inserts[0].1);
      if error.Some? then None else InsertAll(t', inserts[1..])
  }

  /** The route still has its nodes and its endpoint. */
  ghost predicate Stands(t: Trie, ms: seq<Matcher>, endpoint: Endpoint) {
    WordOf(ms) in t && t[WordOf(ms)].endpoint == Some(endpoint) && Along(t, Root, ms)
  }

  /** The routes at their words, once all have been inserted. */
  ghost function RoutesAfter(routes: map<Word, seq<Matcher>>, inserts: seq<(seq<Matcher>, Endpoint)>)
    : map<Word, seq<Matcher>>
    decreases |inserts|
  {
    if inserts == [] then routes
    else RoutesAfter(routes[WordOf(inserts[0].0) := inserts[0].0], inserts[1..])
  }

  ghost predicate AllValid(rule: Rule, inserts: seq<(seq<Matcher>, Endpoint)>) {
    forall k | 0 <= k < |inserts| :: ValidRoute(rule, inserts[k].0)
  }

  /** After any successful insertions every one of the routes still has its node and its endpoint. */
  lemma {:induction false} EveryInsertedRouteStays(t: Trie, rule: Rule, routes: map<Word, seq<Matcher>>,
                                                   inserts: seq<(seq<Matcher>, Endpoint)>)
    requires Serves(t, rule, routes) && InsertAll(t, inserts).Some? && AllValid(rule, inserts)
    ensures var t' := InsertAll(t, inserts).value;
            && Serves(t', rule, RoutesAfter(routes, inserts)) && Extends(t, t')
            && forall k | 0 <= k < |inserts| :: Stands(t', inserts[k].0, inserts[k].1)
    decreases |inserts|
  {
    if inserts != [] {
      var (ms, endpoint) := inserts[0];
      var (t1, _) := Insertion(t, ms, endpoint);
      InsertionServes(t, rule, routes, ms, endpoint);
      EveryInsertedRouteStays(t1, rule, routes[WordOf(ms) := ms], inserts[1..]);
      var t' := InsertAll(t, inserts).value;
      AlongExtends(t1, t', Root, ms);
      forall k | 0 <= k < |inserts| ensures Stands(t', inserts[k].0, inserts[k].1) {
        if k > 0 { assert inserts[k] == inserts[1..][k - 1]; }
      }
    }
  }

  /** Insertion `k` is the one that put the endpoint and the route at the word. */
  ghost predicate CameWith(t: Trie, routes: map<Word, seq<Matcher>>, w: Word,
                           inserts: seq<(seq<Matcher>, Endpoint)>, k: nat)
  {
    && k < |inserts| && w == WordOf(inserts[k].0)
    && w in routes && routes[w] == inserts[k].0
    && w in t && t[w].endpoint == Some(inserts[k].1)
  }

  /** The endpoint and the route at the word are those of before. */
  ghost predicate WasThere(t: Trie, routes: map<Word, seq<Matcher>>,
                           t': Trie, routes': map<Word, seq<Matcher>>, w: Word)
  {
    && w in t && w in t' && t[w].endpoint == t'[w].endpoint
    && w in routes && w in routes' && routes[w] == routes'[w]
  }

  /** One insertion: the endpoint at its own word is its own, all others were there. */
  lemma InsertedOrThere(t: Trie, rule: Rule, routes: map<Word, seq<Matcher>>,
                        ms: seq<Matcher>, endpoint: Endpoint, w: Word)
    requires Serves(t, rule, routes) && ValidRoute(rule, ms) && Insertion(t, ms, endpoint).1.None?
    requires w in Insertion(t, ms, endpoint).0 && Insertion(t, ms, endpoint).0[w].endpoint.Some?
    ensures var t' := Insertion(t, ms, endpoint).0;
            if w == WordOf(ms) then t'[w].endpoint == Some(endpoint)
            else WasThere(t, routes, t', routes[WordOf(ms) := ms], w)
  {
    InsertionServes(t, rule, routes, ms, endpoint);
    if w != WordOf(ms) { assert ServedBy(t, rule, routes, w); }
  }

  /** What was there after the first insertion was there before it, or came with it. */
  lemma TraceBack(t: Trie, routes: map<Word, seq<Matcher>>, t1: Trie, routes1: map<Word, seq<Matcher>>,
                  t': Trie, routes': map<Word, seq<Matcher>>, inserts: seq<(seq<Matcher>, Endpoint)>, w: Word)
    requires inserts != [] && WasThere(t1, routes1, t', routes', w)
    requires routes1 == routes[WordOf(inserts[0].0) := inserts[0].0]
    requires if w == WordOf(inserts[0].0) then t1[w].endpoint == Some(inserts[0].1)
             else WasThere(t, routes, t1, routes1, w)
    ensures WasThere(t, routes, t', routes', w) || CameWith(t', routes', w, inserts, 0)
  {
  }

  lemma LaterCameWith(t: Trie, routes: map<Word, seq<Matcher>>, w: Word, inserts: seq<(seq<Matcher>, Endpoint)>, k: nat)
    requires inserts != [] && CameWith(t, routes, w, inserts[1..], k)
    ensures CameWith(t, routes, w, inserts, k + 1)
  {
  }

  /** Every endpoint of the trie was there before, or came with one of the insertions. */
  lemma {:induction false} EndpointsComeWithRoutes(t: Trie, rule: Rule, routes: map<Word, seq<Matcher>>,
                                                   inserts: seq<(seq<Matcher>, Endpoint)>, w: Word)
    requires Serves(t, rule, routes) && InsertAll(t, inserts).Some? && AllValid(rule, inserts)
    requires w in InsertAll(t, inserts).value && InsertAll(t, inserts).value[w].endpoint.Some?
    ensures var t', routes' := InsertAll(t, inserts).value, RoutesAfter(routes, inserts);
            WasThere(t, routes, t', routes', w) || exists k :: CameWith(t', routes', w, inserts, k)
    decreases |inserts|
  {
    var t', routes' := InsertAll(t, inserts).value, RoutesAfter(routes, inserts);
    if inserts == [] {
      assert ServedBy(t, rule, routes, w);
    } else {
      var (ms, endpoint) := inserts[0];
      var t1, routes1 := Insertion(t, ms, endpoint).0, routes[WordOf(ms) := ms];
      InsertionServes(t, rule, routes, ms, endpoint);
      assert AllValid(rule, inserts[1..]);
      EndpointsComeWithRoutes(t1, rule, routes1, inserts[1..], w);
      if k :| CameWith(t', routes', w, inserts[1..], k) {
        LaterCameWith(t', routes', w, inserts, k);
      } else {
        InsertedOrThere(t, rule, routes, ms, endpoint, w);
        TraceBack(t, routes, t1, routes1, t', routes', inserts, w);
      }
    }
  }

  // ----------------------------------------------------- agreement with routes

  /** `part` stands in the path at position `i`. */
  ghost predicate StandsAt(path: string, i: nat, part: string)
    decreases |part|
  {
    part == "" || (i < |path| && path[i] == part[0] && StandsAt(path, i + 1, part[1..]))
  }

  lemma {:induction false} StandsSlice(path: string, i: nat, part: string)
    requires i <= |path|
    ensures StandsAt(path, i, part) <==> i + |part| <= |path| && path[i..i + |part|] == part
    decreases |part|
  {
    if part != "" && i < |path| {
      StandsSlice(path, i + 1, part[1..]);
      if i + |part| <= |path| {
        assert path[i..i + |part|] == [path[i]] + path[i + 1..i + |part|];
        assert part == [part[0]] + part[1..];
      }
    }
  }

  /** A literal text is read along its edges exactly where it stands in the path. */
  lemma {:induction false} LitsRead(t: Trie, path: string, take: Taker, w: Word, i: nat, part: string)
    requires Reads(t, path, take, w) == Some(i)
    ensures Reads(t, path, take, LitsFrom(w, part)) == if StandsAt(path, i, part) then Some(i + |part|) else None
    decreases |part|
  {
    if part != "" {
      var next := Kid(w, Lit(part[0]));
      if Reads(t, path, take, next).Some? {
        LitsRead(t, path, take, next, i + 1, part[1..]);
      } else if Reads(t, path, take, LitsFrom(w, part)).Some? {
        LitsUnder(next, part[1..]);
        ReadsAbove(t, path, take, next, LitsFrom(w, part));
      }
    }
  }

  lemma SegmentIs(path: string, i: nat, j: nat)
    requires i < j <= |path| && forall k | i < k < j :: path[k] != SEP
    requires j == |path| || path[j] == SEP
    ensures SegmentEnd(path, i) == j
  {
  }

  /** After a matcher's edges a spelled route stands at the end of the path or at a separator. */
  lemma RouteGoesOn(t: Trie, path: string, take: Taker, w: Word, ms: seq<Matcher>)
    requires Spells(t, path, take, WordFrom(w, ms))
    ensures Reads(t, path, take, w).Some?
    ensures var end := Reads(t, path, take, w).value;
            end >= |path| || (ms != [] && path[end] == SEP && Reads(t, path, take, Kid(w, Lit(SEP))) == Some(end + 1))
    ensures ms != [] ==> Reads(t, path, take, w).value < |path|
  {
    var u := WordFrom(w, ms);
    WordUnder(w, ms);
    ReadsAbove(t, path, take, w, u);
    if ms != [] {
      ReadsAbove(t, path, take, Kid(w, Lit(SEP)), u);
    }
  }

  lemma LiteralSegment(path: string, i: nat, chunk: string)
    requires i <= |path| && chunk != "" && SEP !in chunk && StandsAt(path, i, chunk)
    requires i + |chunk| >= |path| || path[i + |chunk|] == SEP
    ensures i < |path| && SegmentEnd(path, i) == i + |chunk| && Segment(path, i) == chunk
  {
    StandsSlice(path, i, chunk);
    var part := path[i..i + |chunk|];
    forall k | i < k < i + |chunk| ensures path[k] != SEP { assert part[k - i] == path[k]; }
    SegmentIs(path, i, i + |chunk|);
  }

  /** A spelled route reads its first segment whole, and its first matcher accepts that segment. */
  lemma FirstSegmentRead(t: Trie, path: string, w: Word, i: nat, ms: seq<Matcher>)
    requires ms != [] && ValidChunks(ms) && Along(t, w, ms)
    requires Reads(t, path, TakerOf(path), w) == Some(i) && Segmented(path, i)
    requires Spells(t, path, TakerOf(path), WordFrom(w, ms))
    ensures i + 1 < |path|
    ensures Reads(t, path, TakerOf(path), Kid(w, Lit(SEP))) == Some(i + 1)
    ensures Reads(t, path, TakerOf(path), EdgesFrom(Kid(w, Lit(SEP)), ms[0])) == Some(SegmentEnd(path, i + 1))
    ensures ReadsWhole(ms[0], Segment(path, i + 1))
  {
    var take := TakerOf(path);
    var slash := Kid(w, Lit(SEP));
    RouteGoesOn(t, path, take, w, ms);
    RouteGoesOn(t, path, take, EdgesFrom(slash, ms[0]), ms[1..]);
    if ms[0].Literal? {
      LiteralEdgesRead(t, path, take, slash, i + 1, ms[0].chunk);
    } else {
      if i + 1 < |path| { TakeIs(path, ms[0], i + 1); }
      WildEdgeReads(t, path, take, slash, i + 1, ms[0]);
    }
  }

  lemma LiteralEdgesRead(t: Trie, path: string, take: Taker, slash: Word, i: nat, chunk: string)
    requires Reads(t, path, take, slash) == Some(i) && i <= |path| && chunk != "" && SEP !in chunk
    requires var end := Reads(t, path, take, LitsFrom(slash, chunk));
             end.Some? && (end.value >= |path| || path[end.value] == SEP)
    ensures i < |path| && Reads(t, path, take, LitsFrom(slash, chunk)) == Some(SegmentEnd(path, i))
    ensures Segment(path, i) == chunk
  {
    LitsRead(t, path, take, slash, i, chunk);
    LiteralSegment(path, i, chunk);
  }

  /** What reads along a wildcard edge is what its matcher takes. */
  lemma WildTakes(t: Trie, path: string, take: Taker, slash: Word, i: nat, m: Matcher)
    requires Reads(t, path, take, slash) == Some(i) && slash in t && t[slash].wild == Some(m)
    requires var end := Reads(t, path, take, Kid(slash, Wild));
             end.Some? && (end.value >= |path| || path[end.value] == SEP)
    ensures i < |path| && take(m, i).Some?
    ensures var end := i + |take(m, i).value|;
      && Reads(t, path, take, Kid(slash, Wild)) == Some(end) && (end >= |path| || path[end] == SEP)
  {
  }

  /** A start of a segment that ends where the path does, or at a separator, is the whole segment. */
  lemma WholeSegment(path: string, i: nat, value: string)
    requires i < |path| && value <= Segment(path, i)
    requires i + |value| >= |path| || path[i + |value|] == SEP
    requires value != ""
    ensures value == Segment(path, i) && i + |value| == SegmentEnd(path, i)
  {
    var part := Segment(path, i);
    assert forall k | 0 <= k < |part| :: part[k] == path[i + k];
  }

  lemma WholeTaken(path: string, take: Taker, i: nat, m: Matcher)
    requires i < |path| && take(m, i).Some? && take(m, i) == Match(m, Segment(path, i))
    requires var end := i + |take(m, i).value|; end >= |path| || path[end] == SEP
    ensures take(m, i) == Some(Segment(path, i)) && i + |Segment(path, i)| == SegmentEnd(path, i)
  {
    WholeSegment(path, i, take(m, i).value);
  }

  lemma WildEdgeReads(t: Trie, path: string, take: Taker, slash: Word, i: nat, m: Matcher)
    requires Reads(t, path, take, slash) == Some(i) && slash in t && t[slash].wild == Some(m)
    requires var end := Reads(t, path, take, Kid(slash, Wild));
             end.Some? && (end.value >= |path| || path[end.value] == SEP)
    requires i < |path| ==> take(m, i) == Match(m, Segment(path, i))
    ensures i < |path| && Reads(t, path, take, Kid(slash, Wild)) == Some(SegmentEnd(path, i))
    ensures Match(m, Segment(path, i)) == Some(Segment(path, i))
  {
    WildTakes(t, path, take, slash, i, m);
    WholeTaken(path, take, i, m);
  }

  /** The trie's way of accepting a segment: literals to the letter, parameters without a remainder. */
  ghost predicate ReadsWhole(m: Matcher, part: Part) {
    if m.Literal? then m.chunk == part else Match(m, part) == Some(part)
  }

  /** A route reads a list of segments, one matcher each. */
  ghost predicate ReadsAll(ms: seq<Matcher>, segments: seq<Part>)
    decreases |ms|
  {
    if ms == [] || segments == [] then ms == [] && segments == []
    else ReadsWhole(ms[0], segments[0]) && ReadsAll(ms[1..], segments[1..])
  }

  /** A segment the first matcher reads whole leads along its edges to the segment's end. */
  lemma WholeSegmentReads(t: Trie, path: string, slash: Word, i: nat, m: Matcher)
    requires Reads(t, path, TakerOf(path), slash) == Some(i) && i < |path| && ReadsWhole(m, Segment(path, i))
    requires m.Literal? || (slash in t && t[slash].wild == Some(m))
    ensures Reads(t, path, TakerOf(path), EdgesFrom(slash, m)) == Some(SegmentEnd(path, i))
  {
    if m.Literal? {
      LiteralSegmentStands(t, path, TakerOf(path), slash, i, SegmentEnd(path, i), m.chunk);
    } else {
      TakeIs(path, m, i);
      WholeMatches(m, Segment(path, i));
      WildReads(t, path, TakerOf(path), slash, i, m, Segment(path, i));
    }
  }

  lemma WildReads(t: Trie, path: string, take: Taker, slash: Word, i: nat, m: Matcher, part: Part)
    requires Reads(t, path, take, slash) == Some(i) && i < |path| && slash in t && t[slash].wild == Some(m)
    requires take(m, i) == Some(part)
    ensures Reads(t, path, take, Kid(slash, Wild)) == Some(i + |part|)
  {
  }

  lemma TakeIs(path: string, m: Matcher, i: nat)
    requires i < |path|
    ensures TakerOf(path)(m, i) == Match(m, Segment(path, i))
  {
  }

  lemma LiteralSegmentStands(t: Trie, path: string, take: Taker, slash: Word, i: nat, end: nat, chunk: string)
    requires Reads(t, path, take, slash) == Some(i) && i <= end <= |path| && chunk == path[i..end]
    ensures Reads(t, path, take, LitsFrom(slash, chunk)) == Some(end)
  {
    StandsSlice(path, i, chunk);
    LitsRead(t, path, take, slash, i, chunk);
  }

  /** A route's word spells a path exactly when the route reads the path's segments. */
  lemma {:induction false} RouteSpellsIff(t: Trie, path: string, w: Word, i: nat, ms: seq<Matcher>)
    requires ValidChunks(ms) && Along(t, w, ms)
    requires Reads(t, path, TakerOf(path), w) == Some(i) && Segmented(path, i)
    ensures Spells(t, path, TakerOf(path), WordFrom(w, ms)) <==> ReadsAll(ms, Segments(path, i))
    decreases |ms|
  {
    if ms != [] {
      var next := EdgesFrom(Kid(w, Lit(SEP)), ms[0]);
      if Spells(t, path, TakerOf(path), WordFrom(w, ms)) {
        FirstSegmentRead(t, path, w, i, ms);
        RouteSpellsIff(t, path, next, SegmentEnd(path, i + 1), ms[1..]);
      } else if i < |path| && ReadsWhole(ms[0], Segment(path, i + 1)) {
        WholeSegmentReads(t, path, Kid(w, Lit(SEP)), i + 1, ms[0]);
        RouteSpellsIff(t, path, next, SegmentEnd(path, i + 1), ms[1..]);
      }
      SegmentsHead(path, i);
    }
  }

  lemma SegmentsHead(path: string, i: nat)
    requires Segmented(path, i)
    ensures i < |path| ==> var segments := Segments(path, i);
                           segments != [] && segments[0] == Segment(path, i + 1) &&
                           segments[1..] == Segments(path, SegmentEnd(path, i + 1))
    ensures i == |path| ==> Segments(path, i) == []
  {
  }

  /** The parameters a route's own matcher records agree with `q` wherever the route has a name. */
  ghost predicate SameParameters(ms: seq<Matcher>, p: Parameters, q: Parameters) {
    forall k | 0 <= k < |ms| && !ms[k].Literal? :: SameParameter(Key(ms[k]), p, q)
  }

  ghost predicate SameParameter(key: string, p: Parameters, q: Parameters) { key in p && key in q && p[key] == q[key] }

  /** Matching the rest of a route leaves the parameters of names it does not have. */
  lemma {:induction false} MatchKeeps(ms: seq<Matcher>, segments: seq<Part>, params: Parameters, above: set<string>,
                                      key: string)
    requires FreshNames(above, ms) && key in above && MatchSegments(ms, segments, params).Some?
    ensures var p := MatchSegments(ms, segments, params).value;
            (key in p <==> key in params) && (key in params ==> p[key] == params[key])
    decreases |ms|
  {
    if ms != [] {
      var value := Match(ms[0], segments[0]).value;
      MatchKeeps(ms[1..], segments[1..], Capture(ms[0], value, params),
                 if ms[0].Literal? then above else above + {Key(ms[0])}, key);
    }
  }

  /** All wildcards between `w` and `u` recorded in `q` what they captured. */
  ghost predicate AllCaptured(t: Trie, path: string, w: Word, u: Word, q: Parameters) {
    forall v | Under(w, v) && Under(Kid(v, Wild), u) ::
      v in t && t[v].wild.Some? && Captured(t, path, TakerOf(path), v, q)
  }

  lemma AllCapturedBelow(t: Trie, path: string, w: Word, w': Word, u: Word, q: Parameters)
    requires AllCaptured(t, path, w, u, q) && Under(w, w')
    ensures AllCaptured(t, path, w', u, q)
  {
    forall v | Under(w', v) && Under(Kid(v, Wild), u) ensures Under(w, v) { UnderTransitive(w, w', v); }
  }

  lemma WholeMatches(m: Matcher, part: Part)
    requires ReadsWhole(m, part)
    ensures Match(m, part) == Some(part)
  {
  }

  lemma {:induction false} RouteAccepts(t: Trie, path: string, w: Word, i: nat, ms: seq<Matcher>, p: Parameters,
                                        q: Parameters, above: set<string>)
    requires ValidChunks(ms) && Along(t, w, ms) && FreshNames(above, ms)
    requires Reads(t, path, TakerOf(path), w) == Some(i) && Segmented(path, i)
    requires Spells(t, path, TakerOf(path), WordFrom(w, ms)) && AllCaptured(t, path, w, WordFrom(w, ms), q)
    ensures MountMatch(ms, path, i, p).Some? && SameParameters(ms, MountMatch(ms, path, i, p).value, q)
    decreases |ms|
  {
    if ms != [] {
      var slash := Kid(w, Lit(SEP));
      var next := EdgesFrom(slash, ms[0]);
      FirstSegmentRead(t, path, w, i, ms);
      var part := Segment(path, i + 1);
      var p1 := Capture(ms[0], part, p);
      var above1 := if ms[0].Literal? then above else above + {Key(ms[0])};
      WholeMatches(ms[0], part);
      WordUnder(w, ms);
      UnderTransitive(w, slash, next);
      AllCapturedBelow(t, path, w, next, WordFrom(w, ms), q);
      RouteAccepts(t, path, next, SegmentEnd(path, i + 1), ms[1..], p1, q, above1);
      MountHead(ms, path, i, p);
      if !ms[0].Literal? {
        assert Captured(t, path, TakerOf(path), slash, q);
        HeadParameter(ms, path, i, p, q, above);
      }
      SameParametersCons(ms, MountMatch(ms, path, i, p).value, q);
    }
  }

  lemma MountHead(ms: seq<Matcher>, path: string, i: nat, p: Parameters)
    requires ms != [] && Segmented(path, i) && i < |path|
    requires Match(ms[0], Segment(path, i + 1)) == Some(Segment(path, i + 1))
    ensures MountMatch(ms, path, i, p) ==
            MountMatch(ms[1..], path, SegmentEnd(path, i + 1), Capture(ms[0], Segment(path, i + 1), p))
  {
    MountStep(ms, 0, path, i, p);
    assert ms[0..] == ms;
  }

  /** The first parameter's value survives the rest of the route. */
  lemma HeadParameter(ms: seq<Matcher>, path: string, i: nat, p: Parameters, q: Parameters, above: set<string>)
    requires ms != [] && !ms[0].Literal? && FreshNames(above, ms) && Segmented(path, i) && i < |path|
    requires MountMatch(ms[1..], path, SegmentEnd(path, i + 1), Capture(ms[0], Segment(path, i + 1), p)).Some?
    requires Key(ms[0]) in q && q[Key(ms[0])] == Segment(path, i + 1)
    ensures var rest := MountMatch(ms[1..], path, SegmentEnd(path, i + 1), Capture(ms[0], Segment(path, i + 1), p));
            SameParameter(Key(ms[0]), rest.value, q)
  {
    MatchKeeps(ms[1..], Segments(path, SegmentEnd(path, i + 1)), Capture(ms[0], Segment(path, i + 1), p),
               above + {Key(ms[0])}, Key(ms[0]));
  }

  lemma SameParametersCons(ms: seq<Matcher>, p: Parameters, q: Parameters)
    requires ms != [] && SameParameters(ms[1..], p, q) && (!ms[0].Literal? ==> SameParameter(Key(ms[0]), p, q))
    ensures SameParameters(ms, p, q)
  {
    forall k | 0 <= k < |ms| && !ms[k].Literal? ensures SameParameter(Key(ms[k]), p, q) {
      if k > 0 { assert ms[k] == ms[1..][k - 1]; }
    }
  }

  /** What the search of the whole trie gives for a path. */
  ghost function Search(t: Trie, path: string): (o: Outcome)
    requires Rooted(t)
    ensures o.node.Some? ==> o.node.value in t
  {
    ExploreFindsFirst(t, path, TakerOf(path), Root, 0, map[]);
    Explore(t, path, TakerOf(path), Root, 0, map[])
  }

  /**
   When the trie answers a path with a node, that node's route, asked alone, accepts the path too and
   records the same value for every parameter it names.
   */
  lemma TrieAgreesWithRoute(t: Trie, rule: Rule, routes: map<Word, seq<Matcher>>, path: string)
    requires Serves(t, rule, routes) && NormalPath(path)
    ensures var o := Search(t, path);
            o.node.Some? && t[o.node.value].endpoint.Some? ==>
              o.node.value in routes &&
              var own := MountMatch(routes[o.node.value], path, 0, map[]);
              own.Some? && SameParameters(routes[o.node.value], own.value, o.params)
  {
    var o := Search(t, path);
    ExploreFindsFirst(t, path, TakerOf(path), Root, 0, map[]);
    if o.node.Some? && t[o.node.value].endpoint.Some? {
      var u := o.node.value;
      assert ServedBy(t, rule, routes, u);
      forall v | Under(Root, v) && Under(Kid(v, Wild), u)
        ensures v in t && t[v].wild.Some? && Captured(t, path, TakerOf(path), v, o.params)
      {
        PrefixClosed(t, Kid(v, Wild), u);
        ExploreCaptures(t, path, TakerOf(path), Root, 0, map[], v);
      }
      RouteAccepts(t, path, Root, 0, routes[u], map[], o.params, {});
    }
  }

  /**
   Which names an answer's parameters hold: those of the wildcards the path reads through that do not come
   after the node found, also where the search turned back.
   */
  lemma ParametersIff(t: Trie, path: string, key: string)
    requires Rooted(t)
    ensures key in Search(t, path).params <==> Leaves(t, path, TakerOf(path), Root, Search(t, path).node, key)
  {
    ExploreLeaves(t, path, TakerOf(path), Root, 0, map[], key);
  }

  // --------------------------------------------------- what the answer is, exactly

  /** Two words neither of which lies under the other part at some node, by different edges. */
  lemma {:induction false} Parting(u: Word, x: Word) returns (p: Word, e: Edge, f: Edge)
    requires !Under(u, x) && !Under(x, u)
    ensures Under(Kid(p, e), u) && Under(Kid(p, f), x) && e != f
  {
    RootAbove(x);
    if Under(u.up, x) {
      p, e, f := u.up, u.edge, Next(u.up, x);
      NextKid(u.up, x);
    } else {
      p, e, f := Parting(u.up, x);
    }
  }

  /**
   Search order compares any two different words that spell the same path: with PrecedesAsymmetric,
   which of them the trie returns is settled by their spelling alone.
   */
  lemma SpelledCompare(t: Trie, path: string, take: Taker, u: Word, x: Word)
    requires Spells(t, path, take, u) && Spells(t, path, take, x) && u != x
    ensures Precedes(u, x) || Precedes(x, u)
  {
    if Under(u, x) { ReadsAbove(t, path, take, u, x); }
    if Under(x, u) { ReadsAbove(t, path, take, x, u); }
    var p, e, f := Parting(u, x);
    ReadsAbove(t, path, take, Kid(p, e), u);
    ReadsAbove(t, path, take, Kid(p, f), x);
  }

  /** The trie returns a node exactly when it is spelled and no other spelled node comes before it. */
  lemma ReturnedIffFirst(t: Trie, path: string, u: Word)
    requires Rooted(t)
    ensures Search(t, path).node == Some(u) <==>
            && u in t && Spells(t, path, TakerOf(path), u)
            && forall x | x in t && Spells(t, path, TakerOf(path), x) :: !Precedes(x, u)
  {
    var take := TakerOf(path);
    var node := Search(t, path).node;
    ExploreFindsFirst(t, path, take, Root, 0, map[]);
    if node == Some(u) {
      forall x | x in t && Spells(t, path, take, x) ensures !Precedes(x, u) {
        RootAbove(x);
        if x != u { PrecedesAsymmetric(u, x); } else if Precedes(u, u) { PrecedesAsymmetric(u, u); }
      }
    } else if u in t && Spells(t, path, take, u) {
      RootAbove(u);
      assert First(t, path, take, Root, node.value);
      assert Precedes(node.value, u);
    }
  }

  /** What the trie answers for a path. */
  ghost function Answer(t: Trie, path: string): Option<(Parameters, Endpoint)>
    requires Rooted(t)
  {
    var o := Search(t, path);
    if o.node.Some? && t[o.node.value].endpoint.Some? then
      Some((o.params, t[o.node.value].endpoint.value))
    else None
  }

  /** Insertion `k` explains the answer: its endpoint, and what its route records when asked alone. */
  ghost predicate Explains(inserts: seq<(seq<Matcher>, Endpoint)>, k: nat, path: string, answer: (Parameters, Endpoint))
    requires NormalPath(path)
  {
    && k < |inserts| && inserts[k].1 == answer.1
    && var own := MountMatch(inserts[k].0, path, 0, map[]);
       own.Some? && SameParameters(inserts[k].0, own.value, answer.0)
  }

  /**
   From insertions to answers: what an empty trie answers after any successful insertions is the
   endpoint of one of the inserted routes, which asked alone accepts the path with the same values.
   */
  lemma AnswersWithAnInsertedRoute(rule: Rule, inserts: seq<(seq<Matcher>, Endpoint)>, path: string)
    requires AllValid(rule, inserts) && NormalPath(path) && InsertAll(EMPTY, inserts).Some?
    ensures var t := InsertAll(EMPTY, inserts).value;
            && Rooted(t)
            && (Answer(t, path).Some? ==> exists k :: Explains(inserts, k, path, Answer(t, path).value))
  {
    var t, routes := InsertAll(EMPTY, inserts).value, RoutesAfter(map[], inserts);
    EmptyServes(rule, map[]);
    EveryInsertedRouteStays(EMPTY, rule, map[], inserts);
    if Answer(t, path).Some? {
      var u := Search(t, path).node.value;
      EndpointsComeWithRoutes(EMPTY, rule, map[], inserts, u);
      var k :| CameWith(t, routes, u, inserts, k);
      TrieAgreesWithRoute(t, rule, routes, path);
      assert Explains(inserts, k, path, Answer(t, path).value);
    }
  }

  /**
   The walk stops at the first spelled node whether or not it has an endpoint. So the trie answers a path
   exactly when the first spelled node has an endpoint, however many later ones have.
   */
  lemma AnswersIff(t: Trie, path: string)
    requires Rooted(t)
    ensures Answer(t, path).Some? <==>
            exists u :: u in t && t[u].endpoint.Some? && Spells(t, path, TakerOf(path), u) &&
                        forall x | x in t && Spells(t, path, TakerOf(path), x) :: !Precedes(x, u)
  {
    if Answer(t, path).Some? {
      ReturnedIffFirst(t, path, Search(t, path).node.value);
    }
    forall u | u in t && t[u].endpoint.Some? && Spells(t, path, TakerOf(path), u) &&
               forall x | x in t && Spells(t, path, TakerOf(path), x) :: !Precedes(x, u)
      ensures Answer(t, path).Some?
    {
      ReturnedIffFirst(t, path, u);
    }
  }

  // ------------------------------------------------------------- literal routes

  function PathOf(ms: seq<Matcher>): string
    decreases |ms|
  {
    if ms == [] then "" else [SEP] + ms[0].chunk + PathOf(ms[1..])
  }

  ghost predicate AllLiteral(ms: seq<Matcher>) { forall k | 0 <= k < |ms| :: ms[k].Literal? }

  ghost predicate NoWild(w: Word) { w == Root || (w.edge.Lit? && NoWild(w.up)) }

  lemma {:induction false} NoWildAbove(w: Word, p: Word)
    requires NoWild(w)
    ensures !Under(Kid(p, Wild), w)
  {
    if w != Root { NoWildAbove(w.up, p); }
  }

  lemma {:induction false} LitsNoWild(w: Word, part: string)
    requires NoWild(w)
    ensures NoWild(LitsFrom(w, part))
    decreases |part|
  {
    if part != "" { LitsNoWild(Kid(w, Lit(part[0])), part[1..]); }
  }

  lemma {:induction false} LiteralWord(w: Word, ms: seq<Matcher>)
    requires NoWild(w) && AllLiteral(ms)
    ensures NoWild(WordFrom(w, ms))
    decreases |ms|
  {
    if ms != [] {
      LitsNoWild(Kid(w, Lit(SEP)), ms[0].chunk);
      LiteralWord(EdgesFrom(Kid(w, Lit(SEP)), ms[0]), ms[1..]);
    }
  }

  lemma Unprefixed(path: string, i: nat, chunk: string, rest: string)
    requires i <= |path| && path[i..] == [SEP] + chunk + rest
    ensures i < |path| && path[i] == SEP && StandsAt(path, i + 1, chunk)
    ensures i + 1 + |chunk| <= |path| && path[i + 1 + |chunk|..] == rest
  {
    var tail := path[i..];
    assert tail == [SEP] + (chunk + rest);
    assert tail[0] == path[i] && tail[1..] == chunk + rest && tail[1..] == path[i + 1..];
    assert path[i + 1..][..|chunk|] == chunk && path[i + 1..][|chunk|..] == rest;
    assert path[i + 1..][..|chunk|] == path[i + 1..i + 1 + |chunk|];
    StandsSlice(path, i + 1, chunk);
  }

  lemma {:induction false} LiteralRouteSpells(t: Trie, path: string, take: Taker, w: Word, i: nat, ms: seq<Matcher>)
    requires AllLiteral(ms)
    requires Reads(t, path, take, w) == Some(i) && i <= |path| && path[i..] == PathOf(ms)
    ensures Spells(t, path, take, WordFrom(w, ms))
    decreases |ms|
  {
    if ms != [] {
      var slash, chunk := Kid(w, Lit(SEP)), ms[0].chunk;
      Unprefixed(path, i, chunk, PathOf(ms[1..]));
      LitsRead(t, path, take, slash, i + 1, chunk);
      LiteralRouteSpells(t, path, take, LitsFrom(slash, chunk), i + 1 + |chunk|, ms[1..]);
    }
  }

  /** An all-literal route answers its own path, whatever wildcards the trie holds besides it. */
  lemma LiteralRouteWins(t: Trie, rule: Rule, ms: seq<Matcher>)
    requires Healthy(t, rule) && AllLiteral(ms) && WordOf(ms) in t
    ensures Search(t, PathOf(ms)).node == Some(WordOf(ms))
  {
    var u, path := WordOf(ms), PathOf(ms);
    LiteralRouteSpells(t, path, TakerOf(path), Root, 0, ms);
    LiteralWord(Root, ms);
    forall x ensures !Precedes(x, u) {
      forall p, c ensures !(Under(Kid(p, Lit(c)), x) && Under(Kid(p, Wild), u)) { NoWildAbove(u, p); }
    }
    ReturnedIffFirst(t, path, u);
  }

  // ----------------------------------------------------------- routes it misses

  /** A route with a file extension is never answered: its wildcard leaves the extension unread. */
  lemma ExtensionNeverAnswered(t: Trie, rule: Rule, routes: map<Word, seq<Matcher>>, path: string)
    requires Serves(t, rule, routes) && NormalPath(path)
    ensures var node := Search(t, path).node;
            node.Some? && t[node.value].endpoint.Some? ==>
              node.value in routes &&
              var ms := routes[node.value];
              forall k | 0 <= k < |ms| :: !(ms[k].Parameter? && ms[k].extension != "")
  {
    ExploreFindsFirst(t, path, TakerOf(path), Root, 0, map[]);
    var node := Search(t, path).node;
    if node.Some? && t[node.value].endpoint.Some? {
      assert ServedBy(t, rule, routes, node.value);
      RouteSpellsIff(t, path, Root, 0, routes[node.value]);
      WholeHasNoExtension(routes[node.value], Segments(path, 0));
    }
  }

  lemma {:induction false} WholeHasNoExtension(ms: seq<Matcher>, segments: seq<Part>)
    requires ReadsAll(ms, segments)
    ensures forall k | 0 <= k < |ms| :: !(ms[k].Parameter? && ms[k].extension != "")
    decreases |ms|
  {
    if ms != [] {
      WholeHasNoExtension(ms[1..], segments[1..]);
      forall k | 0 <= k < |ms| ensures !(ms[k].Parameter? && ms[k].extension != "") {
        if k > 0 { assert ms[k] == ms[1..][k - 1]; }
      }
    }
  }

  ghost predicate HasExtension(ms: seq<Matcher>) {
    exists k | 0 <= k < |ms| :: ms[k].Parameter? && ms[k].extension != ""
  }

  lemma {:induction false} EndpointExtended(rule: Rule, inserts: seq<(seq<Matcher>, Endpoint)>, w: Word)
    requires AllValid(rule, inserts) && InsertAll(EMPTY, inserts).Some?
    requires forall k | 0 <= k < |inserts| :: HasExtension(inserts[k].0)
    requires w in InsertAll(EMPTY, inserts).value && InsertAll(EMPTY, inserts).value[w].endpoint.Some?
    ensures w in RoutesAfter(map[], inserts) && HasExtension(RoutesAfter(map[], inserts)[w])
  {
    EmptyServes(rule, map[]);
    EndpointsComeWithRoutes(EMPTY, rule, map[], inserts, w);
    var k :| CameWith(InsertAll(EMPTY, inserts).value, RoutesAfter(map[], inserts), w, inserts, k);
  }

  /** If all the routes inserted have one, no path gets an answer. */
  lemma {:induction false} OnlyExtensions(rule: Rule, inserts: seq<(seq<Matcher>, Endpoint)>, path: string)
    requires AllValid(rule, inserts) && NormalPath(path) && InsertAll(EMPTY, inserts).Some?
    requires forall k | 0 <= k < |inserts| :: HasExtension(inserts[k].0)
    ensures Rooted(InsertAll(EMPTY, inserts).value) && Answer(InsertAll(EMPTY, inserts).value, path) == None
  {
    var t, routes := InsertAll(EMPTY, inserts).value, RoutesAfter(map[], inserts);
    EmptyServes(rule, map[]);
    EveryInsertedRouteStays(EMPTY, rule, map[], inserts);
    forall w | w in t && t[w].endpoint.Some? ensures w in routes && HasExtension(routes[w]) {
      EndpointExtended(rule, inserts, w);
    }
    ExtensionNeverAnswered(t, rule, routes, path);
    ExploreFindsFirst(t, path, TakerOf(path), Root, 0, map[]);
  }

  lemma SlashAThenEnd(path: string)
    requires path == "/a"
    ensures NormalPath(path) && Segments(path, 0) == ["a"]
  {
    assert SegmentEnd(path, 1) == 2 && path[1..2] == "a";
  }

  /** A literal node without an endpoint hides every wildcard route that would take its path. */
  lemma LiteralNodeHides(t: Trie, rule: Rule, ms: seq<Matcher>)
    requires Healthy(t, rule) && AllLiteral(ms) && WordOf(ms) in t && t[WordOf(ms)].endpoint.None?
    ensures Answer(t, PathOf(ms)) == None
  {
    LiteralRouteWins(t, rule, ms);
  }

  /** For one: with "/a/b" and "/:x" in the trie, and not "/a", the path "/a" is refused though "/:x" accepts it. */
  lemma HiddenRoute(t: Trie, rule: Rule, routes: map<Word, seq<Matcher>>, endpoint1: Endpoint, endpoint2: Endpoint)
    requires Serves(t, rule, routes) && Stands(t, [Literal("a"), Literal("b")], endpoint1)
    requires Stands(t, [Parameter(":x", "x", "", AnyText)], endpoint2)
    requires WordOf([Literal("a")]) in t ==> t[WordOf([Literal("a")])].endpoint.None?
    ensures MountMatch([Parameter(":x", "x", "", AnyText)], "/a", 0, map[]).Some? && Answer(t, "/a") == None
  {
    var a, ab := [Literal("a")], [Literal("a"), Literal("b")];
    SlashAThenEnd("/a");
    WordUnder(Root, ab);
    assert ab[0] == a[0] && a[1..] == [];
    PrefixClosed(t, WordOf(a), WordOf(ab));
    assert PathOf(a) == "/a";
    LiteralNodeHides(t, rule, a);
  }
}
