/**
 * Inserting routes into the trie: the word a route is given, the nodes its insertion adds, and what
 * every insertion keeps - each node's matchers agree with the rule that made them, names stay
 * distinct along a path, and nothing that was there is changed.
 */
module TrieInsert {
  import opened Wrappers
  import opened PathMatchers
  import opened TrieSearch

  const BLANK := Info(None, None)

  function LitsFrom(w: Word, part: string): Word
    decreases |part|
  {
    if part == "" then w else LitsFrom(Kid(w, Lit(part[0])), part[1..])
  }

  /** Where one matcher leads below a separator. */
  function EdgesFrom(w: Word, m: Matcher): Word { if m.Literal? then LitsFrom(w, m.chunk) else Kid(w, Wild) }

  function WordFrom(w: Word, ms: seq<Matcher>): Word
    decreases |ms|
  {
    if ms == [] then w else WordFrom(EdgesFrom(Kid(w, Lit(SEP)), ms[0]), ms[1..])
  }

  /** The word of a route's node. */
  function WordOf(ms: seq<Matcher>): Word { WordFrom(Root, ms) }

  // ------------------------------------------------------------------ building

  function AddNode(t: Trie, w: Word): Trie { if w in t then t else t[w := BLANK] }

  function AddLiterals(t: Trie, w: Word, part: string): Trie
    decreases |part|
  {
    if part == "" then t
    else
      var next := Kid(w, Lit(part[0]));
      AddLiterals(AddNode(t, next), next, part[1..])
  }

  function AddWild(t: Trie, w: Word, m: Matcher): Trie {
    if w in t then t[w := t[w].(wild := Some(m))][Kid(w, Wild) := BLANK] else t
  }

  datatype Build = Built(trie: Trie, node: Word) | Collides(trie: Trie)

  /** What walking a route from `w` leaves of the trie; a collision leaves what was built before it. */
  function BuildPath(t: Trie, w: Word, ms: seq<Matcher>): Build
    decreases |ms|
  {
    if ms == [] then Built(t, w)
    else
      var slash := Kid(w, Lit(SEP));
      var t1 := AddNode(t, slash);
      if ms[0].Literal? then BuildPath(AddLiterals(t1, slash, ms[0].chunk), LitsFrom(slash, ms[0].chunk), ms[1..])
      else if slash !in t1 || t1[slash].wild.None? then
        BuildPath(AddWild(t1, slash, ms[0]), Kid(slash, Wild), ms[1..])
      else if t1[slash].wild.value.chunk != ms[0].chunk then Collides(t1)
      else BuildPath(t1, Kid(slash, Wild), ms[1..])
  }

  datatype InsertError = ParameterCollision | RouteExists | RouteCollision

  function Insertion(t: Trie, ms: seq<Matcher>, endpoint: Endpoint): (Trie, Option<InsertError>) {
    var built := BuildPath(t, Root, ms);
    if built.Collides? || built.node !in built.trie then (built.trie, Some(ParameterCollision))
    else
      var info := built.trie[built.node];
      if info.endpoint.Some? then
        (built.trie, Some(if info.endpoint.value.route == endpoint.route then RouteExists else RouteCollision))
      else (built.trie[built.node := info.(endpoint := Some(endpoint))], None)
  }

  // ------------------------------------------------- what makes matchers agree

  /**
   A route's matchers follow a rule that reads only the chunks of the parameters so far. (The parser's
   running parameter type makes a matcher depend on more than its own chunk.)
   */
  type Rule = (seq<string>, string) -> Matcher

  ghost predicate Follows(rule: Rule, seen: seq<string>, ms: seq<Matcher>)
    decreases |ms|
  {
    ms == [] ||
    if ms[0].Literal? then Follows(rule, seen, ms[1..])
    else ms[0] == rule(seen, ms[0].chunk) && Follows(rule, seen + [ms[0].chunk], ms[1..])
  }

  /** The chunks of the wildcards a word passes through. */
  ghost function Passed(t: Trie, w: Word): seq<string> {
    if w == Root then []
    else if w.edge.Wild? && w.up in t && t[w.up].wild.Some? then Passed(t, w.up) + [t[w.up].wild.value.chunk]
    else Passed(t, w.up)
  }

  ghost predicate Ruled(t: Trie, rule: Rule) {
    forall w | w in t && t[w].wild.Some? ::
      var m := t[w].wild.value; !m.Literal? && m == rule(Passed(t, w), m.chunk)
  }

  /** The parameter names of a route are distinct from each other and from the names above it. */
  ghost predicate FreshNames(above: set<string>, ms: seq<Matcher>)
    decreases |ms|
  {
    ms == [] ||
    if ms[0].Literal? then FreshNames(above, ms[1..])
    else Key(ms[0]) !in above && FreshNames(above + {Key(ms[0])}, ms[1..])
  }

  /** The names of the wildcards a word passes through are all in `above`. */
  ghost predicate NamesAbove(t: Trie, w: Word, above: set<string>) {
    w == Root ||
    (NamesAbove(t, w.up, above) &&
     (w.edge.Wild? && w.up in t && t[w.up].wild.Some? ==> Key(t[w.up].wild.value) in above))
  }

  ghost predicate Healthy(t: Trie, rule: Rule) { Rooted(t) && Ruled(t, rule) && DistinctNames(t) }

  /** Nothing an insertion finds in the trie is changed by it. */
  ghost predicate Extends(t: Trie, t': Trie) {
    && (forall w | w in t :: w in t')
    && (forall w | w in t && t[w].wild.Some? :: t'[w].wild == t[w].wild)
    && (forall w | w in t && t[w].endpoint.Some? :: t'[w].endpoint == t[w].endpoint)
  }

  ghost predicate EndpointsKept(t: Trie, t': Trie) {
    && (forall u | u in t :: u in t' && t'[u].endpoint == t[u].endpoint)
    && (forall u | u in t' && u !in t :: t'[u].endpoint == None)
  }

  /** The route's own matchers are the ones stored along its word. */
  ghost predicate Along(t: Trie, w: Word, ms: seq<Matcher>)
    decreases |ms|
  {
    ms == [] ||
    var slash := Kid(w, Lit(SEP));
    && (ms[0].Literal? || (slash in t && t[slash].wild == Some(ms[0])))
    && Along(t, EdgesFrom(slash, ms[0]), ms[1..])
  }

  // ---------------------------------------------------------------- the proofs

  ghost predicate SameWild(t: Trie, t': Trie, u: Word) {
    (if u in t then t[u].wild else None) == (if u in t' then t'[u].wild else None)
  }

  /** The branch to `w` passes the same chunks and names in both tries. */
  ghost predicate SamePassage(t: Trie, t': Trie, w: Word) {
    Passed(t', w) == Passed(t, w) && forall above :: NamesAbove(t', w, above) <==> NamesAbove(t, w, above)
  }

  /** Passed chunks only depend on the wildcards above the node. */
  lemma {:induction false} PassedSame(t: Trie, t': Trie, w: Word)
    requires forall u | Under(u, w) && u != w :: SameWild(t, t', u)
    ensures SamePassage(t, t', w)
  {
    if w != Root {
      forall u | Under(u, w.up) && u != w.up ensures SameWild(t, t', u) { UnderDeeper(u, w.up); }
      UnderDeeper(w.up, w.up);
      assert Under(w.up, w) && w.up != w by { assert Depth(w) == 1 + Depth(w.up); }
      assert SameWild(t, t', w.up);
      PassedSame(t, t', w.up);
    }
  }

  /** A wildcard passed on the way has its name in `above`. */
  lemma {:induction false} NameAbove(t: Trie, w: Word, above: set<string>, u: Word)
    requires NamesAbove(t, w, above) && u in t && t[u].wild.Some? && Under(Kid(u, Wild), w)
    ensures Key(t[u].wild.value) in above
  {
    if w != Kid(u, Wild) { NameAbove(t, w.up, above, u); }
  }

  lemma {:induction false} NamesAboveMore(t: Trie, w: Word, above: set<string>, more: set<string>)
    requires NamesAbove(t, w, above) && above <= more
    ensures NamesAbove(t, w, more)
  {
    if w != Root { NamesAboveMore(t, w.up, above, more); }
  }

  lemma {:induction false} AlongExtends(t: Trie, t': Trie, w: Word, ms: seq<Matcher>)
    requires Extends(t, t') && Along(t, w, ms)
    ensures Along(t', w, ms)
    decreases |ms|
  {
    if ms != [] { AlongExtends(t, t', EdgesFrom(Kid(w, Lit(SEP)), ms[0]), ms[1..]); }
  }

  /** New nodes are blank and old ones are untouched. */
  ghost predicate OnlyAdds(t: Trie, t': Trie) {
    && (forall u | u in t :: u in t' && t'[u] == t[u])
    && (forall u | u in t' && u !in t :: t'[u] == BLANK)
  }

  lemma AddNodeRooted(t: Trie, w: Word, e: Edge)
    requires Rooted(t) && w in t && e.Lit?
    ensures Rooted(AddNode(t, Kid(w, e))) && OnlyAdds(t, AddNode(t, Kid(w, e)))
  {
    var k := Kid(w, e);
    var t' := AddNode(t, k);
    forall u | u in t' ensures Kid(u, Wild) in t' <==> t'[u].wild.Some? {
      if u !in t { assert u == k && Kid(u, Wild) !in t; }
    }
  }

  lemma OnlyAddsHealthy(t: Trie, t': Trie, rule: Rule)
    requires Healthy(t, rule) && Rooted(t') && OnlyAdds(t, t')
    ensures Healthy(t', rule) && Extends(t, t') && EndpointsKept(t, t')
    ensures forall w :: SamePassage(t, t', w)
  {
    forall w ensures SamePassage(t, t', w) { PassedSame(t, t', w); }
    forall w ensures Passed(t', w) == Passed(t, w) { assert SamePassage(t, t', w); }
  }

  lemma {:induction false} AddLiteralsRooted(t: Trie, w: Word, part: string)
    requires Rooted(t) && w in t
    ensures var t' := AddLiterals(t, w, part); Rooted(t') && OnlyAdds(t, t') && LitsFrom(w, part) in t'
    ensures Passed(t, LitsFrom(w, part)) == Passed(t, w)
    ensures forall above :: NamesAbove(t, w, above) ==> NamesAbove(t, LitsFrom(w, part), above)
    decreases |part|
  {
    if part != "" {
      var next := Kid(w, Lit(part[0]));
      var t1 := AddNode(t, next);
      AddNodeRooted(t, w, Lit(part[0]));
      AddLiteralsRooted(t1, next, part[1..]);
      PassedSame(t, t1, LitsFrom(next, part[1..]));
      PassedSame(t, t1, next);
    }
  }

  lemma AddWildRooted(t: Trie, w: Word, m: Matcher)
    requires Rooted(t) && w in t && t[w].wild.None?
    ensures Rooted(AddWild(t, w, m)) && Kid(w, Wild) !in t
  {
    var k := Kid(w, Wild);
    var t' := AddWild(t, w, m);
    forall u | u in t' ensures Kid(u, Wild) in t' <==> t'[u].wild.Some? {
      if u == k { assert Kid(u, Wild) !in t; }
    }
  }

  /** A new wildcard changes nothing for the branches that do not take it. */
  lemma {:induction false} PassedElsewhere(t: Trie, w: Word, m: Matcher, u: Word)
    requires Rooted(t) && w in t && t[w].wild.None? && !Under(Kid(w, Wild), u)
    ensures SamePassage(t, AddWild(t, w, m), u)
  {
    if u != Root {
      PassedElsewhere(t, w, m, u.up);
    }
  }

  lemma AddWildRuled(t: Trie, w: Word, m: Matcher, rule: Rule)
    requires Rooted(t) && Ruled(t, rule) && w in t && t[w].wild.None?
    requires !m.Literal? && m == rule(Passed(t, w), m.chunk)
    ensures Ruled(AddWild(t, w, m), rule)
  {
    var k := Kid(w, Wild);
    var t' := AddWild(t, w, m);
    AddWildRooted(t, w, m);
    forall u | u in t' && t'[u].wild.Some?
      ensures !t'[u].wild.value.Literal? && t'[u].wild.value == rule(Passed(t', u), t'[u].wild.value.chunk)
    {
      if Under(k, u) { PrefixClosed(t, k, u); }
      PassedElsewhere(t, w, m, u);
    }
  }

  lemma AddWildNames(t: Trie, w: Word, m: Matcher, above: set<string>)
    requires Rooted(t) && DistinctNames(t) && w in t && t[w].wild.None?
    requires NamesAbove(t, w, above) && Key(m) !in above
    ensures DistinctNames(AddWild(t, w, m))
    ensures NamesAbove(AddWild(t, w, m), Kid(w, Wild), above + {Key(m)})
  {
    var k := Kid(w, Wild);
    var t' := AddWild(t, w, m);
    AddWildRooted(t, w, m);
    NotAboveItself(w, Wild);
    forall u, v | u in t' && v in t' && t'[u].wild.Some? && t'[v].wild.Some? && Under(Kid(u, Wild), v)
      ensures Key(t'[u].wild.value) != Key(t'[v].wild.value)
    {
      if u == w {
        PrefixClosed(t, k, v);
      } else if v == w {
        NameAbove(t, w, above, u);
      }
    }
    PassedElsewhere(t, w, m, w);
    NamesAboveMore(t', w, above, above + {Key(m)});
  }

  lemma AddWildHealthy(t: Trie, w: Word, m: Matcher, above: set<string>, rule: Rule)
    requires Healthy(t, rule) && w in t && t[w].wild.None?
    requires !m.Literal? && m == rule(Passed(t, w), m.chunk)
    requires NamesAbove(t, w, above) && Key(m) !in above
    ensures var t' := AddWild(t, w, m);
            Healthy(t', rule) && Extends(t, t') && EndpointsKept(t, t') && Kid(w, Wild) in t' && t'[w].wild == Some(m)
    ensures Passed(AddWild(t, w, m), Kid(w, Wild)) == Passed(t, w) + [m.chunk]
    ensures NamesAbove(AddWild(t, w, m), Kid(w, Wild), above + {Key(m)})
  {
    AddWildRooted(t, w, m);
    AddWildRuled(t, w, m, rule);
    AddWildNames(t, w, m, above);
    NotAboveItself(w, Wild);
    PassedElsewhere(t, w, m, w);
  }

  lemma ExtendsTransitive(t: Trie, t1: Trie, t2: Trie)
    requires Extends(t, t1) && EndpointsKept(t, t1) && Extends(t1, t2) && EndpointsKept(t1, t2)
    ensures Extends(t, t2) && EndpointsKept(t, t2)
  {
  }

  /** What the trie and the rest of a route must satisfy before the rest is laid below `w`. */
  ghost predicate Ready(t: Trie, w: Word, ms: seq<Matcher>, above: set<string>, rule: Rule) {
    && Healthy(t, rule) && w in t
    && Follows(rule, Passed(t, w), ms) && NamesAbove(t, w, above) && FreshNames(above, ms)
  }

  /** What `BuildPath` must have done to `t` below `w` for the route `ms`. */
  ghost predicate BuiltWell(t: Trie, b: Build, w: Word, ms: seq<Matcher>, rule: Rule) {
    && Healthy(b.trie, rule) && Extends(t, b.trie) && EndpointsKept(t, b.trie)
    && (b.Built? ==> b.node == WordFrom(w, ms) && b.node in b.trie && Along(b.trie, w, ms))
  }

  lemma StartReady(t: Trie, ms: seq<Matcher>, rule: Rule)
    requires Healthy(t, rule) && Follows(rule, [], ms) && FreshNames({}, ms)
    ensures Ready(t, Root, ms, {}, rule)
  {
  }

  lemma SlashReady(t: Trie, w: Word, ms: seq<Matcher>, above: set<string>, rule: Rule)
    requires Ready(t, w, ms, above, rule)
    ensures var t1 := AddNode(t, Kid(w, Lit(SEP)));
            Ready(t1, Kid(w, Lit(SEP)), ms, above, rule) && Extends(t, t1) && EndpointsKept(t, t1)
  {
    AddNodeRooted(t, w, Lit(SEP));
    OnlyAddsHealthy(t, AddNode(t, Kid(w, Lit(SEP))), rule);
    assert SamePassage(t, AddNode(t, Kid(w, Lit(SEP))), w);
  }

  lemma LiteralReady(t: Trie, slash: Word, ms: seq<Matcher>, above: set<string>, rule: Rule)
    requires Ready(t, slash, ms, above, rule) && ms != [] && ms[0].Literal?
    ensures var t2 := AddLiterals(t, slash, ms[0].chunk);
            Ready(t2, LitsFrom(slash, ms[0].chunk), ms[1..], above, rule) && Extends(t, t2) && EndpointsKept(t, t2)
  {
    AddLiteralsRooted(t, slash, ms[0].chunk);
    OnlyAddsHealthy(t, AddLiterals(t, slash, ms[0].chunk), rule);
    assert SamePassage(t, AddLiterals(t, slash, ms[0].chunk), LitsFrom(slash, ms[0].chunk));
  }

  lemma NewWildReady(t: Trie, slash: Word, ms: seq<Matcher>, above: set<string>, rule: Rule)
    requires Ready(t, slash, ms, above, rule) && ms != [] && !ms[0].Literal? && t[slash].wild.None?
    ensures var t2 := AddWild(t, slash, ms[0]);
            && Ready(t2, Kid(slash, Wild), ms[1..], above + {Key(ms[0])}, rule)
            && Extends(t, t2) && EndpointsKept(t, t2) && t2[slash].wild == Some(ms[0])
  {
    AddWildHealthy(t, slash, ms[0], above, rule);
  }

  lemma OldWildReady(t: Trie, slash: Word, ms: seq<Matcher>, above: set<string>, rule: Rule)
    requires Ready(t, slash, ms, above, rule) && ms != [] && !ms[0].Literal?
    requires t[slash].wild.Some? && t[slash].wild.value.chunk == ms[0].chunk
    ensures Ready(t, Kid(slash, Wild), ms[1..], above + {Key(ms[0])}, rule) && t[slash].wild == Some(ms[0])
  {
    NamesAboveMore(t, slash, above, above + {Key(ms[0])});
  }

  /** Building keeps the trie healthy, changes nothing that was there, and lays the route's own word. */
  lemma {:induction false} BuildHealthy(t: Trie, w: Word, ms: seq<Matcher>, above: set<string>, rule: Rule)
    requires Ready(t, w, ms, above, rule)
    ensures BuiltWell(t, BuildPath(t, w, ms), w, ms, rule)
    decreases |ms|, 1
  {
    if ms != [] {
      var slash := Kid(w, Lit(SEP));
      var t1 := AddNode(t, slash);
      SlashReady(t, w, ms, above, rule);
      if ms[0].Literal? {
        BuildLiteral(t1, slash, ms, above, rule);
      } else if t1[slash].wild.None? || t1[slash].wild.value.chunk == ms[0].chunk {
        BuildWild(t1, slash, ms, above, rule);
      }
      ExtendsTransitive(t, t1, BuildPath(t, w, ms).trie);
    }
  }

  lemma {:induction false} BuildLiteral(t: Trie, slash: Word, ms: seq<Matcher>, above: set<string>, rule: Rule)
    requires Ready(t, slash, ms, above, rule) && ms != [] && ms[0].Literal?
    ensures var end := LitsFrom(slash, ms[0].chunk);
            BuiltWell(t, BuildPath(AddLiterals(t, slash, ms[0].chunk), end, ms[1..]), end, ms[1..], rule)
    decreases |ms|, 0
  {
    var t2 := AddLiterals(t, slash, ms[0].chunk);
    var end := LitsFrom(slash, ms[0].chunk);
    LiteralReady(t, slash, ms, above, rule);
    BuildHealthy(t2, end, ms[1..], above, rule);
    ExtendsTransitive(t, t2, BuildPath(t2, end, ms[1..]).trie);
  }

  lemma {:induction false} BuildWild(t: Trie, slash: Word, ms: seq<Matcher>, above: set<string>, rule: Rule)
    requires Ready(t, slash, ms, above, rule) && ms != [] && !ms[0].Literal?
    ensures t[slash].wild.None? ==>
              var t2 := AddWild(t, slash, ms[0]);
              var b := BuildPath(t2, Kid(slash, Wild), ms[1..]);
              BuiltWell(t, b, Kid(slash, Wild), ms[1..], rule) && b.trie[slash].wild == Some(ms[0])
    ensures t[slash].wild.Some? && t[slash].wild.value.chunk == ms[0].chunk ==>
              var b := BuildPath(t, Kid(slash, Wild), ms[1..]);
              BuiltWell(t, b, Kid(slash, Wild), ms[1..], rule) && b.trie[slash].wild == Some(ms[0])
    decreases |ms|, 0
  {
    var below := Kid(slash, Wild);
    var above' := above + {Key(ms[0])};
    if t[slash].wild.None? {
      var t2 := AddWild(t, slash, ms[0]);
      NewWildReady(t, slash, ms, above, rule);
      BuildHealthy(t2, below, ms[1..], above', rule);
      ExtendsTransitive(t, t2, BuildPath(t2, below, ms[1..]).trie);
    } else if t[slash].wild.value.chunk == ms[0].chunk {
      OldWildReady(t, slash, ms, above, rule);
      BuildHealthy(t, below, ms[1..], above', rule);
    }
  }

  // ----------------------------------------------------- when building succeeds

  /**
   The trie has no other parameter where the route has one: no separator along the route's word carries
   a wildcard with another chunk.
   */
  ghost predicate Agrees(t: Trie, w: Word, ms: seq<Matcher>)
    decreases |ms|
  {
    ms == [] ||
    var slash := Kid(w, Lit(SEP));
    && (!ms[0].Literal? && slash in t && t[slash].wild.Some? ==> t[slash].wild.value.chunk == ms[0].chunk)
    && Agrees(t, EdgesFrom(slash, ms[0]), ms[1..])
  }

  /** Only the wildcards at and below `w` matter. */
  lemma {:induction false} AgreesSame(t: Trie, t': Trie, w: Word, ms: seq<Matcher>)
    requires forall u | Under(w, u) :: SameWild(t, t', u)
    ensures Agrees(t, w, ms) <==> Agrees(t', w, ms)
    decreases |ms|
  {
    if ms != [] {
      var slash := Kid(w, Lit(SEP));
      var next := EdgesFrom(slash, ms[0]);
      EdgesUnder(slash, ms[0]);
      assert Under(w, slash);
      UnderTransitive(w, slash, next);
      assert SameWild(t, t', slash);
      forall u | Under(next, u) ensures SameWild(t, t', u) { UnderTransitive(w, next, u); }
      AgreesSame(t, t', next, ms[1..]);
    }
  }

  lemma {:induction false} LitsUnder(w: Word, part: string)
    ensures Under(w, LitsFrom(w, part))
    decreases |part|
  {
    if part != "" {
      var next := Kid(w, Lit(part[0]));
      LitsUnder(next, part[1..]);
      UnderTransitive(w, next, LitsFrom(next, part[1..]));
    }
  }

  lemma EdgesUnder(slash: Word, m: Matcher)
    ensures Under(slash, EdgesFrom(slash, m))
  {
    if m.Literal? { LitsUnder(slash, m.chunk); }
  }

  /** Where the trie has no node it has no other parameter either. */
  lemma {:induction false} AgreesBeyond(t: Trie, w: Word, ms: seq<Matcher>)
    requires Rooted(t) && w !in t
    ensures Agrees(t, w, ms)
    decreases |ms|
  {
    if ms != [] {
      var slash := Kid(w, Lit(SEP));
      var next := EdgesFrom(slash, ms[0]);
      EdgesUnder(slash, ms[0]);
      assert Under(w, slash);
      UnderTransitive(w, slash, next);
      if slash in t { PrefixClosed(t, w, slash); }
      if next in t { PrefixClosed(t, w, next); }
      AgreesBeyond(t, next, ms[1..]);
    }
  }

  lemma {:induction false} AddLiteralsNothing(t: Trie, w: Word, part: string)
    requires Rooted(t) && LitsFrom(w, part) in t
    ensures AddLiterals(t, w, part) == t
    decreases |part|
  {
    if part != "" {
      var next := Kid(w, Lit(part[0]));
      LitsUnder(next, part[1..]);
      PrefixClosed(t, next, LitsFrom(next, part[1..]));
      AddLiteralsNothing(t, next, part[1..]);
    }
  }

  lemma {:induction false} WordUnder(w: Word, ms: seq<Matcher>)
    ensures Under(w, WordFrom(w, ms))
    ensures ms != [] ==> var slash := Kid(w, Lit(SEP));
                         Under(slash, EdgesFrom(slash, ms[0])) && Under(slash, WordFrom(w, ms)) &&
                         Under(EdgesFrom(slash, ms[0]), WordFrom(w, ms))
    decreases |ms|
  {
    if ms != [] {
      var slash := Kid(w, Lit(SEP));
      var next := EdgesFrom(slash, ms[0]);
      EdgesUnder(slash, ms[0]);
      WordUnder(next, ms[1..]);
      UnderTransitive(slash, next, WordFrom(w, ms));
      UnderTransitive(w, slash, WordFrom(w, ms));
    }
  }

  /** Building adds nothing where it collides, nor where the route's node is there already. */
  lemma {:induction false} BuildsNothing(t: Trie, w: Word, ms: seq<Matcher>)
    requires Rooted(t) && w in t
    requires !Agrees(t, w, ms) || WordFrom(w, ms) in t
    ensures BuildPath(t, w, ms).trie == t
    decreases |ms|
  {
    if ms != [] {
      var slash := Kid(w, Lit(SEP));
      var next := EdgesFrom(slash, ms[0]);
      WordUnder(w, ms);
      if WordFrom(w, ms) in t {
        PrefixClosed(t, slash, WordFrom(w, ms));
        PrefixClosed(t, next, WordFrom(w, ms));
      }
      if next in t { PrefixClosed(t, slash, next); } else { AgreesBeyond(t, next, ms[1..]); }
      assert slash in t;
      if ms[0].Literal? {
        AddLiteralsNothing(t, slash, ms[0].chunk);
        BuildsNothing(t, next, ms[1..]);
      } else if t[slash].wild.Some? && t[slash].wild.value.chunk == ms[0].chunk {
        BuildsNothing(t, next, ms[1..]);
      }
    }
  }

  /** Building a route succeeds exactly when the trie agrees with it beforehand. */
  lemma {:induction false} BuildsIff(t: Trie, w: Word, ms: seq<Matcher>)
    requires Rooted(t) && w in t
    ensures BuildPath(t, w, ms).Built? <==> Agrees(t, w, ms)
    decreases |ms|
  {
    if ms != [] {
      var slash := Kid(w, Lit(SEP));
      var t1 := AddNode(t, slash);
      AddNodeRooted(t, w, Lit(SEP));
      AgreesSame(t, t1, w, ms);
      var next := EdgesFrom(slash, ms[0]);
      if ms[0].Literal? {
        var t2 := AddLiterals(t1, slash, ms[0].chunk);
        AddLiteralsRooted(t1, slash, ms[0].chunk);
        AgreesSame(t1, t2, next, ms[1..]);
        BuildsIff(t2, next, ms[1..]);
      } else if t1[slash].wild.None? {
        var t2 := AddWild(t1, slash, ms[0]);
        AddWildRooted(t1, slash, ms[0]);
        NotAboveItself(slash, Wild);
        AgreesSame(t1, t2, next, ms[1..]);
        BuildsIff(t2, next, ms[1..]);
      } else if t1[slash].wild.value.chunk == ms[0].chunk {
        BuildsIff(t1, next, ms[1..]);
      }
    }
  }
}
