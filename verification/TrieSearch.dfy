module TrieSearch {
  // The endpoint trie as a value: a map from words to node contents that holds every word's parent. A word
  // lists the edges from the root to a node, so a node's word is its identity.

  import opened Wrappers
  import opened Chars
  import opened PathMatchers

  datatype Endpoint = Endpoint(route: string, handler: nat)

  datatype Edge = Lit(c: char) | Wild
  datatype Word = Root | Kid(up: Word, edge: Edge)

  datatype Info = Info(wild: Option<Matcher>, endpoint: Option<Endpoint>)
  type Trie = map<Word, Info>

  /** What a matcher captures at a position of the path. */
  type Taker = (Matcher, nat) -> Option<Part>

  function TakerOf(path: string): Taker {
    (m: Matcher, i: nat) => if i < |path| then Match(m, Segment(path, i)) else None
  }

  // --------------------------------------------------------- words and branches

  /** `x` lies at or below `w`. */
  ghost predicate Under(w: Word, x: Word) { w == x || (x.Kid? && Under(w, x.up)) }

  /** The edge by which `w` is left on the way to `x`. */
  ghost function Next(w: Word, x: Word): Edge
    requires Under(w, x) && w != x
  {
    if x.up == w then x.edge else Next(w, x.up)
  }

  ghost function Depth(w: Word): nat { if w == Root then 0 else 1 + Depth(w.up) }

  lemma {:induction false} UnderDeeper(w: Word, x: Word)
    requires Under(w, x)
    ensures w == x || Depth(w) < Depth(x)
  {
    if w != x { UnderDeeper(w, x.up); }
  }

  lemma {:induction false} RootAbove(x: Word)
    ensures Under(Root, x)
  {
    if x.Kid? { RootAbove(x.up); }
  }

  /** Below a child means below its parent, by the child's edge. */
  lemma {:induction false} UnderKid(w: Word, e: Edge, x: Word)
    requires Under(Kid(w, e), x)
    ensures Under(w, x) && w != x && Next(w, x) == e
  {
    if Kid(w, e) != x {
      UnderKid(w, e, x.up);
      UnderDeeper(w, x.up);
      assert Depth(x) == 1 + Depth(x.up);
    } else {
      assert Depth(x) == 1 + Depth(w);
    }
  }

  lemma {:induction false} NextKid(w: Word, x: Word)
    requires Under(w, x) && w != x
    ensures Under(Kid(w, Next(w, x)), x)
  {
    if x.up != w { NextKid(w, x.up); }
  }

  lemma {:induction false} UnderTransitive(w: Word, x: Word, y: Word)
    requires Under(w, x) && Under(x, y)
    ensures Under(w, y)
    ensures w != x ==> w != y && Next(w, y) == Next(w, x)
  {
    if x != y {
      UnderTransitive(w, x, y.up);
      if w != x { UnderDeeper(w, x); UnderDeeper(x, y); }
    }
  }

  lemma KidApart(w: Word, e: Edge)
    ensures Kid(w, e) != w
  {
    assert Depth(Kid(w, e)) == 1 + Depth(w);
  }

  lemma {:induction false} NotAboveItself(w: Word, e: Edge)
    ensures !Under(Kid(w, e), w)
  {
    assert Depth(Kid(w, e)) == 1 + Depth(w);
    if Under(Kid(w, e), w) { UnderDeeper(Kid(w, e), w); }
  }

  ghost predicate Rooted(t: Trie) {
    && Root in t
    && (forall w, e {:trigger Kid(w, e) in t} :: Kid(w, e) in t ==> w in t)
    && (forall w {:trigger Kid(w, Wild) in t} :: w in t ==> (Kid(w, Wild) in t <==> t[w].wild.Some?))
  }

  /** Every word above a node is a node. */
  lemma {:induction false} PrefixClosed(t: Trie, w: Word, x: Word)
    requires Rooted(t) && x in t && Under(w, x)
    ensures w in t
  {
    if w != x {
      assert Kid(x.up, x.edge) in t;
      PrefixClosed(t, w, x.up);
    }
  }

  // ---------------------------------------------------------- recursive search

  ghost function Below(t: Trie, w: Word): set<Word> { set x | x in t && Under(w, x) }

  lemma BelowKid(t: Trie, w: Word, e: Edge)
    requires w in t
    ensures Below(t, Kid(w, e)) < Below(t, w)
  {
    forall x | x in Below(t, Kid(w, e)) ensures x in Below(t, w) { UnderKid(w, e, x); }
    NotAboveItself(w, e);
    assert w in Below(t, w);
  }

  datatype Outcome = Outcome(node: Option<Word>, params: Parameters)

  /** Depth-first search from a node: the literal edge first, then the wildcard. */
  ghost function Explore(t: Trie, path: string, take: Taker, w: Word, i: nat, params: Parameters): Outcome
    requires Rooted(t) && w in t
    decreases Below(t, w), 1
  {
    if i >= |path| then Outcome(Some(w), params)
    else
      var literal := Kid(w, Lit(path[i]));
      BelowKid(t, w, Lit(path[i]));
      var first := if literal in t then Explore(t, path, take, literal, i + 1, params) else Outcome(None, params);
      if first.node.Some? || t[w].wild.None? then first else TakeWild(t, path, take, w, i, first.params)
  }

  ghost function TakeWild(t: Trie, path: string, take: Taker, w: Word, i: nat, params: Parameters): Outcome
    requires Rooted(t) && w in t && t[w].wild.Some? && i < |path|
    decreases Below(t, w), 0
  {
    BelowKid(t, w, Wild);
    var m := t[w].wild.value;
    var value := take(m, i);
    if value.None? then Outcome(None, params)
    else Explore(t, path, take, Kid(w, Wild), i + |value.value|, Record(m, value.value, params))
  }

  /** A taken wildcard writes its parameter at once; nothing takes the write back. */
  function Record(m: Matcher, value: string, params: Parameters): Parameters {
    Put(params, if m.Literal? then m.chunk else m.name, value)
  }

  // ------------------------------------------------------- which nodes it finds

  /** Where one edge leads from position `i`, if the path can be read along it. */
  ghost function Advance(t: Trie, path: string, take: Taker, w: Word, i: nat, e: Edge): Option<nat> {
    if i >= |path| then None
    else
      match e
      case Lit(c) => if path[i] == c then Some(i + 1) else None
      case Wild =>
        if w !in t || t[w].wild.None? then None
        else
          var value := take(t[w].wild.value, i);
          if value.None? then None else Some(i + |value.value|)
  }

  /** How far into the path a word reads, if the path can be read along it. */
  ghost function Reads(t: Trie, path: string, take: Taker, w: Word): Option<nat> {
    if w == Root then Some(0)
    else
      var at := Reads(t, path, take, w.up);
      if at.None? then None else Advance(t, path, take, w.up, at.value, w.edge)
  }

  /** The word reads the whole path. */
  ghost predicate Spells(t: Trie, path: string, take: Taker, w: Word) {
    var at := Reads(t, path, take, w);
    at.Some? && at.value >= |path|
  }

  /** Search order: where two words part, a literal edge comes before a wildcard. */
  ghost predicate Precedes(u: Word, v: Word) {
    exists p, c :: Under(Kid(p, Lit(c)), u) && Under(Kid(p, Wild), v)
  }

  /** Of two words above the same word, one is above the other. */
  lemma {:induction false} Comparable(p: Word, q: Word, u: Word)
    requires Under(p, u) && Under(q, u)
    ensures Under(p, q) || Under(q, p)
  {
    if p != u && q != u { Comparable(p, q, u.up); }
  }

  lemma PrecedesAsymmetric(u: Word, x: Word)
    requires Precedes(u, x)
    ensures !Precedes(x, u)
  {
    var p, c :| Under(Kid(p, Lit(c)), u) && Under(Kid(p, Wild), x);
    UnderKid(p, Lit(c), u);
    UnderKid(p, Wild, x);
    forall q, d ensures !(Under(Kid(q, Lit(d)), x) && Under(Kid(q, Wild), u)) {
      if Under(Kid(q, Lit(d)), x) && Under(Kid(q, Wild), u) {
        UnderKid(q, Lit(d), x);
        UnderKid(q, Wild, u);
        Comparable(p, q, u);
        if Under(p, q) {
          UnderTransitive(p, q, u);
          UnderTransitive(p, q, x);
        } else {
          UnderTransitive(q, p, u);
          UnderTransitive(q, p, x);
        }
      }
    }
  }

  lemma {:induction false} ReadsAbove(t: Trie, path: string, take: Taker, w: Word, x: Word)
    requires Under(w, x) && Reads(t, path, take, x).Some?
    ensures Reads(t, path, take, w).Some?
    ensures w != x ==> Reads(t, path, take, w).value < |path|
  {
    if w != x { ReadsAbove(t, path, take, w, x.up); }
  }

  /** The choices a word that reads on has: the literal edge of the next character, or the wildcard. */
  lemma {:induction false} NextEdge(t: Trie, path: string, take: Taker, w: Word, x: Word)
    requires Under(w, x) && w != x && Reads(t, path, take, x).Some?
    ensures Reads(t, path, take, w).Some? && Reads(t, path, take, w).value < |path|
    ensures Under(Kid(w, Next(w, x)), x)
    ensures Next(w, x) == Wild || Next(w, x) == Lit(path[Reads(t, path, take, w).value])
  {
    NextKid(w, x);
    ReadsAbove(t, path, take, w, x);
    ReadsAbove(t, path, take, Kid(w, Next(w, x)), x);
  }

  /** `u` is the node search must return below `w`: spelled, and before every other spelled node. */
  ghost predicate First(t: Trie, path: string, take: Taker, w: Word, u: Word) {
    && u in t && Under(w, u) && Spells(t, path, take, u)
    && forall x | x in t && Under(w, x) && Spells(t, path, take, x) && x != u :: Precedes(u, x)
  }

  ghost predicate NoneSpelled(t: Trie, path: string, take: Taker, w: Word) {
    forall x | x in t && Under(w, x) :: !Spells(t, path, take, x)
  }

  /** A spelled node that reads on goes through the literal child or through the wildcard child. */
  lemma Branches(t: Trie, path: string, take: Taker, w: Word, i: nat, x: Word)
    requires Rooted(t) && Reads(t, path, take, w) == Some(i) && i < |path|
    requires x in t && Under(w, x) && Spells(t, path, take, x)
    ensures (Kid(w, Lit(path[i])) in t && Under(Kid(w, Lit(path[i])), x))
         || (Kid(w, Wild) in t && Under(Kid(w, Wild), x))
  {
    NextEdge(t, path, take, w, x);
    PrefixClosed(t, Kid(w, Next(w, x)), x);
  }

  lemma EndWins(t: Trie, path: string, take: Taker, w: Word, i: nat)
    requires w in t && Reads(t, path, take, w) == Some(i) && i >= |path|
    ensures First(t, path, take, w, w)
  {
    forall x | x in t && Under(w, x) && Spells(t, path, take, x) ensures x == w {
      if w != x { NextEdge(t, path, take, w, x); }
    }
  }

  lemma LiteralWins(t: Trie, path: string, take: Taker, w: Word, i: nat, u: Word)
    requires Rooted(t) && w in t && Reads(t, path, take, w) == Some(i) && i < |path|
    requires First(t, path, take, Kid(w, Lit(path[i])), u)
    ensures First(t, path, take, w, u)
  {
    UnderKid(w, Lit(path[i]), u);
    forall x | x in t && Under(w, x) && Spells(t, path, take, x) && x != u ensures Precedes(u, x) {
      Branches(t, path, take, w, i, x);
    }
  }

  lemma WildDecides(t: Trie, path: string, take: Taker, w: Word, i: nat)
    requires Rooted(t) && w in t && Reads(t, path, take, w) == Some(i) && i < |path|
    requires NoneSpelled(t, path, take, Kid(w, Lit(path[i])))
    ensures forall u :: First(t, path, take, Kid(w, Wild), u) ==> First(t, path, take, w, u)
    ensures NoneSpelled(t, path, take, Kid(w, Wild)) || Kid(w, Wild) !in t ==> NoneSpelled(t, path, take, w)
  {
    forall x | x in t && Under(w, x) && Spells(t, path, take, x) ensures Kid(w, Wild) in t && Under(Kid(w, Wild), x) {
      Branches(t, path, take, w, i, x);
    }
    forall u | First(t, path, take, Kid(w, Wild), u) ensures First(t, path, take, w, u) { UnderKid(w, Wild, u); }
  }

  /** The search finds exactly the first spelled node below `w`, and finds none only if there is none. */
  lemma {:induction false} ExploreFindsFirst(t: Trie, path: string, take: Taker, w: Word, i: nat, params: Parameters)
    requires Rooted(t) && w in t && Reads(t, path, take, w) == Some(i)
    ensures var o := Explore(t, path, take, w, i, params);
            if o.node.Some? then First(t, path, take, w, o.node.value) else NoneSpelled(t, path, take, w)
    decreases Below(t, w), 1
  {
    if i >= |path| {
      EndWins(t, path, take, w, i);
    } else {
      var lit := Kid(w, Lit(path[i]));
      BelowKid(t, w, Lit(path[i]));
      if lit in t {
        ExploreFindsFirst(t, path, take, lit, i + 1, params);
      } else {
        forall x | x in t && Under(lit, x) ensures false { PrefixClosed(t, lit, x); }
      }
      var first := if lit in t then Explore(t, path, take, lit, i + 1, params) else Outcome(None, params);
      if first.node.Some? {
        LiteralWins(t, path, take, w, i, first.node.value);
      } else {
        WildDecides(t, path, take, w, i);
        if t[w].wild.Some? { TakeWildFindsFirst(t, path, take, w, i, first.params); }
      }
    }
  }

  lemma {:induction false} TakeWildFindsFirst(t: Trie, path: string, take: Taker, w: Word, i: nat, params: Parameters)
    requires Rooted(t) && w in t && Reads(t, path, take, w) == Some(i) && i < |path| && t[w].wild.Some?
    ensures var o := TakeWild(t, path, take, w, i, params);
            if o.node.Some? then First(t, path, take, Kid(w, Wild), o.node.value)
            else NoneSpelled(t, path, take, Kid(w, Wild))
    decreases Below(t, w), 0
  {
    var wild := Kid(w, Wild);
    BelowKid(t, w, Wild);
    var m := t[w].wild.value;
    var value := take(m, i);
    if value.Some? {
      ExploreFindsFirst(t, path, take, wild, i + |value.value|, Record(m, value.value, params));
    } else {
      forall x | x in t && Under(wild, x) ensures !Spells(t, path, take, x) {
        if Spells(t, path, take, x) { ReadsAbove(t, path, take, wild, x); }
      }
    }
  }

  // --------------------------------------------------------- what it writes

  /** No parameter name occurs twice along a branch, ignoring case. */
  ghost predicate DistinctNames(t: Trie) {
    forall u, v | u in t && v in t && t[u].wild.Some? && t[v].wild.Some? && Under(Kid(u, Wild), v) ::
      Key(t[u].wild.value) != Key(t[v].wild.value)
  }

  function Key(m: Matcher): string { Fold(if m.Literal? then m.chunk else m.name) }

  /** A key that no wildcard at or below `w` has. */
  ghost predicate Unused(t: Trie, w: Word, key: string) {
    forall v | v in t && Under(w, v) && t[v].wild.Some? :: Key(t[v].wild.value) != key
  }

  lemma UnusedBelow(t: Trie, w: Word, e: Edge, key: string)
    requires Unused(t, w, key)
    ensures Unused(t, Kid(w, e), key)
  {
    forall v | v in t && Under(Kid(w, e), v) ensures Under(w, v) { UnderKid(w, e, v); }
  }

  /** Search below `w`, successful or abandoned, leaves every other parameter alone. */
  lemma {:induction false} ExploreKeeps(t: Trie, path: string, take: Taker, w: Word, i: nat, params: Parameters,
                                        key: string)
    requires Rooted(t) && w in t && Unused(t, w, key)
    ensures var o := Explore(t, path, take, w, i, params);
            (key in o.params <==> key in params) && (key in params ==> o.params[key] == params[key])
    decreases Below(t, w), 1
  {
    if i < |path| {
      var lit := Kid(w, Lit(path[i]));
      BelowKid(t, w, Lit(path[i]));
      UnusedBelow(t, w, Lit(path[i]), key);
      if lit in t { ExploreKeeps(t, path, take, lit, i + 1, params, key); }
      var first := if lit in t then Explore(t, path, take, lit, i + 1, params) else Outcome(None, params);
      if first.node.None? && t[w].wild.Some? { TakeWildKeeps(t, path, take, w, i, first.params, key); }
    }
  }

  lemma {:induction false} TakeWildKeeps(t: Trie, path: string, take: Taker, w: Word, i: nat, params: Parameters,
                                         key: string)
    requires Rooted(t) && w in t && Unused(t, w, key) && i < |path| && t[w].wild.Some?
    ensures var o := TakeWild(t, path, take, w, i, params);
            (key in o.params <==> key in params) && (key in params ==> o.params[key] == params[key])
    decreases Below(t, w), 0
  {
    BelowKid(t, w, Wild);
    UnusedBelow(t, w, Wild, key);
    var m := t[w].wild.value;
    var value := take(m, i);
    if value.Some? {
      ExploreKeeps(t, path, take, Kid(w, Wild), i + |value.value|, Record(m, value.value, params), key);
    }
  }

  /** On the branch that wins, each wildcard's parameter holds the text that wildcard captured. */
  ghost predicate Captured(t: Trie, path: string, take: Taker, v: Word, params: Parameters)
    requires v in t && t[v].wild.Some?
  {
    var at := Reads(t, path, take, v);
    && at.Some? && at.value < |path|
    && var value := take(t[v].wild.value, at.value);
       value.Some? && Key(t[v].wild.value) in params && params[Key(t[v].wild.value)] == value.value
  }

  /** The node found lies below the child it was found through. */
  lemma FoundUnder(t: Trie, path: string, take: Taker, w: Word, i: nat, params: Parameters)
    requires Rooted(t) && w in t && Reads(t, path, take, w) == Some(i)
    ensures var o := Explore(t, path, take, w, i, params); o.node.Some? ==> o.node.value in t && Under(w, o.node.value)
  {
    ExploreFindsFirst(t, path, take, w, i, params);
  }

  /** Abandoned branches do not disturb the parameters of the node that is returned. */
  lemma {:induction false} ExploreCaptures(t: Trie, path: string, take: Taker, w: Word, i: nat, params: Parameters,
                                           v: Word)
    requires Rooted(t) && DistinctNames(t) && w in t && Reads(t, path, take, w) == Some(i)
    requires var o := Explore(t, path, take, w, i, params); o.node.Some? && Under(Kid(v, Wild), o.node.value)
    requires Under(w, v) && v in t && t[v].wild.Some?
    ensures Captured(t, path, take, v, Explore(t, path, take, w, i, params).params)
    decreases Below(t, w), 1
  {
    var u := Explore(t, path, take, w, i, params).node.value;
    if i >= |path| {
      UnderDeeper(Kid(v, Wild), w);
      UnderDeeper(w, v);
    } else {
      var lit := Kid(w, Lit(path[i]));
      BelowKid(t, w, Lit(path[i]));
      var first := if lit in t then Explore(t, path, take, lit, i + 1, params) else Outcome(None, params);
      if first.node.Some? {
        FoundUnder(t, path, take, lit, i + 1, params);
        SameSide(w, Lit(path[i]), v, u);
        ExploreCaptures(t, path, take, lit, i + 1, params, v);
      } else {
        TakeWildCaptures(t, path, take, w, i, first.params, v);
      }
    }
  }

  /** A wildcard node on the way from `w` to `u` is `w` itself, or below the child `u` is below. */
  lemma SameSide(w: Word, e: Edge, v: Word, u: Word)
    requires Under(w, v) && Under(Kid(v, Wild), u) && Under(Kid(w, e), u)
    ensures if v == w then e == Wild else Under(Kid(w, e), v)
  {
    UnderKid(w, e, u);
    UnderKid(v, Wild, u);
    if v != w {
      UnderTransitive(w, v, u);
      NextKid(w, v);
    }
  }

  lemma {:induction false} TakeWildCaptures(t: Trie, path: string, take: Taker, w: Word, i: nat, params: Parameters,
                                            v: Word)
    requires Rooted(t) && DistinctNames(t) && w in t && Reads(t, path, take, w) == Some(i) && i < |path|
    requires t[w].wild.Some?
    requires var o := TakeWild(t, path, take, w, i, params); o.node.Some? && Under(Kid(v, Wild), o.node.value)
    requires Under(w, v) && v in t && t[v].wild.Some?
    ensures Captured(t, path, take, v, TakeWild(t, path, take, w, i, params).params)
    decreases Below(t, w), 0
  {
    var u := TakeWild(t, path, take, w, i, params).node.value;
    var m := t[w].wild.value;
    var value := take(m, i).value;
    var written := Record(m, value, params);
    BelowKid(t, w, Wild);
    FoundUnder(t, path, take, Kid(w, Wild), i + |value|, written);
    SameSide(w, Wild, v, u);
    if v == w {
      assert Unused(t, Kid(w, Wild), Key(m));
      ExploreKeeps(t, path, take, Kid(w, Wild), i + |value|, written, Key(m));
    } else {
      ExploreCaptures(t, path, take, Kid(w, Wild), i + |value|, written, v);
    }
  }

  // ------------------------------------------------- what abandoned branches leave

  /** The wildcard at `v` has the key, the path reads through it, and it does not come after the node found. */
  ghost predicate Tried(t: Trie, path: string, take: Taker, w: Word, found: Option<Word>, v: Word, key: string) {
    && v in t && t[v].wild.Some? && Key(t[v].wild.value) == key && Under(w, v)
    && Reads(t, path, take, Kid(v, Wild)).Some?
    && (found.Some? ==> !Precedes(found.value, Kid(v, Wild)))
  }

  ghost predicate Leaves(t: Trie, path: string, take: Taker, w: Word, found: Option<Word>, key: string) {
    exists v :: Tried(t, path, take, w, found, v, key)
  }

  /** A word comes before no word that it lies at or below. */
  lemma NotBeforeAbove(u: Word, x: Word)
    requires Under(x, u)
    ensures !Precedes(u, x)
  {
    forall p, c ensures !(Under(Kid(p, Lit(c)), u) && Under(Kid(p, Wild), x)) {
      if Under(Kid(p, Lit(c)), u) && Under(Kid(p, Wild), x) {
        UnderTransitive(Kid(p, Wild), x, u);
        UnderKid(p, Lit(c), u);
        UnderKid(p, Wild, u);
      }
    }
  }

  /** A wildcard the path reads through is the node's own, or lies below one of the two children. */
  lemma TriedBranches(t: Trie, path: string, take: Taker, w: Word, i: nat, found: Option<Word>, v: Word, key: string)
    requires Rooted(t) && Reads(t, path, take, w) == Some(i) && Tried(t, path, take, w, found, v, key)
    ensures i < |path|
    ensures v == w || Under(Kid(w, Wild), v) || (Kid(w, Lit(path[i])) in t && Under(Kid(w, Lit(path[i])), v))
  {
    ReadsAbove(t, path, take, v, Kid(v, Wild));
    if v == w {
      NextEdge(t, path, take, w, Kid(v, Wild));
    } else {
      NextEdge(t, path, take, w, v);
      PrefixClosed(t, Kid(w, Next(w, v)), v);
    }
  }

  /** What is tried below a child is tried below its parent. */
  lemma TriedBelow(t: Trie, path: string, take: Taker, w: Word, e: Edge, found: Option<Word>, v: Word, key: string)
    requires Tried(t, path, take, Kid(w, e), found, v, key)
    ensures Tried(t, path, take, w, found, v, key)
  {
    UnderKid(w, e, v);
  }

  lemma BehindLiteral(w: Word, c: char, u: Word, v: Word)
    requires Under(Kid(w, Lit(c)), u) && (v == w || Under(Kid(w, Wild), v))
    ensures Precedes(u, Kid(v, Wild))
  {
    assert Under(Kid(w, Wild), Kid(v, Wild));
  }

  /** The node was found through the literal child: nothing behind the wildcard was tried. */
  lemma LeavesThroughLiteral(t: Trie, path: string, take: Taker, w: Word, i: nat, u: Word, key: string)
    requires Rooted(t) && Reads(t, path, take, w) == Some(i) && i < |path|
    requires Kid(w, Lit(path[i])) in t && Under(Kid(w, Lit(path[i])), u)
    ensures Leaves(t, path, take, w, Some(u), key) <==> Leaves(t, path, take, Kid(w, Lit(path[i])), Some(u), key)
  {
    var lit := Kid(w, Lit(path[i]));
    if v :| Tried(t, path, take, lit, Some(u), v, key) { TriedBelow(t, path, take, w, Lit(path[i]), Some(u), v, key); }
    if v :| Tried(t, path, take, w, Some(u), v, key) {
      TriedBranches(t, path, take, w, i, Some(u), v, key);
      if v == w || Under(Kid(w, Wild), v) { BehindLiteral(w, path[i], u, v); }
      assert Tried(t, path, take, lit, Some(u), v, key);
    }
  }

  /** The three places where a wildcard can have been tried. */
  ghost predicate LeavesOneOf(t: Trie, path: string, take: Taker, w: Word, i: nat, found: Option<Word>, key: string)
    requires i < |path|
  {
    || (Kid(w, Lit(path[i])) in t && Leaves(t, path, take, Kid(w, Lit(path[i])), None, key))
    || Tried(t, path, take, w, None, w, key)
    || Leaves(t, path, take, Kid(w, Wild), found, key)
  }

  lemma LeavesSplit(t: Trie, path: string, take: Taker, w: Word, i: nat, found: Option<Word>, key: string)
    requires Rooted(t) && w in t && Reads(t, path, take, w) == Some(i) && i < |path|
    requires Leaves(t, path, take, w, found, key)
    ensures LeavesOneOf(t, path, take, w, i, found, key)
  {
    var v :| Tried(t, path, take, w, found, v, key);
    TriedBranches(t, path, take, w, i, found, v, key);
    if v != w && Under(Kid(w, Wild), v) { assert Tried(t, path, take, Kid(w, Wild), found, v, key); }
    else if v != w { assert Tried(t, path, take, Kid(w, Lit(path[i])), None, v, key); }
  }

  /** What was tried before anything was found counts, whatever is found behind the wildcard later. */
  lemma TriedBefore(t: Trie, path: string, take: Taker, w: Word, c: char, found: Option<Word>, v: Word, key: string)
    requires found.Some? ==> Under(Kid(w, Wild), found.value)
    requires Tried(t, path, take, Kid(w, Lit(c)), None, v, key) || (v == w && Tried(t, path, take, w, None, w, key))
    ensures Tried(t, path, take, w, found, v, key)
  {
    if v == w && Tried(t, path, take, w, None, w, key) {
      if found.Some? { NotBeforeAbove(found.value, Kid(w, Wild)); }
    } else {
      TriedBelow(t, path, take, w, Lit(c), None, v, key);
      if found.Some? {
        assert Under(Kid(w, Lit(c)), Kid(v, Wild));
        PrecedesAsymmetric(Kid(v, Wild), found.value);
      }
    }
  }

  lemma LeavesJoined(t: Trie, path: string, take: Taker, w: Word, i: nat, found: Option<Word>, key: string)
    requires i < |path| && (found.Some? ==> Under(Kid(w, Wild), found.value))
    requires LeavesOneOf(t, path, take, w, i, found, key)
    ensures Leaves(t, path, take, w, found, key)
  {
    var lit := Kid(w, Lit(path[i]));
    if Leaves(t, path, take, Kid(w, Wild), found, key) {
      var v :| Tried(t, path, take, Kid(w, Wild), found, v, key);
      TriedBelow(t, path, take, w, Wild, found, v, key);
    } else if Tried(t, path, take, w, None, w, key) {
      TriedBefore(t, path, take, w, path[i], found, w, key);
    } else {
      var v :| Tried(t, path, take, lit, None, v, key);
      TriedBefore(t, path, take, w, path[i], found, v, key);
    }
  }

  /**
   Which parameters a search leaves: a key is there afterwards exactly when it was before, or when the
   path reads through a wildcard of that name that does not come after the node found, on its branch or not.
   */
  lemma {:induction false} ExploreLeaves(t: Trie, path: string, take: Taker, w: Word, i: nat, params: Parameters,
                                         key: string)
    requires Rooted(t) && w in t && Reads(t, path, take, w) == Some(i)
    ensures var o := Explore(t, path, take, w, i, params);
            key in o.params <==> key in params || Leaves(t, path, take, w, o.node, key)
    decreases Below(t, w), 1
  {
    var o := Explore(t, path, take, w, i, params);
    if i >= |path| {
      if v :| Tried(t, path, take, w, o.node, v, key) { TriedBranches(t, path, take, w, i, o.node, v, key); }
    } else {
      var lit := Kid(w, Lit(path[i]));
      BelowKid(t, w, Lit(path[i]));
      if lit in t {
        ExploreLeaves(t, path, take, lit, i + 1, params, key);
        FoundUnder(t, path, take, lit, i + 1, params);
      }
      var first := if lit in t then Explore(t, path, take, lit, i + 1, params) else Outcome(None, params);
      if first.node.Some? {
        LeavesThroughLiteral(t, path, take, w, i, first.node.value, key);
      } else {
        if t[w].wild.Some? {
          TakeWildLeaves(t, path, take, w, i, first.params, key);
        } else {
          NothingBeyond(t, path, take, w, key);
        }
        if Leaves(t, path, take, w, o.node, key) { LeavesSplit(t, path, take, w, i, o.node, key); }
        if LeavesOneOf(t, path, take, w, i, o.node, key) { LeavesJoined(t, path, take, w, i, o.node, key); }
      }
    }
  }

  lemma NothingBeyond(t: Trie, path: string, take: Taker, w: Word, key: string)
    requires Rooted(t) && w in t && (t[w].wild.None? || Reads(t, path, take, Kid(w, Wild)).None?)
    ensures forall found :: !Leaves(t, path, take, Kid(w, Wild), found, key)
    ensures !Tried(t, path, take, w, None, w, key)
  {
    forall found, v ensures !Tried(t, path, take, Kid(w, Wild), found, v, key) {
      if Tried(t, path, take, Kid(w, Wild), found, v, key) {
        PrefixClosed(t, Kid(w, Wild), v);
        ReadsAbove(t, path, take, Kid(w, Wild), Kid(v, Wild));
      }
    }
  }

  lemma {:induction false} TakeWildLeaves(t: Trie, path: string, take: Taker, w: Word, i: nat, params: Parameters,
                                          key: string)
    requires Rooted(t) && w in t && Reads(t, path, take, w) == Some(i) && i < |path| && t[w].wild.Some?
    ensures var o := TakeWild(t, path, take, w, i, params);
            && (o.node.Some? ==> Under(Kid(w, Wild), o.node.value))
            && (key in o.params <==>
                  || key in params || Tried(t, path, take, w, None, w, key)
                  || Leaves(t, path, take, Kid(w, Wild), o.node, key))
    decreases Below(t, w), 0
  {
    var m := t[w].wild.value;
    var value := take(m, i);
    BelowKid(t, w, Wild);
    if value.Some? {
      var written := Record(m, value.value, params);
      ExploreLeaves(t, path, take, Kid(w, Wild), i + |value.value|, written, key);
      FoundUnder(t, path, take, Kid(w, Wild), i + |value.value|, written);
      assert key in written <==> key in params || key == Key(m);
      assert Tried(t, path, take, w, None, w, key) <==> key == Key(m);
    } else {
      NothingBeyond(t, path, take, w, key);
    }
  }
}
