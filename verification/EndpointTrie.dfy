/**
 * The trie as linked nodes, updated in place, and the walk over it with its explicit stack of
 * wildcards to go back to; both are tied to the trie as a value that the other modules reason about.
 */
module EndpointTries {
  import opened Wrappers
  import opened PathMatchers
  import opened TrieSearch
  import opened TrieInsert
  import opened TrieRoutes

  datatype Wildcard = Wildcard(matcher: Matcher, node: TrieNode)

  /** A node the walk may come back to, and the position it read from. */
  datatype Entry = Entry(node: TrieNode, i: nat)

  class TrieNode {
    var children: map<char, TrieNode>
    var wildcard: Option<Wildcard>
    var endpoint: Option<Endpoint>

    constructor ()
      ensures children == map[] && wildcard == None && endpoint == None
    {
      children, wildcard, endpoint := map[], None, None;
    }
  }

  /** A node's links lead where its word says, and it holds what the value says. */
  ghost predicate LinkedAs(children: map<char, TrieNode>, wildcard: Option<Wildcard>, endpoint: Option<Endpoint>,
                           nodes: map<Word, TrieNode>, t: Trie, w: Word)
    requires w in t
  {
    && (forall c :: c in children <==> Kid(w, Lit(c)) in nodes)
    && (forall c | c in children :: children[c] == nodes[Kid(w, Lit(c))])
    && (wildcard.Some? <==> Kid(w, Wild) in nodes)
    && (wildcard.Some? ==> wildcard.value.node == nodes[Kid(w, Wild)])
    && t[w] == Info(if wildcard.Some? then Some(wildcard.value.matcher) else None, endpoint)
  }

  /** A new node below `w` leaves the links of the other nodes right. */
  lemma OthersStayLinked(children: map<char, TrieNode>, wildcard: Option<Wildcard>, endpoint: Option<Endpoint>,
                         nodes: map<Word, TrieNode>, t: Trie, t': Trie, w: Word, e: Edge, node: TrieNode, x: Word)
    requires x in t && x in t' && t'[x] == t[x] && x != w
    requires LinkedAs(children, wildcard, endpoint, nodes, t, x)
    ensures LinkedAs(children, wildcard, endpoint, nodes[Kid(w, e) := node], t', x)
  {
  }

  /** `t'` is `t` with a blank node below `w`, and perhaps a change at `w` itself. */
  ghost predicate HangsBelow(t: Trie, t': Trie, w: Word, e: Edge) {
    && t'.Keys == t.Keys + {Kid(w, e)} && t'[Kid(w, e)] == BLANK
    && forall x | x in t && x != w && x != Kid(w, e) :: t'[x] == t[x]
  }

  lemma AddWildHangs(t: Trie, w: Word, m: Matcher)
    requires w in t
    ensures HangsBelow(t, AddWild(t, w, m), w, Wild)
  {
  }

  lemma NewNodeLinked(nodes: map<Word, TrieNode>, t: Trie, t': Trie, w: Word, e: Edge, node: TrieNode)
    requires Rooted(t) && t.Keys == nodes.Keys && Kid(w, e) !in t && Kid(w, e) in t' && t'[Kid(w, e)] == BLANK
    ensures LinkedAs(map[], None, None, nodes[Kid(w, e) := node], t', Kid(w, e))
  {
    forall d: Edge ensures Kid(Kid(w, e), d) !in nodes[Kid(w, e) := node] {
      KidApart(Kid(w, e), d);
      assert Kid(Kid(w, e), d) !in t;
    }
  }

  lemma ParentLinked(children: map<char, TrieNode>, wildcard: Option<Wildcard>, endpoint: Option<Endpoint>,
                     nodes: map<Word, TrieNode>, t: Trie, t': Trie, w: Word, c: char, node: TrieNode)
    requires w in t && w in t' && t'[w] == t[w] && LinkedAs(children, wildcard, endpoint, nodes, t, w)
    ensures LinkedAs(children[c := node], wildcard, endpoint, nodes[Kid(w, Lit(c)) := node], t', w)
  {
  }

  lemma WildParentLinked(children: map<char, TrieNode>, endpoint: Option<Endpoint>, m: Matcher,
                         nodes: map<Word, TrieNode>, t: Trie, w: Word, node: TrieNode)
    requires w in t && LinkedAs(children, None, endpoint, nodes, t, w)
    ensures LinkedAs(children, Some(Wildcard(m, node)), endpoint, nodes[Kid(w, Wild) := node], AddWild(t, w, m), w)
  {
    KidApart(w, Wild);
  }

  lemma LiteralStep(t: Trie, at: Word, part: string, i: nat)
    requires i < |part|
    ensures var next := Kid(at, Lit(part[i]));
            && AddLiterals(t, at, part[i..]) == AddLiterals(AddNode(t, next), next, part[i + 1..])
            && LitsFrom(at, part[i..]) == LitsFrom(next, part[i + 1..])
  {
    assert part[i..][1..] == part[i + 1..];
  }

  // ------------------------------------------------------- the walk's own state

  datatype Pending = Pending(word: Word, i: nat)

  ghost predicate Awaiting(t: Trie, path: string, stack: seq<Pending>) {
    forall k | 0 <= k < |stack| :: stack[k].word in t && t[stack[k].word].wild.Some? && stack[k].i < |path|
  }

  /** What is left to try once the current branch fails: the stacked wildcards, newest first. */
  ghost function Unwind(t: Trie, path: string, take: Taker, stack: seq<Pending>, params: Parameters): Outcome
    requires Rooted(t)
    requires Awaiting(t, path, stack)
    decreases |stack|
  {
    if stack == [] then Outcome(None, params)
    else
      var top := stack[|stack| - 1];
      var o := TakeWild(t, path, take, top.word, top.i, params);
      if o.node.Some? then o else Unwind(t, path, take, stack[..|stack| - 1], o.params)
  }

  ghost function Continue(t: Trie, path: string, take: Taker, w: Word, i: nat, stack: seq<Pending>,
                          params: Parameters): Outcome
    requires Rooted(t) && w in t
    requires Awaiting(t, path, stack)
  {
    var o := Explore(t, path, take, w, i, params);
    if o.node.Some? then o else Unwind(t, path, take, stack, o.params)
  }

  // Three of the walk's conditions are stated under a quantifier over a name of their own, so that a proof
  // that only passes such a condition on does not unfold it; one that needs it says the name.
  ghost predicate OpenWalk(n: int) { true }
  ghost predicate OpenUnwind(n: int) { true }
  ghost predicate OpenResume(n: int) { true }

  /** Unwinding the oldest `k` stacked wildcards gives `goal`. */
  ghost predicate Unwinds(t: Trie, path: string, take: Taker, stack: seq<Pending>, k: nat, params: Parameters,
                          goal: Outcome) {
    forall n :: OpenUnwind(n) ==>
      Rooted(t) && Awaiting(t, path, stack) && k <= |stack| && Awaiting(t, path, stack[..k]) &&
      Unwind(t, path, take, stack[..k], params) == goal
  }

  /** Going on from the wildcard of entry `k` gives `goal`. */
  ghost predicate Resumes(t: Trie, path: string, take: Taker, stack: seq<Pending>, k: nat, i: nat,
                          params: Parameters, goal: Outcome) {
    forall n :: OpenResume(n) ==>
      Rooted(t) && k < |stack| && Kid(stack[k].word, Wild) in t && Awaiting(t, path, stack[..k]) &&
      Continue(t, path, take, Kid(stack[k].word, Wild), i, stack[..k], params) == goal
  }

  lemma StartUnwinding(t: Trie, path: string, take: Taker, stack: seq<Pending>, params: Parameters)
    requires Rooted(t) && Awaiting(t, path, stack)
    ensures Unwinds(t, path, take, stack, |stack|, params, Unwind(t, path, take, stack, params))
  {
    assert stack[..|stack|] == stack;
  }

  lemma EndUnwinding(t: Trie, path: string, take: Taker, stack: seq<Pending>, params: Parameters, goal: Outcome)
    requires Unwinds(t, path, take, stack, 0, params, goal)
    ensures goal.node == None
  {
    assert OpenUnwind(0);
  }

  /** One popped entry: its wildcard matches and the walk resumes there, or unwinding goes on. */
  lemma UnwindTurn(t: Trie, path: string, take: Taker, stack: seq<Pending>, k: nat, params: Parameters,
                   goal: Outcome, m: Matcher)
    requires Unwinds(t, path, take, stack, k + 1, params, goal) && k < |stack|
    requires stack[k].word in t && t[stack[k].word].wild == Some(m)
    requires stack[k].i < |path|
    ensures take(m, stack[k].i).None? ==> Unwinds(t, path, take, stack, k, params, goal)
    ensures take(m, stack[k].i).Some? ==>
              var value := take(m, stack[k].i).value;
              Resumes(t, path, take, stack, k, stack[k].i + |value|, Record(m, value, params), goal)
  {
    assert OpenUnwind(0);
    var top := stack[..k + 1];
    assert top[k] == stack[k] && top[..k] == stack[..k];
    assert Awaiting(t, path, stack[..k]);
  }

  ghost function Push(t: Trie, w: Word, i: nat, stack: seq<Pending>): seq<Pending>
    requires w in t
  {
    if t[w].wild.Some? then stack + [Pending(w, i)] else stack
  }

  /** One turn of the walk: the literal edge if there is one, else the newest stacked wildcard. */
  lemma ContinueTurn(t: Trie, path: string, take: Taker, w: Word, i: nat, stack: seq<Pending>, params: Parameters)
    requires Rooted(t) && w in t && Awaiting(t, path, stack) && i < |path|
    ensures Awaiting(t, path, Push(t, w, i, stack))
    ensures var literal := Kid(w, Lit(path[i]));
            Continue(t, path, take, w, i, stack, params) ==
            if literal in t then Continue(t, path, take, literal, i + 1, Push(t, w, i, stack), params)
            else Unwind(t, path, take, Push(t, w, i, stack), params)
  {
    if t[w].wild.Some? {
      assert (stack + [Pending(w, i)])[..|stack|] == stack;
    }
  }

  /** The stacked nodes lie along the branch to `w`, which left each of them by its literal edge. */
  ghost predicate AlongBranch(stack: seq<Pending>, w: Word)
    decreases |stack|
  {
    stack == [] ||
    var top := stack[|stack| - 1].word;
    LeftByLiteral(top, w) && AlongBranch(stack[..|stack| - 1], top)
  }

  ghost predicate LeftByLiteral(top: Word, w: Word) { Under(top, w) && top != w && Next(top, w).Lit? }

  /** The nodes the walk may still visit: those below the stacked wildcards. */
  ghost function Waiting(t: Trie, stack: seq<Pending>): set<Word> {
    set x | x in t && exists k :: 0 <= k < |stack| && Under(Kid(stack[k].word, Wild), x)
  }

  ghost function Unvisited(t: Trie, w: Word, stack: seq<Pending>): set<Word> { Below(t, w) + Waiting(t, stack) }

  lemma {:induction false} BranchAt(stack: seq<Pending>, w: Word, k: nat)
    requires AlongBranch(stack, w) && k < |stack|
    ensures LeftByLiteral(stack[k].word, w) && AlongBranch(stack[..k], stack[k].word)
    decreases |stack|
  {
    if k < |stack| - 1 {
      var rest, top := stack[..|stack| - 1], stack[|stack| - 1].word;
      BranchAt(rest, top, k);
      assert rest[..k] == stack[..k];
      UnderTransitive(stack[k].word, top, w);
    }
  }

  lemma BranchGoesOn(stack: seq<Pending>, w: Word, e: Edge)
    requires AlongBranch(stack, w)
    ensures AlongBranch(stack, Kid(w, e))
  {
    if stack != [] {
      var top := stack[|stack| - 1].word;
      UnderTransitive(top, w, Kid(w, e));
    }
  }

  /** Nothing that waits below a stacked wildcard is on the branch that passed it by. */
  lemma NotWaiting(t: Trie, w: Word, stack: seq<Pending>)
    requires AlongBranch(stack, w)
    ensures w !in Waiting(t, stack)
  {
    forall k | 0 <= k < |stack| ensures !Under(Kid(stack[k].word, Wild), w) {
      BranchAt(stack, w, k);
      if Under(Kid(stack[k].word, Wild), w) { UnderKid(stack[k].word, Wild, w); }
    }
  }

  lemma PushLeaves(t: Trie, w: Word, stack: seq<Pending>, i: nat)
    requires w in t
    ensures Waiting(t, Push(t, w, i, stack)) <= Waiting(t, stack) + (Below(t, w) - {w})
  {
    var pushed := Push(t, w, i, stack);
    forall x | x in Waiting(t, pushed) ensures x in Waiting(t, stack) || (Under(w, x) && w != x && x in t) {
      var k :| 0 <= k < |pushed| && Under(Kid(pushed[k].word, Wild), x);
      if k == |stack| { UnderKid(w, Wild, x); } else { assert pushed[k] == stack[k]; }
    }
  }

  lemma KidLeaves(t: Trie, w: Word, e: Edge)
    ensures Below(t, Kid(w, e)) <= Below(t, w) - {w}
  {
    forall x | x in Below(t, Kid(w, e)) ensures x in Below(t, w) && x != w { UnderKid(w, e, x); }
  }

  lemma LiteralStepLeaves(t: Trie, w: Word, c: char, stack: seq<Pending>, i: nat)
    requires w in t && AlongBranch(stack, w)
    ensures AlongBranch(Push(t, w, i, stack), Kid(w, Lit(c)))
    ensures Unvisited(t, Kid(w, Lit(c)), Push(t, w, i, stack)) <= Unvisited(t, w, stack) - {w}
  {
    BranchGoesOn(stack, w, Lit(c));
    assert (stack + [Pending(w, i)])[..|stack|] == stack;
    UnderKid(w, Lit(c), Kid(w, Lit(c)));
    PushLeaves(t, w, stack, i);
    KidLeaves(t, w, Lit(c));
    NotWaiting(t, w, stack);
  }

  lemma BacktrackLeaves(t: Trie, w: Word, stack: seq<Pending>, i: nat, k: nat)
    requires w in t && AlongBranch(stack, w) && k < |Push(t, w, i, stack)|
    ensures var pushed := Push(t, w, i, stack);
            && AlongBranch(pushed[..k], Kid(pushed[k].word, Wild))
            && Unvisited(t, Kid(pushed[k].word, Wild), pushed[..k]) <= Unvisited(t, w, stack) - {w}
  {
    var pushed := Push(t, w, i, stack);
    if k < |stack| {
      BranchAt(stack, w, k);
      assert pushed[..k] == stack[..k];
    } else {
      assert pushed[..k] == stack;
    }
    BranchGoesOn(pushed[..k], pushed[k].word, Wild);
    PushLeaves(t, w, stack, i);
    NotWaiting(t, w, stack);
    FewerWait(t, pushed, k);
  }

  lemma FewerWait(t: Trie, stack: seq<Pending>, k: nat)
    requires k < |stack|
    ensures Waiting(t, stack[..k]) <= Waiting(t, stack) && Below(t, Kid(stack[k].word, Wild)) <= Waiting(t, stack)
  {
    forall x | x in Waiting(t, stack[..k]) ensures x in Waiting(t, stack) {
      var j :| 0 <= j < k && Under(Kid(stack[..k][j].word, Wild), x);
      assert stack[..k][j] == stack[j];
    }
  }

  /** Between two turns of the walk: what is still to come gives `goal`, and no visited node is among it. */
  ghost predicate VisitedOnce(t: Trie, visits: seq<Word>) {
    && (forall j, k | 0 <= j < k < |visits| :: visits[j] != visits[k])
    && (forall v | v in visits :: v in t)
  }

  ghost predicate WalkInvariant(t: Trie, path: string, take: Taker, w: Word, i: nat, stack: seq<Pending>,
                                params: Parameters,
                                visits: seq<Word>, goal: Outcome) {
    && Rooted(t) && w in t && Awaiting(t, path, stack)
    && AlongBranch(stack, w) && Continue(t, path, take, w, i, stack, params) == goal
    && VisitedOnce(t, visits) && (forall v | v in visits :: v !in Unvisited(t, w, stack))
  }

  ghost predicate Walking(t: Trie, path: string, take: Taker, w: Word, i: nat, stack: seq<Pending>, params: Parameters,
                          visits: seq<Word>, goal: Outcome) {
    forall n :: OpenWalk(n) ==> WalkInvariant(t, path, take, w, i, stack, params, visits, goal)
  }

  lemma LiteralTurn(t: Trie, path: string, take: Taker, w: Word, i: nat, stack: seq<Pending>, params: Parameters,
                    visits: seq<Word>, goal: Outcome)
    requires w in t && Walking(t, path, take, w, i, stack, params, visits, goal) && i < |path|
    requires Kid(w, Lit(path[i])) in t
    ensures Walking(t, path, take, Kid(w, Lit(path[i])), i + 1, Push(t, w, i, stack), params, visits + [w], goal)
    ensures Unvisited(t, Kid(w, Lit(path[i])), Push(t, w, i, stack)) < Unvisited(t, w, stack)
  {
    assert OpenWalk(0);
    assert w in Unvisited(t, w, stack);
    LiteralStepLeaves(t, w, path[i], stack, i);
    ContinueTurn(t, path, take, w, i, stack, params);
  }

  lemma WildTurnStarts(t: Trie, path: string, take: Taker, w: Word, i: nat, stack: seq<Pending>, params: Parameters,
                       visits: seq<Word>, goal: Outcome)
    requires w in t && Walking(t, path, take, w, i, stack, params, visits, goal) && i < |path|
    requires Kid(w, Lit(path[i])) !in t
    ensures Awaiting(t, path, Push(t, w, i, stack))
    ensures Unwinds(t, path, take, Push(t, w, i, stack), |Push(t, w, i, stack)|, params, goal)
  {
    assert OpenWalk(0);
    ContinueTurn(t, path, take, w, i, stack, params);
    StartUnwinding(t, path, take, Push(t, w, i, stack), params);
  }

  lemma WildTurn(t: Trie, path: string, take: Taker, w: Word, i: nat, stack: seq<Pending>, params: Parameters,
                 visits: seq<Word>, goal: Outcome, k: nat, i': nat, params': Parameters)
    requires w in t && Walking(t, path, take, w, i, stack, params, visits, goal)
    requires k < |Push(t, w, i, stack)| && Resumes(t, path, take, Push(t, w, i, stack), k, i', params', goal)
    ensures var pushed := Push(t, w, i, stack);
            && Walking(t, path, take, Kid(pushed[k].word, Wild), i', pushed[..k], params', visits + [w], goal)
            && Unvisited(t, Kid(pushed[k].word, Wild), pushed[..k]) < Unvisited(t, w, stack)
  {
    assert OpenWalk(0) && OpenResume(0);
    assert w in Unvisited(t, w, stack);
    BacktrackLeaves(t, w, stack, i, k);
  }

  lemma EndOfWalk(t: Trie, path: string, take: Taker, w: Word, i: nat, stack: seq<Pending>, params: Parameters,
                  visits: seq<Word>, goal: Outcome)
    requires Walking(t, path, take, w, i, stack, params, visits, goal)
    ensures VisitedOnce(t, visits + [w])
    ensures i >= |path| ==> goal == Outcome(Some(w), params)
  {
    assert OpenWalk(0);
    assert w in Unvisited(t, w, stack);
  }

  lemma StartOfWalk(t: Trie, path: string, take: Taker)
    requires Rooted(t)
    ensures Walking(t, path, take, Root, 0, [], map[], [], Explore(t, path, take, Root, 0, map[]))
  {
  }

  // ------------------------------------------------------------------- the trie

  class EndpointTrie {
    const root: TrieNode
    ghost const rule: Rule
    ghost var nodes: map<Word, TrieNode>
    ghost var content: Trie   // the trie as a value
    ghost var owned: set<TrieNode>
    ghost var routes: map<Word, seq<Matcher>>

    ghost predicate LinkedAt(w: Word)
      requires w in nodes && w in content
      reads `nodes, `content, `owned, owned
    {
      nodes[w] in owned && LinkedAs(nodes[w].children, nodes[w].wildcard, nodes[w].endpoint, nodes, content, w)
    }

    ghost predicate Linked()
      reads `nodes, `content, `owned, owned
    {
      && content.Keys == nodes.Keys && Root in nodes && nodes[Root] == root
      && forall w {:trigger LinkedAt(w)} | w in nodes :: LinkedAt(w)
    }

    /** No two words share a node. */
    ghost predicate Unshared()
      reads `nodes
    {
      forall u, v | u in nodes && v in nodes && nodes[u] == nodes[v] :: u == v
    }

    ghost predicate Valid()
      reads this, owned
    {
      Linked() && Unshared() && Serves(content, rule, routes)
    }

    constructor (ghost rule: Rule)
      ensures Valid() && fresh(owned) && this.rule == rule
      ensures content == map[Root := BLANK]
    {
      root := new TrieNode();
      this.rule := rule;
      routes := map[];
      new;
      nodes, content, owned := map[Root := root], map[Root := BLANK], {root};
      assert LinkedAt(Root);
      EmptyServes(rule, routes);
    }

    /** The stack of the walk holds the nodes and positions that `pending` names. */
    ghost predicate Stacked(stack: seq<Entry>, pending: seq<Pending>)
      reads `nodes, `content, `owned, owned
    {
      && |stack| == |pending|
      && forall k | 0 <= k < |stack| ::
           pending[k].word in nodes && stack[k] == Entry(nodes[pending[k].word], pending[k].i)
    }

    /** What one node holds, without the links around it. */
    lemma NodeAt(w: Word)
      requires Linked() && w in nodes
      ensures w in content && nodes[w] in owned
      ensures var wildcard := nodes[w].wildcard;
              && content[w] == Info(if wildcard.Some? then Some(wildcard.value.matcher) else None, nodes[w].endpoint)
              && (wildcard.Some? <==> Kid(w, Wild) in nodes)
              && (wildcard.Some? ==> wildcard.value.node == nodes[Kid(w, Wild)])
    {
      assert LinkedAt(w);
    }

    /** Walks back up the stack to the newest wildcard that matches. */
    method Backtrack(path: string, stack: seq<Entry>, params: Parameters, ghost pending: seq<Pending>,
                     ghost goal: Outcome)
      returns (found: Option<Entry>, stack': seq<Entry>, params': Parameters)
      requires Linked() && Stacked(stack, pending) && Awaiting(content, path, pending)
      requires Unwinds(content, path, TakerOf(path), pending, |pending|, params, goal)
      ensures found.None? ==> goal.node == None
      ensures var k := |stack'|;
              found.Some? ==>
                && k < |pending| && stack' == stack[..k] && Kid(pending[k].word, Wild) in nodes
                && found.value.node == nodes[Kid(pending[k].word, Wild)]
                && Resumes(content, path, TakerOf(path), pending, k, found.value.i, params', goal)
    {
      stack', params' := stack, params;
      while |stack'| > 0
        invariant |stack'| <= |stack| && stack' == stack[..|stack'|]
        invariant Unwinds(content, path, TakerOf(path), pending, |stack'|, params', goal)
      {
        var top := stack'[|stack'| - 1];
        stack' := stack'[..|stack'| - 1];
        ghost var k := |stack'|;
        assert stack[k] == top;
        NodeAt(pending[k].word);
        var wild := top.node.wildcard.value;
        UnwindTurn(content, path, TakerOf(path), pending, k, params', goal, wild.matcher);
        TakeIs(path, wild.matcher, top.i);
        var value := Match(wild.matcher, path[top.i..SegmentEnd(path, top.i)]);
        if value.Some? {
          params' := Record(wild.matcher, value.value, params');
          return Some(Entry(wild.node, top.i + |value.value|)), stack', params';
        }
      }
      EndUnwinding(content, path, TakerOf(path), pending, params', goal);
      return None, stack', params';
    }

    lemma PushStacked(stack: seq<Entry>, pending: seq<Pending>, w: Word, i: nat)
      requires Linked() && Stacked(stack, pending) && w in nodes
      ensures var more := if nodes[w].wildcard.Some? then stack + [Entry(nodes[w], i)] else stack;
              Stacked(more, Push(content, w, i, pending))
      ensures forall c | c in nodes[w].children ::
                Kid(w, Lit(c)) in nodes && nodes[w].children[c] == nodes[Kid(w, Lit(c))]
      ensures forall c :: c !in nodes[w].children ==> Kid(w, Lit(c)) !in content
    {
      assert LinkedAt(w);
    }

    /** A turn without a literal edge: back to the newest wildcard that matches, with `w` visited. */
    method Recover(path: string, i: nat, stack: seq<Entry>, params: Parameters,
                   ghost w: Word, ghost pending: seq<Pending>, ghost visits: seq<Word>, ghost goal: Outcome)
      returns (found: Option<Entry>, stack': seq<Entry>, params': Parameters,
               ghost w': Word, ghost pending': seq<Pending>)
      requires Linked() && Walking(content, path, TakerOf(path), w, i, pending, params, visits, goal)
      requires w in content && i < |path| && Kid(w, Lit(path[i])) !in content
      requires Stacked(stack, Push(content, w, i, pending))
      ensures found.None? ==> goal.node == None
      ensures found.Some? ==>
                && w' in nodes && found.value.node == nodes[w'] && Stacked(stack', pending')
                && Walking(content, path, TakerOf(path), w', found.value.i, pending', params', visits + [w], goal)
                && Unvisited(content, w', pending') < Unvisited(content, w, pending)
    {
      ghost var pushed := Push(content, w, i, pending);
      WildTurnStarts(content, path, TakerOf(path), w, i, pending, params, visits, goal);
      found, stack', params' := Backtrack(path, stack, params, pushed, goal);
      w', pending' := w, pushed;
      if found.Some? {
        w', pending' := Kid(pushed[|stack'|].word, Wild), pushed[..|stack'|];
        WildTurn(content, path, TakerOf(path), w, i, pending, params, visits, goal, |stack'|, found.value.i, params');
      }
    }

    /** The walk over linked nodes is the recursive search, and it visits no node twice. */
    method WalkPath(path: string)
      returns (node: Option<TrieNode>, params: Parameters, ghost visits: seq<Word>)
      requires Linked() && Rooted(content)
      ensures var o := Search(content, path);
              && node == (if o.node.Some? then Some(nodes[o.node.value]) else None)
              && (node.Some? ==> params == o.params)
      ensures VisitedOnce(content, visits)
    {
      params := map[];
      var current := root;
      var stack: seq<Entry> := [];
      var i: nat := 0;
      visits := [];
      ghost var w, pending: seq<Pending> := Root, [];
      ghost var goal := Search(content, path);
      StartOfWalk(content, path, TakerOf(path));
      while i < |path|
        invariant w in nodes && current == nodes[w] && Stacked(stack, pending)
        invariant Walking(content, path, TakerOf(path), w, i, pending, params, visits, goal)
        decreases Unvisited(content, w, pending)
      {
        PushStacked(stack, pending, w, i);
        if current.wildcard.Some? { stack := stack + [Entry(current, i)]; }
        if path[i] in current.children {
          LiteralTurn(content, path, TakerOf(path), w, i, pending, params, visits, goal);
          visits, pending := visits + [w], Push(content, w, i, pending);
          current, w := current.children[path[i]], Kid(w, Lit(path[i]));
          i := i + 1;
        } else {
          var found;
          ghost var w', pending';
          EndOfWalk(content, path, TakerOf(path), w, i, pending, params, visits, goal);
          found, stack, params, w', pending' := Recover(path, i, stack, params, w, pending, visits, goal);
          visits := visits + [w];
          if found.None? { return None, params, visits; }
          w, pending := w', pending';
          current, i := found.value.node, found.value.i;
        }
      }
      EndOfWalk(content, path, TakerOf(path), w, i, pending, params, visits, goal);
      visits := visits + [w];
      node := Some(current);
    }

    /** The endpoint of the node the walk ends on, with the parameters recorded on the way. */
    method MatchPath(path: string) returns (result: Option<(Parameters, Endpoint)>)
      requires Valid() && path != ""
      ensures result == Answer(content, path)
    {
      var node, params, _ := WalkPath(path);
      result := None;
      if node.Some? {
        ghost var w := Search(content, path).node.value;
        NodeAt(w);
        if node.value.endpoint.Some? { result := Some((params, node.value.endpoint.value)); }
      }
    }

    // ---------------------------------------------------------------- insertion

    /** No node is let go of, and those gained are new. */
    twostate predicate OwnedGrows()
      reads this
    {
      (forall x | x in old(owned) :: x in owned) && forall x | x in owned :: x in old(owned) || fresh(x)
    }

    /** The nodes were linked for the value `t`; since then only node `w` has changed. */
    ghost predicate LinkedBefore(before: map<Word, TrieNode>, t: Trie, w: Word)
      reads `nodes, `content, `owned, owned
    {
      && Rooted(t) && before.Keys == t.Keys && w in before && before[Root] == root
      && forall x | x in before && x != w ::
           before[x] in owned && LinkedAs(before[x].children, before[x].wildcard, before[x].endpoint, before, t, x)
    }

    /** A blank node was hung below `w`, and `w` itself is linked to it: then all nodes are linked. */
    lemma Relinked(before: map<Word, TrieNode>, t: Trie, w: Word, e: Edge)
      requires LinkedBefore(before, t, w) && Kid(w, e) !in before && IsBlank(Kid(w, e))
      requires nodes == before[Kid(w, e) := nodes[Kid(w, e)]] && HangsBelow(t, content, w, e)
      requires LinkedAt(w)
      ensures Linked()
    {
      NewNodeLinked(before, t, content, w, e, nodes[Kid(w, e)]);
      forall x | x in nodes ensures LinkedAt(x) {
        if x != w && x != Kid(w, e) {
          OthersStayLinked(nodes[x].children, nodes[x].wildcard, nodes[x].endpoint,
                           before, t, content, w, e, nodes[Kid(w, e)], x);
        }
      }
    }

    ghost predicate IsBlank(k: Word)
      reads `nodes, `content, `owned, owned
    {
      k in nodes && nodes[k] in owned &&
      nodes[k].children == map[] && nodes[k].wildcard == None && nodes[k].endpoint == None
    }

    lemma ChildRelinked(before: map<Word, TrieNode>, t: Trie, w: Word, c: char, children: map<char, TrieNode>)
      requires LinkedBefore(before, t, w) && Kid(w, Lit(c)) !in before && IsBlank(Kid(w, Lit(c)))
      requires nodes == before[Kid(w, Lit(c)) := nodes[Kid(w, Lit(c))]] && content == AddNode(t, Kid(w, Lit(c)))
      requires before[w] in owned && before[w].children == children[c := nodes[Kid(w, Lit(c))]]
      requires LinkedAs(children, before[w].wildcard, before[w].endpoint, before, t, w)
      ensures Linked()
    {
      ParentLinked(children, before[w].wildcard, before[w].endpoint, before, t, content, w, c, nodes[Kid(w, Lit(c))]);
      Relinked(before, t, w, Lit(c));
    }

    lemma WildRelinked(before: map<Word, TrieNode>, t: Trie, w: Word, m: Matcher)
      requires LinkedBefore(before, t, w) && Kid(w, Wild) !in before && IsBlank(Kid(w, Wild))
      requires nodes == before[Kid(w, Wild) := nodes[Kid(w, Wild)]] && content == AddWild(t, w, m)
      requires before[w] in owned && before[w].wildcard == Some(Wildcard(m, nodes[Kid(w, Wild)]))
      requires LinkedAs(before[w].children, None, before[w].endpoint, before, t, w)
      ensures Linked()
    {
      WildParentLinked(before[w].children, before[w].endpoint, m, before, t, w, nodes[Kid(w, Wild)]);
      AddWildHangs(t, w, m);
      Relinked(before, t, w, Wild);
    }

    /** Changing one node leaves the links of the others as they were. */
    lemma LinkedApart(w: Word)
      requires Linked() && Unshared() && Rooted(content) && w in nodes
      ensures LinkedBefore(nodes, content, w) && LinkedAt(w) && forall x | x in nodes && x != w :: nodes[x] != nodes[w]
    {
      forall x | x in nodes ensures LinkedAt(x) { }
    }

    method EnsureChild(node: TrieNode, c: char, ghost w: Word) returns (child: TrieNode)
      requires Linked() && Unshared() && Rooted(content) && w in nodes && node == nodes[w]
      modifies node, this`nodes, this`content, this`owned
      ensures Linked() && Unshared() && OwnedGrows()
      ensures content == AddNode(old(content), Kid(w, Lit(c)))
      ensures if Kid(w, Lit(c)) in old(nodes) then nodes == old(nodes) && child == nodes[Kid(w, Lit(c))]
              else nodes == old(nodes)[Kid(w, Lit(c)) := child] && fresh(child)
    {
      LinkedApart(w);
      if c !in node.children {
        child := AddChild(node, c, w);
      } else {
        child := node.children[c];
      }
    }

    method AddChild(node: TrieNode, c: char, ghost w: Word) returns (child: TrieNode)
      requires Linked() && Unshared() && Rooted(content) && w in nodes && node == nodes[w]
      requires Kid(w, Lit(c)) !in nodes
      modifies node, this`nodes, this`content, this`owned
      ensures Linked() && Unshared() && OwnedGrows()
      ensures content == AddNode(old(content), Kid(w, Lit(c)))
      ensures nodes == old(nodes)[Kid(w, Lit(c)) := child] && fresh(child)
    {
      ghost var k, t, before, children := Kid(w, Lit(c)), content, nodes, node.children;
      LinkedApart(w);
      child := new TrieNode();
      node.children := node.children[c := child];
      nodes, content, owned := nodes[k := child], AddNode(t, k), owned + {child};
      ChildRelinked(before, t, w, c, children);
    }

    method EnsureWild(node: TrieNode, m: Matcher, ghost w: Word) returns (child: TrieNode)
      requires Linked() && Unshared() && Rooted(content) && w in nodes && node == nodes[w] && node.wildcard.None?
      modifies node, this`nodes, this`content, this`owned
      ensures Linked() && Unshared()
      ensures content == AddWild(old(content), w, m)
      ensures OwnedGrows()
      ensures nodes == old(nodes)[Kid(w, Wild) := child] && fresh(child)
    {
      ghost var k, t, before := Kid(w, Wild), content, nodes;
      LinkedApart(w);
      child := new TrieNode();
      node.wildcard := Some(Wildcard(m, child));
      nodes, content, owned := nodes[k := child], AddWild(t, w, m), owned + {child};
      WildRelinked(before, t, w, m);
    }

    /** Walks the nodes of a literal text, making the missing ones. */
    method BuildLiteralPath(node: TrieNode, part: string, ghost w: Word) returns (end: TrieNode)
      requires Linked() && Unshared() && Rooted(content) && w in nodes && node == nodes[w]
      modifies owned, this`nodes, this`content, this`owned
      ensures Linked() && Unshared() && OwnedGrows()
      ensures content == AddLiterals(old(content), w, part)
      ensures LitsFrom(w, part) in nodes && end == nodes[LitsFrom(w, part)]
    {
      end := node;
      ghost var at := w;
      for i := 0 to |part|
        invariant Linked() && Unshared() && Rooted(content) && OwnedGrows()
        invariant at in nodes && end == nodes[at]
        invariant AddLiterals(content, at, part[i..]) == AddLiterals(old(content), w, part)
        invariant LitsFrom(at, part[i..]) == LitsFrom(w, part)
      {
        AddNodeRooted(content, at, Lit(part[i]));
        LiteralStep(content, at, part, i);
        NodeAt(at);
        end := EnsureChild(end, part[i], at);
        at := Kid(at, Lit(part[i]));
      }
      assert part[|part|..] == "";
    }

    /** The wildcard edge of a parameter; None when another parameter already has it. */
    method BuildWildcard(at: TrieNode, ms: seq<Matcher>, ghost w: Word, ghost above: set<string>)
      returns (end: Option<TrieNode>)
      requires Linked() && Unshared() && Ready(content, w, ms, above, rule) && ms != [] && !ms[0].Literal?
      requires w in nodes && at == nodes[w]
      modifies at, this`nodes, this`content, this`owned
      ensures Linked() && Unshared() && OwnedGrows()
      ensures end.None? ==>
                content == old(content) && content[w].wild.Some? && content[w].wild.value.chunk != ms[0].chunk
      ensures end.Some? ==>
                && Kid(w, Wild) in nodes && end.value == nodes[Kid(w, Wild)]
                && Ready(content, Kid(w, Wild), ms[1..], above + {Key(ms[0])}, rule)
                && content == (if old(content)[w].wild.None? then AddWild(old(content), w, ms[0]) else old(content))
                && content[w].wild.Some? && content[w].wild.value.chunk == ms[0].chunk
    {
      NodeAt(w);
      if at.wildcard.None? {
        NewWildReady(content, w, ms, above, rule);
        var last := EnsureWild(at, ms[0], w);
        end := Some(last);
      } else if at.wildcard.value.matcher.chunk != ms[0].chunk {
        end := None;
      } else {
        OldWildReady(content, w, ms, above, rule);
        end := Some(at.wildcard.value.node);
      }
    }

    /** One matcher of a route: a separator, then its literal text or its wildcard. */
    method BuildMatcher(node: TrieNode, ms: seq<Matcher>, ghost w: Word, ghost above: set<string>)
      returns (end: Option<TrieNode>, ghost w': Word, ghost above': set<string>)
      requires Linked() && Unshared() && Ready(content, w, ms, above, rule) && ms != [] && w in nodes
      requires node == nodes[w]
      modifies owned, this`nodes, this`content, this`owned
      ensures Linked() && Unshared() && OwnedGrows()
      ensures if end.Some? then
                && w' in nodes && end.value == nodes[w'] && Ready(content, w', ms[1..], above', rule)
                && TrieInsert.BuildPath(content, w', ms[1..]) == TrieInsert.BuildPath(old(content), w, ms)
              else TrieInsert.BuildPath(old(content), w, ms) == Collides(content)
    {
      ghost var slash := Kid(w, Lit(SEP));
      SlashReady(content, w, ms, above, rule);
      NodeAt(w);
      var at := EnsureChild(node, SEP, w);
      NodeAt(slash);
      if ms[0].Literal? {
        LiteralReady(content, slash, ms, above, rule);
        w', above' := LitsFrom(slash, ms[0].chunk), above;
        var last := BuildLiteralPath(at, ms[0].chunk, slash);
        end := Some(last);
      } else {
        w', above' := Kid(slash, Wild), above + {Key(ms[0])};
        end := BuildWildcard(at, ms, slash, above);
      }
    }

    /** Lays a route's nodes from the root; None when a parameter collides with one already there. */
    method BuildPath(ms: seq<Matcher>) returns (end: Option<TrieNode>)
      requires Linked() && Unshared() && Ready(content, Root, ms, {}, rule)
      modifies owned, this`nodes, this`content, this`owned
      ensures Linked() && Unshared() && OwnedGrows()
      ensures var b := TrieInsert.BuildPath(old(content), Root, ms);
              && content == b.trie && (end.Some? <==> b.Built?)
              && (end.Some? ==> b.node in nodes && end.value == nodes[b.node])
    {
      var node := root;
      ghost var w, above: set<string> := Root, {};
      assert ms[0..] == ms;
      for k := 0 to |ms|
        invariant Linked() && Unshared() && OwnedGrows()
        invariant w in nodes && node == nodes[w]
        invariant Ready(content, w, ms[k..], above, rule)
        invariant TrieInsert.BuildPath(content, w, ms[k..]) == TrieInsert.BuildPath(old(content), Root, ms)
      {
        assert ms[k..][1..] == ms[k + 1..];
        end, w, above := BuildMatcher(node, ms[k..], w, above);
        if end.None? { return; }
        node := end.value;
      }
      assert ms[|ms|..] == [];
      end := Some(node);
    }

    method SetEndpoint(node: TrieNode, endpoint: Endpoint, ghost w: Word)
      requires Linked() && Unshared() && Rooted(content) && w in nodes && node == nodes[w]
      modifies node, this`content
      ensures Linked() && Unshared()
      ensures content == old(content)[w := old(content)[w].(endpoint := Some(endpoint))]
    {
      ghost var t := content;
      LinkedApart(w);
      node.endpoint := Some(endpoint);
      content := t[w := t[w].(endpoint := Some(endpoint))];
      forall x | x in nodes ensures LinkedAt(x) {
        if x != w { assert nodes[x] != node; }
      }
    }

    /** Lays a route's nodes and sets its endpoint, unless a parameter or an endpoint is in the way. */
    method Attach(ms: seq<Matcher>, endpoint: Endpoint) returns (error: Option<InsertError>)
      requires Linked() && Unshared() && Ready(content, Root, ms, {}, rule)
      modifies owned, this`nodes, this`content, this`owned
      ensures Linked() && Unshared() && OwnedGrows()
      ensures (content, error) == Insertion(old(content), ms, endpoint)
    {
      ghost var b := TrieInsert.BuildPath(content, Root, ms);
      BuildHealthy(content, Root, ms, {}, rule);
      var end := BuildPath(ms);
      if end.None? { return Some(ParameterCollision); }
      var node := end.value;
      NodeAt(b.node);
      if node.endpoint.Some? {
        error := Some(if node.endpoint.value.route == endpoint.route then RouteExists else RouteCollision);
      } else {
        error := None;
        SetEndpoint(node, endpoint, b.node);
      }
    }

    method Insert(ms: seq<Matcher>, endpoint: Endpoint) returns (error: Option<InsertError>)
      requires Valid() && ValidRoute(rule, ms)
      modifies owned, this
      ensures Valid() && OwnedGrows()
      ensures (content, error) == Insertion(old(content), ms, endpoint)
      ensures routes == if error.None? then old(routes)[WordOf(ms) := ms] else old(routes)
    {
      StartReady(content, ms, rule);
      InsertionServes(content, rule, routes, ms, endpoint);
      error := Attach(ms, endpoint);
      if error.None? { routes := routes[WordOf(ms) := ms]; }
    }
  }
}
