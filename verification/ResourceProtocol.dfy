/**
 * The construction protocol of a request's server resources, cut at its suspension points.
 *
 * A resource type is a number; `graph[t]` lists the types its factory takes. A number past the
 * end of the graph is a type without a registered factory. Any number of `create_and_get` calls
 * run on one context; between two suspensions a call runs alone, and any call that can go on may
 * be the next to do so.
 */
module ResourceProtocol {
  type Graph = seq<seq<nat>>

  /** How far one call of create_and_get has come. */
  datatype Stage =
    | Entry                      // not begun
    | Waiting                    // suspended on its own promise in the construction map
    | Woken                      // that promise is set; not resumed yet
    | Fetching(kids: seq<nat>)   // builds the type: awaits the calls for its dependencies
    | Making(made: nat)        // builds the type: its factory has been called
    | Done(made: nat)          // returned the object
    | Failed                     // left by an exception

  datatype Call = Call(kind: nat, stage: Stage)

  /** One call of a factory: the type, and the objects it was given. Its index names its object. */
  datatype Build = Build(kind: nat, given: seq<nat>)

  /**
   * `stored` is the dependency map. `construction` is the multimap of promises: under each type
   * the calls that put one there, the building call first. `builds` records every factory call.
   */
  datatype State = State(
    calls: seq<Call>,
    stored: map<nat, nat>,
    construction: map<nat, seq<nat>>,
    builds: seq<Build>)

  const Initial := State([], map[], map[], [])

  /** The steps between two suspensions; `c` is the call that takes the step. */
  datatype Action =
    | Request(kind: nat)   // somebody calls create_and_get
    | Begin(c: nat)
    | Invoke(c: nat)       // all dependencies are there: call the factory
    | Store(c: nat)        // the factory's object is there: store it and wake the waiters
    | Resume(c: nat)       // a woken call reads the stored object
    | Rethrow(c: nat)      // a dependency failed
    | FactoryThrows(c: nat)

  predicate At(s: State, c: nat) { c < |s.calls| }

  predicate KidDone(s: State, kids: seq<nat>, i: nat)
    requires i < |kids|
  {
    At(s, kids[i]) && s.calls[kids[i]].stage.Done?
  }

  predicate KidFailed(s: State, kids: seq<nat>, i: nat)
    requires i < |kids|
  {
    && At(s, kids[i]) && s.calls[kids[i]].stage.Failed?
    && forall j: nat | j < i :: KidDone(s, kids, j)
  }

  predicate Enabled(s: State, a: Action) {
    match a
    case Request(_) => true
    case Begin(c) => At(s, c) && s.calls[c].stage.Entry?
    case Invoke(c) =>
      && At(s, c) && s.calls[c].stage.Fetching?
      && forall i: nat | i < |s.calls[c].stage.kids| :: KidDone(s, s.calls[c].stage.kids, i)
    case Store(c) => At(s, c) && s.calls[c].stage.Making?
    case Resume(c) => At(s, c) && s.calls[c].stage.Woken? && s.calls[c].kind in s.stored
    case Rethrow(c) =>
      && At(s, c) && s.calls[c].stage.Fetching?
      && exists i: nat | i < |s.calls[c].stage.kids| :: KidFailed(s, s.calls[c].stage.kids, i)
    case FactoryThrows(c) => At(s, c) && s.calls[c].stage.Making?
  }

  function Moved(s: State, c: nat, stage: Stage): State
    requires At(s, c)
  {
    s.(calls := s.calls[c := Call(s.calls[c].kind, stage)])
  }

  /** Begin a call: the type is stored, or is tagged, or this call tags it and builds it. */
  function Begun(graph: Graph, s: State, c: nat): State
    requires Enabled(s, Begin(c))
  {
    var t := s.calls[c].kind;
    if t in s.stored then Moved(s, c, Done(s.stored[t]))
    else if t in s.construction then
      Moved(s, c, Waiting).(construction := s.construction[t := s.construction[t] + [c]])
    else
      var tagged := s.construction[t := [c]];
      if t >= |graph| then Moved(s, c, Failed).(construction := tagged)
      else
        var kids := seq(|graph[t]|, i requires 0 <= i < |graph[t]| => Call(graph[t][i], Entry));
        var names := seq(|graph[t]|, i requires 0 <= i < |graph[t]| => |s.calls| + i);
        Moved(s, c, Fetching(names)).(calls := Moved(s, c, Fetching(names)).calls + kids,
                                     construction := tagged)
  }

  function Given(s: State, kids: seq<nat>): (r: seq<nat>)
    requires forall i: nat | i < |kids| :: KidDone(s, kids, i)
    ensures |r| == |kids|
    ensures forall i: nat | i < |kids| :: KidDone(s, kids, i) && r[i] == s.calls[kids[i]].stage.made
  {
    if kids == [] then []
    else
      var front := kids[..|kids| - 1];
      assert forall i: nat | i < |front| :: KidDone(s, kids, i) ==> KidDone(s, front, i);
      assert KidDone(s, kids, |kids| - 1);
      Given(s, front) + [s.calls[kids[|kids| - 1]].stage.made]
  }

  /** Setting a promise wakes the call suspended on it, if one is. */
  function Wake(calls: seq<Call>, owners: seq<nat>): (r: seq<Call>)
    ensures |r| == |calls|
    ensures forall i | 0 <= i < |r| ::
      r[i] == if i in owners && calls[i].stage.Waiting? then Call(calls[i].kind, Woken) else calls[i]
  {
    seq(|calls|, i requires 0 <= i < |calls| =>
      if i in owners && calls[i].stage.Waiting? then Call(calls[i].kind, Woken) else calls[i])
  }

  function Owners(s: State, t: nat): seq<nat> {
    if t in s.construction then s.construction[t] else []
  }

  function Stored(s: State, c: nat): State
    requires Enabled(s, Store(c))
  {
    var t, made := s.calls[c].kind, s.calls[c].stage.made;
    State(
      Wake(Moved(s, c, Done(made)).calls, Owners(s, t)),
      s.stored[t := made],
      s.construction - {t},
      s.builds)
  }

  function Next(graph: Graph, s: State, a: Action): State
    requires Enabled(s, a)
  {
    match a
    case Request(t) => s.(calls := s.calls + [Call(t, Entry)])
    case Begin(c) => Begun(graph, s, c)
    case Invoke(c) =>
      Moved(s, c, Making(|s.builds|)).(
        builds := s.builds + [Build(s.calls[c].kind, Given(s, s.calls[c].stage.kids))])
    case Store(c) => Stored(s, c)
    case Resume(c) => Moved(s, c, Done(s.stored[s.calls[c].kind]))
    case Rethrow(c) => Moved(s, c, Failed)
    case FactoryThrows(c) => Moved(s, c, Failed)
  }

  /** A run from `s`: every action is enabled where it is taken. */
  predicate IsRun(graph: Graph, s: State, run: seq<Action>)
    decreases |run|
  {
    run != [] ==> Enabled(s, run[0]) && IsRun(graph, Next(graph, s, run[0]), run[1..])
  }

  function After(graph: Graph, s: State, run: seq<Action>): State
    requires IsRun(graph, s, run)
    decreases |run|
  {
    if run == [] then s else After(graph, Next(graph, s, run[0]), run[1..])
  }

  // ---- What every step keeps ------------------------------------------------------------------

  predicate Owns(s: State, t: nat, c: nat) {
    t in s.construction && c in s.construction[t]
  }

  predicate Builder(s: State, t: nat, c: nat) {
    t in s.construction && |s.construction[t]| > 0 && s.construction[t][0] == c
  }

  predicate KidsOf(graph: Graph, s: State, t: nat, kids: seq<nat>) {
    && t < |graph| && |kids| == |graph[t]|
    && forall i | 0 <= i < |kids| :: kids[i] < |s.calls| && s.calls[kids[i]].kind == graph[t][i]
  }

  predicate NotBuilt(s: State, t: nat) {
    forall i | 0 <= i < |s.builds| :: s.builds[i].kind != t
  }

  predicate CallOk(graph: Graph, s: State, c: nat)
    requires At(s, c)
  {
    var t := s.calls[c].kind;
    match s.calls[c].stage
    case Entry => true
    case Waiting => Owns(s, t, c) && !Builder(s, t, c)
    case Woken => t in s.stored
    case Fetching(kids) => Builder(s, t, c) && KidsOf(graph, s, t, kids) && NotBuilt(s, t)
    case Making(o) => Builder(s, t, c) && o < |s.builds| && s.builds[o].kind == t
    case Done(o) => t in s.stored && s.stored[t] == o
    case Failed => Builder(s, t, c)
  }

  /** The promises of one type: its builder's (unawaited), then one for each waiting call. */
  predicate TagOk(s: State, t: nat)
    requires t in s.construction
  {
    var owners := s.construction[t];
    && t !in s.stored
    && |owners| > 0
    && At(s, owners[0]) && s.calls[owners[0]].kind == t
    && (s.calls[owners[0]].stage.Fetching? || s.calls[owners[0]].stage.Making? || s.calls[owners[0]].stage.Failed?)
    && (forall i | 0 < i < |owners| :: At(s, owners[i]) && s.calls[owners[i]] == Call(t, Waiting))
    && (forall i, j | 0 <= i < j < |owners| :: owners[i] != owners[j])
  }

  predicate StoredOk(s: State, t: nat)
    requires t in s.stored
  {
    s.stored[t] < |s.builds| && s.builds[s.stored[t]].kind == t
  }

  /** A factory was given the stored objects of its dependencies, all built before. */
  predicate BuildOk(graph: Graph, s: State, i: nat)
    requires i < |s.builds|
  {
    var b := s.builds[i];
    && b.kind < |graph| && |b.given| == |graph[b.kind]|
    && (forall j | 0 <= j < |b.given| ::
          graph[b.kind][j] in s.stored && s.stored[graph[b.kind][j]] == b.given[j] && b.given[j] < i)
    && (if b.kind in s.stored then s.stored[b.kind] == i else b.kind in s.construction)
  }

  ghost predicate Sound(graph: Graph, s: State) {
    && (forall c: nat | At(s, c) :: CallOk(graph, s, c))
    && (forall t: nat | t in s.construction :: TagOk(s, t))
    && (forall t: nat | t in s.stored :: StoredOk(s, t))
    && (forall i: nat | i < |s.builds| :: BuildOk(graph, s, i))
    && (forall i, j | 0 <= i < j < |s.builds| :: s.builds[i].kind != s.builds[j].kind)
  }

  /** What no step takes back. */
  ghost predicate Grows(s: State, u: State) {
    && |s.calls| <= |u.calls|
    && (forall c: nat | At(s, c) ::
          && u.calls[c].kind == s.calls[c].kind
          && (s.calls[c].stage.Done? || s.calls[c].stage.Failed? ==> u.calls[c] == s.calls[c]))
    && (forall t: nat | t in s.stored :: t in u.stored && u.stored[t] == s.stored[t])
    && s.builds <= u.builds
  }

  /** Every factory call is of a type that is stored or still tagged. */
  ghost predicate BuildsTagged(s: State) {
    forall i | 0 <= i < |s.builds| :: s.builds[i].kind in s.stored || s.builds[i].kind in s.construction
  }

  lemma BuildsAreTagged(graph: Graph, s: State)
    requires Sound(graph, s)
    ensures BuildsTagged(s)
  {
    forall i: nat | i < |s.builds|
      ensures s.builds[i].kind in s.stored || s.builds[i].kind in s.construction
    {
      assert BuildOk(graph, s, i);
    }
  }

  /** The call finds its type stored, or joins those waiting for it. */
  lemma BeginJoinsKeepsCall(graph: Graph, s: State, c: nat, d: nat)
    requires Enabled(s, Begin(c)) && At(s, d) && CallOk(graph, s, d)
    requires s.calls[c].kind in s.stored || (s.calls[c].kind in s.construction && TagOk(s, s.calls[c].kind))
    ensures CallOk(graph, Begun(graph, s, c), d)
  {
    var u := Begun(graph, s, c);
    assert u.stored == s.stored && u.builds == s.builds;
  }

  /** The call is the first for its type. */
  lemma BeginTagsKeepsCall(graph: Graph, s: State, c: nat, d: nat)
    requires Enabled(s, Begin(c)) && At(s, d) && CallOk(graph, s, d) && BuildsTagged(s)
    requires s.calls[c].kind !in s.stored && s.calls[c].kind !in s.construction
    ensures CallOk(graph, Begun(graph, s, c), d)
  {
    var u := Begun(graph, s, c);
    assert u.stored == s.stored && u.builds == s.builds;
  }

  lemma BeginKeepsCall(graph: Graph, s: State, c: nat, d: nat)
    requires Enabled(s, Begin(c)) && At(s, d) && CallOk(graph, s, d)
    requires s.calls[c].kind in s.construction && s.calls[c].kind !in s.stored ==> TagOk(s, s.calls[c].kind)
    requires BuildsTagged(s)
    ensures CallOk(graph, Begun(graph, s, c), d)
  {
    if s.calls[c].kind in s.stored || s.calls[c].kind in s.construction { BeginJoinsKeepsCall(graph, s, c, d); }
    else { BeginTagsKeepsCall(graph, s, c, d); }
  }

  lemma BeginKeepsTag(graph: Graph, s: State, c: nat, t: nat)
    requires Enabled(s, Begin(c)) && t in Begun(graph, s, c).construction
    requires t in s.construction ==> TagOk(s, t)
    ensures TagOk(Begun(graph, s, c), t)
  {
    if t in s.construction {
      assert forall i | 0 <= i < |s.construction[t]| :: s.construction[t][i] != c;
    }
  }

  lemma BeginKeeps(graph: Graph, s: State, c: nat)
    requires Sound(graph, s) && Enabled(s, Begin(c))
    ensures Sound(graph, Begun(graph, s, c)) && Grows(s, Begun(graph, s, c))
  {
    var u := Begun(graph, s, c);
    assert u.stored == s.stored && u.builds == s.builds;
    BuildsAreTagged(graph, s);
    forall d: nat | At(u, d) ensures CallOk(graph, u, d) {
      if At(s, d) { BeginKeepsCall(graph, s, c, d); }
    }
    forall i: nat | i < |u.builds| ensures BuildOk(graph, u, i) { assert BuildOk(graph, s, i); }
    forall t: nat | t in u.construction ensures TagOk(u, t) { BeginKeepsTag(graph, s, c, t); }
    forall t: nat | t in u.stored ensures StoredOk(u, t) { assert StoredOk(s, t); }
  }

  lemma StoreKeepsCall(graph: Graph, s: State, c: nat, d: nat)
    requires Enabled(s, Store(c)) && At(s, d) && CallOk(graph, s, c) && CallOk(graph, s, d)
    requires TagOk(s, s.calls[c].kind)
    ensures CallOk(graph, Stored(s, c), d)
  {
  }

  lemma StoreKeepsTag(graph: Graph, s: State, c: nat, t: nat)
    requires Enabled(s, Store(c)) && CallOk(graph, s, c)
    requires t in Stored(s, c).construction && TagOk(s, t) && TagOk(s, s.calls[c].kind)
    ensures TagOk(Stored(s, c), t)
  {
  }

  /** What a store does to the objects stored and to the calls of factories. */
  lemma StoreKeepsObjects(graph: Graph, s: State, c: nat)
    requires Sound(graph, s) && Enabled(s, Store(c)) && CallOk(graph, s, c)
    ensures forall t: nat | t in Stored(s, c).stored :: StoredOk(Stored(s, c), t)
    ensures forall i: nat | i < |s.builds| :: BuildOk(graph, Stored(s, c), i)
  {
    var u := Stored(s, c);
    assert TagOk(s, s.calls[c].kind);
    forall t: nat | t in u.stored ensures StoredOk(u, t) { if t in s.stored { assert StoredOk(s, t); } }
    forall i: nat | i < |u.builds| ensures BuildOk(graph, u, i) { assert BuildOk(graph, s, i); }
  }

  lemma StoreGrows(graph: Graph, s: State, c: nat)
    requires Enabled(s, Store(c)) && CallOk(graph, s, c) && TagOk(s, s.calls[c].kind)
    ensures Grows(s, Stored(s, c))
  {
  }

  lemma StoreKeeps(graph: Graph, s: State, c: nat)
    requires Sound(graph, s) && Enabled(s, Store(c))
    ensures Sound(graph, Stored(s, c)) && Grows(s, Stored(s, c))
  {
    var u := Stored(s, c);
    assert CallOk(graph, s, c);
    assert TagOk(s, s.calls[c].kind);
    StoreGrows(graph, s, c);
    StoreKeepsObjects(graph, s, c);
    forall d: nat | At(u, d) ensures CallOk(graph, u, d) { StoreKeepsCall(graph, s, c, d); }
    forall t: nat | t in u.construction ensures TagOk(u, t) { StoreKeepsTag(graph, s, c, t); }
  }

  lemma InvokeKeepsCall(graph: Graph, s: State, c: nat, d: nat)
    requires Enabled(s, Invoke(c)) && At(s, d) && CallOk(graph, s, c) && CallOk(graph, s, d)
    ensures CallOk(graph, Next(graph, s, Invoke(c)), d)
  {
  }

  lemma InvokeKeepsBuilds(graph: Graph, s: State, c: nat)
    requires Sound(graph, s) && Enabled(s, Invoke(c)) && CallOk(graph, s, c)
    ensures forall i: nat | i <= |s.builds| :: BuildOk(graph, Next(graph, s, Invoke(c)), i)
  {
    var u := Next(graph, s, Invoke(c));
    GivenStored(graph, s, c);
    assert TagOk(s, s.calls[c].kind);
    forall i: nat | i < |u.builds| ensures BuildOk(graph, u, i) {
      if i < |s.builds| { assert BuildOk(graph, s, i); }
    }
  }

  lemma InvokeKeeps(graph: Graph, s: State, c: nat)
    requires Sound(graph, s) && Enabled(s, Invoke(c))
    ensures Sound(graph, Next(graph, s, Invoke(c))) && Grows(s, Next(graph, s, Invoke(c)))
  {
    var u := Next(graph, s, Invoke(c));
    assert CallOk(graph, s, c);
    InvokeKeepsBuilds(graph, s, c);
    forall d: nat | At(u, d) ensures CallOk(graph, u, d) { InvokeKeepsCall(graph, s, c, d); }
    forall t: nat | t in u.construction ensures TagOk(u, t) { assert TagOk(s, t); }
    forall t: nat | t in u.stored ensures StoredOk(u, t) { assert StoredOk(s, t); }
  }

  lemma GivenStored(graph: Graph, s: State, c: nat)
    requires Sound(graph, s) && Enabled(s, Invoke(c))
    ensures KidsOf(graph, s, s.calls[c].kind, s.calls[c].stage.kids)
    ensures forall j | 0 <= j < |s.calls[c].stage.kids| ::
      var d := graph[s.calls[c].kind][j];
      d in s.stored && s.stored[d] == Given(s, s.calls[c].stage.kids)[j] && s.stored[d] < |s.builds|
  {
    var kids := s.calls[c].stage.kids;
    assert CallOk(graph, s, c);
    forall j | 0 <= j < |kids|
      ensures var d := graph[s.calls[c].kind][j];
        d in s.stored && s.stored[d] == Given(s, kids)[j] && s.stored[d] < |s.builds|
    {
      assert KidDone(s, kids, j);
      assert CallOk(graph, s, kids[j]);
      assert StoredOk(s, graph[s.calls[c].kind][j]);
    }
  }

  /** Steps that move one call and nothing else. */
  lemma MoveKeepsCall(graph: Graph, s: State, a: Action, d: nat)
    requires Enabled(s, a) && (a.Resume? || a.Rethrow? || a.FactoryThrows?)
    requires At(s, d) && CallOk(graph, s, d)
    ensures CallOk(graph, Next(graph, s, a), d)
  {
  }

  lemma MoveKeepsTag(graph: Graph, s: State, a: Action, t: nat)
    requires Enabled(s, a) && (a.Resume? || a.Rethrow? || a.FactoryThrows?)
    requires t in s.construction && TagOk(s, t)
    ensures TagOk(Next(graph, s, a), t)
  {
  }

  lemma MoveKeeps(graph: Graph, s: State, a: Action)
    requires Sound(graph, s) && Enabled(s, a)
    requires a.Resume? || a.Rethrow? || a.FactoryThrows?
    ensures Sound(graph, Next(graph, s, a)) && Grows(s, Next(graph, s, a))
  {
    var u := Next(graph, s, a);
    forall d: nat | At(u, d) ensures CallOk(graph, u, d) { MoveKeepsCall(graph, s, a, d); }
    forall t: nat | t in u.construction ensures TagOk(u, t) { MoveKeepsTag(graph, s, a, t); }
    forall t: nat | t in u.stored ensures StoredOk(u, t) { assert StoredOk(s, t); }
    forall i: nat | i < |u.builds| ensures BuildOk(graph, u, i) { assert BuildOk(graph, s, i); }
  }

  lemma RequestKeeps(graph: Graph, s: State, kind: nat)
    requires Sound(graph, s)
    ensures Sound(graph, Next(graph, s, Request(kind))) && Grows(s, Next(graph, s, Request(kind)))
  {
    var u := Next(graph, s, Request(kind));
    forall d: nat | At(u, d) ensures CallOk(graph, u, d) { if At(s, d) { assert CallOk(graph, s, d); } }
    forall t: nat | t in u.construction ensures TagOk(u, t) { assert TagOk(s, t); }
    forall t: nat | t in u.stored ensures StoredOk(u, t) { assert StoredOk(s, t); }
    forall i: nat | i < |u.builds| ensures BuildOk(graph, u, i) { assert BuildOk(graph, s, i); }
  }

  lemma StepKeeps(graph: Graph, s: State, a: Action)
    requires Sound(graph, s) && Enabled(s, a)
    ensures Sound(graph, Next(graph, s, a)) && Grows(s, Next(graph, s, a))
  {
    match a
    case Begin(c) => BeginKeeps(graph, s, c);
    case Store(c) => StoreKeeps(graph, s, c);
    case Invoke(c) => InvokeKeeps(graph, s, c);
    case Request(kind) => RequestKeeps(graph, s, kind);
    case _ => MoveKeeps(graph, s, a);
  }

  lemma {:induction false} RunKeeps(graph: Graph, s: State, run: seq<Action>)
    requires Sound(graph, s) && IsRun(graph, s, run)
    ensures Sound(graph, After(graph, s, run)) && Grows(s, After(graph, s, run))
    decreases |run|
  {
    if run != [] {
      StepKeeps(graph, s, run[0]);
      RunKeeps(graph, Next(graph, s, run[0]), run[1..]);
    }
  }

  /** The states of the protocol: those some run leads to. */
  ghost predicate Reached(graph: Graph, s: State) {
    exists run :: IsRun(graph, Initial, run) && After(graph, Initial, run) == s
  }

  lemma {:induction false} RunThenStep(graph: Graph, s: State, run: seq<Action>, a: Action)
    requires IsRun(graph, s, run) && Enabled(After(graph, s, run), a)
    ensures IsRun(graph, s, run + [a])
    ensures After(graph, s, run + [a]) == Next(graph, After(graph, s, run), a)
    decreases |run|
  {
    if run == [] {
      assert run + [a] == [a];
    } else {
      assert (run + [a])[1..] == run[1..] + [a];
      RunThenStep(graph, Next(graph, s, run[0]), run[1..], a);
    }
  }

  lemma ReachedStep(graph: Graph, s: State, a: Action)
    requires Reached(graph, s) && Enabled(s, a)
    ensures Reached(graph, Next(graph, s, a))
  {
    var run :| IsRun(graph, Initial, run) && After(graph, Initial, run) == s;
    RunThenStep(graph, Initial, run, a);
  }

  lemma ReachedSound(graph: Graph, s: State)
    requires Reached(graph, s)
    ensures Sound(graph, s)
  {
    var run :| IsRun(graph, Initial, run) && After(graph, Initial, run) == s;
    RunKeeps(graph, Initial, run);
  }

  /** The call that stores holds the tag of its type. */
  lemma StorerIsTagged(graph: Graph, s: State, c: nat)
    requires Reached(graph, s) && Enabled(s, Store(c))
    ensures s.calls[c].kind in s.construction
    ensures forall i | 0 <= i < |Owners(s, s.calls[c].kind)| :: Owners(s, s.calls[c].kind)[i] < |s.calls|
  {
    ReachedSound(graph, s);
    assert CallOk(graph, s, c);
    assert TagOk(s, s.calls[c].kind);
  }

  lemma WokenIsStored(graph: Graph, s: State, c: nat)
    requires Reached(graph, s) && At(s, c) && s.calls[c].stage.Woken?
    ensures s.calls[c].kind in s.stored
  {
    ReachedSound(graph, s);
    assert CallOk(graph, s, c);
  }
}
