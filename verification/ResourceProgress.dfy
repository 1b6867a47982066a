module ResourceProgress {
  // What every run of the construction protocol guarantees: one object a type, a bound on the
  // number of steps, and exactly which requests are answered.

  import opened ResourceProtocol

  // ---- Safety over all runs -------------------------------------------------------------------

  /** Whoever asks for a type, now or later in the run, gets the object built for it first. */
  lemma OneObjectPerType(graph: Graph, run: seq<Action>, more: seq<Action>, c: nat, d: nat)
    requires IsRun(graph, Initial, run) && IsRun(graph, After(graph, Initial, run), more)
    requires At(After(graph, Initial, run), c) && After(graph, Initial, run).calls[c].stage.Done?
    requires At(After(graph, After(graph, Initial, run), more), d)
    requires After(graph, After(graph, Initial, run), more).calls[d].stage.Done?
    ensures var s := After(graph, Initial, run); var u := After(graph, s, more);
      && At(u, c) && u.calls[c] == s.calls[c]
      && (s.calls[c].kind == u.calls[d].kind <==> s.calls[c].stage.made == u.calls[d].stage.made)
  {
    var s := After(graph, Initial, run);
    RunKeeps(graph, Initial, run);
    RunKeeps(graph, s, more);
    var u := After(graph, s, more);
    assert CallOk(graph, s, c) && CallOk(graph, u, c) && CallOk(graph, u, d);
    assert StoredOk(u, u.calls[c].kind) && StoredOk(u, u.calls[d].kind);
  }

  /**
   * A request is for the type it names: whatever is done before and after it, its call stays one for
   * that type, and once it returns it gives the object which that type's factory made.
   */
  lemma RequestGetsItsType(graph: Graph, s: State, t: nat, run: seq<Action>)
    requires Reached(graph, s) && IsRun(graph, Next(graph, s, Request(t)), run)
    ensures var c, u := |s.calls|, After(graph, Next(graph, s, Request(t)), run);
      && At(u, c) && u.calls[c].kind == t
      && (u.calls[c].stage.Done? ==>
            && u.calls[c].stage.made < |u.builds| && u.builds[u.calls[c].stage.made].kind == t
            && t in u.stored && u.stored[t] == u.calls[c].stage.made)
  {
    var c, r := |s.calls|, Next(graph, s, Request(t));
    ReachedSound(graph, s);
    StepKeeps(graph, s, Request(t));
    RunKeeps(graph, r, run);
    var u := After(graph, r, run);
    assert At(r, c) && CallOk(graph, u, c);
    if u.calls[c].stage.Done? { assert StoredOk(u, t); }
  }

  /**
   * A call awaits its dependencies one after the other: as long as one has neither returned nor failed,
   * those after it do not move the call, even if they have failed.
   */
  lemma AwaitsInOrder(s: State, c: nat, i: nat)
    requires At(s, c) && s.calls[c].stage.Fetching? && i < |s.calls[c].stage.kids|
    requires At(s, s.calls[c].stage.kids[i])
    requires !s.calls[s.calls[c].stage.kids[i]].stage.Done? && !s.calls[s.calls[c].stage.kids[i]].stage.Failed?
    requires forall j: nat | j < i :: KidDone(s, s.calls[c].stage.kids, j)
    ensures !Enabled(s, Invoke(c)) && !Enabled(s, Rethrow(c))
  {
    var kids := s.calls[c].stage.kids;
    assert !KidDone(s, kids, i);
    forall j: nat | j < |kids| ensures !KidFailed(s, kids, j) {
      if j < i { assert KidDone(s, kids, j); }
    }
  }

  /** No factory is called twice, even when factories fail; none is called with a stale object. */
  lemma BuiltAtMostOnce(graph: Graph, run: seq<Action>)
    requires IsRun(graph, Initial, run)
    ensures var s := After(graph, Initial, run);
      && (forall i, j | 0 <= i < j < |s.builds| :: s.builds[i].kind != s.builds[j].kind)
      && (forall t: nat | t in s.construction :: t !in s.stored)
      && (forall i: nat | i < |s.builds| :: BuildOk(graph, s, i))
  {
    var s := After(graph, Initial, run);
    RunKeeps(graph, Initial, run);
    assert forall t: nat | t in s.construction :: TagOk(s, t);
  }

  /** A waiting call is moved by exactly one step: the store of its type, which moves them all. */
  lemma WokenExactlyByStore(graph: Graph, s: State, a: Action, d: nat)
    requires Sound(graph, s) && Enabled(s, a) && At(s, d) && s.calls[d].stage.Waiting?
    ensures Next(graph, s, a).calls[d] != s.calls[d] <==> a.Store? && s.calls[a.c].kind == s.calls[d].kind
    ensures Next(graph, s, a).calls[d] != s.calls[d] ==>
      && Next(graph, s, a).calls[d].stage.Woken?
      && s.calls[d].kind in Next(graph, s, a).stored
      && s.calls[d].kind !in s.stored
  {
    assert CallOk(graph, s, d);
    assert TagOk(s, s.calls[d].kind);
    if a.Store? {
      assert CallOk(graph, s, a.c);
      assert TagOk(s, s.calls[a.c].kind);
    }
  }

  // ---- Which types can be built ---------------------------------------------------------------

  /** Every chain of dependencies from `t` ends within `k` types, all registered and none broken. */
  predicate Grounded(graph: Graph, broken: set<nat>, t: nat, k: nat)
    decreases k
  {
    && t < |graph| && t !in broken && k > 0
    && forall i | 0 <= i < |graph[t]| :: Grounded(graph, broken, graph[t][i], k - 1)
  }

  ghost predicate Buildable(graph: Graph, broken: set<nat>, t: nat) { exists k: nat :: Grounded(graph, broken, t, k) }

  lemma {:induction false} GroundedMore(graph: Graph, broken: set<nat>, t: nat, k: nat, m: nat)
    requires Grounded(graph, broken, t, k) && k <= m
    ensures Grounded(graph, broken, t, m)
    decreases k
  {
    forall i | 0 <= i < |graph[t]| ensures Grounded(graph, broken, graph[t][i], m - 1) {
      GroundedMore(graph, broken, graph[t][i], k - 1, m - 1);
    }
  }

  ghost predicate Acyclic(graph: Graph, rank: seq<nat>) {
    && |rank| == |graph|
    && forall t, i | 0 <= t < |graph| && 0 <= i < |graph[t]| ::
         graph[t][i] < |graph| && rank[graph[t][i]] < rank[t]
  }

  lemma {:induction false} RankGrounds(graph: Graph, rank: seq<nat>, t: nat)
    requires Acyclic(graph, rank) && t < |graph|
    ensures Grounded(graph, {}, t, rank[t] + 1)
    decreases rank[t]
  {
    forall i | 0 <= i < |graph[t]| ensures Grounded(graph, {}, graph[t][i], rank[t]) {
      RankGrounds(graph, rank, graph[t][i]);
      GroundedMore(graph, {}, graph[t][i], rank[graph[t][i]] + 1, rank[t]);
    }
  }

  function Least(graph: Graph, t: nat, k: nat): (r: nat)
    requires Grounded(graph, {}, t, k)
    ensures Grounded(graph, {}, t, r)
    ensures r > 0 && !Grounded(graph, {}, t, r - 1)
  {
    if Grounded(graph, {}, t, k - 1) then Least(graph, t, k - 1) else k
  }

  ghost function Ranks(graph: Graph, n: nat): (r: seq<nat>)
    requires n <= |graph| && forall t: nat | t < |graph| :: Buildable(graph, {}, t)
    ensures |r| == n
    ensures forall t: nat | t < n :: Grounded(graph, {}, t, r[t]) && r[t] > 0 && !Grounded(graph, {}, t, r[t] - 1)
  {
    if n == 0 then []
    else
      assert Buildable(graph, {}, n - 1);
      var k: nat :| Grounded(graph, {}, n - 1, k);
      Ranks(graph, n - 1) + [Least(graph, n - 1, k)]
  }

  lemma EverythingBuildableIffAcyclic(graph: Graph)
    ensures (forall t: nat | t < |graph| :: Buildable(graph, {}, t)) <==> exists rank :: Acyclic(graph, rank)
  {
    if forall t: nat | t < |graph| :: Buildable(graph, {}, t) {
      var rank := Ranks(graph, |graph|);
      forall t: nat, i: nat | t < |graph| && i < |graph[t]|
        ensures graph[t][i] < |graph| && rank[graph[t][i]] < rank[t]
      {
        var d := graph[t][i];
        assert Grounded(graph, {}, d, rank[t] - 1);
        if rank[d] >= rank[t] { GroundedMore(graph, {}, d, rank[t] - 1, rank[d] - 1); }
      }
      assert Acyclic(graph, rank);
    }
    if rank :| Acyclic(graph, rank) {
      forall t: nat | t < |graph| ensures Buildable(graph, {}, t) { RankGrounds(graph, rank, t); }
    }
  }

  // ---- Which requests are answered ------------------------------------------------------------

  predicate Internal(a: Action) { !a.Request? && !a.FactoryThrows? }

  ghost predicate Quiet(s: State) { forall a | Enabled(s, a) :: !Internal(a) }

  /** The types whose factory throws in the run. */
  function Broken(graph: Graph, s: State, run: seq<Action>): set<nat>
    requires IsRun(graph, s, run)
    decreases |run|
  {
    if run == [] then {}
    else
      (if run[0].FactoryThrows? then {s.calls[run[0].c].kind} else {})
      + Broken(graph, Next(graph, s, run[0]), run[1..])
  }

  predicate FailedAt(s: State, c: nat) { At(s, c) && s.calls[c].stage.Failed? }

  predicate HasFailed(s: State, t: nat) { exists c: nat | c < |s.calls| :: FailedAt(s, c) && s.calls[c].kind == t }

  /** Only calls for types that cannot be built have failed, and each broken type has a failed call. */
  ghost predicate Blamed(graph: Graph, broken: set<nat>, s: State) {
    && (forall c: nat | FailedAt(s, c) :: !Buildable(graph, broken, s.calls[c].kind))
    && (forall t | t in broken :: HasFailed(s, t))
  }

  lemma {:induction false} GroundedFewer(graph: Graph, fewer: set<nat>, broken: set<nat>, t: nat, k: nat)
    requires Grounded(graph, broken, t, k) && fewer <= broken
    ensures Grounded(graph, fewer, t, k)
    decreases k
  {
    forall i | 0 <= i < |graph[t]| ensures Grounded(graph, fewer, graph[t][i], k - 1) {
      GroundedFewer(graph, fewer, broken, graph[t][i], k - 1);
    }
  }

  lemma FailedKid(graph: Graph, broken: set<nat>, s: State, c: nat)
    requires Sound(graph, s) && Blamed(graph, broken, s) && Enabled(s, Rethrow(c))
    ensures !Buildable(graph, broken, s.calls[c].kind)
  {
    var t, kids := s.calls[c].kind, s.calls[c].stage.kids;
    assert CallOk(graph, s, c);
    var i: nat :| i < |kids| && KidFailed(s, kids, i);
    assert FailedAt(s, kids[i]);
    DependencyBuildable(graph, broken, t, i);
  }

  lemma DependencyBuildable(graph: Graph, broken: set<nat>, t: nat, i: nat)
    requires t < |graph| && i < |graph[t]|
    ensures Buildable(graph, broken, t) ==> Buildable(graph, broken, graph[t][i])
  {
    if k: nat :| Grounded(graph, broken, t, k) { assert Grounded(graph, broken, graph[t][i], k - 1); }
  }

  function BrokenBy(s: State, a: Action): set<nat>
    requires Enabled(s, a)
  {
    if a.FactoryThrows? then {s.calls[a.c].kind} else {}
  }

  lemma FailureStays(graph: Graph, s: State, a: Action, t: nat)
    requires Sound(graph, s) && Enabled(s, a) && HasFailed(s, t)
    ensures HasFailed(Next(graph, s, a), t)
  {
    StepKeeps(graph, s, a);
    var c: nat :| c < |s.calls| && FailedAt(s, c) && s.calls[c].kind == t;
    assert FailedAt(Next(graph, s, a), c);
  }

  /** Who fails in a step: nobody, or a call for a type that cannot be built, given what is broken. */
  lemma FailsRightly(graph: Graph, broken: set<nat>, s: State, a: Action, c: nat)
    requires Sound(graph, s) && Enabled(s, a) && Blamed(graph, broken, s)
    requires FailedAt(Next(graph, s, a), c) && !FailedAt(s, c)
    ensures !Buildable(graph, broken + BrokenBy(s, a), Next(graph, s, a).calls[c].kind)
  {
    match a
    case Rethrow(_) =>
      assert broken + BrokenBy(s, a) == broken;
      FailedKid(graph, broken, s, c);
    case FactoryThrows(_) =>
    case _ =>
  }

  lemma BlamedStep(graph: Graph, broken: set<nat>, s: State, a: Action)
    requires Sound(graph, s) && Enabled(s, a) && Blamed(graph, broken, s)
    ensures Blamed(graph, broken + BrokenBy(s, a), Next(graph, s, a))
  {
    var u, more := Next(graph, s, a), broken + BrokenBy(s, a);
    StepKeeps(graph, s, a);
    forall c: nat | FailedAt(u, c) ensures !Buildable(graph, more, u.calls[c].kind) {
      if FailedAt(s, c) { StillUnbuildable(graph, broken, more, u.calls[c].kind); }
      else { FailsRightly(graph, broken, s, a, c); }
    }
    forall t | t in more ensures HasFailed(u, t) {
      if t in broken { FailureStays(graph, s, a, t); } else { assert FailedAt(u, a.c); }
    }
  }

  lemma StillUnbuildable(graph: Graph, broken: set<nat>, more: set<nat>, t: nat)
    requires !Buildable(graph, broken, t) && broken <= more
    ensures !Buildable(graph, more, t)
  {
    forall k: nat ensures !Grounded(graph, more, t, k) {
      if Grounded(graph, more, t, k) { GroundedFewer(graph, broken, more, t, k); }
    }
  }

  lemma {:induction false} BlamedRun(graph: Graph, broken: set<nat>, s: State, run: seq<Action>)
    requires Sound(graph, s) && Blamed(graph, broken, s) && IsRun(graph, s, run)
    ensures Blamed(graph, broken + Broken(graph, s, run), After(graph, s, run))
    decreases |run|
  {
    if run == [] {
      assert broken + Broken(graph, s, run) == broken;
    } else {
      StepKeeps(graph, s, run[0]);
      BlamedStep(graph, broken, s, run[0]);
      var u, more := Next(graph, s, run[0]), broken + BrokenBy(s, run[0]);
      BlamedRun(graph, more, u, run[1..]);
      assert broken + Broken(graph, s, run) == more + Broken(graph, u, run[1..]);
    }
  }

  /** A type with a failed call is still tagged, so it is not stored. */
  lemma FailedNotStored(graph: Graph, s: State, t: nat)
    requires Sound(graph, s) && HasFailed(s, t)
    ensures t !in s.stored
  {
    var c: nat :| c < |s.calls| && FailedAt(s, c) && s.calls[c].kind == t;
    assert CallOk(graph, s, c);
    assert TagOk(s, t);
  }

  /** A stored object's type can be built: so could all it was built from. */
  lemma {:induction false} StoredIsGrounded(graph: Graph, broken: set<nat>, s: State, t: nat)
    requires Sound(graph, s) && Blamed(graph, broken, s) && t in s.stored
    ensures Grounded(graph, broken, t, s.stored[t] + 1)
    decreases s.stored[t]
  {
    var made := s.stored[t];
    assert StoredOk(s, t);
    assert BuildOk(graph, s, made);
    if t in broken { FailedNotStored(graph, s, t); }
    forall j | 0 <= j < |graph[t]| ensures Grounded(graph, broken, graph[t][j], made) {
      var d := graph[t][j];
      StoredIsGrounded(graph, broken, s, d);
      GroundedMore(graph, broken, d, s.stored[d] + 1, made);
    }
  }

  /** Where no step is left, the call that builds a buildable type has returned. */
  lemma {:induction false} QuietBuilt(graph: Graph, broken: set<nat>, s: State, c: nat, k: nat)
    requires Sound(graph, s) && Blamed(graph, broken, s) && Quiet(s)
    requires At(s, c) && Grounded(graph, broken, s.calls[c].kind, k)
    ensures s.calls[c].stage.Done?
    decreases k, s.calls[c].stage.Waiting?
  {
    var t := s.calls[c].kind;
    assert CallOk(graph, s, c);
    assert Buildable(graph, broken, t);
    assert FailedAt(s, c) <==> s.calls[c].stage.Failed?;
    QuietCall(s, c);
    match s.calls[c].stage
    case Fetching(kids) =>
      forall i: nat | i < |kids| ensures KidDone(s, kids, i) {
        assert Grounded(graph, broken, graph[t][i], k - 1);
        QuietBuilt(graph, broken, s, kids[i], k - 1);
      }
    case Waiting =>
      assert TagOk(s, t);
      var b := s.construction[t][0];
      QuietBuilt(graph, broken, s, b, k);
    case _ =>
  }

  lemma QuietCall(s: State, c: nat)
    requires Quiet(s)
    ensures !Enabled(s, Begin(c)) && !Enabled(s, Invoke(c)) && !Enabled(s, Store(c)) && !Enabled(s, Resume(c))
  {
    assert Internal(Begin(c)) && Internal(Invoke(c)) && Internal(Store(c)) && Internal(Resume(c));
  }

  /**
   * When no step is left to take, the answered calls are exactly those for types whose dependency
   * chains all end, in registered types none of whose factories has thrown.
   */
  lemma AnsweredIffBuildable(graph: Graph, run: seq<Action>, c: nat)
    requires IsRun(graph, Initial, run)
    requires Quiet(After(graph, Initial, run)) && At(After(graph, Initial, run), c)
    ensures var s := After(graph, Initial, run);
      s.calls[c].stage.Done? <==> Buildable(graph, Broken(graph, Initial, run), s.calls[c].kind)
  {
    var s, broken := After(graph, Initial, run), Broken(graph, Initial, run);
    RunKeeps(graph, Initial, run);
    BlamedRun(graph, {}, Initial, run);
    assert {} + broken == broken;
    assert CallOk(graph, s, c);
    if s.calls[c].stage.Done? { StoredIsGrounded(graph, broken, s, s.calls[c].kind); }
    if k: nat :| Grounded(graph, broken, s.calls[c].kind, k) { QuietBuilt(graph, broken, s, c, k); }
  }

  predicate NoThrow(run: seq<Action>) { forall i | 0 <= i < |run| :: !run[i].FactoryThrows? }

  lemma {:induction false} NothingBroken(graph: Graph, s: State, run: seq<Action>)
    requires IsRun(graph, s, run) && NoThrow(run)
    ensures Broken(graph, s, run) == {}
    decreases |run|
  {
    if run != [] { NothingBroken(graph, Next(graph, s, run[0]), run[1..]); }
  }

  /** Without cycles and unregistered types an unfinished call always leaves a step to take. */
  lemma NeverStuck(graph: Graph, rank: seq<nat>, run: seq<Action>, c: nat)
    requires Acyclic(graph, rank) && IsRun(graph, Initial, run) && NoThrow(run)
    requires At(After(graph, Initial, run), c) && !After(graph, Initial, run).calls[c].stage.Done?
    requires After(graph, Initial, run).calls[c].kind < |graph|
    ensures exists a :: Enabled(After(graph, Initial, run), a) && Internal(a)
  {
    var s := After(graph, Initial, run);
    if Quiet(s) {
      NothingBroken(graph, Initial, run);
      RankGrounds(graph, rank, s.calls[c].kind);
      AnsweredIffBuildable(graph, run, c);
    }
  }

  // ---- What a failure leaves behind -----------------------------------------------------------

  /** A call that failed as the builder of its type dooms every other call for that type. */
  lemma {:induction false} FailureIsFinal(graph: Graph, s: State, run: seq<Action>, c: nat, d: nat)
    requires Sound(graph, s) && IsRun(graph, s, run)
    requires At(s, c) && s.calls[c].stage.Failed?
    requires At(After(graph, s, run), d) && After(graph, s, run).calls[d].kind == s.calls[c].kind
    ensures !After(graph, s, run).calls[d].stage.Done? && !After(graph, s, run).calls[d].stage.Woken?
    decreases |run|
  {
    var t := s.calls[c].kind;
    assert CallOk(graph, s, c);
    assert TagOk(s, t);
    if run == [] {
      assert CallOk(graph, s, d);
    } else {
      StepKeeps(graph, s, run[0]);
      FailureIsFinal(graph, Next(graph, s, run[0]), run[1..], c, d);
    }
  }

  /**
   * For one: the factory of a type without dependencies throws while a second call for the type
   * waits. No step is left, and the second call waits for ever.
   */
  lemma SecondCallWaits(graph: Graph)
    requires graph == [[]]
    ensures var run := [Request(0), Request(0), Begin(0), Begin(1), Invoke(0), FactoryThrows(0)];
      && IsRun(graph, Initial, run)
      && var s := After(graph, Initial, run);
         Quiet(s) && s.calls == [Call(0, Failed), Call(0, Waiting)]
  {
    var run1 := [Request(0), Begin(0), Begin(1), Invoke(0), FactoryThrows(0)];
    var s1 := Next(graph, Initial, Request(0));
    var s2 := Next(graph, s1, Request(0));
    assert s2 == State([Call(0, Entry), Call(0, Entry)], map[], map[], []);
    ThrowsWhileWaiting(graph, s2);
    OneStep(graph, s1, Request(0), [Begin(0), Begin(1), Invoke(0), FactoryThrows(0)]);
    OneStep(graph, Initial, Request(0), run1);
    NothingLeft(State([Call(0, Failed), Call(0, Waiting)], map[], map[0 := [0, 1]], [Build(0, [])]));
  }

  lemma NothingLeft(s: State)
    requires s.calls == [Call(0, Failed), Call(0, Waiting)]
    ensures Quiet(s)
  {
  }

  lemma ThrowsWhileWaiting(graph: Graph, s2: State)
    requires graph == [[]] && s2 == State([Call(0, Entry), Call(0, Entry)], map[], map[], [])
    ensures var run := [Begin(0), Begin(1), Invoke(0), FactoryThrows(0)];
      && IsRun(graph, s2, run)
      && After(graph, s2, run) == State([Call(0, Failed), Call(0, Waiting)], map[], map[0 := [0, 1]], [Build(0, [])])
  {
    var s3 := State([Call(0, Fetching([])), Call(0, Entry)], map[], map[0 := [0]], []);
    var s4 := State([Call(0, Fetching([])), Call(0, Waiting)], map[], map[0 := [0, 1]], []);
    BeginsFirst(graph, s2, s3);
    BeginsSecond(graph, s3, s4);
    ThrowsAlone(graph, s4);
    OneStep(graph, s3, Begin(1), [Invoke(0), FactoryThrows(0)]);
    OneStep(graph, s2, Begin(0), [Begin(1), Invoke(0), FactoryThrows(0)]);
  }

  lemma BeginsFirst(graph: Graph, s: State, u: State)
    requires graph == [[]] && s == State([Call(0, Entry), Call(0, Entry)], map[], map[], [])
    requires u == State([Call(0, Fetching([])), Call(0, Entry)], map[], map[0 := [0]], [])
    ensures Enabled(s, Begin(0)) && Next(graph, s, Begin(0)) == u
  {
    var v := Next(graph, s, Begin(0));
    assert v.calls[0].stage.kids == [];
    assert v.calls == u.calls;
  }

  lemma BeginsSecond(graph: Graph, s: State, u: State)
    requires s == State([Call(0, Fetching([])), Call(0, Entry)], map[], map[0 := [0]], [])
    requires u == State([Call(0, Fetching([])), Call(0, Waiting)], map[], map[0 := [0, 1]], [])
    ensures Enabled(s, Begin(1)) && Next(graph, s, Begin(1)) == u
  {
    var v := Next(graph, s, Begin(1));
    assert [0] + [1] == [0, 1];
    assert v.calls == u.calls && v.construction == u.construction;
  }

  lemma ThrowsAlone(graph: Graph, s: State)
    requires s == State([Call(0, Fetching([])), Call(0, Waiting)], map[], map[0 := [0, 1]], [])
    ensures var run := [Invoke(0), FactoryThrows(0)];
      && IsRun(graph, s, run)
      && After(graph, s, run) == State([Call(0, Failed), Call(0, Waiting)], map[], map[0 := [0, 1]], [Build(0, [])])
  {
    var s5 := State([Call(0, Making(0)), Call(0, Waiting)], map[], map[0 := [0, 1]], [Build(0, [])]);
    assert Next(graph, s, Invoke(0)) == s5;
    OneStep(graph, s5, FactoryThrows(0), []);
    OneStep(graph, s, Invoke(0), [FactoryThrows(0)]);
  }

  lemma OneStep(graph: Graph, s: State, a: Action, rest: seq<Action>)
    requires Enabled(s, a) && IsRun(graph, Next(graph, s, a), rest)
    ensures IsRun(graph, s, [a] + rest) && After(graph, s, [a] + rest) == After(graph, Next(graph, s, a), rest)
  {
    assert ([a] + rest)[1..] == rest;
  }

  // ---- How many steps a run can take ----------------------------------------------------------

  function Weight(stage: Stage): nat {
    match stage
    case Entry => 3
    case Fetching(_) => 2
    case Making(_) => 1
    case Waiting => 1
    case Woken => 1
    case _ => 0
  }

  function Weights(calls: seq<Call>): nat {
    if calls == [] then 0 else Weights(calls[..|calls| - 1]) + Weight(calls[|calls| - 1].stage)
  }

  predicate Touched(s: State, t: nat) { t in s.stored || t in s.construction }

  /** What the calls for the dependencies of the first `n` types will cost, if not yet made. */
  function Unspent(graph: Graph, s: State, n: nat): nat
    requires n <= |graph|
  {
    if n == 0 then 0
    else Unspent(graph, s, n - 1) + if Touched(s, n - 1) then 0 else 3 * |graph[n - 1]|
  }

  function Edges(graph: Graph, n: nat): nat
    requires n <= |graph|
  {
    if n == 0 then 0 else Edges(graph, n - 1) + |graph[n - 1]|
  }

  function Potential(graph: Graph, s: State): nat { Weights(s.calls) + Unspent(graph, s, |graph|) }

  lemma {:induction false} WeightsAppend(a: seq<Call>, b: seq<Call>)
    ensures Weights(a + b) == Weights(a) + Weights(b)
    decreases |b|
  {
    if b == [] { assert a + b == a; }
    else {
      assert (a + b)[..|a + b| - 1] == a + b[..|b| - 1];
      WeightsAppend(a, b[..|b| - 1]);
    }
  }

  lemma {:induction false} WeightsEntry(calls: seq<Call>)
    requires forall i | 0 <= i < |calls| :: calls[i].stage.Entry?
    ensures Weights(calls) == 3 * |calls|
  {
    if calls != [] { WeightsEntry(calls[..|calls| - 1]); }
  }

  /** Pointwise equal weights but at `c`. */
  lemma {:induction false} WeightsOneMoved(a: seq<Call>, b: seq<Call>, c: nat)
    requires |a| == |b| && c < |a|
    requires forall i | 0 <= i < |a| && i != c :: Weight(a[i].stage) == Weight(b[i].stage)
    ensures Weights(b) + Weight(a[c].stage) == Weights(a) + Weight(b[c].stage)
    decreases |a|
  {
    var n := |a| - 1;
    if c < n { WeightsOneMoved(a[..n], b[..n], c); }
    else { WeightsSame(a[..n], b[..n]); }
  }

  lemma {:induction false} WeightsSame(a: seq<Call>, b: seq<Call>)
    requires |a| == |b| && forall i | 0 <= i < |a| :: Weight(a[i].stage) == Weight(b[i].stage)
    ensures Weights(a) == Weights(b)
  {
    if a != [] { WeightsSame(a[..|a| - 1], b[..|b| - 1]); }
  }

  lemma {:induction false} UnspentSame(graph: Graph, s: State, u: State, n: nat)
    requires n <= |graph| && forall t: nat | t < n :: Touched(s, t) <==> Touched(u, t)
    ensures Unspent(graph, u, n) == Unspent(graph, s, n)
  {
    if n > 0 { UnspentSame(graph, s, u, n - 1); }
  }

  lemma {:induction false} UnspentTouch(graph: Graph, s: State, u: State, t: nat, n: nat)
    requires t < n <= |graph| && !Touched(s, t) && Touched(u, t)
    requires forall r: nat | r != t :: Touched(s, r) <==> Touched(u, r)
    ensures Unspent(graph, u, n) + 3 * |graph[t]| == Unspent(graph, s, n)
  {
    if t < n - 1 { UnspentTouch(graph, s, u, t, n - 1); }
    else { UnspentSame(graph, s, u, n - 1); }
  }

  /** The first call for a type makes the calls for its dependencies, which were accounted for. */
  lemma TaggingSpends(graph: Graph, s: State, c: nat)
    requires Enabled(s, Begin(c)) && !Touched(s, s.calls[c].kind) && s.calls[c].kind < |graph|
    ensures Potential(graph, Begun(graph, s, c)) < Potential(graph, s)
  {
    var t, u, n := s.calls[c].kind, Begun(graph, s, c), |s.calls|;
    var kids := u.calls[n..];
    assert u.calls == u.calls[..n] + kids && |kids| == |graph[t]|;
    WeightsOneMoved(s.calls, u.calls[..n], c);
    WeightsAppend(u.calls[..n], kids);
    WeightsEntry(kids);
    UnspentTouch(graph, s, u, t, |graph|);
  }

  lemma BeginSpends(graph: Graph, s: State, c: nat)
    requires Enabled(s, Begin(c))
    ensures Potential(graph, Begun(graph, s, c)) < Potential(graph, s)
  {
    var t, u := s.calls[c].kind, Begun(graph, s, c);
    if !Touched(s, t) && t < |graph| {
      TaggingSpends(graph, s, c);
    } else {
      WeightsOneMoved(s.calls, u.calls, c);
      UnspentSame(graph, s, u, |graph|);
    }
  }

  lemma StepSpends(graph: Graph, s: State, a: Action)
    requires Sound(graph, s) && Enabled(s, a)
    ensures Potential(graph, Next(graph, s, a)) + (if a.Request? then -3 else 1) <= Potential(graph, s)
  {
    var u := Next(graph, s, a);
    if a.Begin? {
      BeginSpends(graph, s, a.c);
    } else if a.Request? {
      WeightsAppend(s.calls, [Call(a.kind, Entry)]);
      WeightsEntry([Call(a.kind, Entry)]);
      UnspentSame(graph, s, u, |graph|);
    } else if a.Store? {
      assert CallOk(graph, s, a.c);
      StoreSpends(graph, s, a.c);
    } else {
      WeightsOneMoved(s.calls, u.calls, a.c);
      UnspentSame(graph, s, u, |graph|);
    }
  }

  lemma StoreSpends(graph: Graph, s: State, c: nat)
    requires Enabled(s, Store(c)) && s.calls[c].kind in s.construction
    ensures Potential(graph, Stored(s, c)) < Potential(graph, s)
  {
    WeightsOneMoved(s.calls, Stored(s, c).calls, c);
    UnspentSame(graph, s, Stored(s, c), |graph|);
  }

  function Requests(run: seq<Action>): nat {
    if run == [] then 0 else (if run[0].Request? then 1 else 0) + Requests(run[1..])
  }

  lemma {:induction false} RunSpends(graph: Graph, s: State, run: seq<Action>)
    requires Sound(graph, s) && IsRun(graph, s, run)
    ensures |run| + Potential(graph, After(graph, s, run)) <= 4 * Requests(run) + Potential(graph, s)
    decreases |run|
  {
    if run != [] {
      StepKeeps(graph, s, run[0]);
      StepSpends(graph, s, run[0]);
      RunSpends(graph, Next(graph, s, run[0]), run[1..]);
    }
  }

  lemma {:induction false} UnspentInitially(graph: Graph, n: nat)
    requires n <= |graph|
    ensures Unspent(graph, Initial, n) == 3 * Edges(graph, n)
  {
    if n > 0 { UnspentInitially(graph, n - 1); }
  }

  /** However the calls interleave, and even with cycles, finitely many requests make few steps. */
  lemma RunsAreShort(graph: Graph, run: seq<Action>)
    requires IsRun(graph, Initial, run)
    ensures |run| <= 4 * Requests(run) + 3 * Edges(graph, |graph|)
  {
    RunSpends(graph, Initial, run);
    UnspentInitially(graph, |graph|);
  }
}
