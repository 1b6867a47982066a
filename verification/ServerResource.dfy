/** The context of one request, updated in place; each method is a step of the protocol. */
module ServerResources {
  import opened ResourceProtocol

  class ServerResourceContext {
    const graph: Graph
    var dependencies: map<nat, nat>
    var construction: map<nat, seq<nat>>
    var calls: seq<Call>
    var builds: seq<Build>

    ghost function Contents(): State
      reads this
    {
      State(calls, dependencies, construction, builds)
    }

    ghost predicate Valid()
      reads this
    {
      Reached(graph, Contents())
    }

    constructor (graph: Graph)
      ensures Valid() && Contents() == Initial && this.graph == graph
    {
      this.graph := graph;
      dependencies, construction, calls, builds := map[], map[], [], [];
      new;
      assert IsRun(graph, Initial, []) && After(graph, Initial, []) == Contents();
    }

    method Request(kind: nat) returns (c: nat)
      requires Valid()
      modifies this
      ensures Valid() && Contents() == Next(graph, old(Contents()), Action.Request(kind))
      ensures c == |old(calls)| && calls == old(calls) + [Call(kind, Entry)]
    {
      ReachedStep(graph, Contents(), Action.Request(kind));
      c := |calls|;
      calls := calls + [Call(kind, Entry)];
    }

    /** Up to the first suspension; the calls for the dependencies are made on the way. */
    method Begin(c: nat)
      requires Valid() && Enabled(Contents(), Action.Begin(c))
      modifies this
      ensures Valid() && Contents() == Next(graph, old(Contents()), Action.Begin(c))
    {
      ReachedStep(graph, Contents(), Action.Begin(c));
      var t: nat := calls[c].kind;
      if t in dependencies {
        calls := calls[c := Call(t, Done(dependencies[t]))];
      } else if t in construction {
        construction := construction[t := construction[t] + [c]];
        calls := calls[c := Call(t, Waiting)];
      } else {
        construction := construction[t := [c]];
        if t >= |graph| {
          calls := calls[c := Call(t, Failed)];
        } else {
          var kids := Spawn(graph[t]);
          calls := calls[c := Call(t, Fetching(kids))];
          ghost var was := old(Contents());
          assert Contents() == Begun(graph, was, c) by {
            assert kids == Begun(graph, was, c).calls[c].stage.kids;
            assert calls == Begun(graph, was, c).calls;
          }
        }
      }
    }

    /** One call for each dependency, each running to its own first suspension later. */
    method Spawn(kinds: seq<nat>) returns (kids: seq<nat>)
      modifies this`calls
      ensures |kids| == |kinds| && |calls| == |old(calls)| + |kinds|
      ensures forall j | 0 <= j < |old(calls)| :: calls[j] == old(calls)[j]
      ensures forall j | 0 <= j < |kinds| ::
        kids[j] == |old(calls)| + j && calls[|old(calls)| + j] == Call(kinds[j], Entry)
    {
      kids := [];
      while |kids| < |kinds|
        invariant |kids| <= |kinds| && |calls| == |old(calls)| + |kids|
        invariant forall j | 0 <= j < |old(calls)| :: calls[j] == old(calls)[j]
        invariant forall j | 0 <= j < |kids| ::
          kids[j] == |old(calls)| + j && calls[|old(calls)| + j] == Call(kinds[j], Entry)
      {
        calls := calls + [Call(kinds[|kids|], Entry)];
        kids := kids + [|calls| - 1];
      }
    }

    method Invoke(c: nat)
      requires Valid() && Enabled(Contents(), Action.Invoke(c))
      modifies this
      ensures Valid() && Contents() == Next(graph, old(Contents()), Action.Invoke(c))
    {
      ReachedStep(graph, Contents(), Action.Invoke(c));
      var given := Collect(calls[c].stage.kids);
      builds := builds + [Build(calls[c].kind, given)];
      calls := calls[c := Call(calls[c].kind, Making(|builds| - 1))];
    }

    /** What co::all hands over: the results in the order of the dependencies. */
    method Collect(kids: seq<nat>) returns (given: seq<nat>)
      requires forall i: nat | i < |kids| :: KidDone(Contents(), kids, i)
      ensures given == Given(Contents(), kids)
    {
      given := [];
      while |given| < |kids|
        invariant |given| <= |kids|
        invariant given == Given(Contents(), kids)[..|given|]
      {
        assert KidDone(Contents(), kids, |given|);
        given := given + [calls[kids[|given|]].stage.made];
      }
    }

    /** Set the promises of these calls: each wakes the call suspended on it. */
    method SetAll(owners: seq<nat>)
      requires forall i | 0 <= i < |owners| :: owners[i] < |calls|
      modifies this`calls
      ensures calls == Wake(old(calls), owners)
    {
      var i := 0;
      while i < |owners|
        invariant 0 <= i <= |owners| && |calls| == |old(calls)|
        invariant calls == Wake(old(calls), owners[..i])
      {
        var w := owners[i];
        if calls[w].stage.Waiting? { calls := calls[w := Call(calls[w].kind, Woken)]; }
        i := i + 1;
        assert owners[..i] == owners[..i - 1] + [w];
        assert calls == Wake(old(calls), owners[..i]);
      }
      assert owners[..i] == owners;
    }

    /** Store the new resource, set every promise of the type, and drop the tag. */
    method Store(c: nat)
      requires Valid() && Enabled(Contents(), Action.Store(c))
      modifies this
      ensures Valid() && Contents() == Next(graph, old(Contents()), Action.Store(c))
    {
      ReachedStep(graph, Contents(), Action.Store(c));
      var t, made := calls[c].kind, calls[c].stage.made;
      StorerIsTagged(graph, Contents(), c);
      dependencies := dependencies[t := made];
      calls := calls[c := Call(t, Done(made))];
      SetAll(construction[t]);
      construction := construction - {t};
    }

    /** A woken call returns the stored resource. */
    method Resume(c: nat) returns (made: nat)
      requires Valid() && c < |calls| && calls[c].stage.Woken?
      modifies this
      ensures Enabled(old(Contents()), Action.Resume(c))
      ensures Valid() && Contents() == Next(graph, old(Contents()), Action.Resume(c))
      ensures old(calls[c]).kind in dependencies && made == dependencies[old(calls[c]).kind]
    {
      WokenIsStored(graph, Contents(), c);
      ReachedStep(graph, Contents(), Action.Resume(c));
      made := dependencies[calls[c].kind];
      calls := calls[c := Call(calls[c].kind, Done(made))];
    }

    /** The call is left by an exception: a dependency's, or its factory's. */
    method Throw(c: nat, a: Action)
      requires Valid() && Enabled(Contents(), a) && (a == Rethrow(c) || a == FactoryThrows(c))
      modifies this
      ensures Valid() && Contents() == Next(graph, old(Contents()), a)
    {
      ReachedStep(graph, Contents(), a);
      calls := calls[c := Call(calls[c].kind, Failed)];
    }
  }
}
