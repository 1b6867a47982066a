module Promises {
  // Promises and futures of one thread. A promise and its future share a state; a coroutine that
  // returns another coroutine's future links the state of that future to its own, and setting a
  // promise or resuming a future works on the last state of the chain.

  import opened Wrappers

  type Coroutine = nat

  datatype Outcome<T> = Value(value: T) | Exception(code: int)

  class SharedState<T> {
    var isSet: bool
    var outcome: Option<Outcome<T>>
    var suspended: bool
    var handle: Coroutine
    var chain: SharedState?<T>
    /** The chain from this state on. */
    ghost var path: Path<T>

    constructor ()
      ensures !isSet && outcome == None && !suspended && chain == null && path == Last(this)
    {
      isSet, outcome, suspended, handle, chain := false, None, false, 0, null;
      path := Last(this);
    }

    /** The state at the end of the chain. */
    ghost function Root(): SharedState<T>
      reads this
    {
      End(path)
    }
  }

  /** The states of a chain, in order. */
  datatype Path<T> = Last(state: SharedState<T>) | Then(state: SharedState<T>, rest: Path<T>)

  ghost function End<T>(path: Path<T>): SharedState<T> { if path.Last? then path.state else End(path.rest) }

  /** The path after its last state, if that is `v`, has been linked to `rest`. */
  ghost function Extended<T>(path: Path<T>, v: SharedState<T>, rest: Path<T>): Path<T> {
    match path
    case Last(s) => if s == v then Then(s, rest) else path
    case Then(s, tail) => Then(s, Extended(tail, v, rest))
  }

  lemma {:induction false} ExtendedEnd<T>(path: Path<T>, v: SharedState<T>, rest: Path<T>)
    ensures End(Extended(path, v, rest)) == if End(path) == v then End(rest) else End(path)
    ensures End(path) != v ==> Extended(path, v, rest) == path
  {
    if path.Then? { ExtendedEnd(path.rest, v, rest); }
  }

  /** All the states of one thread, and the coroutines its scheduler was handed. */
  class Thread<T> {
    ghost var states: set<SharedState<T>>
    /** The states written, and the coroutines scheduled with the state that woke them. */
    ghost var written: seq<SharedState<T>>
    ghost var woke: seq<SharedState<T>>
    var scheduled: seq<Coroutine>

    constructor ()
      ensures Valid() && states == {} && scheduled == []
    {
      states, written, woke, scheduled := {}, [], [], [];
    }

    ghost predicate Linked(s: SharedState<T>)
      reads this`states, states`path, s`path, s`chain, s`isSet
    {
      if s.chain == null then s.path == Last(s)
      else s.chain in states && s.path == Then(s, s.chain.path) && !s.isSet
    }

    /** A state is written once if it is set, and wakes its awaiter once if one is suspended. */
    ghost predicate Counted(s: SharedState<T>)
      reads this`written, this`woke, s`isSet, s`outcome, s`suspended
    {
      && (s.isSet <==> s.outcome.Some?)
      && multiset(written)[s] == (if s.isSet then 1 else 0)
      && multiset(woke)[s] == (if s.isSet && s.suspended then 1 else 0)
    }

    ghost predicate Links()
      reads this`states, states`path, states`chain, states`isSet
    {
      forall s | s in states :: Linked(s)
    }

    ghost predicate Counts()
      reads this`states, this`written, this`woke, this`scheduled
      reads states`isSet, states`outcome, states`suspended, states`handle
    {
      && (forall s | s in states :: Counted(s))
      && (forall i | 0 <= i < |written| :: written[i] in states)
      && |woke| == |scheduled|
      && (forall i | 0 <= i < |woke| :: woke[i] in states && woke[i].handle == scheduled[i])
    }

    ghost predicate Valid()
      reads this, states
    {
      Links() && Counts()
    }

    /** The end of a chain is a state of the thread that is not chained on. */
    lemma RootIsLast(s: SharedState<T>)
      requires Valid() && s in states
      ensures s.Root() in states && s.Root().chain == null && s.Root().path == Last(s.Root())
      decreases s.path
    {
      assert Linked(s);
      if s.chain != null {
        assert Linked(s.chain);
        RootIsLast(s.chain);
      }
    }

    method NewPromise() returns (s: SharedState<T>)
      requires Valid()
      modifies this
      ensures Valid() && fresh(s) && states == old(states) + {s} && s.path == Last(s) && !s.isSet
      ensures scheduled == old(scheduled)
    {
      s := new SharedState<T>();
      states := states + {s};
    }

    /** Follow the chain to its end. */
    method GetState(s: SharedState<T>) returns (root: SharedState<T>)
      requires Valid() && s in states
      ensures root == s.Root()
    {
      root := s;
      assert Linked(root);
      while root.chain != null
        invariant root in states && Linked(root) && root.Root() == s.Root()
        decreases root.path
      {
        root := root.chain;
        assert Linked(root);
      }
    }

    /** Write a state that is not set, and schedule its awaiter if one is suspended. */
    method Write(root: SharedState<T>, outcome: Outcome<T>)
      requires Counts() && root in states && !root.isSet
      modifies this`written, this`woke, this`scheduled, root`isSet, root`outcome
      ensures Counts() && root.isSet && root.outcome == Some(outcome)
      ensures scheduled == old(scheduled) + if root.suspended then [root.handle] else []
    {
      assert Counted(root);
      root.isSet := true;
      root.outcome := Some(outcome);
      written := written + [root];
      if root.suspended {
        scheduled := scheduled + [root.handle];
        woke := woke + [root];
      }
      forall s | s in states ensures Counted(s) { assert old(Counted(s)); }
    }

    /** set_value and set_exception: the second set through a chain throws. */
    method Set(s: SharedState<T>, outcome: Outcome<T>) returns (ok: bool)
      requires Valid() && s in states
      modifies this`written, this`woke, this`scheduled, states`isSet, states`outcome
      ensures Valid()
      ensures ok == !old(s.Root().isSet)
      ensures forall t | t in states && (!ok || t != s.Root()) :: t.isSet == old(t.isSet) && t.outcome == old(t.outcome)
      ensures s.Root().isSet && (ok ==> s.Root().outcome == Some(outcome))
      ensures scheduled == old(scheduled) + if ok && s.Root().suspended then [s.Root().handle] else []
    {
      RootIsLast(s);
      var root := GetState(s);
      if root.isSet { return false; }
      Write(root, outcome);
      assert Links() by { forall t | t in states ensures Linked(t) { assert old(Linked(t)); } }
      return true;
    }

    /**
     * A coroutine with promise state `p` returns the future of `v`: the outcome is copied when it
     * is there, otherwise `v`, and every chain that ends in it, goes on to `p`.
     */
    method ReturnFuture(p: SharedState<T>, v: SharedState<T>) returns (ok: bool)
      requires Valid() && p in states && v in states && v.chain == null && p.Root() != v
      modifies this`written, this`woke, this`scheduled, states`isSet, states`outcome, states`path, v`chain
      ensures Valid() && p.path == old(p.path)
      ensures ok == (old(v.isSet) ==> !old(p.Root().isSet))
      ensures old(v.isSet) ==>
        && (ok ==> p.Root().isSet && p.Root().outcome == old(v.outcome))
        && (forall t | t in states :: t.path == old(t.path))
        && (forall t | t in states && (!ok || t != p.Root()) :: t.isSet == old(t.isSet) && t.outcome == old(t.outcome))
        && scheduled == old(scheduled) + if ok && p.Root().suspended then [p.Root().handle] else []
      ensures !old(v.isSet) ==>
        && scheduled == old(scheduled) && v.Root() == p.Root()
        && (forall t | t in states :: t.isSet == old(t.isSet) && t.outcome == old(t.outcome))
        && (forall t | t in states :: t.path == Extended(old(t.path), v, p.path))
    {
      assert Linked(v) && Counted(v);
      if v.isSet {
        ok := Set(p, v.outcome.value);
      } else {
        Relink(p, v);
        ok := true;
      }
    }

    method Relink(p: SharedState<T>, v: SharedState<T>)
      requires Valid() && p in states && v in states && v.chain == null && !v.isSet && p.Root() != v
      modifies states`path, v`chain
      ensures Valid() && v.Root() == p.Root() && p.path == old(p.path)
      ensures forall t | t in states :: t.path == Extended(old(t.path), v, p.path)
    {
      ghost var rest := p.path;
      ExtendedEnd(rest, v, rest);
      assert Linked(v);
      v.chain := p;
      forall t | t in states { t.path := Extended(t.path, v, rest); }
      forall t | t in states ensures Linked(t) { assert old(Linked(t)); }
    }

    /** Awaiting a future: ready, or the coroutine is suspended until the state is set. */
    method Await(s: SharedState<T>, handle: Coroutine) returns (ready: bool)
      requires Valid() && s in states
      modifies s`handle, s`suspended
      ensures Valid() && ready == s.isSet
      ensures if ready then s.suspended == old(s.suspended) && s.handle == old(s.handle)
              else s.suspended && s.handle == handle
    {
      assert Counted(s);
      ready := s.isSet;
      if !ready {
        s.handle := handle;
        s.suspended := !s.isSet;
      }
      assert Counts() by {
        forall t | t in states ensures Counted(t) { assert old(Counted(t)); }
        assert s.isSet || s !in multiset(woke);
        assert forall i | 0 <= i < |woke| :: woke[i] in multiset(woke);
      }
    }

    /** What the resumed coroutine gets: the outcome of the last state, if it is set. */
    method AwaitResume(s: SharedState<T>) returns (r: Option<Outcome<T>>)
      requires Valid() && s in states
      ensures r == s.Root().outcome && (r.Some? <==> s.Root().isSet)
    {
      RootIsLast(s);
      var root := GetState(s);
      assert Counted(root);
      r := if root.isSet then root.outcome else None;
    }
  }
}
