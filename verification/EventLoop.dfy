module EventLoop {
  // One thread's event loop: the coroutine queue, the callbacks registered with epoll, and the
  // eventfd whose one-shot callback drains the queue.
  //
  // A coroutine is a number. What the resumed coroutines do is the environment's choice: the n-th
  // resumption performs the effects `script(n)`. So is which handles epoll reports; it may report
  // a handle only while its callback is registered, and the eventfd only while its counter is
  // positive.

  type Handle = nat
  type Coroutine = nat

  /** The eventfd, once it has been created. */
  const NOTIFY: Handle := 1

  datatype Callback = Drain | Resume(coroutine: Coroutine)
  datatype Registration = Registration(callback: Callback, oneShot: bool)

  datatype Effect =
    | Schedule(coroutine: Coroutine)
    | Watch(coroutine: Coroutine, handle: Handle, oneShot: bool)
    | Stop
    | Escape   // an exception leaves the resumed coroutine: nothing after it happens

  type Script = nat -> seq<Effect>

  /** How the last run ended: by itself, by an exception of a coroutine, or by one of its own. */
  datatype Ending = Fine | Escaped | InternalError

  /**
   * `pushed` and `drained` record every coroutine that entered and left the queue; `watched` and
   * `fired` every one-shot wait for a handle that was registered, and every one that ended.
   */
  datatype Loop = Loop(
    capacity: nat,
    queue: seq<Coroutine>,
    callbacks: map<Handle, Registration>,
    counter: nat,
    polling: bool,
    ending: Ending,
    resumes: nat,
    pushed: seq<Coroutine>,
    drained: seq<Coroutine>,
    watched: seq<Wait>,
    fired: seq<Wait>)

  datatype Wait = Wait(handle: Handle, coroutine: Coroutine)

  function Start(capacity: nat): Loop {
    Loop(capacity, [], map[], 0, true, Fine, 0, [], [], [], [])
  }

  // ---- What a running coroutine can do --------------------------------------------------------

  /** Register the drain unless it is registered already, and ping the eventfd. */
  function ScheduleDrain(s: Loop): Loop {
    s.(callbacks := if NOTIFY in s.callbacks then s.callbacks
                    else s.callbacks[NOTIFY := Registration(Drain, true)],
       counter := s.counter + 1)
  }

  /** A full queue refuses the coroutine with an exception and changes nothing. */
  function AddToQueue(s: Loop, c: Coroutine): Loop {
    if |s.queue| == s.capacity then s
    else ScheduleDrain(s.(queue := s.queue + [c], pushed := s.pushed + [c]))
  }

  /** A handle that has a callback refuses a second one. The eventfd is nobody else's to watch. */
  function Watched(s: Loop, c: Coroutine, h: Handle, oneShot: bool): Loop {
    if h == NOTIFY || h in s.callbacks then s
    else s.(callbacks := s.callbacks[h := Registration(Resume(c), oneShot)],
            watched := if oneShot then s.watched + [Wait(h, c)] else s.watched)
  }

  function Apply(s: Loop, e: Effect): Loop {
    match e
    case Schedule(c) => AddToQueue(s, c)
    case Watch(c, h, oneShot) => Watched(s, c, h, oneShot)
    case Stop => ScheduleDrain(s.(polling := false))
    case Escape => s
  }

  function ApplyAll(s: Loop, effects: seq<Effect>): Loop
    decreases |effects|
  {
    if effects == [] then s
    else if effects[0].Escape? then s.(ending := Escaped)
    else ApplyAll(Apply(s, effects[0]), effects[1..])
  }

  function Resumed(s: Loop, script: Script): Loop {
    ApplyAll(s.(resumes := s.resumes + 1), script(s.resumes))
  }

  // ---- What the loop does ---------------------------------------------------------------------

  function Pop(s: Loop): Loop
    requires s.queue != []
  {
    s.(queue := s.queue[1..], drained := s.drained + [s.queue[0]])
  }

  /** Resume at most `limit` coroutines from the front of the queue, until one throws. */
  function Drained(s: Loop, script: Script, limit: nat): Loop
    decreases limit
  {
    if limit == 0 || s.queue == [] || s.ending != Fine then s
    else Drained(Resumed(Pop(s), script), script, limit - 1)
  }

  /** A one-shot callback is removed before it is called. */
  function Unregistered(s: Loop, h: Handle): Loop
    requires h in s.callbacks
  {
    var r := s.callbacks[h];
    if !r.oneShot then s
    else if r.callback.Drain? then s.(callbacks := s.callbacks - {h})
    else s.(callbacks := s.callbacks - {h}, fired := s.fired + [Wait(h, r.callback.coroutine)])
  }

  /** The handle has a callback, and if it is the drain, reading the eventfd will succeed. */
  predicate CanFire(s: Loop, h: Handle) {
    h in s.callbacks && (s.callbacks[h].callback.Drain? ==> s.counter > 0)
  }

  /** A reported handle without a callback, like an eventfd read in vain, is an internal error. */
  function Fired(s: Loop, script: Script, h: Handle): Loop {
    if h !in s.callbacks then s.(ending := InternalError)
    else
      match s.callbacks[h].callback
      case Drain =>
        if s.counter == 0 then Unregistered(s, h).(ending := InternalError)
        else Drained(Unregistered(s, h).(counter := 0), script, |s.queue|)
      case Resume(_) => Resumed(Unregistered(s, h), script)
  }

  /** What one call of epoll_wait may report. */
  predicate Ready(s: Loop, handles: seq<Handle>) {
    && (forall i | 0 <= i < |handles| :: CanFire(s, handles[i]))
    && (forall i, j | 0 <= i < j < |handles| :: handles[i] != handles[j])
  }

  function Dispatched(s: Loop, script: Script, handles: seq<Handle>): Loop
    decreases |handles|
  {
    if handles == [] || s.ending != Fine then s
    else Dispatched(Fired(s, script, handles[0]), script, handles[1..])
  }

  // ---- What always holds ----------------------------------------------------------------------

  function On(waits: seq<Wait>, h: Handle): seq<Coroutine> {
    if waits == [] then []
    else
      var last := waits[|waits| - 1];
      On(waits[..|waits| - 1], h) + if last.handle == h then [last.coroutine] else []
  }

  function Pending(s: Loop, h: Handle): seq<Coroutine> {
    if h in s.callbacks && s.callbacks[h].oneShot && s.callbacks[h].callback.Resume?
    then [s.callbacks[h].callback.coroutine] else []
  }

  /**
   * `k` coroutines of the queue still belong to the drain under way; outside a drain it is 0.
   * Any others in the queue have a wake-up coming.
   */
  ghost predicate Sound(s: Loop, k: nat) {
    && s.ending != InternalError && |s.queue| <= s.capacity
    && (NOTIFY in s.callbacks <==> s.counter > 0)
    && (forall h | h in s.callbacks :: s.callbacks[h].callback.Drain? <==> h == NOTIFY)
    && (NOTIFY in s.callbacks ==> s.callbacks[NOTIFY].oneShot)
    && (|s.queue| > k ==> s.counter > 0)
    && s.drained + s.queue == s.pushed
  }

  /** Each one-shot wait that was registered has ended once, in order, or is the one pending. */
  ghost predicate Settled(s: Loop) {
    forall h: Handle :: SettledAt(s, h)
  }

  ghost predicate SettledAt(s: Loop, h: Handle) {
    On(s.fired, h) + Pending(s, h) == On(s.watched, h)
  }

  lemma OnMore(waits: seq<Wait>, w: Wait, h: Handle)
    ensures On(waits + [w], h) == On(waits, h) + if w.handle == h then [w.coroutine] else []
  {
    assert (waits + [w])[..|waits|] == waits;
  }

  lemma ApplyKeeps(s: Loop, e: Effect, k: nat)
    requires Sound(s, k)
    ensures Sound(Apply(s, e), k) && Apply(s, e).ending == s.ending
  {
  }

  lemma SettledSame(s: Loop, u: Loop)
    requires Settled(s) && u.fired == s.fired && u.watched == s.watched && u.callbacks == s.callbacks
    ensures Settled(u)
  {
    forall h: Handle ensures SettledAt(u, h) { assert SettledAt(s, h); }
  }

  lemma ApplySettlesAt(s: Loop, e: Effect, h: Handle)
    requires SettledAt(s, h)
    ensures SettledAt(Apply(s, e), h)
  {
    match e
    case Watch(c, g, oneShot) => WatchedSettlesAt(s, c, g, oneShot, h);
    case Schedule(c) => DrainSettlesAt(s.(queue := s.queue + [c], pushed := s.pushed + [c]), h);
    case Stop => DrainSettlesAt(s.(polling := false), h);
    case Escape =>
  }

  /** What a wait that is accepted adds for a handle. */
  function Added(s: Loop, c: Coroutine, g: Handle, oneShot: bool, h: Handle): seq<Coroutine> {
    if g != NOTIFY && g !in s.callbacks && oneShot && h == g then [c] else []
  }

  lemma WatchedMore(s: Loop, c: Coroutine, g: Handle, oneShot: bool, h: Handle)
    ensures On(Watched(s, c, g, oneShot).watched, h) == On(s.watched, h) + Added(s, c, g, oneShot, h)
  {
    OnMore(s.watched, Wait(g, c), h);
  }

  lemma PendingMore(s: Loop, c: Coroutine, g: Handle, oneShot: bool, h: Handle)
    ensures Pending(Watched(s, c, g, oneShot), h) == Pending(s, h) + Added(s, c, g, oneShot, h)
  {
  }

  lemma Glue(a: seq<Coroutine>, b: seq<Coroutine>, c: seq<Coroutine>)
    ensures a + (b + c) == (a + b) + c
  {
  }

  lemma WatchedSettlesAt(s: Loop, c: Coroutine, g: Handle, oneShot: bool, h: Handle)
    requires SettledAt(s, h)
    ensures SettledAt(Watched(s, c, g, oneShot), h)
  {
    WatchedMore(s, c, g, oneShot, h);
    PendingMore(s, c, g, oneShot, h);
    Glue(On(s.fired, h), Pending(s, h), Added(s, c, g, oneShot, h));
  }

  lemma DrainSettlesAt(s: Loop, h: Handle)
    requires SettledAt(s, h)
    ensures SettledAt(ScheduleDrain(s), h)
  {
    assert Pending(ScheduleDrain(s), h) == Pending(s, h);
  }

  lemma ApplySettles(s: Loop, e: Effect)
    requires Settled(s)
    ensures Settled(Apply(s, e))
  {
    forall h: Handle ensures SettledAt(Apply(s, e), h) {
      assert SettledAt(s, h);
      ApplySettlesAt(s, e, h);
    }
  }

  /** What no effect takes away: the front of the queue, callbacks, and their readiness. */
  ghost predicate Grows(s: Loop, u: Loop) {
    && s.queue <= u.queue && s.pushed <= u.pushed && s.drained == u.drained
    && s.counter <= u.counter && s.capacity == u.capacity && s.resumes == u.resumes
    && forall h | h in s.callbacks :: h in u.callbacks && u.callbacks[h] == s.callbacks[h]
  }

  lemma ApplyGrows(s: Loop, e: Effect)
    ensures Grows(s, Apply(s, e))
  {
  }

  lemma {:induction false} ApplyAllKeeps(s: Loop, effects: seq<Effect>, k: nat)
    requires Sound(s, k)
    ensures Sound(ApplyAll(s, effects), k) && Grows(s, ApplyAll(s, effects))
    decreases |effects|
  {
    if effects != [] && !effects[0].Escape? {
      ApplyKeeps(s, effects[0], k);
      ApplyGrows(s, effects[0]);
      ApplyAllKeeps(Apply(s, effects[0]), effects[1..], k);
    }
  }

  lemma {:induction false} ApplyAllSettles(s: Loop, effects: seq<Effect>)
    requires Settled(s)
    ensures Settled(ApplyAll(s, effects))
    decreases |effects|
  {
    if effects != [] && effects[0].Escape? {
      SettledSame(s, ApplyAll(s, effects));
    } else if effects != [] {
      ApplySettles(s, effects[0]);
      ApplyAllSettles(Apply(s, effects[0]), effects[1..]);
    }
  }

  lemma PopKeeps(s: Loop, script: Script, k: nat)
    requires Sound(s, k) && 0 < k <= |s.queue|
    ensures var r := Resumed(Pop(s), script);
      && Sound(r, k - 1) && r.resumes == s.resumes + 1
      && s.queue[1..] <= r.queue && s.pushed <= r.pushed && r.drained == s.drained + [s.queue[0]]
      && s.counter <= r.counter && s.capacity == r.capacity
      && (forall h | h in s.callbacks :: h in r.callbacks && r.callbacks[h] == s.callbacks[h])
  {
    var p := Pop(s).(resumes := s.resumes + 1);
    assert p.drained + p.queue == s.drained + s.queue;
    ApplyAllKeeps(p, script(s.resumes), k - 1);
  }

  lemma FrontOf(q: seq<Coroutine>, r: seq<Coroutine>, k: nat)
    requires 0 < k <= |q| && q[1..] <= r
    ensures forall d: seq<Coroutine> :: d + [q[0]] + r[..k - 1] == d + q[..k]
  {
    var front, back := q[..k], [q[0]] + r[..k - 1];
    assert r[..|q| - 1] == q[1..];
    forall i | 0 <= i < k ensures front[i] == back[i] {
      if i > 0 { assert q[i] == q[1..][i - 1] == r[..|q| - 1][i - 1] == r[i - 1] == back[i]; }
    }
    assert front == back;
  }

  /** Popping one coroutine and resuming what stood behind it is resuming both in order. */
  lemma DrainJoins(s: Loop, r: Loop, u: Loop, k: nat)
    requires 0 < k <= |s.queue| && s.queue[1..] <= r.queue
    requires r.drained == s.drained + [s.queue[0]] && r.resumes == s.resumes + 1
    requires r.resumes <= u.resumes < r.resumes + k
    requires u.drained == r.drained + r.queue[..u.resumes - r.resumes]
    ensures u.drained == s.drained + s.queue[..u.resumes - s.resumes]
  {
    FrontOf(s.queue, r.queue, u.resumes - s.resumes);
  }

  /** A drain makes at most so many resumptions, and fewer only if one throws; the loop stays sound. */
  lemma {:induction false} DrainKeeps(s: Loop, script: Script, k: nat)
    requires Sound(s, k) && k <= |s.queue| && s.ending == Fine
    ensures var u := Drained(s, script, k);
      && s.resumes <= u.resumes <= s.resumes + k && (u.ending == Fine ==> u.resumes == s.resumes + k)
      && Sound(u, k - (u.resumes - s.resumes))
    decreases k
  {
    if k > 0 {
      PopKeeps(s, script, k);
      var r := Resumed(Pop(s), script);
      if r.ending == Fine { DrainKeeps(r, script, k - 1); }
      var u := Drained(r, script, k - 1);
      assert Sound(u, k - 1 - (u.resumes - r.resumes));
    }
  }

  lemma {:induction false} DrainDelivers(s: Loop, script: Script, k: nat)
    requires Sound(s, k) && k <= |s.queue| && s.ending == Fine
    ensures var u := Drained(s, script, k);
      s.resumes <= u.resumes <= s.resumes + k && u.drained == s.drained + s.queue[..u.resumes - s.resumes]
    decreases k
  {
    if k > 0 {
      PopKeeps(s, script, k);
      var r := Resumed(Pop(s), script);
      if r.ending == Fine { DrainDelivers(r, script, k - 1); }
      DrainJoins(s, r, Drained(r, script, k - 1), k);
    } else {
      assert s.queue[..k] == [];
    }
  }

  /**
   * A drain resumes the coroutines that were queued when it began, in order and no others, even
   * though they queue more, up to the first that throws; and it leaves a wake-up behind for
   * whatever they queued.
   */
  lemma DrainResumesExactly(s: Loop, script: Script, k: nat)
    requires Sound(s, k) && k <= |s.queue| && s.ending == Fine
    ensures var u := Drained(s, script, k);
      && s.resumes <= u.resumes <= s.resumes + k && (u.ending == Fine ==> u.resumes == s.resumes + k)
      && u.drained == s.drained + s.queue[..u.resumes - s.resumes]
      && Sound(u, k - (u.resumes - s.resumes))
  {
    DrainKeeps(s, script, k);
    DrainDelivers(s, script, k);
  }

  lemma {:induction false} DrainGrows(s: Loop, script: Script, k: nat)
    requires Sound(s, k) && k <= |s.queue|
    ensures var u := Drained(s, script, k);
      && s.pushed <= u.pushed && u.capacity == s.capacity && s.counter <= u.counter
      && (forall h | h in s.callbacks :: h in u.callbacks && u.callbacks[h] == s.callbacks[h])
    decreases k
  {
    if k > 0 && s.ending == Fine {
      PopKeeps(s, script, k);
      DrainGrows(Resumed(Pop(s), script), script, k - 1);
    }
  }

  lemma ResumedSettles(s: Loop, script: Script)
    requires Settled(s)
    ensures Settled(Resumed(s, script))
  {
    var p := s.(resumes := s.resumes + 1);
    assert Settled(p) by { forall h: Handle ensures SettledAt(p, h) { assert SettledAt(s, h); } }
    ApplyAllSettles(p, script(s.resumes));
  }

  lemma {:induction false} DrainSettles(s: Loop, script: Script, k: nat)
    requires Settled(s)
    ensures Settled(Drained(s, script, k))
    decreases k
  {
    if k > 0 && s.queue != [] && s.ending == Fine {
      assert Settled(Pop(s)) by { forall h: Handle ensures SettledAt(Pop(s), h) { assert SettledAt(s, h); } }
      ResumedSettles(Pop(s), script);
      DrainSettles(Resumed(Pop(s), script), script, k - 1);
    }
  }

  /** What may lack a wake-up after a step: what did before, or after an exception anything. */
  function Slack(s: Loop, k: nat): nat { if s.ending == Fine then k else s.capacity }

  lemma FireDrainKeeps(s: Loop, script: Script, k: nat)
    requires Sound(s, k) && CanFire(s, NOTIFY) && s.ending == Fine
    ensures var u := Fired(s, script, NOTIFY);
      && Sound(u, Slack(u, k)) && s.drained <= u.drained && s.pushed <= u.pushed && u.capacity == s.capacity
      && (u.ending == Fine ==> Sound(u, 0) && u.drained == s.drained + s.queue)
      && (forall g | g in s.callbacks && g != NOTIFY :: g in u.callbacks && u.callbacks[g] == s.callbacks[g])
  {
    DrainResumesExactly(Unregistered(s, NOTIFY).(counter := 0), script, |s.queue|);
    DrainGrows(Unregistered(s, NOTIFY).(counter := 0), script, |s.queue|);
    assert s.queue[..|s.queue|] == s.queue;
  }

  lemma FireResumeKeeps(s: Loop, script: Script, h: Handle, k: nat)
    requires Sound(s, k) && CanFire(s, h) && h != NOTIFY && s.ending == Fine
    ensures var u := Fired(s, script, h);
      && Sound(u, Slack(u, k)) && u.drained == s.drained && s.pushed <= u.pushed && s.counter <= u.counter
      && u.capacity == s.capacity
      && (forall g | g in s.callbacks && g != h :: g in u.callbacks && u.callbacks[g] == s.callbacks[g])
  {
    var p := Unregistered(s, h).(resumes := s.resumes + 1);
    ApplyAllKeeps(p, script(s.resumes), k);
  }

  lemma FireKeeps(s: Loop, script: Script, h: Handle, k: nat)
    requires Sound(s, k) && CanFire(s, h) && s.ending == Fine
    ensures Sound(Fired(s, script, h), Slack(Fired(s, script, h), k))
    ensures forall g | g != h && CanFire(s, g) && Fired(s, script, h).ending == Fine :: CanFire(Fired(s, script, h), g)
    ensures s.drained <= Fired(s, script, h).drained && s.pushed <= Fired(s, script, h).pushed
    ensures Fired(s, script, h).capacity == s.capacity
  {
    if h == NOTIFY { FireDrainKeeps(s, script, k); } else { FireResumeKeeps(s, script, h, k); }
  }

  lemma {:induction false} UnregisteredSettlesAt(s: Loop, h: Handle, g: Handle)
    requires h in s.callbacks && SettledAt(s, g)
    ensures SettledAt(Unregistered(s, h), g)
  {
    var r := s.callbacks[h];
    if r.oneShot && r.callback.Resume? { OnMore(s.fired, Wait(h, r.callback.coroutine), g); }
  }

  lemma UnregisteredSettles(s: Loop, h: Handle)
    requires Settled(s) && h in s.callbacks
    ensures Settled(Unregistered(s, h)) && Settled(Unregistered(s, h).(counter := 0))
  {
    var u := Unregistered(s, h);
    forall g: Handle ensures SettledAt(u, g) && SettledAt(u.(counter := 0), g) {
      assert SettledAt(s, g);
      UnregisteredSettlesAt(s, h, g);
    }
  }

  lemma FireSettles(s: Loop, script: Script, h: Handle)
    requires Settled(s) && CanFire(s, h)
    ensures Settled(Fired(s, script, h))
  {
    UnregisteredSettles(s, h);
    if s.callbacks[h].callback.Drain? {
      DrainSettles(Unregistered(s, h).(counter := 0), script, |s.queue|);
    } else {
      ResumedSettles(Unregistered(s, h), script);
    }
  }

  /**
   * Whatever epoll reports, every handle still has its callback when its turn comes, and the
   * eventfd is never read in vain.
   */
  lemma {:induction false} DispatchKeeps(s: Loop, script: Script, handles: seq<Handle>, k: nat)
    requires Sound(s, k) && Settled(s) && Ready(s, handles) && s.ending == Fine
    ensures var u := Dispatched(s, script, handles);
      && Sound(u, Slack(u, k)) && Settled(u)
      && s.pushed <= u.pushed && s.drained <= u.drained && u.capacity == s.capacity
    decreases |handles|
  {
    if handles != [] {
      var u := Fired(s, script, handles[0]);
      FireKeeps(s, script, handles[0], k);
      FireSettles(s, script, handles[0]);
      if u.ending == Fine {
        assert Ready(u, handles[1..]) by {
          assert forall i | 0 <= i < |handles[1..]| :: handles[1..][i] == handles[i + 1] && CanFire(s, handles[i + 1]);
        }
        DispatchKeeps(u, script, handles[1..], k);
      }
    }
  }

  // ---- Runs -----------------------------------------------------------------------------------

  /**
   * `rounds` is what epoll reports, wait after wait. With callbacks left and nothing more to
   * report the loop blocks.
   */
  predicate Legal(s: Loop, script: Script, rounds: seq<seq<Handle>>)
    decreases |rounds|
  {
    s.ending == Fine && s.polling && s.callbacks != map[] && rounds != [] ==>
      && Ready(s, rounds[0])
      && Legal(Dispatched(s, script, rounds[0]), script, rounds[1..])
  }

  function Looped(s: Loop, script: Script, rounds: seq<seq<Handle>>): Loop
    requires Legal(s, script, rounds)
    decreases |rounds|
  {
    if s.ending == Fine && s.polling && s.callbacks != map[] && rounds != []
    then Looped(Dispatched(s, script, rounds[0]), script, rounds[1..])
    else s
  }

  /** A run starts polling, whatever the last one did. */
  function Begun(s: Loop): Loop { s.(polling := true, ending := Fine) }

  function Ran(s: Loop, script: Script, rounds: seq<seq<Handle>>): Loop
    requires Legal(Begun(s), script, rounds)
  {
    Looped(Begun(s), script, rounds)
  }

  /** Code on the loop's thread outside `run`, and calls of `run`. */
  datatype Turn = Do(effect: Effect) | Run(rounds: seq<seq<Handle>>)

  predicate IsHistory(s: Loop, script: Script, turns: seq<Turn>)
    decreases |turns|
  {
    turns != [] ==>
      match turns[0]
      case Do(e) => IsHistory(Apply(s, e), script, turns[1..])
      case Run(rounds) =>
        Legal(Begun(s), script, rounds) && IsHistory(Ran(s, script, rounds), script, turns[1..])
  }

  function After(s: Loop, script: Script, turns: seq<Turn>): Loop
    requires IsHistory(s, script, turns)
    decreases |turns|
  {
    if turns == [] then s
    else
      match turns[0]
      case Do(e) => After(Apply(s, e), script, turns[1..])
      case Run(rounds) => After(Ran(s, script, rounds), script, turns[1..])
  }

  /** No run of the history is ended by an exception of a coroutine. */
  predicate Calm(s: Loop, script: Script, turns: seq<Turn>)
    requires IsHistory(s, script, turns)
    decreases |turns|
  {
    turns != [] ==>
      match turns[0]
      case Do(e) => Calm(Apply(s, e), script, turns[1..])
      case Run(rounds) => Ran(s, script, rounds).ending == Fine && Calm(Ran(s, script, rounds), script, turns[1..])
  }

  lemma {:induction false} LoopedKeeps(s: Loop, script: Script, rounds: seq<seq<Handle>>, k: nat)
    requires Sound(s, k) && Settled(s) && Legal(s, script, rounds)
    ensures var u := Looped(s, script, rounds);
      && Sound(u, Slack(u, k)) && Settled(u)
      && s.pushed <= u.pushed && s.drained <= u.drained && u.capacity == s.capacity
    decreases |rounds|
  {
    if s.ending == Fine && s.polling && s.callbacks != map[] && rounds != [] {
      var u := Dispatched(s, script, rounds[0]);
      DispatchKeeps(s, script, rounds[0], k);
      LoopedKeeps(u, script, rounds[1..], Slack(u, k));
    }
  }

  lemma BegunKeeps(s: Loop, k: nat)
    requires Sound(s, k) && Settled(s)
    ensures Sound(Begun(s), k) && Settled(Begun(s))
  {
    SettledSame(s, Begun(s));
  }

  lemma {:induction false} HistoryKeeps(s: Loop, script: Script, turns: seq<Turn>, k: nat)
    requires Sound(s, k) && Settled(s) && IsHistory(s, script, turns)
    requires k == s.capacity || Calm(s, script, turns)
    ensures Sound(After(s, script, turns), k) && Settled(After(s, script, turns))
    ensures After(s, script, turns).capacity == s.capacity
    decreases |turns|
  {
    if turns != [] {
      match turns[0]
      case Do(e) =>
        ApplyKeeps(s, e, k);
        ApplySettles(s, e);
        HistoryKeeps(Apply(s, e), script, turns[1..], k);
      case Run(rounds) =>
        BegunKeeps(s, k);
        LoopedKeeps(Begun(s), script, rounds, k);
        HistoryKeeps(Ran(s, script, rounds), script, turns[1..], k);
    }
  }

  lemma StartKeeps(capacity: nat)
    ensures Sound(Start(capacity), 0) && Settled(Start(capacity))
  {
    forall h: Handle ensures SettledAt(Start(capacity), h) {}
  }

  /**
   * In every history, also one with exceptions: the loop itself never fails; the queue is first
   * in, first out, each push leaving it once; the drain is registered exactly while the eventfd
   * is readable; and each one-shot wait ends once.
   */
  lemma QueueIsFaithful(capacity: nat, script: Script, turns: seq<Turn>)
    requires IsHistory(Start(capacity), script, turns)
    ensures var s := After(Start(capacity), script, turns);
      && s.ending != InternalError && |s.queue| <= capacity
      && s.drained + s.queue == s.pushed
      && (NOTIFY in s.callbacks <==> s.counter > 0)
      && (NOTIFY in s.callbacks ==> s.callbacks[NOTIFY] == Registration(Drain, true))
      && forall h: Handle :: On(s.fired, h) + Pending(s, h) == On(s.watched, h)
  {
    var s := After(Start(capacity), script, turns);
    StartKeeps(capacity);
    HistoryKeeps(Start(capacity), script, turns, capacity);
    forall h: Handle ensures On(s.fired, h) + Pending(s, h) == On(s.watched, h) { assert SettledAt(s, h); }
  }

  /** Coroutines are queued and nothing will wake the loop for them. */
  predicate Stranded(s: Loop) { s.queue != [] && !CanFire(s, NOTIFY) }

  /** No lost wake-up in any history in which no exception leaves a coroutine. */
  lemma NoLostWakeUp(capacity: nat, script: Script, turns: seq<Turn>)
    requires IsHistory(Start(capacity), script, turns) && Calm(Start(capacity), script, turns)
    ensures !Stranded(After(Start(capacity), script, turns))
  {
    StartKeeps(capacity);
    HistoryKeeps(Start(capacity), script, turns, 0);
  }

  /** Nothing but waiting for handles: such a coroutine asks for no drain. */
  predicate Silent(effects: seq<Effect>)
    decreases |effects|
  {
    effects != [] ==> effects[0].Watch? && Silent(effects[1..])
  }

  /** An exception, and before it nothing but waiting for handles. */
  predicate SilentUntilEscape(effects: seq<Effect>)
    decreases |effects|
  {
    effects != [] && (effects[0].Escape? || (effects[0].Watch? && SilentUntilEscape(effects[1..])))
  }

  /** Of resumptions `n` to `n + k - 1` one throws, and neither it nor one before asks for a drain. */
  predicate DiesSilently(script: Script, n: nat, k: nat)
    decreases k
  {
    k > 0 && (SilentUntilEscape(script(n)) || (Silent(script(n)) && DiesSilently(script, n + 1, k - 1)))
  }

  /** With room in the queue, the eventfd stays unread exactly when nothing but waiting is done. */
  lemma {:induction false} SilentIff(s: Loop, effects: seq<Effect>)
    requires s.counter == 0 && s.ending == Fine && |s.queue| < s.capacity
    ensures var u := ApplyAll(s, effects);
      && (u.counter == 0 && u.ending == Fine <==> Silent(effects))
      && (u.counter == 0 && u.ending == Escaped <==> SilentUntilEscape(effects))
      && (u.counter == 0 ==> u.queue == s.queue && u.capacity == s.capacity)
      && u.resumes == s.resumes && u.ending != InternalError
    decreases |effects|
  {
    if effects != [] && !effects[0].Escape? {
      var u := Apply(s, effects[0]);
      CounterStays(u, effects[1..]);
      if effects[0].Watch? { SilentIff(u, effects[1..]); }
    }
  }

  lemma {:induction false} CounterStays(s: Loop, effects: seq<Effect>)
    ensures s.counter <= ApplyAll(s, effects).counter && s.resumes == ApplyAll(s, effects).resumes
    ensures s.ending == Fine ==> ApplyAll(s, effects).ending != InternalError
    decreases |effects|
  {
    if effects != [] && !effects[0].Escape? { CounterStays(Apply(s, effects[0]), effects[1..]); }
  }

  lemma {:induction false} DrainCounterStays(s: Loop, script: Script, k: nat)
    ensures s.counter <= Drained(s, script, k).counter
    decreases k
  {
    if k > 0 && s.queue != [] && s.ending == Fine {
      CounterStays(Pop(s).(resumes := s.resumes + 1), script(s.resumes));
      DrainCounterStays(Resumed(Pop(s), script), script, k - 1);
    }
  }

  /** A drain of the whole queue ends with coroutines left and no wake-up: exactly when. */
  lemma {:induction false} DrainDiesIff(s: Loop, script: Script)
    requires s.counter == 0 && s.ending == Fine && |s.queue| <= s.capacity
    ensures var u := Drained(s, script, |s.queue|);
      u.queue != [] && u.counter == 0 <==> s.queue != [] && DiesSilently(script, s.resumes, |s.queue| - 1)
    decreases |s.queue|
  {
    if s.queue != [] {
      var p := Pop(s).(resumes := s.resumes + 1);
      var r := Resumed(Pop(s), script);
      SilentIff(p, script(s.resumes));
      assert Drained(s, script, |s.queue|) == Drained(r, script, |s.queue| - 1);
      if r.counter > 0 {
        DrainCounterStays(r, script, |s.queue| - 1);
        LoudDoesNotDie(script, s.resumes, |s.queue| - 1);
      } else if r.ending == Fine {
        SilentNeverEscapes(script(s.resumes));
        DrainDiesIff(r, script);
      }
    }
  }

  lemma {:induction false} SilentNeverEscapes(effects: seq<Effect>)
    ensures !(Silent(effects) && SilentUntilEscape(effects))
    decreases |effects|
  {
    if effects != [] { SilentNeverEscapes(effects[1..]); }
  }

  lemma LoudDoesNotDie(script: Script, n: nat, k: nat)
    requires !Silent(script(n)) && !SilentUntilEscape(script(n))
    ensures !DiesSilently(script, n, k)
  {
  }

  /**
   * A drain strands coroutines exactly when, of those queued but the last, one throws, and neither
   * it nor one before it does anything but wait for handles.
   */
  lemma DrainStrandsIff(s: Loop, script: Script)
    requires Sound(s, 0) && CanFire(s, NOTIFY) && s.ending == Fine
    ensures Stranded(Fired(s, script, NOTIFY)) <==>
      s.queue != [] && DiesSilently(script, s.resumes, |s.queue| - 1)
  {
    var v := Unregistered(s, NOTIFY).(counter := 0);
    DrainResumesExactly(v, script, |s.queue|);
    DrainDiesIff(v, script);
  }

  /** The next accepted coroutine, or a stop, wakes the loop for the stranded ones too. */
  lemma ScheduleUnstrands(s: Loop, e: Effect, script: Script)
    requires Sound(s, s.capacity) && (e.Stop? || (e.Schedule? && |s.queue| < s.capacity))
    ensures var u := Apply(s, e);
      && CanFire(u, NOTIFY) && u.queue == s.queue + (if e.Schedule? then [e.coroutine] else [])
      && (u.ending == Fine && Fired(u, script, NOTIFY).ending == Fine ==>
            Fired(u, script, NOTIFY).drained == u.drained + u.queue)
  {
    ApplyKeeps(s, e, s.capacity);
    var u := Apply(s, e);
    if u.ending == Fine { FireDrainKeeps(u, script, s.capacity); }
  }

  /**
   * For one: of two queued coroutines the first throws. The run ends; the second is still queued,
   * no callback is left, and the next run returns without resuming it.
   */
  lemma StrandedRun(c: Coroutine, d: Coroutine, script: Script)
    requires script(0) == [Escape]
    ensures var turns := [Do(Schedule(c)), Do(Schedule(d)), Run([[NOTIFY]]), Run([])];
      && IsHistory(Start(2), script, turns)
      && var s := After(Start(2), script, turns);
         Stranded(s) && s.queue == [d] && s.callbacks == map[] && s.ending == Fine
  {
    var s1 := Apply(Start(2), Schedule(c));
    var s2 := Apply(s1, Schedule(d));
    assert s2.queue == [c, d] && s2.callbacks == map[NOTIFY := Registration(Drain, true)];
    var v := Unregistered(Begun(s2), NOTIFY).(counter := 0);
    var u := Pop(v).(resumes := 1, ending := Escaped);
    assert Resumed(Pop(v), script) == u;
    assert Drained(u, script, 1) == u;
    assert Fired(Begun(s2), script, NOTIFY) == u;
    assert [NOTIFY][1..] == [];
    assert Dispatched(u, script, []) == u;
    assert Dispatched(Begun(s2), script, [NOTIFY]) == u;
    assert [[NOTIFY]][1..] == [];
    assert Looped(u, script, []) == u;
    assert Ran(s2, script, [[NOTIFY]]) == u;
    assert Ran(u, script, []) == Begun(u);
    var turns := [Do(Schedule(c)), Do(Schedule(d)), Run([[NOTIFY]]), Run([])];
    var t3 := [Run([])];
    var t2 := [Run([[NOTIFY]]), Run([])];
    var t1 := [Do(Schedule(d)), Run([[NOTIFY]]), Run([])];
    assert turns[1..] == t1;
    assert t1[1..] == t2;
    assert t2[1..] == t3;
    assert t3[1..] == [];
    assert IsHistory(Begun(u), script, []) && IsHistory(u, script, t3) && IsHistory(s2, script, t2);
    assert IsHistory(s1, script, t1) && IsHistory(Start(2), script, turns);
    assert After(u, script, t3) == Begun(u) && After(s2, script, t2) == Begun(u);
    assert After(s1, script, t1) == Begun(u);
  }

  // ---- Stopping -------------------------------------------------------------------------------

  /** A stop, with no exception before it. */
  predicate Stops(effects: seq<Effect>)
    decreases |effects|
  {
    effects != [] && !effects[0].Escape? && (effects[0].Stop? || Stops(effects[1..]))
  }

  /** From `s` to `u` polling goes off exactly if one of the coroutines resumed in between stops it. */
  ghost predicate PollsOn(s: Loop, u: Loop, script: Script) {
    && s.resumes <= u.resumes
    && (u.polling <==> s.polling && forall n: nat | s.resumes <= n < u.resumes :: !Stops(script(n)))
  }

  lemma {:induction false} ApplyAllPolls(s: Loop, effects: seq<Effect>)
    ensures ApplyAll(s, effects).resumes == s.resumes
    ensures ApplyAll(s, effects).polling <==> s.polling && !Stops(effects)
    decreases |effects|
  {
    if effects != [] && !effects[0].Escape? { ApplyAllPolls(Apply(s, effects[0]), effects[1..]); }
  }

  lemma ResumedPolls(s: Loop, script: Script)
    ensures PollsOn(s, Resumed(s, script), script)
  {
    ApplyAllPolls(s.(resumes := s.resumes + 1), script(s.resumes));
  }

  lemma PollsThrough(s: Loop, r: Loop, u: Loop, script: Script)
    requires PollsOn(s, r, script) && PollsOn(r, u, script)
    ensures PollsOn(s, u, script)
  {
  }

  lemma {:induction false} DrainedPolls(s: Loop, script: Script, k: nat)
    ensures PollsOn(s, Drained(s, script, k), script)
    decreases k
  {
    if k > 0 && s.queue != [] && s.ending == Fine {
      var r := Resumed(Pop(s), script);
      ResumedPolls(Pop(s), script);
      DrainedPolls(r, script, k - 1);
      PollsThrough(s, r, Drained(r, script, k - 1), script);
    }
  }

  lemma FiredPolls(s: Loop, script: Script, h: Handle)
    ensures PollsOn(s, Fired(s, script, h), script)
  {
    if h in s.callbacks && s.callbacks[h].callback.Drain? {
      if s.counter > 0 { DrainedPolls(Unregistered(s, h).(counter := 0), script, |s.queue|); }
    } else if h in s.callbacks {
      ResumedPolls(Unregistered(s, h), script);
    }
  }

  lemma {:induction false} DispatchedPolls(s: Loop, script: Script, handles: seq<Handle>)
    ensures PollsOn(s, Dispatched(s, script, handles), script)
    decreases |handles|
  {
    if handles != [] && s.ending == Fine {
      var r := Fired(s, script, handles[0]);
      FiredPolls(s, script, handles[0]);
      DispatchedPolls(r, script, handles[1..]);
      PollsThrough(s, r, Dispatched(r, script, handles[1..]), script);
    }
  }

  lemma {:induction false} LoopedPolls(s: Loop, script: Script, rounds: seq<seq<Handle>>)
    requires Legal(s, script, rounds)
    ensures PollsOn(s, Looped(s, script, rounds), script)
    decreases |rounds|
  {
    if s.ending == Fine && s.polling && s.callbacks != map[] && rounds != [] {
      var r := Dispatched(s, script, rounds[0]);
      DispatchedPolls(s, script, rounds[0]);
      LoopedPolls(r, script, rounds[1..]);
      PollsThrough(s, r, Looped(r, script, rounds[1..]), script);
    }
  }

  /** A run ends with polling on exactly if none of the coroutines it resumed has stopped it. */
  lemma PollingIff(s: Loop, script: Script, rounds: seq<seq<Handle>>)
    requires Legal(Begun(s), script, rounds)
    ensures var u := Ran(s, script, rounds);
      && s.resumes <= u.resumes
      && (u.polling <==> forall n: nat | s.resumes <= n < u.resumes :: !Stops(script(n)))
  {
    LoopedPolls(Begun(s), script, rounds);
  }

  /** The loop has a reason to return. */
  predicate Over(s: Loop) { s.ending != Fine || !s.polling || s.callbacks == map[] }

  /**
   * Round after round: whatever epoll would still report, a run that was stopped, that an exception
   * ended or that has no callback left waits no more; and any other waits for the next round.
   */
  lemma {:induction false} RunGoesOnIff(s: Loop, script: Script, rounds: seq<seq<Handle>>, k: nat)
    requires Legal(s, script, rounds) && k < |rounds|
    ensures Legal(s, script, rounds[..k]) && Legal(s, script, rounds[..k + 1])
    ensures var u := Looped(s, script, rounds[..k]);
      && (Over(u) ==> Looped(s, script, rounds) == u)
      && (!Over(u) ==>
            Ready(u, rounds[k]) && Looped(s, script, rounds[..k + 1]) == Dispatched(u, script, rounds[k]))
    decreases |rounds|
  {
    assert rounds[..k + 1][0] == rounds[0] && rounds[..k + 1][1..] == rounds[1..][..k];
    var r := Dispatched(s, script, rounds[0]);
    if k > 0 {
      assert rounds[..k][0] == rounds[0] && rounds[..k][1..] == rounds[1..][..k - 1];
      if !Over(s) { RunGoesOnIff(r, script, rounds[1..], k - 1); }
    } else {
      assert rounds[..0] == [] && rounds[1..][..0] == [];
      if !Over(s) { assert Legal(r, script, []) && Looped(r, script, []) == r; }
    }
  }

  // ---- Waiting for handles --------------------------------------------------------------------

  /** A wait that is accepted fires; it is over then if it is one-shot, and goes on otherwise. */
  lemma WatchFires(s: Loop, c: Coroutine, h: Handle, oneShot: bool, script: Script)
    requires Sound(s, s.capacity) && h != NOTIFY && h !in s.callbacks
    ensures var u := Apply(s, Watch(c, h, oneShot));
      && CanFire(u, h) && Pending(u, h) == (if oneShot then [c] else [])
      && Fired(u, script, h) == Resumed(Unregistered(u, h), script)
      && Unregistered(u, h).callbacks == if oneShot then s.callbacks else u.callbacks
  {
    var u := Apply(s, Watch(c, h, oneShot));
    assert u.callbacks - {h} == s.callbacks;
  }

  predicate Recurring(s: Loop, h: Handle) {
    h in s.callbacks && !s.callbacks[h].oneShot && s.callbacks[h].callback.Resume?
  }

  /** A wait that is not one-shot stays registered, whatever else is done. */
  ghost predicate RecurringStay(s: Loop, u: Loop) {
    forall h | Recurring(s, h) :: Recurring(u, h) && u.callbacks[h] == s.callbacks[h]
  }

  lemma {:induction false} ApplyAllRecurring(s: Loop, effects: seq<Effect>)
    ensures RecurringStay(s, ApplyAll(s, effects))
    decreases |effects|
  {
    if effects != [] && !effects[0].Escape? { ApplyAllRecurring(Apply(s, effects[0]), effects[1..]); }
  }

  lemma {:induction false} DrainedRecurring(s: Loop, script: Script, k: nat)
    ensures RecurringStay(s, Drained(s, script, k))
    decreases k
  {
    if k > 0 && s.queue != [] && s.ending == Fine {
      ApplyAllRecurring(Pop(s).(resumes := s.resumes + 1), script(s.resumes));
      DrainedRecurring(Resumed(Pop(s), script), script, k - 1);
    }
  }

  lemma FiredRecurring(s: Loop, script: Script, h: Handle)
    ensures RecurringStay(s, Fired(s, script, h))
  {
    if h in s.callbacks {
      var u := Unregistered(s, h);
      assert RecurringStay(s, u);
      if s.callbacks[h].callback.Drain? { DrainedRecurring(u.(counter := 0), script, |s.queue|); }
      else { ApplyAllRecurring(u.(resumes := u.resumes + 1), script(u.resumes)); }
    }
  }

  lemma {:induction false} DispatchedRecurring(s: Loop, script: Script, handles: seq<Handle>)
    ensures RecurringStay(s, Dispatched(s, script, handles))
    decreases |handles|
  {
    if handles != [] && s.ending == Fine {
      FiredRecurring(s, script, handles[0]);
      DispatchedRecurring(Fired(s, script, handles[0]), script, handles[1..]);
    }
  }

  lemma {:induction false} LoopedRecurring(s: Loop, script: Script, rounds: seq<seq<Handle>>)
    requires Legal(s, script, rounds)
    ensures RecurringStay(s, Looped(s, script, rounds))
    decreases |rounds|
  {
    if s.ending == Fine && s.polling && s.callbacks != map[] && rounds != [] {
      DispatchedRecurring(s, script, rounds[0]);
      LoopedRecurring(Dispatched(s, script, rounds[0]), script, rounds[1..]);
    }
  }

  /** In every history a wait that is not one-shot stays registered. */
  lemma {:induction false} RecurringWaitsStay(s: Loop, script: Script, turns: seq<Turn>)
    requires IsHistory(s, script, turns)
    ensures RecurringStay(s, After(s, script, turns))
    decreases |turns|
  {
    if turns != [] {
      match turns[0]
      case Do(e) => RecurringWaitsStay(Apply(s, e), script, turns[1..]);
      case Run(rounds) =>
        LoopedRecurring(Begun(s), script, rounds);
        RecurringWaitsStay(Ran(s, script, rounds), script, turns[1..]);
    }
  }

  // ---- Every report resumes one coroutine -----------------------------------------------------

  /** How many of the handles are not the eventfd. */
  function Others(handles: seq<Handle>): nat
    decreases |handles|
  {
    if handles == [] then 0 else (if handles[0] == NOTIFY then 0 else 1) + Others(handles[1..])
  }

  lemma FireResumes(s: Loop, script: Script, h: Handle, k: nat)
    requires Sound(s, k) && CanFire(s, h) && s.ending == Fine
    ensures var u := Fired(s, script, h);
      u.ending == Fine ==> u.resumes - s.resumes == (if h == NOTIFY then 0 else 1) + |u.drained| - |s.drained|
  {
    if h == NOTIFY {
      DrainKeeps(Unregistered(s, NOTIFY).(counter := 0), script, |s.queue|);
      if Fired(s, script, h).ending == Fine { FireDrainKeeps(s, script, k); }
    } else {
      FireResumeKeeps(s, script, h, k);
      ApplyAllPolls(Unregistered(s, h).(resumes := s.resumes + 1), script(s.resumes));
    }
  }

  /**
   * A wait that no exception ends resumes one coroutine for each reported handle, and one for each
   * that left the queue; the eventfd's report is for those.
   */
  lemma {:induction false} ResumptionsCounted(s: Loop, script: Script, handles: seq<Handle>, k: nat)
    requires Sound(s, k) && Settled(s) && Ready(s, handles) && s.ending == Fine
    ensures var u := Dispatched(s, script, handles);
      u.ending == Fine ==> u.resumes - s.resumes == Others(handles) + |u.drained| - |s.drained|
    decreases |handles|
  {
    if handles != [] {
      var u := Fired(s, script, handles[0]);
      FireKeeps(s, script, handles[0], k);
      FireSettles(s, script, handles[0]);
      FireResumes(s, script, handles[0], k);
      if u.ending == Fine {
        assert Ready(u, handles[1..]) by {
          assert forall i | 0 <= i < |handles[1..]| :: handles[1..][i] == handles[i + 1] && CanFire(s, handles[i + 1]);
        }
        ResumptionsCounted(u, script, handles[1..], k);
      }
    }
  }

  /** A run that nobody stopped and no exception ended returns only when everything is done. */
  lemma RunFinishesEverything(s: Loop, script: Script, rounds: seq<seq<Handle>>)
    requires Sound(s, 0) && Settled(s) && Legal(Begun(s), script, rounds)
    requires Ran(s, script, rounds).polling && Ran(s, script, rounds).callbacks == map[]
    requires Ran(s, script, rounds).ending == Fine
    ensures var u := Ran(s, script, rounds);
      && u.queue == [] && u.drained == u.pushed && s.pushed <= u.pushed
      && forall h: Handle :: On(u.fired, h) == On(u.watched, h)
  {
    BegunKeeps(s, 0);
    LoopedKeeps(Begun(s), script, rounds, 0);
    var u := Ran(s, script, rounds);
    assert u.drained + [] == u.drained;
    forall h: Handle ensures On(u.fired, h) == On(u.watched, h) {
      assert SettledAt(u, h);
      assert On(u.fired, h) + [] == On(u.fired, h);
    }
  }
}
