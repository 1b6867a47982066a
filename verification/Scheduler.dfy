/** The scheduler of one thread, with its queue and its epoll object, updated in place. */
module Schedulers {
  import opened EventLoop
  import opened CircularQueues

  class EPoll {
    var callbacks: map<Handle, Registration>

    constructor ()
      ensures callbacks == map[]
    {
      callbacks := map[];
    }

    /** Refuses a handle that is registered already. */
    method Add(h: Handle, r: Registration) returns (added: bool)
      modifies this
      ensures added <==> h !in old(callbacks)
      ensures callbacks == if added then old(callbacks)[h := r] else old(callbacks)
    {
      if h in callbacks { return false; }
      callbacks := callbacks[h := r];
      return true;
    }

    method Remove(h: Handle) returns (removed: bool)
      modifies this
      ensures removed <==> h in old(callbacks)
      ensures callbacks == old(callbacks) - {h}
    {
      removed := h in callbacks;
      callbacks := callbacks - {h};
    }

    predicate HasPendingItems()
      reads this
    {
      callbacks != map[]
    }
  }

  class Scheduler {
    const queue: CircularQueue<Coroutine>
    const epoll: EPoll
    var counter: nat
    var polling: bool
    var ending: Ending
    var resumes: nat
    ghost var pushed: seq<Coroutine>
    ghost var drained: seq<Coroutine>
    ghost var watched: seq<Wait>
    ghost var fired: seq<Wait>

    ghost predicate Valid()
      reads this, queue
    {
      queue.Valid()
    }

    ghost function Contents(): Loop
      requires Valid()
      reads this, queue, queue.buffer, epoll
    {
      Loop(queue.Capacity(), queue.Contents(), epoll.callbacks, counter, polling, ending, resumes,
           pushed, drained, watched, fired)
    }

    constructor (capacity: nat)
      ensures Valid() && Contents() == Start(capacity)
      ensures fresh(queue) && fresh(queue.buffer) && fresh(epoll)
    {
      queue := new CircularQueue<Coroutine>(capacity);
      epoll := new EPoll();
      counter, polling, ending, resumes := 0, true, Fine, 0;
      pushed, drained, watched, fired := [], [], [], [];
    }

    method ScheduleQueueDrain()
      requires Valid()
      modifies this`counter, epoll
      ensures Valid() && Contents() == ScheduleDrain(old(Contents()))
    {
      var added := epoll.Add(NOTIFY, Registration(Drain, true));
      counter := counter + 1;
    }

    method AddToQueue(c: Coroutine) returns (accepted: bool)
      requires Valid()
      modifies this, queue, queue.buffer, epoll
      ensures Valid() && Contents() == EventLoop.AddToQueue(old(Contents()), c)
      ensures accepted <==> |old(queue.Contents())| != queue.Capacity()
    {
      accepted := queue.TryPushBack(c);
      if accepted {
        pushed := pushed + [c];
        ScheduleQueueDrain();
      }
    }

    method WatchHandle(c: Coroutine, h: Handle, oneShot: bool) returns (added: bool)
      requires Valid() && h != NOTIFY
      modifies this`watched, epoll
      ensures Valid() && Contents() == Watched(old(Contents()), c, h, oneShot)
      ensures added <==> h !in old(epoll.callbacks)
    {
      added := epoll.Add(h, Registration(Resume(c), oneShot));
      if added && oneShot { watched := watched + [Wait(h, c)]; }
    }

    method StopPolling()
      requires Valid()
      modifies this, epoll
      ensures Valid() && Contents() == Apply(old(Contents()), Stop) && !polling
    {
      polling := false;
      ScheduleQueueDrain();
    }

    /** A resumed coroutine runs to its next suspension. */
    method ResumeNext(script: Script)
      requires Valid()
      modifies this, queue, queue.buffer, epoll
      ensures Valid() && Contents() == Resumed(old(Contents()), script)
    {
      var effects, i := script(resumes), 0;
      resumes := resumes + 1;
      while i < |effects|
        invariant 0 <= i <= |effects| && Valid()
        invariant ApplyAll(Contents(), effects[i..]) == Resumed(old(Contents()), script)
      {
        match effects[i] {
          case Schedule(c) => var accepted := AddToQueue(c);
          case Watch(c, h, oneShot) => if h != NOTIFY { var added := WatchHandle(c, h, oneShot); }
          case Stop => StopPolling();
          case Escape =>
            ending := Escaped;
            return;
        }
        assert effects[i..][1..] == effects[i + 1..];
        i := i + 1;
      }
    }

    method ResumeFront(script: Script)
      requires Valid() && queue.Contents() != []
      modifies this, queue, queue.buffer, epoll
      ensures Valid() && Contents() == Resumed(Pop(old(Contents())), script)
    {
      var c := queue.PopFront();
      drained := drained + [c.value];
      assert Contents() == Pop(old(Contents()));
      ResumeNext(script);
    }

    /** The drain callback: read the eventfd, then resume as many as the queue holds now. */
    method DrainQueue(script: Script)
      requires Valid()
      modifies this, queue, queue.buffer, epoll
      ensures Valid()
      ensures Contents() == if old(counter) == 0 then old(Contents()).(ending := InternalError)
        else Drained(old(Contents()).(counter := 0), script, |old(queue.Contents())|)
    {
      if counter == 0 { ending := InternalError; return; }
      counter := 0;
      var limit, i := queue.size, 0;
      while i < limit && queue.size > 0 && ending == Fine
        invariant 0 <= i <= limit && Valid()
        invariant Drained(Contents(), script, limit - i)
          == Drained(old(Contents()).(counter := 0), script, limit)
        decreases limit - i
      {
        ResumeFront(script);
        i := i + 1;
      }
    }

    method Fire(script: Script, h: Handle)
      requires Valid()
      modifies this, queue, queue.buffer, epoll
      ensures Valid() && Contents() == Fired(old(Contents()), script, h)
    {
      if h !in epoll.callbacks { ending := InternalError; return; }
      var r := epoll.callbacks[h];
      if r.oneShot {
        var removed := epoll.Remove(h);
        if r.callback.Resume? { fired := fired + [Wait(h, r.callback.coroutine)]; }
      }
      assert Contents() == Unregistered(old(Contents()), h);
      match r.callback
      case Drain => DrainQueue(script);
      case Resume(_) => ResumeNext(script);
    }

    /** One wait: `handles` is what epoll reports. */
    method WaitOnce(script: Script, handles: seq<Handle>)
      requires Valid()
      modifies this, queue, queue.buffer, epoll
      ensures Valid() && Contents() == Dispatched(old(Contents()), script, handles)
    {
      var i := 0;
      while i < |handles| && ending == Fine
        invariant 0 <= i <= |handles| && Valid()
        invariant Dispatched(Contents(), script, handles[i..]) == Dispatched(old(Contents()), script, handles)
      {
        assert handles[i..][1..] == handles[i + 1..];
        Fire(script, handles[i]);
        i := i + 1;
      }
    }

    /** Runs until stopped or idle, or until epoll has nothing more to report. */
    method Run(script: Script, rounds: seq<seq<Handle>>) returns (finished: bool)
      requires Valid() && Legal(Begun(Contents()), script, rounds)
      modifies this, queue, queue.buffer, epoll
      ensures Valid() && Contents() == Ran(old(Contents()), script, rounds)
      ensures finished <==> ending != Fine || !polling || epoll.callbacks == map[]
    {
      polling, ending := true, Fine;
      var i := 0;
      while ending == Fine && polling && epoll.HasPendingItems() && i < |rounds|
        invariant 0 <= i <= |rounds| && Valid() && Legal(Contents(), script, rounds[i..])
        invariant Looped(Contents(), script, rounds[i..]) == Ran(old(Contents()), script, rounds)
        decreases |rounds| - i
      {
        assert rounds[i..][1..] == rounds[i + 1..];
        WaitOnce(script, rounds[i]);
        i := i + 1;
      }
      finished := ending != Fine || !polling || !epoll.HasPendingItems();
    }
  }
}
