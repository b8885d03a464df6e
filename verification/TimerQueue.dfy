/** The imperative timer queue of TimerQueue.cpp, with the methods of TcpConnection.cpp that arm,
    cancel and answer the idle timer, proved against `TimerProtocol`. The clock is a parameter. */
module TimerQueue {
  import opened Wrappers
  import opened TimerProtocol

  /** The first loop of `handleRead` on its way from `start` to `s`. */
  predicate Collecting(start: Timers, s: Timers) {
    && Known(start) && Known(s)
    && s == start.(expired := s.expired, queue := s.queue)
    && start.queue == s.expired + s.queue
    && Due(start.timers, start.queue, start.now) == |s.expired| + Due(s.timers, s.queue, s.now)
  }

  lemma StartsCollecting(s: Timers)
    requires Known(s) && s.expired == []
    ensures Collecting(s, s)
  {
  }

  lemma CollectsOne(start: Timers, s: Timers)
    requires Collecting(start, s) && s.queue != [] && s.timers[s.queue[0]].expiration <= s.now
    ensures Collecting(start, s.(expired := s.expired + [s.queue[0]], queue := s.queue[1..]))
  {
    assert s.queue == [s.queue[0]] + s.queue[1..];
  }

  lemma AllCollected(start: Timers, s: Timers)
    requires Collecting(start, s) && (s.queue == [] || s.timers[s.queue[0]].expiration > s.now)
    ensures s == Collect(start)
  {
    assert Due(start.timers, start.queue, start.now) == |s.expired|;
  }

  class TimerQueue {
    /** Every timer object ever made, the ordered set, and the vector of `handleRead`. */
    var objects: map<TimerId, Timer>
    var timers: seq<TimerId>
    var expired: seq<TimerId>
    var conns: map<ConnId, Conn>
    ghost var clock: nat

    ghost function View(): Timers
      reads this
    {
      Timers(objects, timers, expired, conns, clock)
    }

    constructor ()
      ensures View() == START
    {
      objects, timers, expired, conns, clock := map[], [], [], map[], 0;
    }

    /** The set keeps its order and gains exactly the new timer object, at address `id`. */
    method AddTimer(id: TimerId, when: nat, conn: ConnId)
      requires Known(View()) && Sorted(objects, timers) && id !in objects
      modifies this`objects, this`timers
      ensures objects == old(objects)[id := Timer(when, conn, false, 0)] && timers == Insert(objects, old(timers), id)
      ensures (forall q :: q in timers <==> q == id || q in old(timers)) && Sorted(objects, timers)
    {
      ghost var before := objects;
      objects := objects[id := Timer(when, conn, false, 0)];
      SortedFrame(before, objects, timers);
      InsertKeepsOrder(objects, timers, id);
      timers := Insert(objects, timers, id);
    }

    method RefreshAlive(c: ConnId, id: TimerId, now: nat)
      requires Known(View()) && Sorted(objects, timers) && c in conns && id !in objects && now == clock
      modifies this`objects, this`timers, this`conns
      ensures View() == Refresh(old(View()), c, id)
      ensures (forall q :: q in timers <==> q == id || q in old(timers)) && Sorted(objects, timers)
    {
      ghost var before := objects;
      CancelAliveTimer(c);
      SortedFrame(before, objects, timers);
      AddTimer(id, now + IDLE_TIMEOUT, c);
      conns := conns[c := conns[c].(alive := Some(id), lastRefresh := now)];
    }

    /** `connectDestroyed`, and the first part of `refreshAlive`. */
    method CancelAliveTimer(c: ConnId)
      requires Known(View()) && c in conns
      modifies this`objects
      ensures View() == old(View()).(timers := CancelAlive(old(View()), c))
    {
      match conns[c].alive {
        case None =>
        case Some(id) =>
          if id in timers || id in expired {
            objects := objects[id := objects[id].(cancelled := true)];
          }
      }
    }

    /** `handleTimeout`, reached through the weak pointer of the callback. */
    method HandleTimeout(c: ConnId, now: nat)
      requires c in conns && now == clock
      modifies this`conns
      ensures conns == if old(conns)[c].freed || old(conns)[c].closed then old(conns)
                       else old(conns)[c := old(conns)[c].(
                                         closed := true,
                                         timedOut := Some(Timeout(now, old(conns)[c].lastRefresh)))]
    {
      if conns[c].freed || conns[c].closed { return; }
      conns := conns[c := conns[c].(closed := true, timedOut := Some(Timeout(now, conns[c].lastRefresh)))];
    }

    method CollectExpired(now: nat)
      requires Known(View()) && expired == [] && now == clock
      modifies this`timers, this`expired
      ensures View() == Collect(old(View()))
    {
      hide Collecting, Collect, Due;
      StartsCollecting(View());
      while timers != [] && objects[timers[0]].expiration <= now
        invariant Known(View()) && Collecting(old(View()), View())
        decreases |timers|
      {
        CollectsOne(old(View()), View());
        expired := expired + [timers[0]];
        timers := timers[1..];
      }
      AllCollected(old(View()), View());
    }

    method RunExpired(now: nat)
      requires Runnable(View()) && now == clock
      modifies this`objects, this`expired, this`conns
      ensures View() == RunAll(old(View()))
    {
      while expired != []
        invariant Runnable(View()) && RunAll(View()) == RunAll(old(View()))
        decreases |expired|
      {
        ghost var before := View();
        var id := expired[0];
        expired := expired[1..];
        if !objects[id].cancelled {
          objects := objects[id := objects[id].(runs := objects[id].runs + 1)];
          HandleTimeout(objects[id].conn, now);
        }
        assert View() == RunFirst(before);
      }
    }

    /** Every callback that is due runs once, in the order of the set, and no other does. */
    method HandleRead(now: nat)
      requires Inv(View()) && expired == [] && now == clock
      modifies this`objects, this`timers, this`expired, this`conns
      ensures Runnable(Collect(old(View()))) && View() == RunAll(Collect(old(View())))
      ensures Inv(View()) && expired == []
      ensures forall id | id in old(timers) ::
                id in objects && (id in timers <==> old(objects)[id].expiration > now) &&
                objects[id].runs == if old(objects)[id].expiration <= now && !old(objects)[id].cancelled then 1 else 0
      ensures forall c | c in old(conns) ::
                c in conns &&
                conns[c] == if Idle(old(View()), c) then AfterTimeout(old(conns)[c], now) else old(conns)[c]
    {
      ghost var before := View();
      CollectedAreRunnable(before);
      RunAllRunsEach(Collect(before));
      forall id | id in timers
        ensures var q := RunAll(Collect(before));
                id in q.timers && (id in q.queue <==> before.timers[id].expiration > now) &&
                q.timers[id].runs == if before.timers[id].expiration <= now && !before.timers[id].cancelled then 1
                                     else 0
      {
        HandleReadRunsExactlyTheDue(before, id);
      }
      forall c | c in conns
        ensures var q := RunAll(Collect(before));
                && c in q.conns
                && q.conns[c] == if Idle(before, c) then AfterTimeout(before.conns[c], now) else before.conns[c]
      {
        HandleReadClosesTheIdle(before, c);
      }
      CollectExpired(now);
      RunExpired(now);
    }
  }
}
