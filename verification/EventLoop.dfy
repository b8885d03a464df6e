/** The imperative event loop of EventLoop.cpp, proved against `LoopProtocol`. The methods of the
    loop thread and of posting threads are single steps; `LoopOnce` is a turn of `loop`. */
module EventLoop {
  import opened LoopProtocol

  class EventLoop {
    var pendingFunctors: seq<Task>
    var functors: seq<Task>
    var eventfd: nat
    var quit: bool
    ghost var pc: Pc
    ghost var inFlight: set<Thread>
    ghost var posted: seq<Task>
    ghost var started: seq<Task>

    ghost function View(): Loop
      reads this
    {
      Loop(pendingFunctors, functors, eventfd, inFlight, pc, quit, posted, started)
    }

    constructor ()
      ensures View() == START
    {
      pendingFunctors, functors, eventfd, quit := [], [], 0, false;
      pc, inFlight, posted, started := AtQuitCheck, {}, [], [];
    }

    /** The critical section of `queueInLoop`; the thread still has to call `Wakeup`. */
    method Push(ghost thread: Thread, cb: Task)
      requires Enabled(View(), LoopProtocol.Push(thread, cb))
      modifies this`pendingFunctors, this`posted, this`inFlight
      ensures View() == Next(old(View()), LoopProtocol.Push(thread, cb))
    {
      pendingFunctors := pendingFunctors + [cb];
      posted := posted + [cb];
      inFlight := inFlight + {thread};
    }

    method Wakeup(ghost thread: Thread)
      requires thread in inFlight
      modifies this`eventfd, this`inFlight
      ensures View() == Next(old(View()), LoopProtocol.Wakeup(thread))
    {
      eventfd := eventfd + 1;
      inFlight := inFlight - {thread};
    }

    method SetQuit(ghost thread: Thread)
      requires Enabled(View(), LoopProtocol.SetQuit(thread))
      modifies this`quit, this`inFlight
      ensures View() == Next(old(View()), LoopProtocol.SetQuit(thread))
    {
      quit := true;
      inFlight := inFlight + {thread};
    }

    /** The callback of the wakeup channel. */
    method HandleWakeup()
      requires Enabled(View(), ReadEventfd)
      modifies this`eventfd, this`pc
      ensures View() == Next(old(View()), ReadEventfd)
    {
      eventfd := 0;
      pc := Dispatching(false, true);
    }

    /** The critical section of `doPendingFunctors`. */
    method SwapPending()
      requires Enabled(View(), SwapQueue) && functors == []
      modifies this`functors, this`pendingFunctors, this`pc
      ensures View() == Next(old(View()), SwapQueue)
    {
      functors, pendingFunctors := pendingFunctors, functors;
      pc := Running;
    }

    /** The second half of `doPendingFunctors`, when the tasks post nothing. */
    method RunFunctors()
      requires pc.Running?
      modifies this`functors, this`started
      ensures View() == RunBatch(old(View()))
    {
      while functors != []
        invariant RunBatch(View()) == RunBatch(old(View()))
        decreases |functors|
      {
        started := started + [functors[0]];
        functors := functors[1..];
      }
    }

    /** One turn of `loop` that nobody interrupts. */
    method LoopOnce()
      requires Inv(View()) && pc.AtQuitCheck? && !quit && inFlight == {}
      modifies this
      ensures View() == Turn(old(View()))
      ensures Inv(View()) && started == old(posted) && pendingFunctors == []
    {
      TurnStartsAll(View());
      pc := Polling;
      var wake := eventfd > 0;
      pc := Dispatching(wake, false);
      if wake {
        HandleWakeup();
      }
      SwapPending();
      RunBatchStartsAll(View());
      RunBatchStartsAll(View().(pc := AtQuitCheck));
      RunFunctors();
      pc := AtQuitCheck;
    }
  }
}
