/** The task queue of EventLoop.cpp with its eventfd wakeup, as a state machine: any thread posts
    tasks, the loop thread polls, reads the eventfd, swaps the queue out and runs the tasks. */
module LoopProtocol {
  type Task = nat
  type Thread = nat

  /** The thread that runs the loop. */
  const LOOP: Thread := 0

  /** Where the loop thread is. While it dispatches, `wake` says that the wakeup channel is among the
      active ones still to be handled and `drained` that its eventfd has been read in this turn. */
  datatype Pc = AtQuitCheck | Polling | Dispatching(wake: bool, drained: bool) | Running | Gone

  /** `inFlight` are the threads between the push and the `wakeup` of `queueInLoop` or `quit`. */
  datatype Loop = Loop(
    queue: seq<Task>,
    batch: seq<Task>,
    counter: nat,
    inFlight: set<Thread>,
    pc: Pc,
    quit: bool,
    posted: seq<Task>,
    started: seq<Task>)

  const START: Loop := Loop([], [], 0, {}, AtQuitCheck, false, [], [])

  datatype Action =
    | Push(thread: Thread, task: Task)
    | SetQuit(thread: Thread)
    | Wakeup(thread: Thread)
    | TestQuit
    | PollReturns(wake: bool)
    | ReadEventfd
    | SwapQueue
    | RunTask
    | EndRun

  /** The loop thread itself posts only from the callbacks and tasks that it runs. */
  predicate MayPost(l: Loop, thread: Thread) {
    thread !in l.inFlight && (thread == LOOP ==> l.pc.Dispatching? || l.pc.Running?)
  }

  predicate Enabled(l: Loop, a: Action) {
    match a
    case Push(thread, _) => MayPost(l, thread)
    case SetQuit(thread) => MayPost(l, thread)
    case Wakeup(thread) => thread in l.inFlight
    case TestQuit => LOOP !in l.inFlight && l.pc.AtQuitCheck?
    case PollReturns(wake) => LOOP !in l.inFlight && l.pc.Polling? && (wake ==> l.counter > 0)
    case ReadEventfd => LOOP !in l.inFlight && l.pc.Dispatching? && l.pc.wake
    case SwapQueue => LOOP !in l.inFlight && l.pc.Dispatching? && !l.pc.wake
    case RunTask => LOOP !in l.inFlight && l.pc.Running? && l.batch != []
    case EndRun => LOOP !in l.inFlight && l.pc.Running? && l.batch == []
  }

  function Next(l: Loop, a: Action): Loop
    requires Enabled(l, a)
  {
    match a
    case Push(thread, task) =>
      l.(queue := l.queue + [task], posted := l.posted + [task], inFlight := l.inFlight + {thread})
    case SetQuit(thread) => l.(quit := true, inFlight := l.inFlight + {thread})
    case Wakeup(thread) => l.(counter := l.counter + 1, inFlight := l.inFlight - {thread})
    case TestQuit => l.(pc := if l.quit then Gone else Polling)
    case PollReturns(wake) => l.(pc := Dispatching(wake, false))
    case ReadEventfd => l.(counter := 0, pc := Dispatching(false, true))
    case SwapQueue => l.(batch := l.queue, queue := [], pc := Running)
    case RunTask => l.(started := l.started + [l.batch[0]], batch := l.batch[1..])
    case EndRun => l.(pc := AtQuitCheck)
  }

  // ---------- what every interleaving keeps ----------

  /** Somebody will make the loop look at the queue: the eventfd is readable, a thread is about to
      make it readable, or the loop thread is between the eventfd read and the swap. */
  predicate WakeupPending(l: Loop) {
    l.counter > 0 || l.inFlight != {} || (l.pc.Dispatching? && l.pc.drained)
  }

  predicate Inv(l: Loop) {
    && (l.queue != [] ==> WakeupPending(l))
    && l.started + (l.batch + l.queue) == l.posted
    && (l.batch != [] ==> l.pc.Running?)
    && (l.quit && l.pc.Polling? ==> l.counter > 0 || l.inFlight != {})
    && (l.pc.Gone? ==> l.quit)
  }

  lemma StepKeepsInv(l: Loop, a: Action)
    requires Inv(l) && Enabled(l, a)
    ensures Inv(Next(l, a))
  {
    match a
    case Push(thread, task) =>
      assert thread in Next(l, a).inFlight;
      assert l.started + (l.batch + (l.queue + [task])) == l.started + (l.batch + l.queue) + [task];
    case SetQuit(thread) => assert thread in Next(l, a).inFlight;
    case SwapQueue => assert l.started + (l.queue + []) == l.started + ([] + l.queue);
    case RunTask => assert l.started + (l.batch + l.queue) == l.started + [l.batch[0]] + (l.batch[1..] + l.queue);
    case _ =>
  }

  ghost predicate IsRun(ls: seq<Loop>, steps: seq<Action>) {
    |ls| == |steps| + 1 && forall i: nat | i < |steps| :: Enabled(ls[i], steps[i]) && ls[i + 1] == Next(ls[i], steps[i])
  }

  /** No wakeup is lost: when the loop waits in `poll` with tasks in the queue or a quit request, and
      no thread is still on its way to `wakeup`, the eventfd is readable and `poll` returns. */
  predicate PollCannotHang(l: Loop) {
    l.pc.Polling? && (l.queue != [] || l.quit) && l.inFlight == {} ==> l.counter > 0
  }

  /** In every state of every interleaving no wakeup is lost, and the tasks started are a prefix of
      the tasks posted: each at most once, in posting order. */
  lemma {:induction false} RunKeepsInv(ls: seq<Loop>, steps: seq<Action>, i: nat)
    requires IsRun(ls, steps) && ls[0] == START && i < |ls|
    ensures Inv(ls[i]) && PollCannotHang(ls[i]) && ls[i].started <= ls[i].posted
  {
    if i > 0 {
      RunKeepsInv(ls, steps, i - 1);
      StepKeepsInv(ls[i - 1], steps[i - 1]);
    }
  }

  // ---------- every task gets its turn ----------

  lemma {:induction false} BatchIsKept(ls: seq<Loop>, steps: seq<Action>, i: nat, j: nat)
    requires IsRun(ls, steps) && i <= j < |ls|
    requires forall k: nat | i <= k <= j :: ls[k].pc.Running?
    ensures ls[j].started + ls[j].batch == ls[i].started + ls[i].batch
  {
    if i < j {
      BatchIsKept(ls, steps, i, j - 1);
      assert ls[j] == Next(ls[j - 1], steps[j - 1]) && ls[j].pc.Running?;
      RunningKeepsBatch(ls[j - 1], steps[j - 1]);
    }
  }

  lemma RunningKeepsBatch(l: Loop, a: Action)
    requires Enabled(l, a) && l.pc.Running? && Next(l, a).pc.Running?
    ensures Next(l, a).started + Next(l, a).batch == l.started + l.batch
  {
    if a.RunTask? {
      assert l.started + l.batch == l.started + [l.batch[0]] + l.batch[1..];
    }
  }

  /** Every task posted before a swap has been started when the loop thread is next at its loop
      condition, whatever the tasks themselves and other threads post meanwhile. */
  lemma PostedBeforeSwapIsRun(ls: seq<Loop>, steps: seq<Action>, i: nat, j: nat)
    requires IsRun(ls, steps) && ls[0] == START && i < j < |steps|
    requires steps[i].SwapQueue? && steps[j].EndRun?
    requires forall k: nat | i < k <= j :: ls[k].pc.Running?
    ensures ls[j + 1].pc.AtQuitCheck? && ls[j + 1].started == ls[i].posted
  {
    RunKeepsInv(ls, steps, i);
    BatchIsKept(ls, steps, i + 1, j);
    assert Enabled(ls[j], steps[j]) && Enabled(ls[i], steps[i]);
    assert ls[i].batch == [] && ls[i].started + ([] + ls[i].queue) == ls[i].started + ls[i].queue;
    assert ls[j].started + [] == ls[j].started;
  }

  // ---------- a turn of the loop ----------

  /** Running the whole batch. */
  function RunBatch(l: Loop): Loop
    decreases |l.batch|
  {
    if l.batch == [] then l else RunBatch(l.(started := l.started + [l.batch[0]], batch := l.batch[1..]))
  }

  lemma {:induction false} RunBatchStartsAll(l: Loop)
    ensures RunBatch(l) == l.(started := l.started + l.batch, batch := [])
    decreases |l.batch|
  {
    if l.batch == [] {
      assert l.started + [] == l.started;
    } else {
      RunBatchStartsAll(l.(started := l.started + [l.batch[0]], batch := l.batch[1..]));
      assert l.started + [l.batch[0]] + l.batch[1..] == l.started + l.batch;
    }
  }

  /** A turn of the loop in which nobody posts. */
  function Turn(l: Loop): Loop
    requires l.pc.AtQuitCheck? && !l.quit
  {
    var polled := if l.counter > 0 then l.(counter := 0) else l;
    RunBatch(polled.(batch := l.queue, queue := []))
  }

  /** It starts everything that was posted. */
  lemma TurnStartsAll(l: Loop)
    requires Inv(l) && l.pc.AtQuitCheck? && !l.quit
    ensures Turn(l).started == l.posted && Turn(l).queue == [] && Inv(Turn(l))
  {
    var swapped := (if l.counter > 0 then l.(counter := 0) else l).(batch := l.queue, queue := []);
    RunBatchStartsAll(swapped);
    assert l.started + ([] + l.queue) == l.started + l.queue;
    assert l.posted + ([] + []) == l.posted;
  }

  lemma RunsCompose(ls: seq<Loop>, steps: seq<Action>, more: seq<Loop>, after: seq<Action>)
    requires IsRun(ls, steps) && IsRun(more, after) && ls[|steps|] == more[0]
    ensures IsRun(ls + more[1..], steps + after) && (ls + more[1..])[|steps + after|] == more[|after|]
  {
    var all, both := ls + more[1..], steps + after;
    forall i: nat | i < |both|
      ensures Enabled(all[i], both[i]) && all[i + 1] == Next(all[i], both[i])
    {
      if i < |steps| {
        assert all[i] == ls[i] && all[i + 1] == ls[i + 1] && both[i] == steps[i];
      } else {
        assert all[i] == more[i - |steps|] && all[i + 1] == more[i - |steps| + 1] && both[i] == after[i - |steps|];
      }
    }
  }

  lemma {:induction false} BatchIsARun(l: Loop) returns (ls: seq<Loop>, steps: seq<Action>)
    requires l.pc.Running? && LOOP !in l.inFlight
    ensures IsRun(ls, steps) && ls[0] == l && ls[|steps|] == RunBatch(l)
    decreases |l.batch|
  {
    ls, steps := [l], [];
    if l.batch != [] {
      var next := Next(l, RunTask);
      var more, after := BatchIsARun(next);
      ls, steps := [l] + more, [RunTask] + after;
      assert ls[1] == next;
    }
  }

  /** A turn is a run of the state machine, in which no other thread takes a step. */
  lemma TurnIsARun(l: Loop) returns (ls: seq<Loop>, steps: seq<Action>)
    requires l.pc.AtQuitCheck? && !l.quit && LOOP !in l.inFlight
    ensures IsRun(ls, steps) && ls[0] == l && ls[|steps|] == Turn(l)
  {
    hide RunBatch;
    var polling := Next(l, TestQuit);
    if l.counter > 0 {
      var woken := Next(polling, PollReturns(true));
      ls, steps := [l, polling, woken, Next(woken, ReadEventfd)], [TestQuit, PollReturns(true), ReadEventfd];
    } else {
      ls, steps := [l, polling, Next(polling, PollReturns(false))], [TestQuit, PollReturns(false)];
    }
    var swapped := Next(ls[|steps|], SwapQueue);
    RunsCompose(ls, steps, [ls[|steps|], swapped], [SwapQueue]);
    ls, steps := ls + [ls[|steps|], swapped][1..], steps + [SwapQueue];
    var more, after := BatchIsARun(swapped);
    RunsCompose(ls, steps, more, after);
    ls, steps := ls + more[1..], steps + after;
    EndIsTurn(l, swapped);
    var ended := Next(ls[|steps|], EndRun);
    RunsCompose(ls, steps, [ls[|steps|], ended], [EndRun]);
    ls, steps := ls + [ls[|steps|], ended][1..], steps + [EndRun];
  }

  lemma EndIsTurn(l: Loop, swapped: Loop)
    requires l.pc.AtQuitCheck? && !l.quit
    requires swapped == (if l.counter > 0 then l.(counter := 0) else l).(batch := l.queue, queue := [], pc := Running)
    ensures RunBatch(swapped).pc.Running? && RunBatch(swapped).batch == [] && RunBatch(swapped).inFlight == l.inFlight
    ensures RunBatch(swapped).(pc := AtQuitCheck) == Turn(l)
  {
    RunBatchStartsAll(swapped);
    RunBatchStartsAll((if l.counter > 0 then l.(counter := 0) else l).(batch := l.queue, queue := []));
  }

  // ---------- quitting ----------

  /** A quit request is honoured at the next loop condition, and the loop is left for no other reason. */
  lemma {:induction false} QuitIsHonoured(ls: seq<Loop>, steps: seq<Action>, i: nat, j: nat)
    requires IsRun(ls, steps) && i < j < |steps| && steps[i].SetQuit?
    ensures ls[j].quit && (steps[j].TestQuit? ==> ls[j + 1].pc.Gone?)
    decreases j
  {
    if i < j - 1 {
      QuitIsHonoured(ls, steps, i, j - 1);
    }
    assert ls[j] == Next(ls[j - 1], steps[j - 1]);
    assert ls[j + 1] == Next(ls[j], steps[j]);
  }
}
