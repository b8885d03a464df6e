/** The life of connections across threads: TcpServer.cpp's accept and removal on the main loop,
    TcpConnection.cpp's establishment, events, close and destruction on the loop of each connection,
    and the shared pointers that keep a connection alive, as a state machine over every interleaving
    of the loops. */
module ServerLifecycle {
  import opened Wrappers
  import TcpOutput

  type ConnId = nat
  type Fd = nat
  type LoopId = nat

  const MAIN: LoopId := 0

  /** What is posted to a loop; a task holds a reference to its connection. */
  datatype Task =
    | Establish(conn: ConnId)
    | Remove(conn: ConnId)
    | Destroy(conn: ConnId)

  /** A loop thread: tasks posted, tasks swapped out and not yet run, tasks run whose references are
      not yet dropped, and the active channels still to be handled. */
  datatype Loop = Loop(queue: seq<Task>, batch: seq<Task>, done: seq<Task>, active: seq<ConnId>) {
    /** The thread is polling or handling events, not running tasks. */
    predicate Dispatching() {
      batch == [] && done == []
    }
  }

  /** A connection; `registered` says that epoll knows its channel. The counters are its history:
      runs of `connectEstablished`, of the close callback, of the removal task and of
      `connectDestroyed`, and how often it left the state Disconnected. */
  datatype Conn = Conn(
    fd: Fd,
    home: LoopId,
    tcp: TcpOutput.Tcp,
    registered: bool,
    freed: bool,
    established: nat,
    closes: nat,
    removed: nat,
    destroyed: nat,
    revivals: nat)

  datatype Server = Server(conns: map<ConnId, Conn>, connections: map<Fd, ConnId>, loops: seq<Loop>)

  const IDLE: Loop := Loop([], [], [], [])

  /** A server whose thread pool has `threads` loops. */
  function Started(threads: nat): Server {
    Server(map[], map[], seq(threads + 1, _ => IDLE))
  }

  // ---------- steps ----------

  function Post(s: Server, l: LoopId, task: Task): Server
    requires l < |s.loops|
  {
    s.(loops := s.loops[l := s.loops[l].(queue := s.loops[l].queue + [task])])
  }

  /** One round of the loop in `handleAccept`. */
  function Accept(s: Server, c: ConnId, fd: Fd, home: LoopId): Server
    requires home < |s.loops|
  {
    var conn := Conn(fd, home, TcpOutput.START.(reading := false), false, false, 0, 0, 0, 0, 0);
    Post(s.(conns := s.conns[c := conn], connections := s.connections[fd := c]), home, Establish(c))
  }

  predicate Closes(t: TcpOutput.Tcp, a: TcpOutput.Action)
    requires TcpOutput.Possible(t, a)
  {
    !t.state.Disconnected? && TcpOutput.Next(t, a).state.Disconnected?
  }

  /** The close callback has run and the connection is open again. */
  predicate Revives(t: TcpOutput.Tcp, a: TcpOutput.Action) {
    a.DoShutdown? && t.state.Disconnected? && t.writing
  }

  /** An operation of the output path on the connection. A close takes the channel out of epoll and
      runs the close callback, which posts the removal; the operations that may call `updateChannel`
      put the channel back. */
  function Act(s: Server, c: ConnId, a: TcpOutput.Action): Server
    requires c in s.conns && TcpOutput.Possible(s.conns[c].tcp, a) && 0 < |s.loops|
  {
    var k := s.conns[c];
    var updates := a.DoSend? || a.DoSendFile? || a.DoWrite?;
    var closing := Closes(k.tcp, a);
    var q := s.(conns := s.conns[c := k.(
      tcp := TcpOutput.Next(k.tcp, a),
      registered := !closing && (k.registered || updates),
      closes := k.closes + (if closing then 1 else 0),
      revivals := k.revivals + (if Revives(k.tcp, a) then 1 else 0))]);
    if closing then Post(q, MAIN, Remove(c)) else q
  }

  function RunEstablish(k: Conn): Conn {
    k.(tcp := k.tcp.(state := TcpOutput.Connected, reading := true),
       registered := true,
       established := k.established + 1)
  }

  function RunDestroy(k: Conn): Conn {
    k.(tcp := k.tcp.(reading := false, writing := false), registered := false, destroyed := k.destroyed + 1)
  }

  /** The body of a task. */
  function Execute(s: Server, task: Task): Server
    requires task.conn in s.conns && s.conns[task.conn].home < |s.loops|
  {
    var c := task.conn;
    var k := s.conns[c];
    match task
    case Establish(_) => s.(conns := s.conns[c := RunEstablish(k)])
    case Destroy(_) => s.(conns := s.conns[c := RunDestroy(k)])
    case Remove(_) =>
      var erased := s.(connections := s.connections - {k.fd}, conns := s.conns[c := k.(removed := k.removed + 1)]);
      Post(erased, k.home, Destroy(c))
  }

  /** `RunTask` on the first task that is left in the batch. */
  function RunFirst(s: Server, l: LoopId): Server
    requires l < |s.loops| && s.loops[l].batch != []
    requires var c := s.loops[l].batch[0].conn; c in s.conns && s.conns[c].home < |s.loops|
  {
    var p := s.loops[l];
    Execute(s.(loops := s.loops[l := p.(batch := p.batch[1..], done := p.done + [p.batch[0]])]), p.batch[0])
  }

  function Swap(s: Server, l: LoopId): Server
    requires l < |s.loops|
  {
    var p := s.loops[l];
    s.(loops := s.loops[l := p.(batch := p.queue, queue := [])])
  }

  datatype Action =
    | DoAccept(c: ConnId, fd: Fd, home: LoopId)
    | Poll(l: LoopId, ready: seq<ConnId>)
    | Callback(l: LoopId, a: TcpOutput.Action)
    | EndEvent(l: LoopId)
    | Timeout(c: ConnId)
    | SwapQueue(l: LoopId)
    | RunTask(l: LoopId)
    | DropBatch(l: LoopId)
    | Free(c: ConnId)

  /** Somebody holds a shared pointer: the map of the server, or a task. */
  predicate Referenced(s: Server, c: ConnId) {
    (exists fd | fd in s.connections :: s.connections[fd] == c) ||
    exists l | 0 <= l < |s.loops| :: HeldBy(s.loops[l], c)
  }

  predicate HeldBy(p: Loop, c: ConnId) {
    exists task | task in p.queue + p.batch + p.done :: task.conn == c
  }

  /** The kernel hands out a descriptor that is not open; epoll reports registered channels of its own
      loop; a timeout fires on the loop of a connection that was established, which armed its timer, and
      not destroyed, which cancels it: afterwards no timer of the connection fires
      (`TimerProtocol.CancelStopsAll` and `OnlyLiveTimersRun`). */
  predicate Enabled(s: Server, a: Action) {
    0 < |s.loops| &&
    match a
    case DoAccept(c, fd, home) =>
      c !in s.conns && 0 < home < |s.loops| && s.loops[MAIN].Dispatching() &&
      forall d | d in s.conns && !s.conns[d].freed :: s.conns[d].fd != fd
    case Poll(l, ready) =>
      l < |s.loops| && s.loops[l].Dispatching() && s.loops[l].active == [] &&
      forall c | c in ready :: c in s.conns && s.conns[c].home == l && s.conns[c].registered
    case Callback(l, a) =>
      l < |s.loops| && s.loops[l].Dispatching() && s.loops[l].active != [] && s.loops[l].active[0] in s.conns &&
      TcpOutput.Possible(s.conns[s.loops[l].active[0]].tcp, a)
    case EndEvent(l) => l < |s.loops| && s.loops[l].Dispatching() && s.loops[l].active != []
    case Timeout(c) =>
      c in s.conns && !s.conns[c].freed && s.conns[c].established > 0 && s.conns[c].destroyed == 0 &&
      s.conns[c].home < |s.loops| && s.loops[s.conns[c].home].Dispatching()
    case SwapQueue(l) => l < |s.loops| && s.loops[l].Dispatching() && s.loops[l].active == []
    case RunTask(l) =>
      l < |s.loops| && s.loops[l].batch != [] &&
      var c := s.loops[l].batch[0].conn; c in s.conns && s.conns[c].home < |s.loops|
    case DropBatch(l) => l < |s.loops| && s.loops[l].batch == []
    case Free(c) => c in s.conns && !s.conns[c].freed && !Referenced(s, c)
  }

  function Next(s: Server, a: Action): Server
    requires Enabled(s, a)
  {
    match a
    case DoAccept(c, fd, home) => Accept(s, c, fd, home)
    case Poll(l, ready) => s.(loops := s.loops[l := s.loops[l].(active := ready)])
    case Callback(l, a) => Act(s, s.loops[l].active[0], a)
    case EndEvent(l) => s.(loops := s.loops[l := s.loops[l].(active := s.loops[l].active[1..])])
    case Timeout(c) => Act(s, c, TcpOutput.DoClose)
    case SwapQueue(l) => Swap(s, l)
    case RunTask(l) => RunFirst(s, l)
    case DropBatch(l) => s.(loops := s.loops[l := s.loops[l].(done := [])])
    case Free(c) => s.(conns := s.conns[c := s.conns[c].(freed := true)])
  }

  // ---------- what every interleaving keeps ----------

  /** How often a task waits in a loop. */
  function Waiting(p: Loop, task: Task): nat {
    multiset(p.batch)[task] + multiset(p.queue)[task]
  }

  /** The books of one connection. Every run of a callback is matched by the task that it posted,
      waiting or run. */
  predicate Balanced(k: Conn, c: ConnId, main: Loop, home: Loop) {
    && k.established + Waiting(home, Establish(c)) == 1
    && k.removed + Waiting(main, Remove(c)) == k.closes
    && k.destroyed + Waiting(home, Destroy(c)) == k.removed
    && k.closes == k.revivals + (if k.tcp.state.Disconnected? then 1 else 0)
    && (k.registered ==> k.established == 1 && k.destroyed == 0)
    && (k.closes > 0 ==> k.established == 1)
    && (k.freed ==> k.destroyed > 0)
  }

  predicate Tracked(s: Server, c: ConnId)
    requires c in s.conns
  {
    var k := s.conns[c];
    && 0 < k.home < |s.loops|
    && Balanced(k, c, s.loops[MAIN], s.loops[k.home])
    && (k.removed == 0 <==> k.fd in s.connections && s.connections[k.fd] == c)
  }

  /** A task of a living connection, on the thread where it belongs. */
  predicate Placed(s: Server, l: LoopId, task: Task) {
    task.conn in s.conns && !s.conns[task.conn].freed && l == if task.Remove? then MAIN else s.conns[task.conn].home
  }

  /** The channel of a living connection of this loop, which is established and not destroyed. */
  predicate Alive(s: Server, l: LoopId, c: ConnId) {
    c in s.conns && s.conns[c].home == l && s.conns[c].established == 1 && s.conns[c].destroyed == 0
  }

  predicate Ordered(s: Server, l: LoopId)
    requires l < |s.loops|
  {
    var p := s.loops[l];
    && (forall task | task in p.queue + p.batch + p.done :: Placed(s, l, task))
    && (forall c | c in p.active :: Alive(s, l, c))
    && (!p.Dispatching() ==> p.active == [])
  }

  /** The server's map holds living connections under their own descriptors. */
  predicate Entered(s: Server) {
    forall fd | fd in s.connections ::
      var c := s.connections[fd]; c in s.conns && s.conns[c].fd == fd && !s.conns[c].freed
  }

  /** Living connections have different descriptors. */
  predicate Distinct(s: Server) {
    forall c, d | c in s.conns && d in s.conns && c != d && !s.conns[c].freed && !s.conns[d].freed ::
      s.conns[c].fd != s.conns[d].fd
  }

  predicate Inv(s: Server) {
    && 0 < |s.loops|
    && (forall c | c in s.conns :: Tracked(s, c))
    && (forall l: LoopId | l < |s.loops| :: Ordered(s, l))
    && Entered(s)
    && Distinct(s)
  }

  // ---------- the books ----------

  lemma PostCounts(p: Loop, task: Task, t: Task)
    ensures Waiting(p.(queue := p.queue + [task]), t) == Waiting(p, t) + if t == task then 1 else 0
  {
  }

  lemma TakeCounts(p: Loop, t: Task)
    requires p.batch != []
    ensures Waiting(p.(batch := p.batch[1..], done := p.done + [p.batch[0]]), t)
            == Waiting(p, t) - if t == p.batch[0] then 1 else 0
  {
    assert p.batch == [p.batch[0]] + p.batch[1..];
  }

  lemma SwapCounts(p: Loop, t: Task)
    requires p.batch == []
    ensures Waiting(p.(batch := p.queue, queue := []), t) == Waiting(p, t)
  {
  }

  /** A waiting task is in one of the sequences. */
  lemma WaitingIsHeld(p: Loop, t: Task)
    requires Waiting(p, t) > 0
    ensures t in p.queue + p.batch + p.done && HeldBy(p, t.conn)
  {
    assert t in multiset(p.batch) || t in multiset(p.queue);
  }

  /** A connection that a step does not concern. */
  predicate SameBooks(s: Server, q: Server, c: ConnId)
    requires c in s.conns && s.conns[c].home < |s.loops| && 0 < |s.loops|
  {
    && |q.loops| == |s.loops|
    && c in q.conns && q.conns[c] == s.conns[c]
    && Waiting(q.loops[MAIN], Remove(c)) == Waiting(s.loops[MAIN], Remove(c))
    && Waiting(q.loops[s.conns[c].home], Establish(c)) == Waiting(s.loops[s.conns[c].home], Establish(c))
    && Waiting(q.loops[s.conns[c].home], Destroy(c)) == Waiting(s.loops[s.conns[c].home], Destroy(c))
    && (s.conns[c].fd in q.connections && q.connections[s.conns[c].fd] == c <==>
        s.conns[c].fd in s.connections && s.connections[s.conns[c].fd] == c)
  }

  lemma BooksFrame(s: Server, q: Server, c: ConnId)
    requires c in s.conns && Tracked(s, c) && SameBooks(s, q, c)
    ensures Tracked(q, c)
  {
  }

  /** Connections keep what tasks and events rely on. */
  predicate Grows(s: Server, q: Server) {
    |q.loops| == |s.loops| &&
    forall c | c in s.conns ::
      c in q.conns && q.conns[c].home == s.conns[c].home && (!s.conns[c].freed ==> !q.conns[c].freed)
  }

  // ---------- steps ----------

  lemma AcceptKeepsInv(s: Server, c: ConnId, fd: Fd, home: LoopId)
    requires Inv(s) && Enabled(s, DoAccept(c, fd, home))
    ensures Inv(Accept(s, c, fd, home))
  {
    hide Tracked, Waiting;
    var q := Accept(s, c, fd, home);
    forall d | d in q.conns
      ensures Tracked(q, d)
    {
      AcceptKeepsBooks(s, c, fd, home, d);
    }
    assert Placed(q, home, Establish(c));
    forall m: LoopId, d | m < |s.loops| && d in s.loops[m].active
      ensures Alive(q, m, d)
    {
      assert Ordered(s, m) && Alive(s, m, d);
    }
    PostKeepsOrder(s, q, home, Establish(c));
  }

  lemma AcceptKeepsBooks(s: Server, c: ConnId, fd: Fd, home: LoopId, d: ConnId)
    requires Inv(s) && Enabled(s, DoAccept(c, fd, home)) && (d == c || d in s.conns)
    ensures Tracked(Accept(s, c, fd, home), d)
  {
    hide Tracked, Accept;
    if d == c {
      AcceptOpensBooks(s, c, fd, home);
    } else {
      AcceptKeepsOtherBooks(s, c, fd, home, d);
    }
  }

  lemma AcceptOpensBooks(s: Server, c: ConnId, fd: Fd, home: LoopId)
    requires Inv(s) && Enabled(s, DoAccept(c, fd, home))
    ensures Tracked(Accept(s, c, fd, home), c)
  {
    hide Waiting, Entered, Distinct, Ordered;
    PostCounts(s.loops[home], Establish(c), Establish(c));
    PostCounts(s.loops[home], Establish(c), Destroy(c));
    NotPosted(s, c);
  }

  lemma AcceptKeepsOtherBooks(s: Server, c: ConnId, fd: Fd, home: LoopId, d: ConnId)
    requires Inv(s) && Enabled(s, DoAccept(c, fd, home)) && d in s.conns && d != c
    ensures Tracked(Accept(s, c, fd, home), d)
  {
    hide Waiting, Balanced, Entered, Distinct, Ordered;
    PostCounts(s.loops[home], Establish(c), Establish(d));
    PostCounts(s.loops[home], Establish(c), Destroy(d));
    assert Tracked(s, d);
    AcceptOverwritesNothing(s, c, fd, home);
    BooksFrame(s, Accept(s, c, fd, home), d);
  }

  /** Nothing is posted for a connection that does not exist. */
  lemma NotPosted(s: Server, c: ConnId)
    requires Inv(s) && c !in s.conns
    ensures forall l: LoopId, t: Task | l < |s.loops| && t.conn == c :: Waiting(s.loops[l], t) == 0
  {
    forall l: LoopId, t: Task | l < |s.loops| && t.conn == c
      ensures Waiting(s.loops[l], t) == 0
    {
      var p := s.loops[l];
      assert Ordered(s, l);
      assert t in p.queue + p.batch + p.done ==> Placed(s, l, t);
      if Waiting(p, t) > 0 {
        WaitingIsHeld(p, t);
      }
    }
  }

  /** A step that posts `task` and otherwise leaves the loops alone. */
  lemma PostKeepsOrder(s: Server, q: Server, l: LoopId, task: Task)
    requires l < |s.loops| && Grows(s, q) && q.loops == s.loops[l := s.loops[l].(queue := s.loops[l].queue + [task])]
    requires forall m: LoopId | m < |s.loops| :: Ordered(s, m)
    requires forall m: LoopId, c | m < |s.loops| && c in s.loops[m].active :: Alive(q, m, c)
    requires Placed(q, l, task)
    ensures forall m: LoopId | m < |q.loops| :: Ordered(q, m)
  {
    forall m: LoopId | m < |q.loops|
      ensures Ordered(q, m)
    {
      assert Ordered(s, m);
      forall t | t in q.loops[m].queue + q.loops[m].batch + q.loops[m].done
        ensures Placed(q, m, t)
      {
        if t in s.loops[m].queue + s.loops[m].batch + s.loops[m].done {
          assert Placed(s, m, t);
        }
      }
    }
  }

  /** The state Disconnected is entered by a close and left by a shutdown that finds something still
      to be written, and in no other way. */
  lemma StateIsLeftByShutdown(t: TcpOutput.Tcp, a: TcpOutput.Action)
    requires TcpOutput.Possible(t, a)
    ensures t.state.Disconnected? && !TcpOutput.Next(t, a).state.Disconnected? <==> Revives(t, a)
  {
    hide TcpOutput.Source.Rest;
  }

  lemma ActKeepsInv(s: Server, c: ConnId, a: TcpOutput.Action)
    requires Inv(s) && c in s.conns && TcpOutput.Possible(s.conns[c].tcp, a) && Alive(s, s.conns[c].home, c)
    ensures Inv(Act(s, c, a))
  {
    hide Tracked, Waiting, TcpOutput.Next;
    var q := Act(s, c, a);
    assert Tracked(s, c);
    forall d | d in q.conns
      ensures Tracked(q, d)
    {
      ActKeepsBooks(s, c, a, d);
    }
    forall m: LoopId, d | m < |s.loops| && d in s.loops[m].active
      ensures Alive(q, m, d)
    {
      assert Ordered(s, m) && Alive(s, m, d);
    }
    ActKeepsOrder(s, c, a);
  }

  lemma ActKeepsOrder(s: Server, c: ConnId, a: TcpOutput.Action)
    requires Inv(s) && c in s.conns && TcpOutput.Possible(s.conns[c].tcp, a) && Alive(s, s.conns[c].home, c)
    ensures forall m: LoopId | m < |s.loops| :: Ordered(Act(s, c, a), m)
  {
    hide Waiting, TcpOutput.Next;
    var q := Act(s, c, a);
    assert Tracked(s, c);
    forall m: LoopId, d | m < |s.loops| && d in s.loops[m].active
      ensures Alive(q, m, d)
    {
      assert Ordered(s, m) && Alive(s, m, d);
    }
    if Closes(s.conns[c].tcp, a) {
      PostKeepsOrder(s, q, MAIN, Remove(c));
    } else {
      SameLoopsKeepOrder(s, q);
    }
  }

  /** A step that leaves the loops alone. */
  lemma SameLoopsKeepOrder(s: Server, q: Server)
    requires Grows(s, q) && q.loops == s.loops
    requires forall m: LoopId | m < |s.loops| :: Ordered(s, m)
    requires forall m: LoopId, c | m < |s.loops| && c in s.loops[m].active :: Alive(q, m, c)
    ensures forall m: LoopId | m < |q.loops| :: Ordered(q, m)
  {
    forall m: LoopId | m < |q.loops|
      ensures Ordered(q, m)
    {
      assert Ordered(s, m);
      forall t | t in q.loops[m].queue + q.loops[m].batch + q.loops[m].done
        ensures Placed(q, m, t)
      {
        assert Placed(s, m, t);
      }
    }
  }

  lemma ActKeepsBooks(s: Server, c: ConnId, a: TcpOutput.Action, d: ConnId)
    requires Inv(s) && c in s.conns && TcpOutput.Possible(s.conns[c].tcp, a) && Alive(s, s.conns[c].home, c)
    requires d in s.conns
    ensures Tracked(Act(s, c, a), d)
  {
    hide Tracked, Act;
    if d == c {
      ActKeepsItsBooks(s, c, a);
    } else {
      ActKeepsOtherBooks(s, c, a, d);
    }
  }

  lemma ActKeepsItsBooks(s: Server, c: ConnId, a: TcpOutput.Action)
    requires Inv(s) && c in s.conns && TcpOutput.Possible(s.conns[c].tcp, a) && Alive(s, s.conns[c].home, c)
    ensures Tracked(Act(s, c, a), c)
  {
    hide Waiting, TcpOutput.Next, Entered, Distinct, Ordered;
    StateIsLeftByShutdown(s.conns[c].tcp, a);
    assert Tracked(s, c);
    PostCounts(s.loops[MAIN], Remove(c), Remove(c));
  }

  lemma ActKeepsOtherBooks(s: Server, c: ConnId, a: TcpOutput.Action, d: ConnId)
    requires Inv(s) && c in s.conns && TcpOutput.Possible(s.conns[c].tcp, a) && d in s.conns && d != c
    ensures Tracked(Act(s, c, a), d)
  {
    hide Waiting, TcpOutput.Next, Balanced, Entered, Distinct, Ordered;
    assert Tracked(s, d);
    PostCounts(s.loops[MAIN], Remove(c), Remove(d));
    BooksFrame(s, Act(s, c, a), d);
  }

  /** The removal erases the entry of that very connection, or nothing. */
  lemma RemovalErasesItself(s: Server, c: ConnId)
    requires Inv(s) && c in s.conns && !s.conns[c].freed
    ensures s.conns[c].fd in s.connections ==> s.connections[s.conns[c].fd] == c
  {
    var fd := s.conns[c].fd;
    assert fd in s.connections ==> s.connections[fd] in s.conns && s.conns[s.connections[fd]].fd == fd;
  }

  lemma RunKeepsBooks(s: Server, l: LoopId, d: ConnId)
    requires Inv(s) && Enabled(s, RunTask(l)) && d in s.conns
    ensures Tracked(RunFirst(s, l), d)
  {
    hide Waiting, Tracked, RunFirst, Ordered;
    if d == s.loops[l].batch[0].conn {
      RunKeepsItsBooks(s, l);
    } else {
      RunKeepsOtherBooks(s, l, d);
    }
  }

  /** The connection of the task. */
  lemma RunKeepsItsBooks(s: Server, l: LoopId)
    requires Inv(s) && Enabled(s, RunTask(l))
    ensures Tracked(RunFirst(s, l), s.loops[l].batch[0].conn)
  {
    hide Waiting, Entered, Distinct;
    var p := s.loops[l];
    var task := p.batch[0];
    var c := task.conn;
    assert Ordered(s, l) && Placed(s, l, task) && Tracked(s, c);
    TakeCounts(p, Remove(c));
    TakeCounts(p, Establish(c));
    TakeCounts(p, Destroy(c));
    PostCounts(s.loops[s.conns[c].home], Destroy(c), Establish(c));
    PostCounts(s.loops[s.conns[c].home], Destroy(c), Destroy(c));
    RemovalErasesItself(s, c);
  }

  /** All the others. */
  lemma RunKeepsOtherBooks(s: Server, l: LoopId, d: ConnId)
    requires Inv(s) && Enabled(s, RunTask(l)) && d in s.conns && d != s.loops[l].batch[0].conn
    ensures Tracked(RunFirst(s, l), d)
  {
    hide Waiting, Balanced, Entered, Distinct;
    var p := s.loops[l];
    var task := p.batch[0];
    var c := task.conn;
    assert Ordered(s, l) && Placed(s, l, task) && Tracked(s, c) && Tracked(s, d);
    TakeCounts(p, Remove(d));
    TakeCounts(p, Establish(d));
    TakeCounts(p, Destroy(d));
    PostCounts(s.loops[s.conns[c].home], Destroy(c), Establish(d));
    PostCounts(s.loops[s.conns[c].home], Destroy(c), Destroy(d));
    RemovalErasesItself(s, c);
    BooksFrame(s, RunFirst(s, l), d);
  }

  lemma RunKeepsOrder(s: Server, l: LoopId)
    requires Inv(s) && Enabled(s, RunTask(l))
    ensures forall m: LoopId | m < |s.loops| :: Ordered(RunFirst(s, l), m)
  {
    hide Waiting, Balanced;
    var p := s.loops[l];
    var task := p.batch[0];
    var taken := p.(batch := p.batch[1..], done := p.done + [task]);
    var mid := s.(loops := s.loops[l := taken]);
    var q := RunFirst(s, l);
    assert Ordered(s, l) && Placed(s, l, task);
    assert p.batch == [task] + p.batch[1..];
    assert Tracked(s, task.conn);
    forall m: LoopId | m < |mid.loops|
      ensures Ordered(mid, m)
    {
      assert Ordered(s, m);
      forall t | t in mid.loops[m].queue + mid.loops[m].batch + mid.loops[m].done
        ensures Placed(mid, m, t)
      {
        assert t in s.loops[m].queue + s.loops[m].batch + s.loops[m].done;
        assert Placed(s, m, t);
      }
    }
    forall m: LoopId, d | m < |mid.loops| && d in mid.loops[m].active
      ensures Alive(q, m, d)
    {
      ActiveStayAlive(s, l, m, d);
    }
    if task.Remove? {
      PostKeepsOrder(mid, q, s.conns[task.conn].home, Destroy(task.conn));
    } else {
      SameLoopsKeepOrder(mid, q);
    }
  }

  /** Tasks run when no channel of their loop is waiting to be handled. */
  lemma ActiveStayAlive(s: Server, l: LoopId, m: LoopId, d: ConnId)
    requires Inv(s) && Enabled(s, RunTask(l)) && m < |s.loops| && d in s.loops[m].active
    ensures m != l && Alive(RunFirst(s, l), m, d)
  {
    hide Waiting;
    var task := s.loops[l].batch[0];
    assert Ordered(s, l) && Ordered(s, m) && Alive(s, m, d) && Placed(s, l, task);
    assert Tracked(s, task.conn);
    TakeCounts(s.loops[l], task);
  }

  lemma RunKeepsInv(s: Server, l: LoopId)
    requires Inv(s) && Enabled(s, RunTask(l))
    ensures Inv(RunFirst(s, l))
  {
    hide Tracked, Ordered, Waiting;
    var q := RunFirst(s, l);
    forall d | d in q.conns
      ensures Tracked(q, d)
    {
      RunKeepsBooks(s, l, d);
    }
    RunKeepsOrder(s, l);
  }

  /** A step of one loop thread that posts nothing and concerns no connection. */
  lemma LocalStepKeepsInv(s: Server, l: LoopId, p: Loop)
    requires Inv(s) && l < |s.loops|
    requires forall t :: Waiting(p, t) == Waiting(s.loops[l], t)
    requires forall t | t in p.queue + p.batch + p.done :: t in s.loops[l].queue + s.loops[l].batch + s.loops[l].done
    requires forall c | c in p.active :: Alive(s, l, c)
    requires !p.Dispatching() ==> p.active == []
    ensures Inv(s.(loops := s.loops[l := p]))
  {
    hide Waiting, Balanced;
    var q := s.(loops := s.loops[l := p]);
    forall d | d in q.conns
      ensures Tracked(q, d)
    {
      assert Tracked(s, d);
      BooksFrame(s, q, d);
    }
    forall m: LoopId | m < |q.loops|
      ensures Ordered(q, m)
    {
      assert Ordered(s, m) && Ordered(s, l);
      forall t | t in q.loops[m].queue + q.loops[m].batch + q.loops[m].done
        ensures Placed(q, m, t)
      {
        assert Placed(s, m, t);
      }
      forall c | c in q.loops[m].active
        ensures Alive(q, m, c)
      {
        assert Alive(s, m, c);
      }
    }
  }

  /** When the last shared pointer goes, the connection has been established and destroyed, epoll no
      longer knows its channel, and no loop is about to handle one of its events. */
  lemma FreeIsSafe(s: Server, c: ConnId)
    requires Inv(s) && c in s.conns && !Referenced(s, c)
    ensures s.conns[c].established == 1 && s.conns[c].destroyed > 0 && !s.conns[c].registered
    ensures forall l: LoopId | l < |s.loops| :: c !in s.loops[l].active
    ensures Enabled(s, Free(c)) ==> Next(s, Free(c)).conns == s.conns[c := s.conns[c].(freed := true)]
  {
    hide Waiting;
    var k := s.conns[c];
    assert Tracked(s, c);
    var home := s.loops[k.home];
    assert !HeldBy(home, c) && !HeldBy(s.loops[MAIN], c);
    if Waiting(home, Establish(c)) > 0 { WaitingIsHeld(home, Establish(c)); }
    if Waiting(home, Destroy(c)) > 0 { WaitingIsHeld(home, Destroy(c)); }
    forall l: LoopId | l < |s.loops|
      ensures c !in s.loops[l].active
    {
      assert Ordered(s, l);
      assert c in s.loops[l].active ==> Alive(s, l, c);
    }
  }

  lemma FreeKeepsInv(s: Server, c: ConnId)
    requires Inv(s) && Enabled(s, Free(c))
    ensures Inv(Next(s, Free(c)))
  {
    hide Ordered, Waiting, Tracked;
    var q := Next(s, Free(c));
    forall d | d in q.conns
      ensures Tracked(q, d)
    {
      FreeKeepsBooks(s, c, d);
    }
    forall m: LoopId | m < |q.loops|
      ensures Ordered(q, m)
    {
      FreeKeepsOrder(s, c, m);
    }
  }

  lemma FreeKeepsBooks(s: Server, c: ConnId, d: ConnId)
    requires Inv(s) && Enabled(s, Free(c)) && d in s.conns
    ensures Tracked(Next(s, Free(c)), d)
  {
    hide Ordered, Waiting, Entered, Distinct, Referenced;
    FreeIsSafe(s, c);
    assert Tracked(s, d);
  }

  lemma FreeKeepsOrder(s: Server, c: ConnId, m: LoopId)
    requires Inv(s) && Enabled(s, Free(c)) && m < |s.loops|
    ensures Ordered(Next(s, Free(c)), m)
  {
    hide Waiting, Tracked, Entered, Distinct;
    var q := Next(s, Free(c));
    assert Ordered(s, m) && !HeldBy(s.loops[m], c);
    forall t | t in q.loops[m].queue + q.loops[m].batch + q.loops[m].done
      ensures Placed(q, m, t)
    {
      assert Placed(s, m, t);
    }
    forall d | d in q.loops[m].active
      ensures Alive(q, m, d)
    {
      assert Alive(s, m, d);
    }
  }

  lemma StepKeepsInv(s: Server, a: Action)
    requires Inv(s) && Enabled(s, a)
    ensures Inv(Next(s, a))
  {
    hide Tracked, Waiting, TcpOutput.Next, Act, RunFirst, Accept;
    match a
    case DoAccept(c, fd, home) => AcceptKeepsInv(s, c, fd, home);
    case Poll(l, ready) => PollKeepsInv(s, l, ready);
    case Callback(l, op) =>
      assert Ordered(s, l) && Alive(s, l, s.loops[l].active[0]);
      ActKeepsInv(s, s.loops[l].active[0], op);
    case EndEvent(l) => EndEventKeepsInv(s, l);
    case Timeout(c) =>
      LivingAreAlive(s, c);
      ActKeepsInv(s, c, TcpOutput.DoClose);
    case SwapQueue(l) => SwapKeepsInv(s, l);
    case RunTask(l) => RunKeepsInv(s, l);
    case DropBatch(l) => DropKeepsInv(s, l);
    case Free(c) => FreeKeepsInv(s, c);
  }

  lemma LivingAreAlive(s: Server, c: ConnId)
    requires Inv(s) && Enabled(s, Timeout(c))
    ensures Alive(s, s.conns[c].home, c)
  {
    assert Tracked(s, c);
  }

  lemma PollKeepsInv(s: Server, l: LoopId, ready: seq<ConnId>)
    requires Inv(s) && Enabled(s, Poll(l, ready))
    ensures Inv(Next(s, Poll(l, ready)))
  {
    hide Waiting;
    var p := s.loops[l].(active := ready);
    forall t ensures Waiting(p, t) == Waiting(s.loops[l], t) { SameTasksCount(s.loops[l], p, t); }
    forall c | c in ready
      ensures Alive(s, l, c)
    {
      assert Tracked(s, c);
    }
    LocalStepKeepsInv(s, l, p);
  }

  lemma SameTasksCount(p: Loop, q: Loop, t: Task)
    requires p.queue == q.queue && p.batch == q.batch
    ensures Waiting(p, t) == Waiting(q, t)
  {
  }

  lemma EndEventKeepsInv(s: Server, l: LoopId)
    requires Inv(s) && Enabled(s, EndEvent(l))
    ensures Inv(Next(s, EndEvent(l)))
  {
    hide Waiting, Tracked;
    var p := s.loops[l].(active := s.loops[l].active[1..]);
    forall t ensures Waiting(p, t) == Waiting(s.loops[l], t) { SameTasksCount(s.loops[l], p, t); }
    assert Ordered(s, l);
    LocalStepKeepsInv(s, l, p);
  }

  lemma SwapKeepsInv(s: Server, l: LoopId)
    requires Inv(s) && Enabled(s, SwapQueue(l))
    ensures Inv(Swap(s, l))
  {
    hide Waiting, Tracked;
    var p := s.loops[l];
    forall t ensures Waiting(p.(batch := p.queue, queue := []), t) == Waiting(p, t) { SwapCounts(p, t); }
    LocalStepKeepsInv(s, l, p.(batch := p.queue, queue := []));
  }

  lemma DropKeepsInv(s: Server, l: LoopId)
    requires Inv(s) && Enabled(s, DropBatch(l))
    ensures Inv(Next(s, DropBatch(l)))
  {
    hide Waiting, Tracked;
    var p := s.loops[l].(done := []);
    forall t ensures Waiting(p, t) == Waiting(s.loops[l], t) { SameTasksCount(s.loops[l], p, t); }
    assert Ordered(s, l);
    LocalStepKeepsInv(s, l, p);
  }

  // ---------- theorems ----------

  ghost predicate IsRun(ss: seq<Server>, steps: seq<Action>) {
    |ss| == |steps| + 1 && forall i: nat | i < |steps| :: Enabled(ss[i], steps[i]) && ss[i + 1] == Next(ss[i], steps[i])
  }

  /** A connection is established at most once and only before it is destroyed; every destruction
      answers a removal and every removal a close; epoll knows only channels of living connections. */
  predicate Lived(k: Conn) {
    && k.established <= 1
    && (k.destroyed > 0 ==> k.established == 1)
    && k.destroyed <= k.removed <= k.closes
    && (k.registered ==> !k.freed && k.destroyed == 0)
    && (k.freed ==> k.destroyed > 0)
  }

  lemma {:induction false} EveryRunIsSafe(ss: seq<Server>, steps: seq<Action>, threads: nat, i: nat)
    requires IsRun(ss, steps) && ss[0] == Started(threads) && i < |ss|
    ensures Inv(ss[i])
    ensures forall c | c in ss[i].conns :: Lived(ss[i].conns[c])
    ensures forall l: LoopId, c | l < |ss[i].loops| && c in ss[i].loops[l].active ::
              c in ss[i].conns && !ss[i].conns[c].freed && ss[i].conns[c].home == l
  {
    hide Next, Enabled;
    if i > 0 {
      EveryRunIsSafe(ss, steps, threads, i - 1);
      StepKeepsInv(ss[i - 1], steps[i - 1]);
    }
    InvIsSafe(ss[i]);
  }

  lemma InvIsSafe(s: Server)
    requires Inv(s)
    ensures forall c | c in s.conns :: Lived(s.conns[c])
    ensures forall l: LoopId, c | l < |s.loops| && c in s.loops[l].active ::
              c in s.conns && !s.conns[c].freed && s.conns[c].home == l
  {
    hide Waiting;
    forall c | c in s.conns
      ensures Lived(s.conns[c])
    {
      assert Tracked(s, c);
    }
    forall l: LoopId, c | l < |s.loops| && c in s.loops[l].active
      ensures c in s.conns && !s.conns[c].freed && s.conns[c].home == l
    {
      assert Ordered(s, l) && Alive(s, l, c) && Tracked(s, c);
    }
  }

  /** `q` has every entry of `s` except that of `c`. */
  predicate WithoutEntry(s: Server, q: Server, c: ConnId) {
    (forall fd | fd in s.connections && s.connections[fd] != c ::
      fd in q.connections && q.connections[fd] == s.connections[fd]) &&
    (forall fd | fd in q.connections :: fd in s.connections && q.connections[fd] == s.connections[fd] != c)
  }

  /** Tasks run on their own thread: establishment for the first time, destruction after it, and a
      removal erases the entry of its own connection or nothing, never that of a newer connection on
      the same descriptor. */
  lemma TasksRunWhereTheyBelong(s: Server, l: LoopId)
    requires Inv(s) && Enabled(s, RunTask(l))
    ensures var task := s.loops[l].batch[0]; var k := s.conns[task.conn]; var q := RunFirst(s, l);
            && !k.freed
            && (task.Establish? ==> l == k.home && k.established == 0 && k.closes == 0)
            && (task.Destroy? ==> l == k.home && k.established == 1 && k.closes > 0)
            && (task.Remove? ==> l == MAIN && k.closes > 0 && WithoutEntry(s, q, task.conn))
  {
    hide Waiting;
    var task := s.loops[l].batch[0];
    assert Ordered(s, l) && Placed(s, l, task) && Tracked(s, task.conn);
    TakeCounts(s.loops[l], task);
    RemovalErasesItself(s, task.conn);
  }

  /** A new connection never takes the place of another one in the map. */
  lemma AcceptOverwritesNothing(s: Server, c: ConnId, fd: Fd, home: LoopId)
    requires Inv(s) && Enabled(s, DoAccept(c, fd, home))
    ensures fd !in s.connections
  {
  }

  /** When no task is left, a connection is in the map and was never closed, or nobody refers to it
      any more: nothing leaks. */
  lemma NothingLeaks(s: Server, c: ConnId)
    requires Inv(s) && c in s.conns && !s.conns[c].freed
    requires forall l: LoopId | l < |s.loops| :: s.loops[l].queue + s.loops[l].batch + s.loops[l].done == []
    ensures s.conns[c].established == 1
    ensures if s.conns[c].closes == 0
            then s.conns[c].fd in s.connections && s.connections[s.conns[c].fd] == c
            else !Referenced(s, c)
  {
    hide Ordered, Distinct, Waiting, Referenced, Entered;
    assert Tracked(s, c);
    NothingWaits(s.loops[MAIN], Remove(c));
    NothingWaits(s.loops[s.conns[c].home], Establish(c));
    if s.conns[c].closes > 0 {
      RemovalErasesItself(s, c);
      NothingRefers(s, c);
    }
  }

  lemma NothingWaits(p: Loop, t: Task)
    requires p.queue + p.batch + p.done == []
    ensures Waiting(p, t) == 0
  {
  }

  lemma NothingRefers(s: Server, c: ConnId)
    requires Entered(s) && c in s.conns && s.conns[c].fd !in s.connections
    requires forall l: LoopId | l < |s.loops| :: s.loops[l].queue + s.loops[l].batch + s.loops[l].done == []
    ensures !Referenced(s, c)
  {
  }

  // ---------- open connections are served ----------

  /** Before its establishment a connection does nothing; from then on, until it is closed, epoll knows its
      channel, and it reads unless the output path has paused it; when it is destroyed it wants no events. */
  predicate Listening(k: Conn) {
    && (k.established == 0 ==> k.tcp == TcpOutput.START.(reading := false) && !k.registered)
    && (k.established == 1 && k.closes == 0 ==>
          k.registered && !k.tcp.state.Disconnected? && k.tcp.reading == !k.tcp.paused)
    && (k.destroyed > 0 ==> !k.tcp.reading && !k.tcp.writing)
  }

  lemma ActKeepsListening(k: Conn, a: TcpOutput.Action, q: Conn)
    requires Listening(k) && k.established == 1 && TcpOutput.Possible(k.tcp, a)
    requires q.tcp == TcpOutput.Next(k.tcp, a) && q.established == 1 && q.destroyed == 0
    requires q.closes == k.closes + if Closes(k.tcp, a) then 1 else 0
    requires !Closes(k.tcp, a) && k.registered ==> q.registered
    ensures Listening(q)
  {
    hide TcpOutput.Next;
    if q.closes == 0 {
      TcpOutput.ReadingUnlessPaused(k.tcp, a);
    }
  }

  lemma StepKeepsListening(s: Server, a: Action, c: ConnId)
    requires Inv(s) && Enabled(s, a) && c in Next(s, a).conns && (c in s.conns ==> Listening(s.conns[c]))
    ensures Listening(Next(s, a).conns[c])
  {
    hide TcpOutput.Next, Tracked, Ordered, Entered, Distinct, Listening;
    match a
    case DoAccept(d, fd, home) => NewOnesListen(fd, home);
    case Callback(l, op) =>
      assert Ordered(s, l);
      ActiveAreAlive(s, l);
      if c == s.loops[l].active[0] {
        ActKeepsListening(s.conns[c], op, Next(s, a).conns[c]);
      }
    case Timeout(d) =>
      LivingAreAlive(s, d);
      if c == d {
        ActKeepsListening(s.conns[c], TcpOutput.DoClose, Next(s, a).conns[c]);
      }
    case RunTask(l) =>
      TasksRunWhereTheyBelong(s, l);
      ClosesComeFirst(s, s.loops[l].batch[0].conn);
      TasksKeepListening(s, l, c);
    case Free(d) =>
      if c == d {
        FreedListen(s.conns[c]);
      }
    case _ =>
  }

  lemma NewOnesListen(fd: Fd, home: LoopId)
    ensures Listening(Conn(fd, home, TcpOutput.START.(reading := false), false, false, 0, 0, 0, 0, 0))
  {
  }

  lemma FreedListen(k: Conn)
    requires Listening(k)
    ensures Listening(k.(freed := true))
  {
  }

  lemma ActiveAreAlive(s: Server, l: LoopId)
    requires l < |s.loops| && Ordered(s, l) && s.loops[l].active != []
    ensures Alive(s, l, s.loops[l].active[0])
  {
  }

  lemma TasksKeepListening(s: Server, l: LoopId, c: ConnId)
    requires Enabled(s, RunTask(l)) && c in s.conns && Listening(s.conns[c])
    requires var task := s.loops[l].batch[0]; var k := s.conns[task.conn];
             (task.Establish? ==> k.established == 0 && k.destroyed == 0) && (task.Destroy? ==> k.closes > 0)
    ensures Listening(RunFirst(s, l).conns[c])
  {
  }

  lemma ClosesComeFirst(s: Server, c: ConnId)
    requires Inv(s) && c in s.conns
    ensures s.conns[c].destroyed <= s.conns[c].closes
  {
    hide Waiting;
    assert Tracked(s, c);
  }

  /** In every state of every interleaving, every connection that has been established and not been closed is
      registered with epoll, and reads unless it is paused; a timeout closes it, and closing takes it out of
      epoll. */
  lemma {:induction false} EveryOpenConnectionListens(ss: seq<Server>, steps: seq<Action>, threads: nat, i: nat,
                                                      c: ConnId)
    requires IsRun(ss, steps) && ss[0] == Started(threads) && i < |ss| && c in ss[i].conns
    ensures Listening(ss[i].conns[c])
    ensures i < |steps| && steps[i] == Timeout(c) ==>
              c in ss[i + 1].conns && ss[i + 1].conns[c].closes > 0 && ss[i + 1].conns[c].tcp.state.Disconnected?
    ensures i < |steps| && c in ss[i + 1].conns && ss[i + 1].conns[c].closes > ss[i].conns[c].closes ==>
              !ss[i + 1].conns[c].registered
  {
    hide Inv, Next, Enabled, Listening;
    assert c !in Started(threads).conns;
    EveryRunIsSafe(ss, steps, threads, i);
    if i > 0 {
      EveryRunIsSafe(ss, steps, threads, i - 1);
      if c in ss[i - 1].conns {
        EveryOpenConnectionListens(ss, steps, threads, i - 1, c);
      }
      StepKeepsListening(ss[i - 1], steps[i - 1], c);
    }
    if i < |steps| && steps[i] == Timeout(c) {
      TimeoutCloses(ss[i], c);
    }
    if i < |steps| {
      CloseUnregisters(ss[i], steps[i], c);
    }
  }

  lemma CloseUnregisters(s: Server, a: Action, c: ConnId)
    requires Inv(s) && Enabled(s, a) && c in s.conns
    ensures var q := Next(s, a); c in q.conns && q.conns[c].closes > s.conns[c].closes ==> !q.conns[c].registered
  {
    hide TcpOutput.Next, Tracked, Ordered, Entered, Distinct;
  }

  lemma TimeoutCloses(s: Server, c: ConnId)
    requires Inv(s) && Enabled(s, Timeout(c))
    ensures c in Next(s, Timeout(c)).conns
    ensures var k := Next(s, Timeout(c)).conns[c]; k.closes > 0 && k.tcp.state.Disconnected?
  {
    hide Waiting, Ordered, Entered, Distinct;
    assert Tracked(s, c);
  }

  // ---------- how often the close callback runs ----------

  /** A callback of `c` calls `shutdown` when the connection is Disconnected and has something to write. */
  ghost predicate RevivesAt(s: Server, step: Action, c: ConnId) {
    Enabled(s, step) && step.Callback? && s.loops[step.l].active[0] == c && Revives(s.conns[c].tcp, step.a)
  }

  ghost function RevivalsIn(ss: seq<Server>, steps: seq<Action>, c: ConnId, i: nat): nat
    requires i <= |steps| < |ss|
  {
    if i == 0 then 0 else RevivalsIn(ss, steps, c, i - 1) + if RevivesAt(ss[i - 1], steps[i - 1], c) then 1 else 0
  }

  lemma StepCountsRevivals(s: Server, a: Action, c: ConnId)
    requires Inv(s) && Enabled(s, a)
    ensures c in s.conns ==> c in Next(s, a).conns
    ensures c in Next(s, a).conns ==>
              Next(s, a).conns[c].revivals == (if c in s.conns then s.conns[c].revivals else 0)
                                              + if RevivesAt(s, a, c) then 1 else 0
    ensures RevivesAt(s, a, c) ==> c in s.conns
  {
    hide Tracked, TcpOutput.Next;
  }

  lemma {:induction false} CountRevivals(ss: seq<Server>, steps: seq<Action>, threads: nat, c: ConnId, i: nat)
    requires IsRun(ss, steps) && ss[0] == Started(threads) && i < |ss|
    ensures if c in ss[i].conns then ss[i].conns[c].revivals == RevivalsIn(ss, steps, c, i)
            else RevivalsIn(ss, steps, c, i) == 0
  {
    hide Next, Enabled, RevivesAt;
    if i > 0 {
      CountRevivals(ss, steps, threads, c, i - 1);
      EveryRunIsSafe(ss, steps, threads, i - 1);
      StepCountsRevivals(ss[i - 1], steps[i - 1], c);
    }
  }

  /** How often the close callback has run, exactly: once if the connection is Disconnected, and once
      more for every `shutdown` that revived it. It runs at most once for every connection that no
      `shutdown` revives, and a second time only after one does. */
  lemma CloseCallbackCount(ss: seq<Server>, steps: seq<Action>, threads: nat, c: ConnId, i: nat)
    requires IsRun(ss, steps) && ss[0] == Started(threads) && i < |ss| && c in ss[i].conns
    ensures ss[i].conns[c].closes == RevivalsIn(ss, steps, c, i)
                                     + if ss[i].conns[c].tcp.state.Disconnected? then 1 else 0
    ensures (forall j: nat | j < i :: !RevivesAt(ss[j], steps[j], c)) ==> ss[i].conns[c].closes <= 1
  {
    hide Next, Enabled, RevivesAt, Waiting;
    EveryRunIsSafe(ss, steps, threads, i);
    CountRevivals(ss, steps, threads, c, i);
    assert Tracked(ss[i], c);
    if forall j: nat | j < i :: !RevivesAt(ss[j], steps[j], c) {
      NoRevivals(ss, steps, c, i);
    }
  }

  lemma {:induction false} NoRevivals(ss: seq<Server>, steps: seq<Action>, c: ConnId, i: nat)
    requires i <= |steps| < |ss| && forall j: nat | j < i :: !RevivesAt(ss[j], steps[j], c)
    ensures RevivalsIn(ss, steps, c, i) == 0
  {
    if i > 0 {
      NoRevivals(ss, steps, c, i - 1);
    }
  }

  /** A connection with unsent output, whose loop is about to poll again. */
  ghost predicate HasOutput(s: Server) {
    && s.loops == [IDLE, IDLE]
    && 0 in s.conns && s.conns[0].home == 1 && s.conns[0].registered && !s.conns[0].freed
    && s.conns[0].established == 1 && s.conns[0].destroyed == 0 && s.conns[0].closes == 0
    && s.conns[0].tcp == TcpOutput.Tcp(TcpOutput.Connected, true, true, false, "b", None, "a", "ab", 0)
  }

  /** An established connection with nothing to do. */
  ghost predicate IsOpen(s: Server) {
    && s.loops == [IDLE, IDLE]
    && 0 in s.conns && s.conns[0] == Conn(5, 1, TcpOutput.START, true, false, 1, 0, 0, 0, 0)
  }

  /** A connection that has just been accepted. */
  ghost predicate IsAccepted(s: Server) {
    && |s.loops| == 2 && s.loops[MAIN] == IDLE && s.loops[1] == IDLE.(queue := [Establish(0)])
    && 0 in s.conns && s.conns[0] == Conn(5, 1, TcpOutput.START.(reading := false), false, false, 0, 0, 0, 0, 0)
  }

  lemma ConnectionCanArrive() returns (ss: seq<Server>, steps: seq<Action>)
    ensures IsRun(ss, steps) && ss[0] == Started(1) && IsAccepted(ss[|steps|])
  {
    hide TcpOutput.Next, TcpOutput.Possible, Referenced;
    var s0 := Started(1);
    var s1 := Next(s0, DoAccept(0, 5, 1));
    assert s1.loops[1].queue == [Establish(0)];
    ss := [s0, s1];
    steps := [DoAccept(0, 5, 1)];
  }

  lemma ConnectionCanOpen(s: Server) returns (ss: seq<Server>, steps: seq<Action>)
    requires IsAccepted(s)
    ensures IsRun(ss, steps) && ss[0] == s && IsOpen(ss[|steps|])
  {
    hide TcpOutput.Next, TcpOutput.Possible, Referenced;
    var s1 := Next(s, SwapQueue(1));
    var s2 := Next(s1, RunTask(1));
    assert s2.loops[1].done == [Establish(0)] && s2.loops[1].batch == [];
    var s3 := Next(s2, DropBatch(1));
    ss := [s, s1, s2, s3];
    steps := [SwapQueue(1), RunTask(1), DropBatch(1)];
  }

  /** It sends more than the kernel takes. */
  lemma OutputCanBeLeft(s: Server) returns (ss: seq<Server>, steps: seq<Action>)
    requires IsOpen(s)
    ensures IsRun(ss, steps) && ss[0] == s
    ensures var q := ss[|steps|]; q.loops == [IDLE, IDLE.(active := [0])] && HasOutput(q.(loops := [IDLE, IDLE]))
  {
    hide Referenced;
    var s1 := Next(s, Poll(1, [0]));
    var send := TcpOutput.DoSend("ab", TcpOutput.Wrote(1));
    assert "ab"[..1] == "a" && "ab"[1..] == "b";
    var s2 := Next(s1, Callback(1, send));
    assert s2.conns[0].tcp.out == "b" && s2.conns[0].tcp.wire == "a" && s2.conns[0].tcp.accepted == "ab";
    ss := [s, s1, s2];
    steps := [Poll(1, [0]), Callback(1, send)];
  }

  /** The event is done, and nothing was posted. */
  lemma TurnCanEnd(s: Server) returns (ss: seq<Server>, steps: seq<Action>)
    requires s.loops == [IDLE, IDLE.(active := [0])]
    ensures IsRun(ss, steps) && ss[0] == s && ss[|steps|] == s.(loops := [IDLE, IDLE])
  {
    hide Referenced;
    var s1 := Next(s, EndEvent(1));
    assert s1.loops[1].active == [];
    var s2 := Next(s1, SwapQueue(1));
    var s3 := Next(s2, DropBatch(1));
    assert s3.loops == [IDLE, IDLE];
    ss := [s, s1, s2, s3];
    steps := [EndEvent(1), SwapQueue(1), DropBatch(1)];
  }

  /** The next poll reports the timer and the connection, readable and writable. The timer comes first: the
      idle timeout closes the connection. The event of the connection then delivers a request, whose answer
      has to wait; the connection is shut down; and the write fails. */
  lemma ClosingTwice(s: Server) returns (ss: seq<Server>, steps: seq<Action>)
    requires HasOutput(s)
    ensures IsRun(ss, steps) && ss[0] == s
    ensures var q := ss[|steps|];
            0 in q.conns && q.conns[0].closes == 2 && 0 < |q.loops| && q.loops[MAIN].queue == [Remove(0), Remove(0)]
  {
    hide Referenced;
    var s0 := Next(s, Poll(1, [0]));
    var s1 := Next(s0, Timeout(0));
    assert s1.loops[MAIN].queue == [Remove(0)];
    var s2, rest := ClosingAgain(s1);
    ss := [s, s0] + s2;
    steps := [Poll(1, [0]), Timeout(0)] + rest;
  }

  /** The event that was reported before the timeout closed the connection. */
  lemma ClosingAgain(s: Server) returns (ss: seq<Server>, steps: seq<Action>)
    requires |s.loops| == 2 && s.loops[MAIN] == IDLE.(queue := [Remove(0)]) && s.loops[1] == IDLE.(active := [0])
    requires 0 in s.conns && s.conns[0].home == 1 && s.conns[0].closes == 1
    requires s.conns[0].tcp == TcpOutput.Tcp(TcpOutput.Disconnected, false, false, false, "b", None, "a", "ab", 0)
    ensures IsRun(ss, steps) && ss[0] == s
    ensures var q := ss[|steps|];
            0 in q.conns && q.conns[0].closes == 2 && 0 < |q.loops| && q.loops[MAIN].queue == [Remove(0), Remove(0)]
  {
    hide Referenced;
    var send := TcpOutput.DoSend("c", TcpOutput.Again);
    var write := TcpOutput.DoWrite(TcpOutput.Broken, TcpOutput.Again);
    var s1 := Next(s, Callback(1, send));
    assert s1.conns[0].tcp.out == "bc" && s1.conns[0].tcp.writing;
    var s2 := Next(s1, Callback(1, TcpOutput.DoShutdown));
    assert s2.conns[0].tcp.state.Disconnecting?;
    var s3 := Next(s2, Callback(1, write));
    ss := [s, s1, s2, s3];
    steps := [Callback(1, send), Callback(1, TcpOutput.DoShutdown), Callback(1, write)];
  }

  /** The close callback of one connection can run twice. */
  lemma CloseCallbackCanRunTwice() returns (ss: seq<Server>, steps: seq<Action>)
    ensures IsRun(ss, steps) && ss[0] == Started(1)
    ensures 0 in ss[|steps|].conns && ss[|steps|].conns[0].closes == 2
  {
    hide Next, Enabled, IsAccepted, IsOpen, HasOutput, Started;
    ss, steps := ConnectionCanArrive();
    var more, after := ConnectionCanOpen(ss[|steps|]);
    RunsCompose(ss, steps, more, after);
    ss, steps := ss + more[1..], steps + after;
    more, after := OutputCanBeLeft(ss[|steps|]);
    RunsCompose(ss, steps, more, after);
    ss, steps := ss + more[1..], steps + after;
    more, after := TurnCanEnd(ss[|steps|]);
    RunsCompose(ss, steps, more, after);
    ss, steps := ss + more[1..], steps + after;
    more, after := ClosingTwice(ss[|steps|]);
    RunsCompose(ss, steps, more, after);
    ss, steps := ss + more[1..], steps + after;
  }

  lemma RunsCompose(first: seq<Server>, before: seq<Action>, second: seq<Server>, after: seq<Action>)
    requires IsRun(first, before) && IsRun(second, after) && second[0] == first[|before|]
    ensures var all := first + second[1..];
            IsRun(all, before + after) && all[0] == first[0] && all[|before + after|] == second[|after|]
  {
    hide Next, Enabled;
    var ss, steps := first + second[1..], before + after;
    forall i: nat | i < |steps|
      ensures Enabled(ss[i], steps[i]) && ss[i + 1] == Next(ss[i], steps[i])
    {
      if i >= |before| {
        assert ss[i] == second[i - |before|] && steps[i] == after[i - |before|];
      }
    }
  }
}
