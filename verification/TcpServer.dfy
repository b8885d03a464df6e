/** The imperative accept loop, removal and task loop of TcpServer.cpp, EventLoopThreadPool.cpp and
    EventLoop.cpp on the life of connections, proved against `ServerLifecycle`. The kernel's answers
    to `accept` are a parameter. */
module TcpServer {
  import opened ServerLifecycle
  import TcpOutput

  /** What `accept` returns: a descriptor, and the object that is made for it. */
  datatype Incoming = Incoming(conn: ConnId, fd: Fd)

  /** The loop of the pool that comes after `home`. */
  function LoopAfter(threads: nat, home: LoopId): LoopId {
    if home < threads then home + 1 else 1
  }

  /** New objects, and descriptors that are not open. */
  ghost predicate Fresh(s: Server, backlog: seq<Incoming>) {
    && (forall b | b in backlog ::
          b.conn !in s.conns && forall d | d in s.conns && !s.conns[d].freed :: s.conns[d].fd != b.fd)
    && (forall i, j | 0 <= i < j < |backlog| :: backlog[i].conn != backlog[j].conn && backlog[i].fd != backlog[j].fd)
  }

  /** A server that is accepting: the main loop is handling the event of the listening socket. */
  ghost predicate Accepting(s: Server, backlog: seq<Incoming>) {
    Inv(s) && 1 < |s.loops| && s.loops[MAIN].Dispatching() && Fresh(s, backlog)
  }

  ghost function AcceptAll(s: Server, backlog: seq<Incoming>, home: LoopId): Server
    requires 0 < home < |s.loops|
    decreases |backlog|
  {
    if backlog == [] then s
    else AcceptAll(Accept(s, backlog[0].conn, backlog[0].fd, home), backlog[1..], LoopAfter(|s.loops| - 1, home))
  }

  lemma AcceptOne(s: Server, backlog: seq<Incoming>, home: LoopId)
    requires Accepting(s, backlog) && backlog != [] && 0 < home < |s.loops|
    ensures Enabled(s, DoAccept(backlog[0].conn, backlog[0].fd, home))
    ensures var q := Accept(s, backlog[0].conn, backlog[0].fd, home);
            Accepting(q, backlog[1..]) && |q.loops| == |s.loops|
  {
    hide Tracked, Ordered, Entered, Distinct;
    var b := backlog[0];
    assert Enabled(s, DoAccept(b.conn, b.fd, home));
    AcceptKeepsInv(s, b.conn, b.fd, home);
  }

  /** A connection of the backlog is entered under its descriptor, and its establishment waits in its
      loop. */
  predicate Served(q: Server, b: Incoming) {
    && b.conn in q.conns && b.fd in q.connections && q.connections[b.fd] == b.conn
    && q.conns[b.conn].home < |q.loops|
    && Waiting(q.loops[q.conns[b.conn].home], Establish(b.conn)) == 1
  }

  /** All of the backlog is served, by the loops in turn from `home` on. */
  predicate ServedInTurn(q: Server, backlog: seq<Incoming>, home: LoopId) {
    backlog == [] ||
    (Served(q, backlog[0]) && q.conns[backlog[0].conn].home == home &&
     ServedInTurn(q, backlog[1..], LoopAfter(|q.loops| - 1, home)))
  }

  /** Nothing that was there before has changed. */
  predicate Extends(s: Server, q: Server) {
    && (forall c | c in s.conns :: c in q.conns && q.conns[c] == s.conns[c])
    && (forall fd | fd in s.connections :: fd in q.connections && q.connections[fd] == s.connections[fd])
  }

  /** One call of `handleAccept` serves the whole backlog: the connections go to the loops in turn,
      and nothing that was there before changes. */
  lemma {:induction false} BacklogIsServed(s: Server, backlog: seq<Incoming>, home: LoopId)
    requires Accepting(s, backlog) && 0 < home < |s.loops|
    ensures var q := AcceptAll(s, backlog, home);
            Inv(q) && |q.loops| == |s.loops| && Extends(s, q) && ServedInTurn(q, backlog, home)
    decreases |backlog|
  {
    if backlog != [] {
      hide Inv, Waiting, Extends, Accept, Enabled;
      var p := Accept(s, backlog[0].conn, backlog[0].fd, home);
      AcceptOne(s, backlog, home);
      BacklogIsServed(p, backlog[1..], LoopAfter(|s.loops| - 1, home));
      FirstIsServed(s, backlog[0], home, AcceptAll(s, backlog, home));
    }
  }

  /** In terms of positions: connection `i` of the backlog goes to the loop that comes `i` places after the
      first one, where the round of the pool has been made `rounds` times. */
  lemma {:induction false} InTurnIsRoundRobin(q: Server, backlog: seq<Incoming>, home: LoopId, i: nat)
    returns (rounds: nat)
    requires ServedInTurn(q, backlog, home) && 0 < home < |q.loops| && i < |backlog|
    ensures Served(q, backlog[i]) && 0 < q.conns[backlog[i].conn].home < |q.loops|
    ensures q.conns[backlog[i].conn].home + rounds * (|q.loops| - 1) == home + i
    decreases i
  {
    hide Served;
    rounds := 0;
    if i > 0 {
      var threads := |q.loops| - 1;
      var more := InTurnIsRoundRobin(q, backlog[1..], LoopAfter(threads, home), i - 1);
      rounds := if home < threads then more else more + 1;
      assert (more + 1) * threads == more * threads + threads;
    }
  }

  lemma FirstIsServed(s: Server, b: Incoming, home: LoopId, q: Server)
    requires Inv(s) && Enabled(s, DoAccept(b.conn, b.fd, home)) && Inv(q) && Extends(Accept(s, b.conn, b.fd, home), q)
    ensures Extends(s, q) && Served(q, b) && q.conns[b.conn].home == home
  {
    hide Inv, Waiting;
    AcceptOverwritesNothing(s, b.conn, b.fd, home);
    EstablishmentWaits(q, b.conn);
  }

  lemma EstablishmentWaits(s: Server, c: ConnId)
    requires Inv(s) && c in s.conns && s.conns[c].established == 0
    ensures s.conns[c].home < |s.loops| && Waiting(s.loops[s.conns[c].home], Establish(c)) == 1
  {
    hide Waiting;
    assert Tracked(s, c);
  }

  /** What is left of the batch of a loop, run to its end. */
  ghost function RunAll(s: Server, l: LoopId): Server
    requires Inv(s) && l < |s.loops|
    decreases if l < |s.loops| then |s.loops[l].batch| else 0
  {
    if s.loops[l].batch == [] then s
    else
      TaskIsEnabled(s, l);
      RunKeepsInv(s, l);
      BatchShrinks(s, l);
      RunAll(RunFirst(s, l), l)
  }

  lemma TaskIsEnabled(s: Server, l: LoopId)
    requires Inv(s) && l < |s.loops| && s.loops[l].batch != []
    ensures Enabled(s, RunTask(l))
  {
    hide Balanced, Waiting;
    assert Ordered(s, l) && Placed(s, l, s.loops[l].batch[0]) && Tracked(s, s.loops[l].batch[0].conn);
  }

  /** A task leaves the batch and posts nothing to its own loop. */
  lemma BatchShrinks(s: Server, l: LoopId)
    requires Inv(s) && Enabled(s, RunTask(l))
    ensures var p := s.loops[l]; var q := RunFirst(s, l);
            && |q.loops| == |s.loops|
            && q.loops[l] == p.(batch := p.batch[1..], done := p.done + [p.batch[0]])
  {
    hide Balanced, Waiting;
    var task := s.loops[l].batch[0];
    assert Ordered(s, l) && Placed(s, l, task) && Tracked(s, task.conn);
  }

  /** Running a batch to its end runs every task of it and posts nothing to the loop itself. */
  lemma {:induction false} RunAllEmptiesTheBatch(s: Server, l: LoopId)
    requires Inv(s) && l < |s.loops|
    ensures var q := RunAll(s, l);
            && Inv(q) && |q.loops| == |s.loops|
            && q.loops[l] == s.loops[l].(batch := [], done := s.loops[l].done + s.loops[l].batch)
    decreases |s.loops[l].batch|
  {
    hide Inv, RunFirst;
    if s.loops[l].batch != [] {
      TaskIsEnabled(s, l);
      RunKeepsInv(s, l);
      BatchShrinks(s, l);
      RunAllEmptiesTheBatch(RunFirst(s, l), l);
      assert s.loops[l].batch == [s.loops[l].batch[0]] + s.loops[l].batch[1..];
    }
  }

  class TcpServer {
    var connections: map<Fd, ConnId>
    /** `next_` of the thread pool; loop 0 is the main loop. */
    var next: nat
    var loops: seq<Loop>
    var conns: map<ConnId, Conn>

    ghost function View(): Server
      reads this
    {
      Server(conns, connections, loops)
    }

    constructor (threads: nat)
      ensures View() == Started(threads) && next == 0
    {
      connections, conns, next, loops := map[], map[], 0, seq(threads + 1, _ => IDLE);
    }

    method QueueInLoop(l: LoopId, task: Task)
      requires l < |loops|
      modifies this`loops
      ensures View() == Post(old(View()), l, task)
    {
      loops := loops[l := loops[l].(queue := loops[l].queue + [task])];
    }

    method GetNextLoop() returns (l: LoopId)
      requires 1 + next < |loops|
      modifies this`next
      ensures l == 1 + old(next) && 1 + next == LoopAfter(|loops| - 1, l)
    {
      l := 1 + next;
      next := (next + 1) % (|loops| - 1);
    }

    method HandleAccept(backlog: seq<Incoming>)
      requires Accepting(View(), backlog) && 1 + next < |loops|
      modifies this
      ensures View() == AcceptAll(old(View()), backlog, 1 + old(next))
      ensures Inv(View()) && 1 + next < |loops| == |old(loops)|
    {
      hide Inv, Fresh, Accept;
      var rest := backlog;
      while rest != []
        invariant Accepting(View(), rest) && 1 + next < |loops| == |old(loops)|
        invariant AcceptAll(View(), rest, 1 + next) == AcceptAll(old(View()), backlog, 1 + old(next))
        decreases |rest|
      {
        AcceptOne(View(), rest, 1 + next);
        var home := GetNextLoop();
        EnterIncoming(rest[0], home);
        rest := rest[1..];
      }
    }

    /** One round of the accept loop. */
    method EnterIncoming(b: Incoming, home: LoopId)
      requires home < |loops|
      modifies this`conns, this`connections, this`loops
      ensures View() == Accept(old(View()), b.conn, b.fd, home) && |loops| == |old(loops)|
    {
      conns := conns[b.conn := Conn(b.fd, home, TcpOutput.START.(reading := false), false, false, 0, 0, 0, 0, 0)];
      connections := connections[b.fd := b.conn];
      QueueInLoop(home, Establish(b.conn));
    }

    method ConnectEstablished(c: ConnId)
      requires c in conns
      modifies this`conns
      ensures conns == old(conns)[c := RunEstablish(old(conns)[c])]
    {
      var k := conns[c];
      conns := conns[c := k.(tcp := k.tcp.(state := TcpOutput.Connected, reading := true),
                             registered := true, established := k.established + 1)];
    }

    method ConnectDestroyed(c: ConnId)
      requires c in conns
      modifies this`conns
      ensures conns == old(conns)[c := RunDestroy(old(conns)[c])]
    {
      var k := conns[c];
      conns := conns[c := k.(tcp := k.tcp.(reading := false, writing := false),
                             registered := false, destroyed := k.destroyed + 1)];
    }

    /** The task that `removeConnection` posts to the main loop. */
    method RemoveInLoop(c: ConnId)
      requires c in conns && conns[c].home < |loops|
      modifies this
      ensures View() == Execute(old(View()), Remove(c)) && next == old(next)
    {
      var k := conns[c];
      connections := connections - {k.fd};
      conns := conns[c := k.(removed := k.removed + 1)];
      QueueInLoop(k.home, Destroy(c));
    }

    /** `doPendingFunctors` of one loop while the others stand still: every task posted before it has
        run afterwards, none is left, and its references are dropped. */
    method DoPendingFunctors(l: LoopId)
      requires Inv(View()) && Enabled(View(), SwapQueue(l))
      modifies this
      ensures Inv(Swap(old(View()), l))
      ensures var q := RunAll(Swap(old(View()), l), l);
              l < |q.loops| && View() == q.(loops := q.loops[l := q.loops[l].(done := [])])
      ensures Inv(View()) && |loops| == |old(loops)| && loops[l] == IDLE
    {
      hide Inv, RunAll, Execute;
      ghost var start := Swap(View(), l);
      SwapKeepsInv(View(), l);
      RunAllEmptiesTheBatch(start, l);
      loops := loops[l := loops[l].(batch := loops[l].queue, queue := [])];
      RunBatch(l);
      ghost var ran := View();
      loops := loops[l := loops[l].(done := [])];
      DropKeepsInv(ran, l);
    }

    method RunBatch(l: LoopId)
      requires Inv(View()) && l < |loops|
      modifies this
      ensures View() == RunAll(old(View()), l) && next == old(next)
    {
      hide Inv, Execute;
      while loops[l].batch != []
        invariant l < |loops| && Inv(View()) && RunAll(View(), l) == RunAll(old(View()), l) && next == old(next)
        decreases |loops[l].batch|
      {
        ghost var before := View();
        TaskIsEnabled(before, l);
        RunKeepsInv(before, l);
        BatchShrinks(before, l);
        RunOne(l);
      }
    }

    /** Take a task off the batch and call it. */
    method RunOne(l: LoopId)
      requires Enabled(View(), RunTask(l))
      modifies this
      ensures View() == RunFirst(old(View()), l) && next == old(next)
    {
      var task := loops[l].batch[0];
      loops := loops[l := loops[l].(batch := loops[l].batch[1..], done := loops[l].done + [task])];
      match task {
        case Establish(c) => ConnectEstablished(c);
        case Remove(c) => RemoveInLoop(c);
        case Destroy(c) => ConnectDestroyed(c);
      }
    }
  }
}
