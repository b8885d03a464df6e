/** The timer set of TimerQueue.cpp with the cancel flags of Timer.h, and the idle timeout that
    TcpConnection.cpp builds on it, as a state machine of one loop thread. Times are milliseconds of
    the steady clock. */
module TimerProtocol {
  import opened Wrappers

  /** The address of a timer object; the set orders timers with equal expiration by it. */
  type TimerId = nat
  type ConnId = nat

  const IDLE_TIMEOUT: nat := 60000

  datatype Timer = Timer(expiration: nat, conn: ConnId, cancelled: bool, runs: nat)

  /** When a timeout closed a connection, and when that connection had last been refreshed. */
  datatype Timeout = Timeout(at: nat, idleSince: nat)

  /** A connection: closed or not, still owned by anybody or not, `aliveTimer_`, the time of the last
      `refreshAlive`, and the timeout that closed it. */
  datatype Conn = Conn(closed: bool, freed: bool, alive: Option<TimerId>, lastRefresh: nat, timedOut: Option<Timeout>)

  /** `queue` is the ordered set, `expired` the rest of the vector that `handleRead` is running. */
  datatype Timers = Timers(
    timers: map<TimerId, Timer>,
    queue: seq<TimerId>,
    expired: seq<TimerId>,
    conns: map<ConnId, Conn>,
    now: nat)

  const START: Timers := Timers(map[], [], [], map[], 0)

  // ---------- the ordered set ----------

  predicate Known(s: Timers) {
    (forall id | id in s.queue :: id in s.timers) && (forall id | id in s.expired :: id in s.timers)
  }

  /** `TimerCmp`. */
  predicate Before(timers: map<TimerId, Timer>, a: TimerId, b: TimerId)
    requires a in timers && b in timers
  {
    timers[a].expiration < timers[b].expiration || (timers[a].expiration == timers[b].expiration && a < b)
  }

  predicate Sorted(timers: map<TimerId, Timer>, queue: seq<TimerId>)
    requires forall id | id in queue :: id in timers
  {
    forall i, j | 0 <= i < j < |queue| :: Before(timers, queue[i], queue[j])
  }

  /** Where `id` belongs in `queue`. */
  function Position(timers: map<TimerId, Timer>, queue: seq<TimerId>, id: TimerId): (n: nat)
    requires id in timers && forall q | q in queue :: q in timers
    ensures n <= |queue|
    ensures forall i | 0 <= i < n :: Before(timers, queue[i], id)
    ensures n < |queue| ==> !Before(timers, queue[n], id)
  {
    if queue == [] || !Before(timers, queue[0], id) then 0 else 1 + Position(timers, queue[1..], id)
  }

  function Insert(timers: map<TimerId, Timer>, queue: seq<TimerId>, id: TimerId): seq<TimerId>
    requires id in timers && forall q | q in queue :: q in timers
  {
    var n := Position(timers, queue, id);
    queue[..n] + [id] + queue[n..]
  }

  lemma InsertKeepsOrder(timers: map<TimerId, Timer>, queue: seq<TimerId>, id: TimerId)
    requires id in timers && (forall q | q in queue :: q in timers) && id !in queue && Sorted(timers, queue)
    ensures forall q :: q in Insert(timers, queue, id) <==> q == id || q in queue
    ensures Sorted(timers, Insert(timers, queue, id))
  {
    hide Position, Sorted;
    var n := Position(timers, queue, id);
    assert queue == queue[..n] + queue[n..];
    RestComesAfter(timers, queue, id, n);
    FitsBetween(timers, queue, id, n);
  }

  /** Everything from the insertion point on comes after the new timer. */
  lemma RestComesAfter(timers: map<TimerId, Timer>, queue: seq<TimerId>, id: TimerId, n: nat)
    requires id in timers && (forall q | q in queue :: q in timers) && id !in queue && Sorted(timers, queue)
    requires n < |queue| ==> !Before(timers, queue[n], id)
    ensures forall j | n <= j < |queue| :: Before(timers, id, queue[j])
  {
    forall j | n <= j < |queue|
      ensures Before(timers, id, queue[j])
    {
      assert queue[n] in queue;
      assert n < j ==> Before(timers, queue[n], queue[j]);
    }
  }

  lemma FitsBetween(timers: map<TimerId, Timer>, queue: seq<TimerId>, id: TimerId, n: nat)
    requires id in timers && (forall q | q in queue :: q in timers) && n <= |queue| && Sorted(timers, queue)
    requires forall i | 0 <= i < n :: Before(timers, queue[i], id)
    requires forall j | n <= j < |queue| :: Before(timers, id, queue[j])
    ensures Sorted(timers, queue[..n] + [id] + queue[n..])
  {
    hide Before;
    var all := queue[..n] + [id] + queue[n..];
    forall i, j | 0 <= i < j < |all|
      ensures Before(timers, all[i], all[j])
    {
      if i < n && j < n {
        assert all[i] == queue[i] && all[j] == queue[j];
      } else if i < n && j > n {
        assert all[i] == queue[i] && all[j] == queue[j - 1];
      } else if i > n {
        assert all[i] == queue[i - 1] && all[j] == queue[j - 1];
      }
    }
  }

  /** How many timers at the front of the set have expired. */
  function Due(timers: map<TimerId, Timer>, queue: seq<TimerId>, now: nat): (n: nat)
    requires forall q | q in queue :: q in timers
    ensures n <= |queue|
    ensures forall i | 0 <= i < n :: timers[queue[i]].expiration <= now
    ensures n < |queue| ==> timers[queue[n]].expiration > now
  {
    if queue == [] || timers[queue[0]].expiration > now then 0 else 1 + Due(timers, queue[1..], now)
  }

  /** Stopping at the first unexpired timer leaves no expired one behind. */
  lemma DueIsComplete(timers: map<TimerId, Timer>, queue: seq<TimerId>, now: nat, i: nat)
    requires (forall q | q in queue :: q in timers) && Sorted(timers, queue) && i < |queue|
    ensures i < Due(timers, queue, now) <==> timers[queue[i]].expiration <= now
  {
    var n := Due(timers, queue, now);
    if n < i {
      assert Before(timers, queue[n], queue[i]);
    }
  }

  // ---------- steps ----------

  predicate Pending(s: Timers, id: TimerId) {
    id in s.queue || id in s.expired
  }

  /** `aliveTimer_.lock()` and `cancel()`: only a timer that somebody still holds can be locked. */
  function CancelAlive(s: Timers, c: ConnId): map<TimerId, Timer>
    requires c in s.conns && Known(s)
  {
    match s.conns[c].alive
    case None => s.timers
    case Some(id) => if Pending(s, id) then s.timers[id := s.timers[id].(cancelled := true)] else s.timers
  }

  /** `refreshAlive`; `id` is the address of the new timer. */
  function Refresh(s: Timers, c: ConnId, id: TimerId): Timers
    requires c in s.conns && Known(s) && id !in s.timers
  {
    var timers := CancelAlive(s, c)[id := Timer(s.now + IDLE_TIMEOUT, c, false, 0)];
    s.(timers := timers,
       queue := Insert(timers, s.queue, id),
       conns := s.conns[c := s.conns[c].(alive := Some(id), lastRefresh := s.now)])
  }

  /** The first loop of `handleRead`. */
  function Collect(s: Timers): Timers
    requires Known(s)
  {
    var n := Due(s.timers, s.queue, s.now);
    s.(expired := s.queue[..n], queue := s.queue[n..])
  }

  /** One turn of its second loop: `run()` of the first timer in the vector, whose callback closes
      the connection if it still exists and is open. */
  function RunFirst(s: Timers): Timers
    requires Known(s) && s.expired != [] && s.timers[s.expired[0]].conn in s.conns
  {
    var id := s.expired[0];
    var t := s.timers[id];
    var rest := s.(expired := s.expired[1..]);
    if t.cancelled then rest
    else
      var ran := rest.(timers := s.timers[id := t.(runs := t.runs + 1)]);
      var c := s.conns[t.conn];
      if c.freed || c.closed then ran
      else ran.(conns := s.conns[t.conn := c.(closed := true, timedOut := Some(Timeout(s.now, c.lastRefresh)))])
  }

  /** `Reopen` is a `shutdown` that turns a Disconnected connection into a Disconnecting one. */
  datatype Action =
    | Tick(now: nat)
    | Establish(c: ConnId, id: TimerId)
    | Touch(c: ConnId, id: TimerId)
    | HandleRead
    | RunNext
    | ClosedByPeer(c: ConnId)
    | Reopen(c: ConnId)
    | Destroy(c: ConnId)
    | Free(c: ConnId)

  predicate Enabled(s: Timers, a: Action) {
    Known(s) &&
    match a
    case Tick(now) => s.now <= now
    case Establish(c, id) => c !in s.conns && id !in s.timers
    case Touch(c, id) => c in s.conns && !s.conns[c].freed && id !in s.timers
    case HandleRead => s.expired == []
    case RunNext => s.expired != [] && s.timers[s.expired[0]].conn in s.conns
    case ClosedByPeer(c) => c in s.conns
    case Reopen(c) => c in s.conns
    case Destroy(c) => c in s.conns
    case Free(c) => c in s.conns
  }

  function Next(s: Timers, a: Action): Timers
    requires Enabled(s, a)
  {
    match a
    case Tick(now) => s.(now := now)
    case Establish(c, id) => Refresh(s.(conns := s.conns[c := Conn(false, false, None, s.now, None)]), c, id)
    case Touch(c, id) => Refresh(s, c, id)
    case HandleRead => Collect(s)
    case RunNext => RunFirst(s)
    case ClosedByPeer(c) => s.(conns := s.conns[c := s.conns[c].(closed := true)])
    case Reopen(c) => s.(conns := s.conns[c := s.conns[c].(closed := false)])
    case Destroy(c) => s.(timers := CancelAlive(s, c))
    case Free(c) => s.(conns := s.conns[c := s.conns[c].(freed := true)])
  }

  // ---------- what every run keeps ----------

  /** A timer that can still fire is the one its connection points to, and fires a full idle
      period after the last refresh. */
  predicate Current(s: Timers, id: TimerId)
    requires id in s.timers
  {
    var t := s.timers[id];
    t.conn in s.conns &&
    (!t.cancelled ==> s.conns[t.conn].alive == Some(id) && t.expiration == s.conns[t.conn].lastRefresh + IDLE_TIMEOUT)
  }

  /** `aliveTimer_` refers to a timer of this very connection. */
  predicate OwnTimer(s: Timers, c: ConnId)
    requires c in s.conns
  {
    s.conns[c].alive.Some? ==> s.conns[c].alive.value in s.timers && s.timers[s.conns[c].alive.value].conn == c
  }

  /** No timeout comes before the idle period is over. */
  predicate InTime(c: Conn) {
    c.timedOut.Some? ==> c.timedOut.value.at >= c.timedOut.value.idleSince + IDLE_TIMEOUT
  }

  predicate Inv(s: Timers) {
    && Known(s) && Sorted(s.timers, s.queue)
    && (forall i, j | 0 <= i < j < |s.expired| :: s.expired[i] != s.expired[j])
    && (forall id | id in s.expired :: id !in s.queue && s.timers[id].expiration <= s.now)
    && (forall id | id in s.timers && Pending(s, id) :: Current(s, id) && s.timers[id].runs == 0)
    && (forall id | id in s.timers :: s.timers[id].runs <= 1)
    && (forall c | c in s.conns :: InTime(s.conns[c]) && OwnTimer(s, c))
  }

  lemma SortedFrame(t: map<TimerId, Timer>, u: map<TimerId, Timer>, queue: seq<TimerId>)
    requires (forall id | id in queue :: id in t) && Sorted(t, queue)
    requires forall id | id in queue :: id in u && u[id].expiration == t[id].expiration
    ensures Sorted(u, queue)
  {
    forall i, j | 0 <= i < j < |queue|
      ensures Before(u, queue[i], queue[j])
    {
      assert Before(t, queue[i], queue[j]);
      assert queue[i] in queue && queue[j] in queue;
    }
  }

  lemma DestroyKeepsInv(s: Timers, c: ConnId)
    requires Inv(s) && c in s.conns
    ensures Inv(s.(timers := CancelAlive(s, c)))
  {
    SortedFrame(s.timers, CancelAlive(s, c), s.queue);
  }

  /** Afterwards no timer of the connection can fire. */
  lemma CancelStopsAll(s: Timers, c: ConnId, id: TimerId)
    requires Inv(s) && c in s.conns && id in s.timers && Pending(s, id) && s.timers[id].conn == c
    ensures CancelAlive(s, c)[id].cancelled
  {
    assert Current(s, id);
  }

  lemma RefreshKeepsInv(s: Timers, c: ConnId, id: TimerId)
    requires Inv(s) && c in s.conns && id !in s.timers
    ensures Inv(Refresh(s, c, id))
  {
    hide Sorted, Before, Insert, InTime, Current, OwnTimer;
    var q := Refresh(s, c, id);
    SortedFrame(s.timers, q.timers, s.queue);
    InsertKeepsOrder(q.timers, s.queue, id);
    forall i | i in q.timers && Pending(q, i)
      ensures Current(q, i) && q.timers[i].runs == 0
    {
      RefreshKeepsCurrent(s, c, id, i);
    }
    forall d | d in q.conns
      ensures InTime(q.conns[d]) && OwnTimer(q, d)
    {
      RefreshKeepsOwnTimer(s, c, id, d);
    }
  }

  lemma RefreshKeepsCurrent(s: Timers, c: ConnId, id: TimerId, i: TimerId)
    requires Inv(s) && c in s.conns && id !in s.timers && i in Refresh(s, c, id).timers && (i == id || Pending(s, i))
    ensures Current(Refresh(s, c, id), i) && Refresh(s, c, id).timers[i].runs == 0
  {
    hide Sorted, Insert;
    if i != id {
      assert Current(s, i);
      if s.timers[i].conn == c {
        CancelStopsAll(s, c, i);
      }
    }
  }

  lemma RefreshKeepsOwnTimer(s: Timers, c: ConnId, id: TimerId, d: ConnId)
    requires Inv(s) && c in s.conns && id !in s.timers && d in s.conns
    ensures InTime(Refresh(s, c, id).conns[d]) && OwnTimer(Refresh(s, c, id), d)
  {
    hide Sorted, Insert;
    assert InTime(s.conns[d]) && OwnTimer(s, d);
  }

  lemma CollectKeepsInv(s: Timers)
    requires Inv(s) && s.expired == []
    ensures Inv(Collect(s))
  {
    hide Before, Due, Sorted, Current;
    var q := Collect(s);
    var n := Due(s.timers, s.queue, s.now);
    assert s.queue == s.queue[..n] + s.queue[n..];
    SplitKeepsOrder(s.timers, s.queue, n);
    forall id | id in q.expired
      ensures s.timers[id].expiration <= s.now
    {
      var i :| 0 <= i < n && s.queue[i] == id;
    }
    forall id | id in q.timers && Pending(q, id)
      ensures Current(q, id) && q.timers[id].runs == 0
    {
      assert Pending(s, id);
      CurrentFrame(s, q, id);
    }
  }

  lemma CurrentFrame(s: Timers, q: Timers, id: TimerId)
    requires id in s.timers && Current(s, id) && q.timers == s.timers && q.conns == s.conns
    ensures Current(q, id)
  {
  }

  /** An ordered queue has no duplicates, and what is left of it is ordered. */
  lemma SplitKeepsOrder(timers: map<TimerId, Timer>, queue: seq<TimerId>, n: nat)
    requires (forall q | q in queue :: q in timers) && n <= |queue| && Sorted(timers, queue)
    ensures Sorted(timers, queue[n..])
    ensures forall i, j | 0 <= i < j < n :: queue[..n][i] != queue[..n][j]
    ensures forall id | id in queue[..n] :: id !in queue[n..]
  {
    forall i, j | 0 <= i < j < |queue|
      ensures queue[i] != queue[j]
    {
      assert Before(timers, queue[i], queue[j]);
    }
    forall i, j | 0 <= i < j < |queue[n..]|
      ensures Before(timers, queue[n..][i], queue[n..][j])
    {
      assert Before(timers, queue[n + i], queue[n + j]);
    }
  }

  lemma RunKeepsInv(s: Timers)
    requires Inv(s) && s.expired != [] && s.timers[s.expired[0]].conn in s.conns
    ensures Inv(RunFirst(s))
  {
    hide Sorted, Before, InTime, OwnTimer, Current;
    var q := RunFirst(s);
    SortedFrame(s.timers, q.timers, s.queue);
    forall i | i in q.timers && Pending(q, i)
      ensures Current(q, i) && q.timers[i].runs == 0
    {
      RunKeepsCurrent(s, i);
    }
    forall c | c in q.conns
      ensures InTime(q.conns[c]) && OwnTimer(q, c)
    {
      RunKeepsInTime(s, c);
    }
  }

  lemma RunKeepsCurrent(s: Timers, i: TimerId)
    requires Inv(s) && s.expired != [] && s.timers[s.expired[0]].conn in s.conns
    requires i in s.timers && Pending(RunFirst(s), i)
    ensures Current(RunFirst(s), i) && RunFirst(s).timers[i].runs == 0
  {
    hide Sorted;
    assert i != s.expired[0];
    assert Pending(s, i) && Current(s, i);
  }

  lemma RunKeepsInTime(s: Timers, c: ConnId)
    requires Inv(s) && s.expired != [] && s.timers[s.expired[0]].conn in s.conns && c in s.conns
    ensures InTime(RunFirst(s).conns[c]) && OwnTimer(RunFirst(s), c)
  {
    hide Sorted;
    assert InTime(s.conns[c]) && OwnTimer(s, c);
    assert Pending(s, s.expired[0]) && Current(s, s.expired[0]);
  }

  lemma StepKeepsInv(s: Timers, a: Action)
    requires Inv(s) && Enabled(s, a)
    ensures Inv(Next(s, a))
  {
    match a
    case Tick(now) => OthersKeepInv(s, Next(s, a));
    case Establish(c, id) =>
      var q := s.(conns := s.conns[c := Conn(false, false, None, s.now, None)]);
      OthersKeepInv(s, q);
      RefreshKeepsInv(q, c, id);
    case Touch(c, id) => RefreshKeepsInv(s, c, id);
    case HandleRead => CollectKeepsInv(s);
    case RunNext => RunKeepsInv(s);
    case ClosedByPeer(c) => OthersKeepInv(s, Next(s, a));
    case Reopen(c) => OthersKeepInv(s, Next(s, a));
    case Destroy(c) => DestroyKeepsInv(s, c);
    case Free(c) => OthersKeepInv(s, Next(s, a));
  }

  /** Steps that leave the timers alone. */
  lemma OthersKeepInv(s: Timers, q: Timers)
    requires Inv(s) && q.timers == s.timers && q.queue == s.queue && q.expired == s.expired && s.now <= q.now
    requires forall c | c in s.conns ::
             c in q.conns && q.conns[c].alive == s.conns[c].alive && q.conns[c].lastRefresh == s.conns[c].lastRefresh
    requires forall c | c in q.conns :: InTime(q.conns[c]) && (c !in s.conns ==> q.conns[c].alive.None?)
    ensures Inv(q)
  {
    forall id | id in q.timers && Pending(q, id)
      ensures Current(q, id) && q.timers[id].runs == 0
    {
      assert Pending(s, id) && Current(s, id);
    }
  }

  ghost predicate IsRun(ss: seq<Timers>, steps: seq<Action>) {
    |ss| == |steps| + 1 && forall i: nat | i < |steps| :: Enabled(ss[i], steps[i]) && ss[i + 1] == Next(ss[i], steps[i])
  }

  /** At most one timer of a connection can still fire. */
  ghost predicate OneLiveTimer(s: Timers) {
    forall a, b | a in s.timers && b in s.timers && Pending(s, a) && Pending(s, b) ::
      !s.timers[a].cancelled && !s.timers[b].cancelled && s.timers[a].conn == s.timers[b].conn ==> a == b
  }

  /** In every state of every run: at most one timer of a connection can still fire, a full idle
      period after the last refresh; no timer has fired twice; and no timeout has closed a connection
      less than the idle period after its last refresh. */
  lemma {:induction false} EveryRunIsInTime(ss: seq<Timers>, steps: seq<Action>, i: nat)
    requires IsRun(ss, steps) && ss[0] == START && i < |ss|
    ensures Inv(ss[i]) && OneLiveTimer(ss[i])
    ensures forall c | c in ss[i].conns :: InTime(ss[i].conns[c])
    ensures forall id | id in ss[i].timers :: ss[i].timers[id].runs <= 1
  {
    hide Next, Enabled;
    if i > 0 {
      EveryRunIsInTime(ss, steps, i - 1);
      StepKeepsInv(ss[i - 1], steps[i - 1]);
    }
    LiveTimerIsUnique(ss[i]);
  }

  lemma LiveTimerIsUnique(s: Timers)
    requires Inv(s)
    ensures OneLiveTimer(s)
  {
    forall a, b | a in s.timers && b in s.timers && Pending(s, a) && Pending(s, b) &&
                  !s.timers[a].cancelled && !s.timers[b].cancelled && s.timers[a].conn == s.timers[b].conn
      ensures a == b
    {
      assert Current(s, a) && Current(s, b);
    }
  }

  /** A callback runs neither early nor after its timer has been cancelled, even when the timer was
      cancelled while it waited in the vector of expired timers. */
  lemma OnlyLiveTimersRun(s: Timers, id: TimerId)
    requires Inv(s) && Enabled(s, RunNext) && id in s.timers
    requires Next(s, RunNext).timers[id].runs != s.timers[id].runs
    ensures id == s.expired[0] && !s.timers[id].cancelled && s.timers[id].expiration <= s.now
    ensures s.timers[id].runs == 0
  {
    assert id in s.expired && Pending(s, id);
  }

  // ---------- a whole `handleRead` ----------

  /** Every timer in the vector knows a connection that has existed. */
  predicate Runnable(s: Timers) {
    Known(s) && forall id | id in s.expired :: s.timers[id].conn in s.conns
  }

  /** The second loop of `handleRead`. */
  function RunAll(s: Timers): Timers
    requires Runnable(s)
    decreases |s.expired|
  {
    if s.expired == [] then s else RunAll(RunFirst(s))
  }

  /** One turn of the loop runs the first timer of the vector, unless it was cancelled, and no other. */
  lemma RunFirstRuns(s: Timers)
    requires Inv(s) && Runnable(s) && s.expired != []
    ensures var q := RunFirst(s);
            && Runnable(q) && q.queue == s.queue && q.timers.Keys == s.timers.Keys
            && s.expired == [s.expired[0]] + q.expired && s.expired[0] !in q.expired
            && forall id | id in s.timers ::
                 q.timers[id] == if id == s.expired[0] && !s.timers[id].cancelled then s.timers[id].(runs := 1)
                                 else s.timers[id]
  {
    hide Sorted;
    assert Pending(s, s.expired[0]);
  }

  lemma {:induction false} RunAllRunsEach(s: Timers)
    requires Inv(s) && Runnable(s)
    ensures var q := RunAll(s); Inv(q) && q.expired == [] && q.queue == s.queue && q.timers.Keys == s.timers.Keys
    ensures forall id | id in s.timers ::
              RunAll(s).timers[id] == if id in s.expired && !s.timers[id].cancelled then s.timers[id].(runs := 1)
                                      else s.timers[id]
    decreases |s.expired|
  {
    hide Inv, RunFirst;
    if s.expired != [] {
      RunFirstRuns(s);
      RunKeepsInv(s);
      RunAllRunsEach(RunFirst(s));
    }
  }

  // ---------- what a timeout does ----------

  /** A timer that is due, pending among `ids`, and has not been cancelled belongs to the connection, which
      still exists. */
  predicate TimesOut(s: Timers, ids: seq<TimerId>, c: ConnId)
    requires c in s.conns
  {
    !s.conns[c].freed &&
    match s.conns[c].alive
    case None => false
    case Some(id) => id in ids && id in s.timers && !s.timers[id].cancelled
  }

  /** The connection after its timeout: closed, if it was not closed already. */
  function AfterTimeout(c: Conn, now: nat): Conn {
    if c.closed then c else c.(closed := true, timedOut := Some(Timeout(now, c.lastRefresh)))
  }

  /** One turn of the loop closes the connection of the first timer, unless that was cancelled, and
      touches no other one. */
  lemma RunFirstCloses(s: Timers, c: ConnId)
    requires Inv(s) && Runnable(s) && s.expired != [] && c in s.conns
    ensures var q := RunFirst(s);
            && q.conns.Keys == s.conns.Keys && q.now == s.now
            && q.conns[c] == if TimesOut(s, [s.expired[0]], c) then AfterTimeout(s.conns[c], s.now) else s.conns[c]
  {
    hide Sorted;
    assert Pending(s, s.expired[0]) && Current(s, s.expired[0]) && OwnTimer(s, c);
  }

  /** The second loop closes exactly the connections of the timers in the vector that were not cancelled. */
  lemma {:induction false} RunAllCloses(s: Timers, c: ConnId)
    requires Inv(s) && Runnable(s) && c in s.conns
    ensures var q := RunAll(s);
            && q.conns.Keys == s.conns.Keys
            && q.conns[c] == if TimesOut(s, s.expired, c) then AfterTimeout(s.conns[c], s.now) else s.conns[c]
    decreases |s.expired|
  {
    hide Inv, RunFirst, AfterTimeout;
    if s.expired != [] {
      RunFirstRuns(s);
      RunFirstCloses(s, c);
      RunKeepsInv(s);
      RunAllCloses(RunFirst(s), c);
      FirstOrLater(s, c);
      TimeoutOnce(s.conns[c], s.now);
    }
  }

  lemma FirstOrLater(s: Timers, c: ConnId)
    requires Inv(s) && Runnable(s) && s.expired != [] && c in s.conns && c in RunFirst(s).conns
    ensures TimesOut(s, s.expired, c) <==> 
            TimesOut(s, [s.expired[0]], c) || TimesOut(RunFirst(s), s.expired[1..], c)
  {
    hide Inv, Current;
    RunFirstRuns(s);
    RunFirstCloses(s, c);
    assert s.expired == [s.expired[0]] + s.expired[1..];
  }

  lemma TimeoutOnce(c: Conn, now: nat)
    ensures AfterTimeout(AfterTimeout(c, now), now) == AfterTimeout(c, now)
    ensures var q := AfterTimeout(c, now); q.closed && q.alive == c.alive && q.freed == c.freed
  {
  }

  /** A call of `handleRead` closes exactly the connections that still exist and whose timer is due and was
      not cancelled, that is, which have not been refreshed for the idle period; an open one is closed by
      this timeout. All the others stay as they are. */
  lemma HandleReadClosesTheIdle(s: Timers, c: ConnId)
    requires Inv(s) && s.expired == [] && c in s.conns
    ensures Runnable(Collect(s)) && c in RunAll(Collect(s)).conns
    ensures var k, q := s.conns[c], RunAll(Collect(s)).conns[c];
            && (Idle(s, c) && !k.closed ==>
                  q == k.(closed := true, timedOut := Some(Timeout(s.now, k.lastRefresh))))
            && (!Idle(s, c) || k.closed ==> q == k)
  {
    hide RunAll, Current, Sorted, Before;
    CollectedAreRunnable(s);
    RunAllCloses(Collect(s), c);
    IdleTimesOut(s, c);
  }

  /** The live timer of the connection is set, and the idle period has passed since the last refresh. */
  predicate Idle(s: Timers, c: ConnId)
    requires c in s.conns
  {
    Armed(s, c) && !s.conns[c].freed && s.conns[c].lastRefresh + 60000 <= s.now
  }

  /** `aliveTimer_` is pending and was not cancelled. */
  predicate Armed(s: Timers, c: ConnId)
    requires c in s.conns
  {
    match s.conns[c].alive
    case None => false
    case Some(id) => id in s.timers && Pending(s, id) && !s.timers[id].cancelled
  }

  lemma IdleTimesOut(s: Timers, c: ConnId)
    requires Inv(s) && s.expired == [] && c in s.conns
    ensures Idle(s, c) <==> TimesOut(Collect(s), Collect(s).expired, c)
  {
    hide Sorted, Before;
    assert OwnTimer(s, c);
    if s.conns[c].alive.Some? {
      var id := s.conns[c].alive.value;
      if Pending(s, id) {
        assert Current(s, id);
        CollectSplits(s, id);
      } else {
        NotCollected(s, id);
      }
    }
  }

  lemma NotCollected(s: Timers, id: TimerId)
    requires Known(s) && id !in s.queue
    ensures id !in Collect(s).expired
  {
  }

  lemma CollectedAreRunnable(s: Timers)
    requires Inv(s) && s.expired == []
    ensures Inv(Collect(s)) && Runnable(Collect(s))
  {
    var c := Collect(s);
    CollectKeepsInv(s);
    forall i | i in c.expired
      ensures c.timers[i].conn in c.conns
    {
      assert Pending(c, i) && Current(c, i);
    }
  }

  /** A call of `handleRead` runs the callbacks of exactly the timers that have expired and were not
      cancelled, each once, and leaves exactly the others in the set. */
  lemma HandleReadRunsExactlyTheDue(s: Timers, id: TimerId)
    requires Inv(s) && s.expired == [] && id in s.queue
    ensures Runnable(Collect(s))
    ensures var q := RunAll(Collect(s));
            && Inv(q) && q.expired == []
            && id in q.timers
            && (id in q.queue <==> s.timers[id].expiration > s.now)
            && q.timers[id].runs == if s.timers[id].expiration <= s.now && !s.timers[id].cancelled then 1 else 0
  {
    hide RunAll, Current, Sorted;
    var c := Collect(s);
    CollectedAreRunnable(s);
    RunAllRunsEach(c);
    CollectSplits(s, id);
  }

  lemma CollectSplits(s: Timers, id: TimerId)
    requires Inv(s) && s.expired == [] && id in s.queue
    ensures id in s.timers && s.timers[id].runs == 0
    ensures id in Collect(s).expired <==> s.timers[id].expiration <= s.now
    ensures id in Collect(s).queue <==> s.timers[id].expiration > s.now
  {
    hide Current;
    var c := Collect(s);
    var n :| 0 <= n < |s.queue| && s.queue[n] == id;
    DueIsComplete(s.timers, s.queue, s.now, n);
    var due := Due(s.timers, s.queue, s.now);
    assert Pending(s, id);
    if n < due {
      assert c.expired[n] == id;
    } else {
      assert c.queue[n - due] == id;
    }
    CollectKeepsInv(s);
  }

  // ---------- no open connection is forgotten ----------

  /** An open connection that still exists will time out. */
  predicate Watched(s: Timers, c: ConnId)
    requires c in s.conns
  {
    s.conns[c].closed || s.conns[c].freed || Armed(s, c)
  }

  lemma StepKeepsWatching(s: Timers, a: Action, c: ConnId)
    requires Inv(s) && Enabled(s, a) && a != Reopen(c) && a != Destroy(c)
    requires c in s.conns ==> Watched(s, c)
    ensures c in Next(s, a).conns ==> Watched(Next(s, a), c)
  {
    hide Sorted, Before;
    match a
    case Establish(d, id) =>
      if c in s.conns {
        assert OwnTimer(s, c);
      }
      RefreshKeepsWatching(s.(conns := s.conns[d := Conn(false, false, None, s.now, None)]), d, id, c);
    case Touch(d, id) => RefreshKeepsWatching(s, d, id, c);
    case HandleRead => CollectKeepsPending(s);
    case RunNext =>
      if c in s.conns {
        RunFirstWatches(s, c);
      }
    case Destroy(d) =>
      if c in s.conns {
        assert OwnTimer(s, c) && OwnTimer(s, d);
      }
    case _ =>
  }

  lemma RefreshKeepsWatching(s: Timers, d: ConnId, id: TimerId, c: ConnId)
    requires Known(s) && d in s.conns && id !in s.timers
    requires c in s.conns && c != d ==> Watched(s, c) && OwnTimer(s, c)
    requires OwnTimer(s, d)
    ensures c in s.conns ==> Watched(Refresh(s, d, id), c)
  {
    hide Position;
    var n := Position(CancelAlive(s, d)[id := Timer(s.now + IDLE_TIMEOUT, d, false, 0)], s.queue, id);
    assert s.queue == s.queue[..n] + s.queue[n..];
    assert id in s.queue[..n] + [id] + s.queue[n..];
  }

  lemma CollectKeepsPending(s: Timers)
    requires Known(s) && s.expired == []
    ensures forall id :: Pending(Collect(s), id) <==> Pending(s, id)
  {
    var n := Due(s.timers, s.queue, s.now);
    assert s.queue == s.queue[..n] + s.queue[n..];
  }

  lemma RunFirstWatches(s: Timers, c: ConnId)
    requires Inv(s) && Enabled(s, RunNext) && c in s.conns && Watched(s, c)
    ensures Watched(RunFirst(s), c)
  {
    hide Sorted;
    assert s.expired == [s.expired[0]] + s.expired[1..];
    assert OwnTimer(s, c) && Pending(s, s.expired[0]) && Current(s, s.expired[0]);
  }

  /** In every state of every run in which `c` is neither destroyed nor reopened, a connection that is open
      and still exists has a live timer; so the first call of `handleRead` that comes a full idle period
      after its last refresh closes it. */
  lemma {:induction false} EveryIdleConnectionIsClosed(ss: seq<Timers>, steps: seq<Action>, i: nat, c: ConnId)
    requires IsRun(ss, steps) && ss[0] == START && i < |ss| && Reopen(c) !in steps && Destroy(c) !in steps
    ensures Inv(ss[i]) && (c in ss[i].conns ==> Watched(ss[i], c))
    ensures c in ss[i].conns && ss[i].expired == [] && !ss[i].conns[c].freed &&
              ss[i].conns[c].lastRefresh + 60000 <= ss[i].now ==>
            Runnable(Collect(ss[i])) && c in RunAll(Collect(ss[i])).conns && RunAll(Collect(ss[i])).conns[c].closed
  {
    hide Next, Enabled, Inv, Watched, RunAll, Collect, Runnable, Idle;
    EveryRunIsInTime(ss, steps, i);
    if i > 0 {
      EveryIdleConnectionIsClosed(ss, steps, i - 1, c);
      assert steps[i - 1] in steps;
      StepKeepsWatching(ss[i - 1], steps[i - 1], c);
    } else {
      assert c !in START.conns;
    }
    var s := ss[i];
    if c in s.conns && s.expired == [] && !s.conns[c].freed && s.conns[c].lastRefresh + 60000 <= s.now {
      HandleReadClosesTheIdle(s, c);
      WatchedIsIdle(s, c);
    }
  }

  lemma WatchedIsIdle(s: Timers, c: ConnId)
    requires c in s.conns && Watched(s, c) && !s.conns[c].freed && s.conns[c].lastRefresh + 60000 <= s.now
    ensures s.conns[c].closed || Idle(s, c)
  {
  }

  /** Since time `since` the connection has been refreshed, and no timeout reckons from before then. */
  predicate Refreshed(c: Conn, since: nat, before: Option<Timeout>) {
    c.lastRefresh >= since && (c.timedOut == before || (c.timedOut.Some? && c.timedOut.value.idleSince >= since))
  }

  lemma StepKeepsRefreshed(s: Timers, a: Action, c: ConnId, since: nat, before: Option<Timeout>)
    requires Enabled(s, a) && c in s.conns && since <= s.now && Refreshed(s.conns[c], since, before)
    ensures since <= Next(s, a).now && c in Next(s, a).conns && Refreshed(Next(s, a).conns[c], since, before)
  {
    hide Insert, Due, Sorted;
  }

  lemma ActivityRefreshes(s: Timers, a: Action)
    requires Enabled(s, a) && (a.Establish? || a.Touch?)
    ensures var q := Next(s, a);
            q.now == s.now && a.c in q.conns && Refreshed(q.conns[a.c], s.now, q.conns[a.c].timedOut)
    ensures a.Touch? ==> a.c in s.conns && Next(s, a).conns[a.c].timedOut == s.conns[a.c].timedOut
  {
    hide Insert, Sorted;
  }

  /** Input postpones the timeout: in every run, no timeout that comes after a refresh comes less than 60 s
      after it. */
  lemma {:induction false} ActivityPostponesTheTimeout(ss: seq<Timers>, steps: seq<Action>, i: nat, j: nat, c: ConnId)
    requires IsRun(ss, steps) && ss[0] == START && i < j < |ss|
    requires (steps[i].Establish? || steps[i].Touch?) && steps[i].c == c
    ensures c in ss[i + 1].conns && c in ss[j].conns && ss[i].now <= ss[j].now
    ensures Refreshed(ss[j].conns[c], ss[i].now, ss[i + 1].conns[c].timedOut)
    ensures ss[j].conns[c].timedOut != ss[i + 1].conns[c].timedOut ==>
              ss[j].conns[c].timedOut.Some? && ss[j].conns[c].timedOut.value.at >= ss[i].now + 60000
    decreases j
  {
    hide Next, Enabled, Inv;
    if j == i + 1 {
      ActivityRefreshes(ss[i], steps[i]);
    } else {
      ActivityPostponesTheTimeout(ss, steps, i, j - 1, c);
      StepKeepsRefreshed(ss[j - 1], steps[j - 1], c, ss[i].now, ss[i + 1].conns[c].timedOut);
    }
    EveryRunIsInTime(ss, steps, j);
    assert InTime(ss[j].conns[c]);
  }

  /** No timer of the connection can fire any more. */
  ghost predicate Silent(s: Timers, c: ConnId) {
    forall id | id in s.timers && Pending(s, id) && s.timers[id].conn == c :: s.timers[id].cancelled
  }

  lemma DestroySilences(s: Timers, c: ConnId)
    requires Inv(s) && Enabled(s, Destroy(c))
    ensures c in Next(s, Destroy(c)).conns && Silent(Next(s, Destroy(c)), c)
  {
    hide Sorted, Before;
    forall id | id in s.timers && Pending(s, id) && s.timers[id].conn == c
      ensures CancelAlive(s, c)[id].cancelled
    {
      CancelStopsAll(s, c, id);
    }
  }

  lemma StepKeepsSilence(s: Timers, a: Action, c: ConnId)
    requires Inv(s) && Enabled(s, a) && c in s.conns && Silent(s, c) && !(a.Touch? && a.c == c)
    ensures c in Next(s, a).conns && Silent(Next(s, a), c)
    ensures Next(s, a).conns[c].timedOut == s.conns[c].timedOut
  {
    hide Sorted, Before;
    match a
    case Establish(d, id) =>
      RefreshKeepsSilence(s.(conns := s.conns[d := Conn(false, false, None, s.now, None)]), d, id, c);
    case Touch(d, id) => RefreshKeepsSilence(s, d, id, c);
    case HandleRead => CollectKeepsPending(s);
    case RunNext => RunFirstKeepsSilence(s, c);
    case _ =>
  }

  lemma RefreshKeepsSilence(s: Timers, d: ConnId, id: TimerId, c: ConnId)
    requires Known(s) && d in s.conns && id !in s.timers && d != c && Silent(s, c)
    ensures Silent(Refresh(s, d, id), c)
  {
    hide Position;
    var n := Position(CancelAlive(s, d)[id := Timer(s.now + IDLE_TIMEOUT, d, false, 0)], s.queue, id);
    assert s.queue == s.queue[..n] + s.queue[n..];
    forall i | i in Refresh(s, d, id).timers && Pending(Refresh(s, d, id), i) && i != id
      ensures Pending(s, i)
    {
    }
  }

  lemma RunFirstKeepsSilence(s: Timers, c: ConnId)
    requires Inv(s) && Enabled(s, RunNext) && c in s.conns && Silent(s, c)
    ensures c in RunFirst(s).conns && Silent(RunFirst(s), c) && RunFirst(s).conns[c].timedOut == s.conns[c].timedOut
  {
    hide Sorted;
    assert s.expired == [s.expired[0]] + s.expired[1..] && Pending(s, s.expired[0]);
  }

  /** After `connectDestroyed` no timeout reaches the connection, unless it is refreshed again. */
  lemma {:induction false} DestroyedNeverTimesOut(ss: seq<Timers>, steps: seq<Action>, i: nat, j: nat, c: ConnId)
    requires IsRun(ss, steps) && ss[0] == START && i < j < |ss| && steps[i] == Destroy(c)
    requires forall k: nat | i < k < j :: !(steps[k].Touch? && steps[k].c == c)
    ensures c in ss[i].conns && c in ss[j].conns && Silent(ss[j], c)
    ensures ss[j].conns[c].timedOut == ss[i].conns[c].timedOut
    decreases j
  {
    hide Next, Enabled, Inv, Silent;
    EveryRunIsInTime(ss, steps, j - 1);
    if j == i + 1 {
      DestroySilences(ss[i], c);
      DestroyKeepsConns(ss[i], c);
    } else {
      DestroyedNeverTimesOut(ss, steps, i, j - 1, c);
      StepKeepsSilence(ss[j - 1], steps[j - 1], c);
    }
  }

  lemma DestroyKeepsConns(s: Timers, c: ConnId)
    requires Enabled(s, Destroy(c))
    ensures c in s.conns && Next(s, Destroy(c)).conns == s.conns
  {
  }

  /** The exception is real: a connection that timed out and is then turned into a Disconnecting one has no
      live timer, so nothing but further input will ever close it for being idle. */
  lemma ReopenedIsForgotten() returns (ss: seq<Timers>, steps: seq<Action>)
    ensures IsRun(ss, steps) && ss[0] == START
    ensures var q := ss[|steps|]; 0 in q.conns && !q.conns[0].closed && !q.conns[0].freed && !Watched(q, 0)
  {
    hide Refresh, Collect, RunFirst, Due;
    OneConnection();
    var s2 := ONE_CONNECTION.(now := 60000);
    OneTimeout(s2);
    var s3, s4 := Collect(s2), RunFirst(Collect(s2));
    steps := [Establish(0, 0), Tick(60000), HandleRead, RunNext, Reopen(0)];
    ss := [START, ONE_CONNECTION, s2, s3, s4, s4.(conns := s4.conns[0 := s4.conns[0].(closed := false)])];
  }

  const ONE_CONNECTION: Timers :=
    Timers(map[0 := Timer(60000, 0, false, 0)], [0], [], map[0 := Conn(false, false, Some(0), 0, None)], 0)

  lemma OneConnection()
    ensures Enabled(START, Establish(0, 0)) && Next(START, Establish(0, 0)) == ONE_CONNECTION
  {
  }

  lemma OneTimeout(s: Timers)
    requires s == ONE_CONNECTION.(now := 60000)
    ensures Known(s) && Enabled(Collect(s), RunNext)
    ensures var q := RunFirst(Collect(s));
            && Known(q) && q.queue == [] && q.expired == []
            && 0 in q.conns && q.conns[0].closed && !q.conns[0].freed && q.conns[0].alive == Some(0)
  {
    assert Due(s.timers, [0], 60000) == 1;
  }
}
