/** The output path of TcpConnection.cpp: direct writes, the output buffer, one pending file,
    EPOLLOUT interest, the high-water pause and the deferred shutdown, against a kernel that may
    write less than asked, refuse, or fail. */
module TcpOutput {
  import opened Wrappers

  datatype State = Connected | Disconnecting | Disconnected

  /** The result of `send`, `write` or `sendfile`. */
  datatype Io = Wrote(n: nat) | Again | Broken

  /** A file handed to `sendFile`: its contents and the range still to be sent. */
  datatype Source = Source(contents: string, offset: nat, remain: nat) {
    /** The bytes that `sendfile` can still deliver. */
    function Rest(): string {
      if offset >= |contents| then ""
      else if offset + remain <= |contents| then contents[offset..offset + remain]
      else contents[offset..]
    }

    /** There is something to send and the file is as long as the range says. */
    predicate Complete() {
      remain > 0 && offset + remain <= |contents|
    }

    function Advance(n: nat): Source
      requires n <= remain
    {
      Source(contents, offset + n, remain - n)
    }
  }

  const HIGH_WATER_MARK: nat := 64 * 1024 * 1024

  /** The connection. `wire` is what has reached the socket, `accepted` everything that `send` and
      `sendFile` took on, `shuts` how often SHUT_WR was issued. */
  datatype Tcp = Tcp(
    state: State,
    reading: bool,
    writing: bool,
    paused: bool,
    out: string,
    file: Option<Source>,
    wire: string,
    accepted: string,
    shuts: nat)
  {
    function FileRest(): string {
      match file case None => "" case Some(f) => f.Rest()
    }

    function Remain(): nat {
      match file case None => 0 case Some(f) => f.remain
    }

    function PendingBytes(): nat {
      |out| + Remain()
    }
  }

  // ---------- operations ----------

  /** Everything that `k` left of `data` goes to the buffer. */
  function Enqueue(t: Tcp, data: string, n: nat): Tcp
    requires n <= |data|
  {
    t.(wire := t.wire + data[..n], out := t.out + data[n..], accepted := t.accepted + data, writing := true)
  }

  function Send(t: Tcp, data: string, k: Io): Tcp
    requires k.Wrote? ==> k.n <= |data|
  {
    if t.PendingBytes() + |data| > HIGH_WATER_MARK then
      if t.paused then t else t.(reading := false, paused := true)
    else if t.writing || t.out != "" then Enqueue(t, data, 0)
    else match k
      case Wrote(n) =>
        if n == |data| then t.(wire := t.wire + data, accepted := t.accepted + data) else Enqueue(t, data, n)
      case Again => Enqueue(t, data, 0)
      case Broken => t
  }

  function SendFile(t: Tcp, f: Source): Tcp {
    t.(file := Some(f), writing := true, accepted := t.accepted + f.Rest())
  }

  function Close(t: Tcp): Tcp {
    if t.state.Disconnected? then t
    else t.(state := Disconnected, reading := false, writing := false, file := None)
  }

  function Shutdown(t: Tcp): Tcp {
    if t.writing then t.(state := Disconnecting) else t.(shuts := t.shuts + 1)
  }

  /** The end of `handleWrite`. */
  function Drained(t: Tcp): Tcp {
    if t.out != "" || t.file.Some? then t
    else
      var q := t.(writing := false, reading := t.reading || t.paused, paused := false);
      if q.state.Disconnecting? then Shutdown(q) else q
  }

  function WriteFile(t: Tcp, k: Io): Tcp
    requires k.Wrote? ==> k.n <= |t.FileRest()|
  {
    match t.file
    case None => Drained(t)
    case Some(f) =>
      match k
      case Wrote(n) =>
        if n == 0 then Drained(t)
        else t.(wire := t.wire + f.Rest()[..n], file := if n == f.remain then None else Some(f.Advance(n)))
      case Again => t
      case Broken => Close(t)
  }

  function HandleWrite(t: Tcp, k: Io, kf: Io): Tcp
    requires k.Wrote? ==> k.n <= |t.out|
    requires kf.Wrote? ==> kf.n <= |t.FileRest()|
  {
    if t.out == "" then WriteFile(t, kf)
    else match k
      case Wrote(n) =>
        var q := t.(wire := t.wire + t.out[..n], out := t.out[n..]);
        if n > 0 && q.out != "" then q else WriteFile(q, kf)
      case Again => WriteFile(t, kf)
      case Broken => Close(t)
  }

  // ---------- runs ----------

  datatype Action =
    | DoSend(data: string, k: Io)
    | DoSendFile(f: Source)
    | DoWrite(k: Io, kf: Io)
    | DoShutdown
    | DoClose

  /** What the kernel may answer. */
  predicate Possible(t: Tcp, a: Action) {
    match a
    case DoSend(data, k) => k.Wrote? ==> k.n <= |data|
    case DoWrite(k, kf) => (k.Wrote? ==> k.n <= |t.out|) && (kf.Wrote? ==> kf.n <= |t.FileRest()|)
    case _ => true
  }

  function Next(t: Tcp, a: Action): Tcp
    requires Possible(t, a)
  {
    match a
    case DoSend(data, k) => Send(t, data, k)
    case DoSendFile(f) => SendFile(t, f)
    case DoWrite(k, kf) => HandleWrite(t, k, kf)
    case DoShutdown => Shutdown(t)
    case DoClose => Close(t)
  }

  /** `write` made no progress but `sendfile`, in the same call, did. */
  predicate Overtakes(t: Tcp, a: Action) {
    a.DoWrite? && t.out != "" && (a.k.Again? || a.k == Wrote(0)) && a.kf.Wrote? && a.kf.n > 0
  }

  /** The conditions under which bytes keep their order: nothing is sent while file bytes are
      outstanding, and a file does not overtake the buffer. */
  predicate Orderly(t: Tcp, a: Action) {
    && (a.DoSend? || a.DoSendFile? ==> t.FileRest() == "")
    && !Overtakes(t, a)
  }

  /** Every accepted byte is on the wire, in the buffer or in the pending file, in this order. */
  predicate Conserved(t: Tcp) {
    t.wire + (t.out + t.FileRest()) == t.accepted
  }

  predicate Inv(t: Tcp) {
    && Conserved(t)
    && (t.out != "" || t.file.Some? ==> t.writing)
    && |t.out| <= HIGH_WATER_MARK
    && (t.paused ==> !t.reading)
  }

  const START: Tcp := Tcp(Connected, true, false, false, "", None, "", "", 0)

  lemma EnqueueKeepsOrder(t: Tcp, data: string, n: nat)
    requires Conserved(t) && t.FileRest() == "" && n <= |data| && (n == 0 || t.out == "")
    ensures Conserved(Enqueue(t, data, n))
  {
    assert data[..n] + data[n..] == data;
    assert data[..0] == "" && data[0..] == data;
    assert t.wire + (t.out + "") + data == t.wire + (t.out + data);
    if n > 0 {
      assert t.wire + ("" + "") + data == t.wire + data[..n] + ("" + data[n..]);
    }
  }

  lemma SendKeepsInv(t: Tcp, data: string, k: Io)
    requires Inv(t) && t.FileRest() == "" && (k.Wrote? ==> k.n <= |data|)
    ensures Inv(Send(t, data, k))
  {
    hide Source.Rest;
    if t.PendingBytes() + |data| <= HIGH_WATER_MARK {
      if t.writing || t.out != "" || k.Again? {
        EnqueueKeepsOrder(t, data, 0);
        EnqueueKeepsLimits(t, data, 0);
      } else if k.Wrote? {
        EnqueueKeepsOrder(t, data, k.n);
        EnqueueKeepsLimits(t, data, k.n);
        AllWritten(t, data);
      }
    }
  }

  lemma EnqueueKeepsLimits(t: Tcp, data: string, n: nat)
    requires Inv(t) && n <= |data| && t.PendingBytes() + |data| <= HIGH_WATER_MARK
    requires Conserved(Enqueue(t, data, n))
    ensures Inv(Enqueue(t, data, n))
  {
  }

  lemma AllWritten(t: Tcp, data: string)
    requires Conserved(t) && t.FileRest() == "" && t.out == ""
    ensures Conserved(t.(wire := t.wire + data, accepted := t.accepted + data))
  {
  }

  lemma WriteFileKeepsInv(t: Tcp, kf: Io)
    requires Inv(t) && (kf.Wrote? ==> kf.n <= |t.FileRest()|)
    requires t.out != "" && t.file.Some? ==> !kf.Wrote? || kf.n == 0
    ensures Inv(WriteFile(t, kf)) || WriteFile(t, kf).state.Disconnected?
    ensures !kf.Broken? ==> Inv(WriteFile(t, kf))
  {
    if t.file.Some? && kf.Wrote? && kf.n > 0 {
      var f := t.file.value;
      FileAdvances(f, kf.n);
      assert t.out == "";
      assert t.wire + ("" + f.Rest()) == t.wire + f.Rest()[..kf.n] + ("" + f.Rest()[kf.n..]);
    }
  }

  lemma FileAdvances(f: Source, n: nat)
    requires 0 < n <= |f.Rest()|
    ensures n <= |f.Rest()| <= f.remain && f.Advance(n).Rest() == f.Rest()[n..]
  {
  }

  /** Part of the buffer, or all of it, goes out. */
  lemma BufferAdvances(t: Tcp, n: nat)
    requires Inv(t) && n <= |t.out|
    ensures Inv(t.(wire := t.wire + t.out[..n], out := t.out[n..]))
  {
    assert t.out == t.out[..n] + t.out[n..];
    assert t.wire + (t.out + t.FileRest()) == t.wire + t.out[..n] + (t.out[n..] + t.FileRest());
  }

  lemma HandleWriteKeepsInv(t: Tcp, k: Io, kf: Io)
    requires Inv(t) && Possible(t, DoWrite(k, kf)) && !Overtakes(t, DoWrite(k, kf))
    ensures Inv(HandleWrite(t, k, kf)) || HandleWrite(t, k, kf).state.Disconnected?
    ensures !k.Broken? && !kf.Broken? ==> Inv(HandleWrite(t, k, kf))
  {
    hide Inv, WriteFile, Source.Rest;
    if t.out != "" && k.Wrote? {
      BufferAdvances(t, k.n);
      var q := t.(wire := t.wire + t.out[..k.n], out := t.out[k.n..]);
      if k.n == 0 || q.out == "" {
        WriteFileKeepsInv(q, kf);
      }
    } else if t.out == "" || k.Again? {
      WriteFileKeepsInv(t, kf);
    }
  }

  /** One step of a live connection keeps order, conservation and write interest. */
  lemma StepKeepsInv(t: Tcp, a: Action)
    requires Inv(t) && Possible(t, a) && Orderly(t, a)
    ensures Inv(Next(t, a)) || Next(t, a).state.Disconnected?
  {
    hide Source.Rest, HandleWrite, Send;
    match a
    case DoSend(data, k) => SendKeepsInv(t, data, k);
    case DoSendFile(f) => assert t.wire + (t.out + "") + f.Rest() == t.wire + (t.out + f.Rest());
    case DoWrite(k, kf) => HandleWriteKeepsInv(t, k, kf);
    case DoShutdown =>
    case DoClose =>
  }

  // ---------- whole runs ----------

  /** `ts` are the states passed through when the actions `steps` are taken in order. */
  ghost predicate IsRun(ts: seq<Tcp>, steps: seq<Action>) {
    |ts| == |steps| + 1 &&
    forall i: nat | i < |steps| :: Possible(ts[i], steps[i]) && ts[i + 1] == Next(ts[i], steps[i])
  }

  ghost predicate IsOrderly(ts: seq<Tcp>, steps: seq<Action>) {
    IsRun(ts, steps) && forall i: nat | i < |steps| :: Orderly(ts[i], steps[i])
  }

  /** The first `n + 1` states are those of a connection that has not been closed. */
  ghost predicate OpenUpTo(ts: seq<Tcp>, n: nat) {
    n < |ts| && forall i: nat | i <= n :: !ts[i].state.Disconnected?
  }

  /** As long as the connection has not been closed, every state of an orderly run has all accepted
      bytes in order, wants EPOLLOUT for whatever is pending, and holds a bounded buffer. */
  lemma {:induction false} RunKeepsInv(ts: seq<Tcp>, steps: seq<Action>, i: nat)
    requires IsOrderly(ts, steps) && ts[0] == START && OpenUpTo(ts, i)
    ensures Inv(ts[i]) && ts[i].wire <= ts[i].accepted
  {
    hide Next, Orderly;
    if i > 0 {
      RunKeepsInv(ts, steps, i - 1);
      StepKeepsInv(ts[i - 1], steps[i - 1]);
    }
  }

  /** In every orderly run SHUT_WR is issued only when everything accepted so far is on the wire. */
  lemma EveryShutdownComesLast(ts: seq<Tcp>, steps: seq<Action>, i: nat)
    requires IsOrderly(ts, steps) && ts[0] == START && i < |steps| && OpenUpTo(ts, i + 1)
    requires ts[i + 1].shuts > ts[i].shuts
    ensures ts[i + 1].wire == ts[i + 1].accepted
  {
    hide Next, Orderly;
    RunKeepsInv(ts, steps, i);
    ShutdownComesLast(ts[i], steps[i]);
  }

  lemma ShutdownComesLast(t: Tcp, a: Action)
    requires Inv(t) && Possible(t, a) && Orderly(t, a)
    requires Next(t, a).shuts > t.shuts && !Next(t, a).state.Disconnected?
    ensures Next(t, a).wire == Next(t, a).accepted
  {
    StepKeepsInv(t, a);
    assert Next(t, a).out == "" && Next(t, a).file.None?;
  }

  // ---------- every shutdown is issued ----------

  /** A shutdown asked for when `n` had been issued has been issued since, or waits for the drain. */
  predicate ShutdownIsDue(t: Tcp, n: nat) {
    t.shuts > n || (t.shuts == n && t.state.Disconnecting? && t.writing)
  }

  /** Bytes have moved, and nothing else has changed. */
  predicate OnlyMoved(t: Tcp, q: Tcp) {
    q == t.(wire := q.wire, out := q.out, file := q.file)
  }

  /** The end of writing: no write interest, reading resumed, a pending shutdown carried out. */
  function Finished(t: Tcp): Tcp {
    t.(writing := false, reading := t.reading || t.paused, paused := false,
       shuts := t.shuts + if t.state.Disconnecting? then 1 else 0)
  }

  /** A call of `handleWrite` closes the connection, or moves bytes, or moves bytes and ends writing. */
  lemma WriteLeaves(t: Tcp, k: Io, kf: Io)
    requires Possible(t, DoWrite(k, kf)) && !t.state.Disconnected?
    ensures var q := HandleWrite(t, k, kf);
            q.state.Disconnected? || OnlyMoved(t, q) || (OnlyMoved(Finished(t), q) && q.out == "" && q.file.None?)
  {
    hide WriteFile, Source.Rest;
    WriteFileLeaves(t, kf);
    if t.out != "" && k.Wrote? {
      WriteFileLeaves(t.(wire := t.wire + t.out[..k.n], out := t.out[k.n..]), kf);
    }
  }

  lemma WriteFileLeaves(t: Tcp, kf: Io)
    requires kf.Wrote? ==> kf.n <= |t.FileRest()|
    ensures var q := WriteFile(t, kf);
            q.state.Disconnected? || OnlyMoved(t, q) || (OnlyMoved(Finished(t), q) && q.out == "" && q.file.None?)
  {
    hide Source.Rest;
  }

  lemma StepCarriesOn(t: Tcp, a: Action, n: nat)
    requires Possible(t, a) && t.shuts >= n && !t.state.Disconnected? && !Next(t, a).state.Disconnected?
    ensures Next(t, a).shuts >= n
    ensures ShutdownIsDue(t, n) || a.DoShutdown? ==> ShutdownIsDue(Next(t, a), n)
  {
    hide Source.Rest, HandleWrite, Send;
    match a
    case DoSend(data, k) => SendIsAllOrNothing(t, data, k);
    case DoWrite(k, kf) => WriteLeaves(t, k, kf);
    case _ =>
  }

  /** In every run, orderly or not, of an open connection: a shutdown that was asked for has been issued as
      soon as there is no write interest left, at once if there was none. */
  lemma {:induction false} EveryShutdownIsIssued(ts: seq<Tcp>, steps: seq<Action>, i: nat, j: nat)
    requires IsRun(ts, steps) && i < j && OpenUpTo(ts, j) && steps[i].DoShutdown?
    ensures !ts[j].writing ==> ts[j].shuts > ts[i].shuts
    ensures ShutdownIsDue(ts[j], ts[i].shuts)
  {
    hide Next;
    if j > i + 1 {
      EveryShutdownIsIssued(ts, steps, i, j - 1);
    }
    assert !ts[j - 1].state.Disconnected? && !ts[j].state.Disconnected?;
    StepCarriesOn(ts[j - 1], steps[j - 1], ts[i].shuts);
  }

  /** And none is issued that was not asked for. */
  lemma {:induction false} NoShutdownUnasked(ts: seq<Tcp>, steps: seq<Action>, i: nat)
    requires IsRun(ts, steps) && ts[0] == START && i < |ts|
    requires forall j: nat | j < i :: !steps[j].DoShutdown?
    ensures ts[i].shuts == 0 && !ts[i].state.Disconnecting?
  {
    hide Next;
    if i > 0 {
      NoShutdownUnasked(ts, steps, i - 1);
      NothingIsShut(ts[i - 1], steps[i - 1]);
    }
  }

  lemma NothingIsShut(t: Tcp, a: Action)
    requires Possible(t, a) && !a.DoShutdown? && t.shuts == 0 && !t.state.Disconnecting?
    ensures Next(t, a).shuts == 0 && !Next(t, a).state.Disconnecting?
  {
    hide Source.Rest, HandleWrite, Send;
    match a
    case DoSend(data, k) => SendIsAllOrNothing(t, data, k);
    case DoWrite(k, kf) => WriteShutsNothing(t, k, kf);
    case _ =>
  }

  lemma WriteShutsNothing(t: Tcp, k: Io, kf: Io)
    requires Possible(t, DoWrite(k, kf)) && !t.state.Disconnecting?
    ensures HandleWrite(t, k, kf).shuts == t.shuts && !HandleWrite(t, k, kf).state.Disconnecting?
  {
    hide WriteFile, Source.Rest;
    FileShutsNothing(t, kf);
    if t.out != "" && k.Wrote? {
      FileShutsNothing(t.(wire := t.wire + t.out[..k.n], out := t.out[k.n..]), kf);
    }
  }

  lemma FileShutsNothing(t: Tcp, kf: Io)
    requires (kf.Wrote? ==> kf.n <= |t.FileRest()|) && !t.state.Disconnecting?
    ensures WriteFile(t, kf).shuts == t.shuts && !WriteFile(t, kf).state.Disconnecting?
  {
    hide Source.Rest;
  }

  // ---------- what is accepted, and what reaches the wire ----------

  /** Exactly which messages are accepted: whole or not at all. One that would take what is pending above
      64 MiB is refused and pauses reading; one that the kernel answers with an error is dropped, and
      nothing else happens. An accepted message is offered to the kernel at once exactly when nothing waits,
      and what the kernel takes of it is on the wire. */
  lemma SendIsAllOrNothing(t: Tcp, data: string, k: Io)
    requires k.Wrote? ==> k.n <= |data|
    ensures var q := Send(t, data, k);
            var fits := |t.out| + t.Remain() + |data| <= 67108864;
            var idle := !t.writing && t.out == "";
            var taken := if idle && k.Wrote? then k.n else 0;
            && (if fits && !(idle && k.Broken?)
                then q.accepted == t.accepted + data &&
                     q.wire == t.wire + data[..taken] && q.out == t.out + data[taken..]
                else q.accepted == t.accepted && q.wire == t.wire && q.out == t.out)
            && (q.paused <==> t.paused || !fits) && (q.reading <==> t.reading && (t.paused || fits))
            && (q.writing <==> t.writing || (fits && (idle ==> k.Again? || (k.Wrote? && k.n < |data|))))
            && q.state == t.state && q.file == t.file && q.shuts == t.shuts
  {
    hide Source.Rest;
    assert k.Wrote? && k.n == |data| ==> data[..k.n] == data && data[k.n..] == "" && t.out + data[k.n..] == t.out;
  }

  /** Everything that was sent, in order. */
  function SentBy(steps: seq<Action>): string {
    if steps == [] then ""
    else
      var last := steps[|steps| - 1];
      SentBy(steps[..|steps| - 1]) + if last.DoSend? then last.data else ""
  }

  predicate TakenWhole(a: Action) {
    a.DoSend? && a.k == Wrote(|a.data|) && |a.data| <= HIGH_WATER_MARK
  }

  /** While the kernel takes every message whole, nothing is ever buffered: all that was sent is on the wire. */
  lemma {:induction false} NothingWaitsNeedlessly(ts: seq<Tcp>, steps: seq<Action>, i: nat)
    requires IsRun(ts, steps) && ts[0] == START && i < |ts| && forall j: nat | j < i :: TakenWhole(steps[j])
    ensures ts[i] == START.(wire := SentBy(steps[..i]), accepted := SentBy(steps[..i]))
  {
    hide Next;
    if i > 0 {
      NothingWaitsNeedlessly(ts, steps, i - 1);
      assert steps[..i][..i - 1] == steps[..i - 1];
      TakenAtOnce(ts[i - 1], steps[i - 1]);
    }
  }

  lemma TakenAtOnce(t: Tcp, a: Action)
    requires t == START.(wire := t.wire, accepted := t.accepted) && Possible(t, a) && TakenWhole(a)
    ensures Next(t, a) == t.(wire := t.wire + a.data, accepted := t.accepted + a.data)
  {
  }

  /** The file is tried in this call: the buffer is empty, or the kernel took all of it, or none. */
  predicate FileIsTried(t: Tcp, k: Io) {
    t.file.Some? && (t.out == "" || k.Again? || k == Wrote(0) || k == Wrote(|t.out|))
  }

  /** What a call of `handleWrite` puts on the wire: what the kernel takes of the buffer, then, if that is
      empty or nothing of it was taken, what it takes of the file. */
  lemma WriteMovesWhatIsTaken(t: Tcp, k: Io, kf: Io)
    requires Possible(t, DoWrite(k, kf)) && !k.Broken? && !kf.Broken?
    ensures var q := HandleWrite(t, k, kf);
            var n := if t.out != "" && k.Wrote? then k.n else 0;
            var m := if FileIsTried(t, k) && kf.Wrote? then kf.n else 0;
            && q.wire == t.wire + t.out[..n] + t.FileRest()[..m] && q.out == t.out[n..]
            && q.accepted == t.accepted
  {
    hide Source.Rest, WriteFile;
    WriteFileMoves(t, kf);
    assert t.wire + t.out[..0] == t.wire && t.out[0..] == t.out;
    if t.out != "" && k.Wrote? {
      var q := t.(wire := t.wire + t.out[..k.n], out := t.out[k.n..]);
      WriteFileMoves(q, kf);
      assert q.FileRest() == t.FileRest() && q.wire + t.FileRest()[..0] == q.wire;
      assert q.out == "" <==> k.n == |t.out|;
    }
  }

  lemma WriteFileMoves(t: Tcp, kf: Io)
    requires (kf.Wrote? ==> kf.n <= |t.FileRest()|) && !kf.Broken?
    ensures var q := WriteFile(t, kf);
            var m := if t.file.Some? && kf.Wrote? then kf.n else 0;
            q.wire == t.wire + t.FileRest()[..m] && q.out == t.out && q.accepted == t.accepted
  {
    hide Source.Rest;
    assert t.wire + t.FileRest()[..0] == t.wire;
  }

  /** Exactly what closes an open connection: an error of `write` or of `sendfile`, or `handleClose` itself.
      It then wants no events and has let go of the file. An error of `send` does not. */
  lemma ClosesIff(t: Tcp, a: Action)
    requires Possible(t, a)
    ensures t.state.Disconnected? && a.DoClose? ==> Next(t, a) == t
    ensures var q := Next(t, a); !t.state.Disconnected? ==>
            && (q.state.Disconnected? <==>
                a.DoClose? || (a.DoWrite? && ((t.out != "" && a.k.Broken?) || (FileIsTried(t, a.k) && a.kf.Broken?))))
            && (q.state.Disconnected? ==> !q.reading && !q.writing && q.file.None? && q.accepted == t.accepted)
            && (a.DoClose? ==> q.out == t.out && q.wire == t.wire && q.shuts == t.shuts && q.paused == t.paused)
  {
    hide Source.Rest, Send, HandleWrite;
    match a
    case DoSend(data, k) => SendIsAllOrNothing(t, data, k);
    case DoWrite(k, kf) => if !t.state.Disconnected? { WriteClosesIff(t, k, kf); }
    case _ =>
  }

  /** The connection is closed, and has let go of everything. */
  predicate LetGo(t: Tcp, q: Tcp) {
    q.state.Disconnected? && !q.reading && !q.writing && q.file.None? && q.accepted == t.accepted
  }

  lemma WriteClosesIff(t: Tcp, k: Io, kf: Io)
    requires Possible(t, DoWrite(k, kf)) && !t.state.Disconnected?
    ensures var q := HandleWrite(t, k, kf);
            if (t.out != "" && k.Broken?) || (FileIsTried(t, k) && kf.Broken?) then LetGo(t, q)
            else !q.state.Disconnected?
  {
    hide Source.Rest, WriteFile;
    FileClosesIff(t, kf);
    if t.out != "" && k.Wrote? {
      var q := t.(wire := t.wire + t.out[..k.n], out := t.out[k.n..]);
      FileClosesIff(q, kf);
      assert q.out == "" <==> k.n == |t.out|;
    }
  }

  lemma FileClosesIff(t: Tcp, kf: Io)
    requires (kf.Wrote? ==> kf.n <= |t.FileRest()|) && !t.state.Disconnected?
    ensures var q := WriteFile(t, kf);
            if t.file.Some? && kf.Broken? then LetGo(t, q) else !q.state.Disconnected?
  {
    hide Source.Rest;
  }

  // ---------- what holds without any discipline ----------

  /** Pending bytes of a connection that is not closed are waited for, and the buffer is bounded. */
  predicate Waiting(t: Tcp) {
    && (!t.state.Disconnected? && (t.out != "" || t.file.Some?) ==> t.writing)
    && |t.out| <= HIGH_WATER_MARK
  }

  /** Whatever is called in whatever order, and whatever the kernel answers. */
  lemma AlwaysWaiting(t: Tcp, a: Action)
    requires Waiting(t) && Possible(t, a)
    ensures Waiting(Next(t, a))
  {
    hide Source.Rest, HandleWrite, Send;
    match a
    case DoSend(data, k) => SendKeepsWaiting(t, data, k);
    case DoWrite(k, kf) => WriteKeepsWaiting(t, k, kf);
    case _ =>
  }

  lemma SendKeepsWaiting(t: Tcp, data: string, k: Io)
    requires Waiting(t) && (k.Wrote? ==> k.n <= |data|)
    ensures Waiting(Send(t, data, k))
  {
    hide Source.Rest;
  }

  lemma WriteKeepsWaiting(t: Tcp, k: Io, kf: Io)
    requires Waiting(t) && Possible(t, DoWrite(k, kf))
    ensures Waiting(HandleWrite(t, k, kf))
  {
    hide Source.Rest, WriteFile;
    FileKeepsWaiting(t, kf);
    if t.out != "" && k.Wrote? {
      FileKeepsWaiting(t.(wire := t.wire + t.out[..k.n], out := t.out[k.n..]), kf);
    }
  }

  lemma FileKeepsWaiting(t: Tcp, kf: Io)
    requires Waiting(t) && (kf.Wrote? ==> kf.n <= |t.FileRest()|)
    ensures Waiting(WriteFile(t, kf))
  {
    hide Source.Rest;
  }

  /** A paused connection is paused until EPOLLOUT resumes it. */
  predicate PauseEnds(t: Tcp) {
    t.paused ==> t.writing
  }

  /** Exactly which messages leave a live connection paused with nothing to resume it: those larger
      than the mark that find nothing pending. */
  lemma PauseEndsIff(t: Tcp, data: string, k: Io)
    requires Waiting(t) && !t.state.Disconnected? && PauseEnds(t) && (k.Wrote? ==> k.n <= |data|)
    ensures PauseEnds(Send(t, data, k)) <==> t.writing || |data| <= HIGH_WATER_MARK
  {
  }

  /** All the other operations keep a pause bounded. */
  lemma PauseStillEnds(t: Tcp, a: Action)
    requires Waiting(t) && Possible(t, a) && PauseEnds(t) && !a.DoSend?
    requires !Next(t, a).state.Disconnected?
    ensures PauseEnds(Next(t, a))
  {
    hide Source.Rest;
  }

  /** Backpressure: in every run, orderly or not, of an open connection whose messages are each within
      the mark, pending output and paused reading are waited for by EPOLLOUT, whose drain ends both. */
  lemma {:induction false} PauseAlwaysEnds(ts: seq<Tcp>, steps: seq<Action>, i: nat)
    requires IsRun(ts, steps) && ts[0] == START && OpenUpTo(ts, i)
    requires forall j: nat | j < |steps| :: steps[j].DoSend? ==> |steps[j].data| <= HIGH_WATER_MARK
    ensures Waiting(ts[i]) && PauseEnds(ts[i]) && |ts[i].out| <= HIGH_WATER_MARK
    ensures ts[i].reading == !ts[i].paused
  {
    hide Send, HandleWrite;
    if i > 0 {
      PauseAlwaysEnds(ts, steps, i - 1);
      var t, a := ts[i - 1], steps[i - 1];
      assert ts[i] == Next(t, a) && !ts[i].state.Disconnected? && !t.state.Disconnected?;
      ReadingUnlessPaused(t, a);
      AlwaysWaiting(t, a);
      if a.DoSend? {
        PauseEndsIff(t, a.data, a.k);
      } else {
        PauseStillEnds(t, a);
      }
    }
  }

  /** An open connection reads unless it is paused. */
  lemma ReadingUnlessPaused(t: Tcp, a: Action)
    requires Possible(t, a) && t.reading == !t.paused && !t.state.Disconnected? && !Next(t, a).state.Disconnected?
    ensures Next(t, a).reading == !Next(t, a).paused
  {
    hide Source.Rest, HandleWrite, Send;
    match a
    case DoSend(data, k) => SendIsAllOrNothing(t, data, k);
    case DoWrite(k, kf) => WriteLeaves(t, k, kf);
    case _ =>
  }

  // ---------- when sending keeps the order ----------

  lemma FirstByteDiffers(a: string, x: char, rest: string)
    requires rest != "" && x != rest[0]
    ensures a + ([x] + rest) != a + rest + [x]
  {
    assert (a + ([x] + rest))[|a|] == x;
    assert (a + rest + [x])[|a|] == rest[0];
  }

  function OtherThan(c: char): char {
    if c == 'a' then 'b' else 'a'
  }

  /** Sending keeps every message in order exactly when no file bytes are outstanding, or the
      buffer is too full to accept any message. */
  lemma SendKeepsOrderIff(t: Tcp)
    requires Inv(t)
    ensures (forall data: string, k: Io | k.Wrote? ==> k.n <= |data| :: Conserved(Send(t, data, k)))
            <==> t.FileRest() == "" || t.PendingBytes() + 1 > HIGH_WATER_MARK
  {
    hide Send, Source.Rest, Conserved;
    if t.FileRest() == "" {
      forall data: string, k: Io | k.Wrote? ==> k.n <= |data|
        ensures Conserved(Send(t, data, k))
      {
        SendKeepsInv(t, data, k);
      }
    } else if t.PendingBytes() + 1 > HIGH_WATER_MARK {
      forall data: string, k: Io | k.Wrote? ==> k.n <= |data|
        ensures Conserved(Send(t, data, k))
      {
        FullBufferKeepsOrder(t, data, k);
      }
    } else {
      SendReorders(t);
      assert !Conserved(Send(t, [OtherThan(t.FileRest()[0])], Again));
    }
  }

  /** One byte that differs from the next one of the file. */
  lemma SendReorders(t: Tcp)
    requires Inv(t) && t.FileRest() != "" && t.PendingBytes() + 1 <= HIGH_WATER_MARK
    ensures !Conserved(Send(t, [OtherThan(t.FileRest()[0])], Again))
  {
    hide Source.Rest;
    var rest := t.FileRest();
    var data := [OtherThan(rest[0])];
    var q := Send(t, data, Again);
    assert data[..0] == "" && data[0..] == data;
    assert q.wire == t.wire && q.out == t.out + data && q.FileRest() == rest;
    FirstByteDiffers(t.wire + t.out, data[0], rest);
    assert q.wire + (q.out + rest) == t.wire + t.out + (data + rest);
    assert q.accepted == t.wire + t.out + rest + data;
  }

  lemma FullBufferKeepsOrder(t: Tcp, data: string, k: Io)
    requires Inv(t) && t.PendingBytes() + 1 > HIGH_WATER_MARK && t.file.Some? && (k.Wrote? ==> k.n <= |data|)
    ensures Conserved(Send(t, data, k))
  {
    hide Source.Rest;
    if data == "" {
      assert t.out + data[0..] == t.out && t.wire + data[..0] == t.wire && t.accepted + data == t.accepted;
    }
  }

  /** Handing over a file keeps the order exactly when no file bytes are outstanding: the code
      forgets the file it replaces. */
  lemma SendFileKeepsOrderIff(t: Tcp)
    requires Inv(t)
    ensures (forall f: Source :: Conserved(SendFile(t, f))) <==> t.FileRest() == ""
  {
    if t.FileRest() == "" {
      forall f: Source
        ensures Conserved(SendFile(t, f))
      {
        assert t.wire + (t.out + "") + f.Rest() == t.wire + (t.out + f.Rest());
      }
    } else {
      var f := Source("", 0, 0);
      assert |t.wire + (t.out + f.Rest())| < |t.accepted + f.Rest()|;
      assert !Conserved(SendFile(t, f));
    }
  }

  /** Exactly when a file that overtakes the buffer keeps the order: when the file bytes sent and the
      buffer read the same in either order. */
  lemma OvertakingKeepsOrderIff(t: Tcp, k: Io, n: nat)
    requires Inv(t) && Possible(t, DoWrite(k, Wrote(n))) && Overtakes(t, DoWrite(k, Wrote(n)))
    ensures Conserved(HandleWrite(t, k, Wrote(n))) <==> t.FileRest()[..n] + t.out == t.out + t.FileRest()[..n]
  {
    hide HandleWrite, Source.Rest;
    var rest := t.FileRest();
    var q := HandleWrite(t, k, Wrote(n));
    OvertakingMoves(t, k, n);
    SwappedMiddle(t.wire, t.out, rest, n);
    SameMiddle(t.wire, rest[..n] + t.out, t.out + rest[..n], rest[n..]);
  }

  lemma SwappedMiddle(wire: string, out: string, rest: string, n: nat)
    requires n <= |rest|
    ensures wire + rest[..n] + (out + rest[n..]) == wire + (rest[..n] + out) + rest[n..]
    ensures wire + (out + rest) == wire + (out + rest[..n]) + rest[n..]
  {
    assert rest == rest[..n] + rest[n..];
  }

  lemma OvertakingMoves(t: Tcp, k: Io, n: nat)
    requires Inv(t) && Possible(t, DoWrite(k, Wrote(n))) && Overtakes(t, DoWrite(k, Wrote(n)))
    ensures var q := HandleWrite(t, k, Wrote(n));
            && q.wire == t.wire + t.FileRest()[..n] && q.out == t.out
            && q.FileRest() == t.FileRest()[n..] && q.accepted == t.accepted
  {
    hide Source.Rest;
    FileAdvances(t.file.value, n);
    var t0 := t.(wire := t.wire + t.out[..0], out := t.out[0..]);
    assert t0 == t;
  }

  lemma SameMiddle(pre: string, a: string, b: string, post: string)
    requires |a| == |b|
    ensures pre + a + post == pre + b + post <==> a == b
  {
    if pre + a + post == pre + b + post {
      assert a == (pre + a + post)[|pre|..|pre| + |a|];
      assert b == (pre + b + post)[|pre|..|pre| + |b|];
    }
  }

  /** One byte, over and over. */
  predicate Uniform(text: string) {
    forall i | 0 <= i < |text| :: text[i] == text[0]
  }

  /** `handleWrite` keeps the order whatever the kernel answers, errors aside, exactly when the buffer
      or the file is empty, or both are nothing but one and the same byte. */
  lemma HandleWriteKeepsOrderIff(t: Tcp)
    requires Inv(t)
    ensures (forall k: Io, kf: Io | Possible(t, DoWrite(k, kf)) && !k.Broken? && !kf.Broken? ::
            Conserved(HandleWrite(t, k, kf)))
            <==> t.out == "" || t.FileRest() == "" || Uniform(t.out + t.FileRest())
  {
    hide HandleWrite, Source.Rest;
    var rest := t.FileRest();
    if t.out == "" || rest == "" || Uniform(t.out + rest) {
      forall k: Io, kf: Io | Possible(t, DoWrite(k, kf)) && !k.Broken? && !kf.Broken?
        ensures Conserved(HandleWrite(t, k, kf))
      {
        if Overtakes(t, DoWrite(k, kf)) {
          UniformCommutes(t.out, rest, kf.n);
          OvertakingKeepsOrderIff(t, k, kf.n);
        } else {
          HandleWriteKeepsInv(t, k, kf);
        }
      }
    } else {
      var n := |rest|;
      assert rest[..n] == rest;
      OvertakingKeepsOrderIff(t, Again, 1);
      OvertakingKeepsOrderIff(t, Again, n);
      if [rest[0]] + t.out == t.out + [rest[0]] && rest + t.out == t.out + rest {
        CommutingIsUniform(t.out, rest);
      }
      assert rest[..1] == [rest[0]];
      assert !Conserved(HandleWrite(t, Again, Wrote(1))) || !Conserved(HandleWrite(t, Again, Wrote(n)));
      assert Possible(t, DoWrite(Again, Wrote(1))) && Possible(t, DoWrite(Again, Wrote(n)));
    }
  }

  lemma UniformCommutes(a: string, b: string, n: nat)
    requires n <= |b| && Uniform(a + b)
    ensures b[..n] + a == a + b[..n]
  {
    var c, d := b[..n] + a, a + b[..n];
    forall i | 0 <= i < |c|
      ensures c[i] == d[i]
    {
      assert c[i] == (a + b)[if i < n then |a| + i else i - n] == (a + b)[0];
      assert d[i] == (a + b)[i] == (a + b)[0];
    }
  }

  lemma CommutingIsUniform(a: string, b: string)
    requires a != "" && b != "" && [b[0]] + a == a + [b[0]] && b + a == a + b
    ensures Uniform(a + b)
  {
    forall i: nat | i < |a|
      ensures a[i] == b[0]
    {
      AllAre(a, b[0], i);
    }
    forall j: nat | j < |b|
      ensures b[j] == b[0]
    {
      ShiftedBack(a, b, j);
    }
    forall i | 0 <= i < |a + b|
      ensures (a + b)[i] == b[0]
    {
      assert (a + b)[i] == if i < |a| then a[i] else b[i - |a|];
    }
  }

  lemma {:induction false} AllAre(a: string, c: char, i: nat)
    requires i < |a| && [c] + a == a + [c]
    ensures a[i] == c
  {
    assert ([c] + a)[i] == (a + [c])[i];
    if i > 0 {
      AllAre(a, c, i - 1);
    }
  }

  lemma {:induction false} ShiftedBack(a: string, b: string, j: nat)
    requires a != "" && j < |b| && b + a == a + b && forall i | 0 <= i < |a| :: a[i] == b[0]
    ensures b[j] == b[0]
  {
    assert (b + a)[j] == (a + b)[j];
    if j >= |a| {
      ShiftedBack(a, b, j - |a|);
    }
  }

  const HEADER_WAITS: Tcp := Tcp(Connected, true, true, false, "h", Some(Source("xyz", 0, 3)), "", "hxyz", 0)

  /** It happens: a header that has to wait, then a file. One refused `write` and one byte of the file are
      enough to break the order. */
  lemma OvertakingHappens()
    ensures IsRun([START, Send(START, "h", Again), HEADER_WAITS], [DoSend("h", Again), DoSendFile(Source("xyz", 0, 3))])
    ensures var a := DoWrite(Again, Wrote(1));
            Inv(HEADER_WAITS) && Possible(HEADER_WAITS, a) && Overtakes(HEADER_WAITS, a) &&
              !Conserved(Next(HEADER_WAITS, a))
  {
    hide HandleWrite;
    assert "h"[..0] == "" && "h"[0..] == "h" && "xyz"[0..3] == "xyz";
    OvertakingKeepsOrderIff(HEADER_WAITS, Again, 1);
    assert ("xyz"[..1] + "h")[0] == 'x' && ("h" + "xyz"[..1])[0] == 'h';
  }

  /** So do a message and a file that come while that file is outstanding: the message goes before it, and
      the second file replaces it. */
  lemma SendingDuringAFileHappens()
    ensures !Conserved(Send(HEADER_WAITS, "a", Again)) && !Conserved(SendFile(HEADER_WAITS, Source("", 0, 0)))
  {
    assert "xyz"[0..3] == "xyz" && OtherThan('x') == 'a';
    SendReorders(HEADER_WAITS);
    assert |HEADER_WAITS.wire + ("h" + "")| < |HEADER_WAITS.accepted + ""|;
  }

  // ---------- draining ----------

  /** The kernel answers without an error, and no file overtakes the buffer. */
  predicate Willing(t: Tcp, k: Io, kf: Io) {
    Possible(t, DoWrite(k, kf)) && !k.Broken? && !kf.Broken? && !Overtakes(t, DoWrite(k, kf))
  }

  /** It takes at least one byte of what is offered first, or there is nothing left to offer. */
  predicate Moves(t: Tcp, k: Io, kf: Io) {
    if t.out != "" then k.Wrote? && k.n > 0 else t.FileRest() == "" || (kf.Wrote? && kf.n > 0)
  }

  predicate Sendable(t: Tcp) {
    t.file.Some? ==> t.file.value.Complete()
  }

  /** Calls of `handleWrite` still needed, at most. */
  function Effort(t: Tcp): nat {
    |t.out| + t.Remain() + if t.writing then 1 else 0
  }

  /** `handleWrite` is called for as long as EPOLLOUT is wanted and the kernel answers `ks`. */
  function Drain(t: Tcp, ks: seq<(Io, Io)>): Tcp
    decreases |ks|
  {
    if !t.writing || ks == [] || !Possible(t, DoWrite(ks[0].0, ks[0].1)) then t
    else Drain(HandleWrite(t, ks[0].0, ks[0].1), ks[1..])
  }

  predicate AllWilling(t: Tcp, ks: seq<(Io, Io)>)
    decreases |ks|
  {
    !t.writing || ks == [] ||
    (Willing(t, ks[0].0, ks[0].1) && AllWilling(HandleWrite(t, ks[0].0, ks[0].1), ks[1..]))
  }

  /** How many of the calls move something. */
  function Moved(t: Tcp, ks: seq<(Io, Io)>): nat
    decreases |ks|
  {
    if !t.writing || ks == [] || !Possible(t, DoWrite(ks[0].0, ks[0].1)) then 0
    else (if Moves(t, ks[0].0, ks[0].1) then 1 else 0) + Moved(HandleWrite(t, ks[0].0, ks[0].1), ks[1..])
  }

  /** A call leaves the connection waiting as before, or done: no write interest, reading resumed, a
      pending shutdown carried out. */
  predicate GoesOn(t: Tcp, q: Tcp) {
    && Sendable(q) && !q.state.Disconnected? && q.accepted == t.accepted
    && (q.writing ==> q.paused == t.paused && q.reading == t.reading && q.state == t.state && q.shuts == t.shuts)
    && (!q.writing ==> !q.paused && q.reading == (t.reading || t.paused) &&
                       q.shuts == t.shuts + if t.state.Disconnecting? then 1 else 0)
  }

  lemma WriteGoesOn(t: Tcp, k: Io, kf: Io)
    requires Inv(t) && Sendable(t) && t.writing && !t.state.Disconnected? && Willing(t, k, kf)
    ensures var q := HandleWrite(t, k, kf);
            Inv(q) && GoesOn(t, q) && Effort(q) <= Effort(t) && (Moves(t, k, kf) ==> Effort(q) < Effort(t))
  {
    hide WriteFile, Inv, Source.Rest, Source.Complete;
    HandleWriteKeepsInv(t, k, kf);
    FileGoesOn(t, kf);
    if t.out != "" && k.Wrote? {
      FileGoesOn(t.(wire := t.wire + t.out[..k.n], out := t.out[k.n..]), kf);
    }
  }

  lemma FileGoesOn(t: Tcp, kf: Io)
    requires Sendable(t) && t.writing && !t.state.Disconnected?
    requires !kf.Broken? && (kf.Wrote? ==> kf.n <= |t.FileRest()|)
    ensures t.file.Some? <==> t.FileRest() != ""
    ensures var q := WriteFile(t, kf);
            && GoesOn(t, q) && q.out == t.out && Effort(q) <= Effort(t)
            && (t.out == "" && (t.FileRest() == "" || (kf.Wrote? && kf.n > 0)) ==> Effort(q) < Effort(t))
  {
  }

  /** Graceful shutdown: however often the kernel refuses in between, once `Effort(t)` calls have moved
      something, everything accepted is on the wire, the write interest and a pause of reading have ended,
      and a pending shutdown has been carried out. */
  lemma {:induction false} DrainFinishes(t: Tcp, ks: seq<(Io, Io)>)
    requires Inv(t) && Sendable(t) && !t.state.Disconnected? && t.writing
    requires AllWilling(t, ks) && Moved(t, ks) >= Effort(t)
    ensures var q := Drain(t, ks);
            && !q.writing && q.wire == t.accepted && q.accepted == t.accepted && !q.state.Disconnected?
            && !q.paused && q.reading == (t.reading || t.paused)
            && q.shuts == t.shuts + if t.state.Disconnecting? then 1 else 0
    decreases |ks|
  {
    hide HandleWrite, Source.Rest, Moves;
    var q := HandleWrite(t, ks[0].0, ks[0].1);
    WriteGoesOn(t, ks[0].0, ks[0].1);
    if q.writing {
      DrainFinishes(q, ks[1..]);
    }
  }

  /** A file range that is empty, or that reaches beyond the end of the file, is never finished:
      without an error from the kernel EPOLLOUT stays wanted forever and no shutdown is issued. */
  lemma {:induction false} IncompleteFileNeverDrains(t: Tcp, ks: seq<(Io, Io)>)
    requires t.writing && t.file.Some? && !t.file.value.Complete()
    requires forall k | k in ks :: !k.0.Broken? && !k.1.Broken?
    ensures Drain(t, ks).writing && Drain(t, ks).file.Some? && Drain(t, ks).shuts == t.shuts
    decreases |ks|
  {
    if ks != [] && Possible(t, DoWrite(ks[0].0, ks[0].1)) {
      StaysIncomplete(t, ks[0].0, ks[0].1);
      IncompleteFileNeverDrains(HandleWrite(t, ks[0].0, ks[0].1), ks[1..]);
    }
  }

  lemma StaysIncomplete(t: Tcp, k: Io, kf: Io)
    requires t.writing && t.file.Some? && !t.file.value.Complete()
    requires Possible(t, DoWrite(k, kf)) && !k.Broken? && !kf.Broken?
    ensures var q := HandleWrite(t, k, kf);
            q.writing && q.file.Some? && !q.file.value.Complete() && q.shuts == t.shuts
  {
    hide WriteFile, Source.Rest, Source.Complete;
    FileStaysIncomplete(t, kf);
    if t.out != "" && k.Wrote? {
      FileStaysIncomplete(t.(wire := t.wire + t.out[..k.n], out := t.out[k.n..]), kf);
    }
  }

  lemma FileStaysIncomplete(t: Tcp, kf: Io)
    requires t.writing && t.file.Some? && !t.file.value.Complete()
    requires !kf.Broken? && (kf.Wrote? ==> kf.n <= |t.FileRest()|)
    ensures var q := WriteFile(t, kf);
            q.writing && q.file.Some? && !q.file.value.Complete() && q.shuts == t.shuts
  {
    var f := t.file.value;
    assert |f.Rest()| == if f.offset >= |f.contents| then 0
                         else if f.offset + f.remain <= |f.contents| then f.remain
                         else |f.contents| - f.offset;
  }
}
