/** The incremental HTTP/1.1 request parser of HttpConnection.cpp: `parseRequest` and the
    pipelining loop of `onMessage`.

    `Step` handles one line, one stretch of body, or one finished request. */
module HttpFramer {
  import opened Wrappers
  import opened Bytes
  import opened HttpRequest
  import MS = MultipartStream

  /** `Thrown` is the state after an exception that nothing catches. */
  datatype ParseState = AtRequestLine | AtHeaders | AtBody | AtFinish | Thrown

  /** What the peer or the request handler gets to see. Of an upload, also the bytes that its parser was
      given and the files that it closed. */
  datatype Event = Continue100 | Handled(request: Request, fed: string, uploads: seq<MS.Upload>)

  /** The parser of an upload, with all the bytes it has been given. */
  datatype Multipart = Multipart(delimiter: MS.Delimiter, parser: MS.Parser, fed: string)

  type FileSystem = (nat, string) -> int

  const MAX_REQUEST_LINE: nat := 8192
  const MAX_HEADER_LINE: nat := 8192
  const MAX_HEADERS: nat := 100
  const MAX_URI_LENGTH: nat := 2048
  const MAX_BODY_SIZE: nat := 1024 * 1024 * 1024

  /** The fields of the connection; `opens` numbers its `open` calls and `events` is its history. */
  datatype Core = Core(
    state: ParseState,
    request: Request,
    contentLength: nat,
    bodyReceived: nat,
    multipart: Option<Multipart>,
    uploadFinished: bool,
    opens: nat,
    events: seq<Event>)

  datatype Conn = Conn(input: string, core: Core) {
    function Feed(more: string): Conn {
      this.(input := input + more)
    }
  }

  function Fresh(request: Request, opens: nat, events: seq<Event>): Core {
    Core(AtRequestLine, request, 0, 0, None, false, opens, events)
  }

  const INITIAL: Conn := Conn("", Fresh(EMPTY_REQUEST, 0, []))

  function ConfigOf(fs: FileSystem, delimiter: MS.Delimiter): MS.Config {
    MS.Config(delimiter, "./upload/", fs)
  }

  // ---------- lines ----------

  function Fail(core: Core, error: HttpError): Core {
    core.(request := core.request.(error := error), state := AtFinish)
  }

  function TakeRequestLine(core: Core, line: string): Core {
    if |line| > MAX_REQUEST_LINE then Fail(core, UriTooLong)
    else
      var r := core.request.ReadLine(line);
      if !r.LineAccepted() then Fail(core.(request := r), BadRequest)
      else if |r.path| > MAX_URI_LENGTH then Fail(core.(request := r), UriTooLong)
      else core.(request := r, state := AtHeaders)
  }

  predicate ExpectsContinue(r: Request) {
    r.HasHeader("Expect") && r.GetHeader("Expect") == "100-continue"
  }

  /** The boundary of an upload, if the request is one. */
  function BoundaryOf(r: Request): Option<string> {
    if !r.HasHeader("Content-Type") then None
    else
      var ct := r.GetHeader("Content-Type");
      match Find(ct, "boundary=", 0)
      case None => None
      case Some(pos) => if Find(ct, "multipart/form-data", 0).Some? then Some(ct[pos + 9..]) else None
  }

  function StartUpload(core: Core): Option<Multipart> {
    match BoundaryOf(core.request)
    case None => core.multipart
    case Some(boundary) => Some(Multipart("--" + boundary, MS.Initial(core.opens), ""))
  }

  /** The blank line after the headers. */
  function EndHeaders(core: Core): Core {
    var r := core.request;
    if ExpectsContinue(r) && r.error != NoError then core.(state := AtFinish)
    else if !r.HasHeader("Content-Length") then core.(state := AtFinish)
    else
      match Stoul(r.GetHeader("Content-Length"))
      case None => Fail(core, BadRequest)
      case Some(n) =>
        if n > MAX_BODY_SIZE then Fail(core.(contentLength := n), PayloadTooLarge)
        else
          core.(contentLength := n,
                events := core.events + if ExpectsContinue(r) then [Continue100] else [],
                multipart := StartUpload(core), state := AtBody)
  }

  function TakeHeaderLine(core: Core, line: string): Core {
    if |line| > MAX_HEADER_LINE then Fail(core, HeaderTooLarge)
    else if line == "" then EndHeaders(core)
    else if |core.request.headers| >= MAX_HEADERS then Fail(core, HeaderTooLarge)
    else
      match Find(line, ":", 0)
      case None => Fail(core, BadRequest)
      case Some(pos) =>
        if pos + 2 > |line| then core.(state := Thrown)
        else core.(request := core.request.AddHeader(line[..pos], line[pos + 2..]))
  }

  function TakeLine(core: Core, line: string): Core {
    if core.state.AtRequestLine? then TakeRequestLine(core, line) else TakeHeaderLine(core, line)
  }

  // ---------- the header line that throws ----------

  /** Exactly which lines end in the uncaught exception: in the headers, within the limits, those whose
      only colon is their last byte. */
  lemma LineThrowsIff(core: Core, line: string)
    requires core.state.AtRequestLine? || core.state.AtHeaders?
    ensures TakeLine(core, line).state.Thrown? <==>
            && core.state.AtHeaders? && |core.request.headers| < MAX_HEADERS
            && 0 < |line| <= MAX_HEADER_LINE && ':' !in line[..|line| - 1] && line[|line| - 1] == ':'
  {
    hide Find, Stoul, Lower, TrimLeft, SkipSpaces, Word, BoundaryOf;
    FindIsFirst(line, ":", 0);
    if Find(line, ":", 0).Some? {
      ColonAt(line, Find(line, ":", 0).value);
    } else if line != "" {
      ColonAt(line, |line| - 1);
    }
  }

  /** Where the first colon of a line stands. */
  lemma ColonAt(line: string, pos: nat)
    requires pos < |line|
    ensures OccursAt(line, ":", pos) <==> line[pos] == ':'
    ensures (forall j: nat | j < pos :: !OccursAt(line, ":", j)) <==> ':' !in line[..pos]
  {
    forall j: nat | j <= pos
      ensures OccursAt(line, ":", j) <==> line[j] == ':'
    {
      assert line[j..j + 1] == [line[j]];
    }
    if ':' in line[..pos] {
      var j :| 0 <= j < pos && line[..pos][j] == ':';
      assert OccursAt(line, ":", j);
    }
  }

  // ---------- body and finish ----------

  function Need(core: Core): nat {
    if core.contentLength >= core.bodyReceived then core.contentLength - core.bodyReceived else 0
  }

  function TakeBody(fs: FileSystem, core: Core, data: string): Core {
    core.(bodyReceived := core.bodyReceived + |data|,
          multipart := match core.multipart
                       case None => None
                       case Some(m) =>
                         var parser := MS.OnData(ConfigOf(fs, m.delimiter), m.parser, data);
                         Some(m.(parser := parser, fed := m.fed + data)))
  }

  function EndBody(core: Core): Core {
    core.(state := AtFinish,
          uploadFinished := core.uploadFinished || core.multipart.Some?,
          multipart := match core.multipart
                       case None => None
                       case Some(m) => Some(m.(parser := MS.Finish(m.parser))))
  }

  /** `handleRequest` and the reset for the next request. */
  function HandleRequest(core: Core): Core {
    match core.multipart
    case None => Fresh(core.request.Reset(), core.opens, core.events + [Handled(core.request, "", [])])
    case Some(m) =>
      var r := core.request.(savedFiles := m.parser.work.savedFiles);
      Fresh(r.Reset(), m.parser.work.opens, core.events + [Handled(r, m.fed, m.parser.work.uploads)])
  }

  // ---------- the loop ----------

  datatype Outcome = Halt(c: Conn) | Go(c: Conn)

  function StepLine(c: Conn): Outcome {
    match Find(c.input, "\r\n", 0)
    case None => Halt(c)
    case Some(n) => Go(Conn(c.input[n + 2..], TakeLine(c.core, c.input[..n])))
  }

  function StepBody(fs: FileSystem, c: Conn): Outcome {
    var need := Need(c.core);
    if |c.input| >= need then Go(Conn(c.input[need..], EndBody(TakeBody(fs, c.core, c.input[..need]))))
    else Halt(Conn("", TakeBody(fs, c.core, c.input)))
  }

  function StepFinish(c: Conn): Outcome {
    if c.core.multipart.Some? && !c.core.uploadFinished then Halt(c) else Go(Conn(c.input, HandleRequest(c.core)))
  }

  function Step(fs: FileSystem, c: Conn): (o: Outcome)
    ensures o.Go? ==> |o.c.input| < |c.input| || (o.c.input == c.input && Rank(o.c.core.state) < Rank(c.core.state))
  {
    match c.core.state
    case AtRequestLine => StepLine(c)
    case AtHeaders => StepLine(c)
    case AtBody => StepBody(fs, c)
    case AtFinish => StepFinish(c)
    case Thrown => Halt(c)
  }

  function Rank(state: ParseState): nat {
    if state.AtBody? then 2 else if state.AtFinish? then 1 else 0
  }

  /** The loop head at which `onMessage` will return. */
  function Settle(fs: FileSystem, c: Conn): (s: Conn)
    ensures Step(fs, s).Halt?
    decreases |c.input|, Rank(c.core.state)
  {
    match Step(fs, c)
    case Halt(_) => c
    case Go(next) => Settle(fs, next)
  }

  function Run(fs: FileSystem, c: Conn): Conn {
    Step(fs, Settle(fs, c)).c
  }

  /** A call of `onMessage` after `data` has arrived in the input buffer. */
  function OnMessage(fs: FileSystem, c: Conn, data: string): Conn {
    Run(fs, c.Feed(data))
  }

  function OnMessages(fs: FileSystem, c: Conn, chunks: seq<string>): Conn
    decreases |chunks|
  {
    if chunks == [] then c else OnMessages(fs, OnMessage(fs, c, chunks[0]), chunks[1..])
  }

  /** After the exception nothing is read or handled any more. */
  lemma {:induction false} ThrownIsForever(fs: FileSystem, c: Conn, chunks: seq<string>)
    requires c.core.state.Thrown?
    ensures OnMessages(fs, c, chunks).core == c.core
    decreases |chunks|
  {
    if chunks != [] {
      ThrownIsForever(fs, OnMessage(fs, c, chunks[0]), chunks[1..]);
    }
  }

  // ---------- body accounting ----------

  /** While a body is read, the bytes given to the upload parser are the bytes counted, never more
      than announced; a finished upload has been given all of them. */
  predicate Accounted(core: Core) {
    && core.bodyReceived <= core.contentLength
    && (core.state.AtBody? ==> core.bodyReceived < core.contentLength || core.contentLength == core.bodyReceived == 0)
    && (core.state.AtBody? ==> core.contentLength <= MAX_BODY_SIZE && !core.uploadFinished)
    && (core.state.AtRequestLine? || core.state.AtHeaders? ==>
          core.multipart.None? && core.bodyReceived == 0 == core.contentLength && !core.uploadFinished &&
            core.request.error == NoError)
    && (core.multipart.Some? ==>
      |core.multipart.value.fed| == core.bodyReceived && MS.Disciplined(core.multipart.value.parser))
    && (core.state.AtFinish? && core.multipart.Some? ==>
          core.uploadFinished && core.bodyReceived == core.contentLength && core.multipart.value.parser.phase.Done?)
  }

  lemma LineIsAccounted(core: Core, line: string)
    requires Accounted(core) && (core.state.AtRequestLine? || core.state.AtHeaders?)
    ensures Accounted(TakeLine(core, line))
  {
    hide Find, Stoul, Lower, TrimLeft, SkipSpaces, Word;
    MS.InitialIsDisciplined(core.opens);
  }

  lemma StepIsAccounted(fs: FileSystem, c: Conn)
    requires Accounted(c.core)
    ensures Accounted(Step(fs, c).c.core)
    ensures c.core.state.AtFinish? ==> Step(fs, c).Go?
  {
    hide Find, TakeLine, MS.OnData, MS.Disciplined, MS.Finish;
    if c.core.state.AtBody? && c.core.multipart.Some? {
      var m := c.core.multipart.value;
      var data := if |c.input| >= Need(c.core) then c.input[..Need(c.core)] else c.input;
      MS.OnDataKeepsDiscipline(ConfigOf(fs, m.delimiter), m.parser, data);
    }
    if (c.core.state.AtRequestLine? || c.core.state.AtHeaders?) && Find(c.input, "\r\n", 0).Some? {
      LineIsAccounted(c.core, c.input[..Find(c.input, "\r\n", 0).value]);
    }
  }

  lemma {:induction false} SettleIsAccounted(fs: FileSystem, c: Conn)
    requires Accounted(c.core)
    ensures Accounted(Settle(fs, c).core) && !Settle(fs, c).core.state.AtFinish?
    decreases |c.input|, Rank(c.core.state)
  {
    hide Accounted;
    StepIsAccounted(fs, c);
    if Step(fs, c).Go? {
      SettleIsAccounted(fs, Step(fs, c).c);
    }
  }

  /** Every call keeps the books, and none returns with a finished request that it did not handle. */
  lemma MessagesAreAccounted(fs: FileSystem, c: Conn, data: string)
    requires Accounted(c.core)
    ensures Accounted(OnMessage(fs, c, data).core) && !OnMessage(fs, c, data).core.state.AtFinish?
  {
    SettleIsAccounted(fs, c.Feed(data));
    StepIsAccounted(fs, Settle(fs, c.Feed(data)));
  }
}
