/** Uploads over HTTP: which ways of cutting the stream are harmless, in terms of its bytes alone; that an
    upload then arrives complete; and what is lost otherwise. */
module HttpUploads {
  import opened Wrappers
  import opened Bytes
  import opened HttpRequest
  import opened HttpFramer
  import opened HttpCuts
  import opened HttpRoundTrip
  import opened HttpBody
  import MS = MultipartStream
  import MC = MultipartCuts
  import MR = MultipartRoundTrip

  /** The boundary of a request that is an upload with a body. */
  function UploadBoundary(r: Request): Option<string> {
    if r.HasHeader("Content-Length") then BoundaryOf(r) else None
  }

  // ---------- what a connection remembers of the stream ----------

  /** The delimiter of an upload is that of its request. */
  predicate Declared(core: Core) {
    core.multipart.Some? ==>
      UploadBoundary(core.request).Some? && core.multipart.value.delimiter == "--" + UploadBoundary(core.request).value
  }

  /** What is still held is the end of the stream `seen`. */
  predicate Holds(c: Conn, seen: string) {
    if c.core.state.AtBody? && c.core.multipart.Some?
    then MC.IsSuffix(c.core.multipart.value.parser.buffer + c.input, seen)
    else MC.IsSuffix(c.input, seen)
  }

  lemma LineIsDeclared(core: Core, line: string)
    requires Accounted(core) && (core.state.AtRequestLine? || core.state.AtHeaders?)
    ensures Declared(TakeLine(core, line))
    ensures TakeLine(core, line).multipart.Some? ==> TakeLine(core, line).multipart.value.parser.buffer == ""
  {
    hide Find, Stoul, Lower, TrimLeft, SkipSpaces, Word;
  }

  lemma StepRemembers(fs: FileSystem, c: Conn, seen: string)
    requires Accounted(c.core) && Declared(c.core) && Holds(c, seen)
    ensures Declared(Step(fs, c).c.core) && Holds(Step(fs, c).c, seen)
  {
    hide Find, TakeLine, MS.OnData, MS.Finish, MC.IsSuffix, MS.Disciplined;
    match c.core.state
    case AtBody => BodyIsHeld(fs, c, seen);
    case AtFinish =>
    case Thrown =>
    case _ =>
      if Find(c.input, "\r\n", 0).Some? {
        var n := Find(c.input, "\r\n", 0).value;
        LineIsDeclared(c.core, c.input[..n]);
        EndIsSuffix(c.input, n + 2, seen);
        assert "" + c.input[n + 2..] == c.input[n + 2..];
      }
  }

  lemma EndIsSuffix(text: string, n: nat, seen: string)
    requires n <= |text| && MC.IsSuffix(text, seen)
    ensures MC.IsSuffix(text[n..], seen)
  {
    assert MC.IsSuffix(text[n..], text);
    MC.SuffixOfSuffix(text[n..], text, seen);
  }

  lemma BodyIsHeld(fs: FileSystem, c: Conn, seen: string)
    requires Accounted(c.core) && c.core.state.AtBody? && Declared(c.core) && Holds(c, seen)
    ensures Declared(Step(fs, c).c.core) && Holds(Step(fs, c).c, seen)
  {
    hide MS.OnData, MS.Finish, MC.IsSuffix, MS.Disciplined;
    var need := Need(c.core);
    if c.core.multipart.Some? {
      var m := c.core.multipart.value;
      assert (m.parser.buffer + c.input)[|m.parser.buffer|..] == c.input;
      EndIsSuffix(m.parser.buffer + c.input, |m.parser.buffer|, seen);
      MC.OnDataHoldsASuffix(ConfigOf(fs, m.delimiter), m.parser, c.input);
      var held := MS.OnData(ConfigOf(fs, m.delimiter), m.parser, c.input).buffer;
      MC.SuffixOfSuffix(held, m.parser.buffer + c.input, seen);
      assert held + "" == held;
    }
    if |c.input| >= need {
      EndIsSuffix(c.input, need, seen);
    } else {
      EndIsSuffix(c.input, |c.input|, seen);
    }
  }

  lemma {:induction false} SettleRemembers(fs: FileSystem, c: Conn, seen: string)
    requires Accounted(c.core) && Declared(c.core) && Holds(c, seen)
    ensures var s := Settle(fs, c); Accounted(s.core) && Declared(s.core) && Holds(s, seen)
    decreases |c.input|, Rank(c.core.state)
  {
    hide Step, Accounted, Declared, Holds;
    if Step(fs, c).Go? {
      StepRemembers(fs, c, seen);
      StepIsAccounted(fs, c);
      SettleRemembers(fs, Step(fs, c).c, seen);
    }
  }

  lemma FeedRemembers(c: Conn, seen: string, a: string)
    requires Holds(c, seen)
    ensures Holds(c.Feed(a), seen + a)
  {
    hide MC.IsSuffix;
    if c.core.state.AtBody? && c.core.multipart.Some? {
      var buffer := c.core.multipart.value.parser.buffer;
      MC.SuffixGrows(buffer + c.input, seen, a);
      assert buffer + c.input + a == buffer + (c.input + a);
    } else {
      MC.SuffixGrows(c.input, seen, a);
    }
  }

  // ---------- cuts that are clear of every delimiter ----------

  /** No cut falls right after a delimiter of one of these boundaries, or one byte later. */
  predicate ClearOfAll(boundaries: set<string>, seen: string, chunks: seq<string>) {
    forall b | b in boundaries :: MC.ClearCuts("--" + b, seen, chunks)
  }

  /** Every upload handled has one of these boundaries. */
  predicate Known(events: seq<Event>, boundaries: set<string>) {
    forall e | e in events ::
      e.Handled? && UploadBoundary(e.request).Some? ==> UploadBoundary(e.request).value in boundaries
  }

  /** An upload whose request is handled in the end shows its boundary there. */
  lemma UploadShows(fs: FileSystem, s: Conn, rest: string, boundaries: set<string>)
    requires Uploading(s.core) && Declared(s.core)
    requires var f := Run(fs, s.Feed(rest)); f.core.state.AtRequestLine? && Known(f.core.events, boundaries)
    ensures UploadBoundary(s.core.request).value in boundaries
    ensures s.core.multipart.value.delimiter == "--" + UploadBoundary(s.core.request).value
  {
    hide Run, MS.OnData, MS.Finish, Find, Lower, Accounted, HandleRequest;
    BodyIsDelivered(fs, s, rest);
    FedIsCounted(s.core);
    var n := s.core.contentLength;
    var text := BodySoFar(s) + rest;
    var next := Completed(fs, s.core, (s.input + rest)[..Need(s.core)]);
    RunKeepsEvents(fs, Conn(text[n..], next));
    var e := next.events[|s.core.events|];
    LastIsKept(s.core.events, next.events, Run(fs, s.Feed(rest)).core.events);
    CompletedRequest(fs, s.core, (s.input + rest)[..Need(s.core)]);
  }

  lemma LastIsKept(before: seq<Event>, one: seq<Event>, all: seq<Event>)
    requires |one| == |before| + 1 && one <= all
    ensures one[|before|] in all
  {
    assert all[|before|] == one[|before|];
  }

  lemma CompletedRequest(fs: FileSystem, core: Core, piece: string)
    requires core.multipart.Some?
    ensures var events := Completed(fs, core, piece).events;
            && |events| == |core.events| + 1 && events[|core.events|].Handled?
            && UploadBoundary(events[|core.events|].request) == UploadBoundary(core.request)
  {
    hide MS.OnData, MS.Finish, Find, Lower;
  }

  /** A cut that is clear of the delimiters of all the uploads to come loses none. */
  lemma ClearCutLosesNothing(fs: FileSystem, c: Conn, seen: string, a: string, rest: string, boundaries: set<string>)
    requires Accounted(c.core) && Declared(c.core) && Holds(c, seen)
    requires var f := OnMessage(fs, c, a + rest); f.core.state.AtRequestLine? && Known(f.core.events, boundaries)
    requires forall b | b in boundaries :: MC.ClearOfDelimiter("--" + b, seen + a)
    ensures !LosesDelimiter(fs, c, a, rest)
  {
    hide Declared, Holds, Accounted, Known, MC.ClearOfDelimiter, MC.ForgetsDelimiter, MC.IsSuffix, MS.Settle, Settle,
         Step, UploadBoundary;
    var s := Settle(fs, c.Feed(a));
    FeedRemembers(c, seen, a);
    SettleRemembers(fs, c.Feed(a), seen + a);
    assert c.Feed(a).Feed(rest) == c.Feed(a + rest) by {
      assert c.input + a + rest == c.input + (a + rest);
    }
    SettleIsLocal(fs, c.Feed(a), rest);
    if ForgetsMidBody(fs, s) {
      UploadShows(fs, s, rest, boundaries);
      DelimiterShows(fs, s, seen + a);
    }
  }

  lemma DelimiterShows(fs: FileSystem, s: Conn, seen: string)
    requires ForgetsMidBody(fs, s) && Holds(s, seen)
    ensures !MC.ClearOfDelimiter(s.core.multipart.value.delimiter, seen)
  {
    hide MS.Settle, MC.ForgetsDelimiter, MC.ClearOfDelimiter, MC.IsSuffix;
    MC.ForgettingShowsIn(UploadConfig(fs, s), s.core.multipart.value.parser, s.input, seen);
  }

  lemma {:induction false} ClearCutsAreAllowed(fs: FileSystem, c: Conn, seen: string, chunks: seq<string>,
                                               boundaries: set<string>)
    requires Accounted(c.core) && Declared(c.core) && Holds(c, seen)
    requires var f := OnMessage(fs, c, MC.Concat(chunks));
             f.core.state.AtRequestLine? && Known(f.core.events, boundaries)
    requires ClearOfAll(boundaries, seen, chunks)
    ensures AllowedCuts(fs, c, chunks)
    decreases |chunks|
  {
    hide Declared, Holds, Accounted, Known, MC.ClearOfDelimiter, MC.ClearCuts, LosesDelimiter, Run, SameCore;
    if |chunks| > 1 {
      var a, rest := chunks[0], MC.Concat(chunks[1..]);
      forall b | b in boundaries
        ensures MC.ClearOfDelimiter("--" + b, seen + a) && MC.ClearCuts("--" + b, seen + a, chunks[1..])
      {
        MC.ClearCutsAfterFirst("--" + b, seen, chunks);
      }
      ClearCutLosesNothing(fs, c, seen, a, rest, boundaries);
      DeliverInTwo(fs, c, a, rest);
      SameOutcome(OnMessage(fs, OnMessage(fs, c, a), rest), OnMessage(fs, c, a + rest));
      MessageRemembers(fs, c, seen, a);
      ClearCutsAreAllowed(fs, OnMessage(fs, c, a), seen + a, chunks[1..], boundaries);
    }
  }

  lemma SameOutcome(c: Conn, d: Conn)
    requires SameConn(c, d)
    ensures c.core.state == d.core.state && c.core.events == d.core.events
  {
    assert c.core.(multipart := None).state == c.core.state && d.core.(multipart := None).state == d.core.state;
    assert c.core.(multipart := None).events == c.core.events && d.core.(multipart := None).events == d.core.events;
  }

  lemma MessageRemembers(fs: FileSystem, c: Conn, seen: string, a: string)
    requires Accounted(c.core) && Declared(c.core) && Holds(c, seen)
    ensures var q := OnMessage(fs, c, a); Accounted(q.core) && Declared(q.core) && Holds(q, seen + a)
  {
    hide Declared, Holds, Accounted, Step, Settle;
    FeedRemembers(c, seen, a);
    SettleRemembers(fs, c.Feed(a), seen + a);
    StepRemembers(fs, Settle(fs, c.Feed(a)), seen + a);
    StepIsAccounted(fs, Settle(fs, c.Feed(a)));
  }

  // ---------- round trips ----------

  /** The boundaries of the uploads among `ms`. */
  function Boundaries(ms: seq<Message>): set<string> {
    set m | m in ms && IsUpload(m) :: BoundaryOf(Received(m, [])).value
  }

  lemma {:induction false} EventsAreKnown(fs: FileSystem, ms: seq<Message>, k: Carry)
    ensures Known(AllEvents(fs, ms, k), Boundaries(ms))
    decreases |ms|
  {
    hide After, Received, UploadOf;
    if ms != [] {
      EventsAreKnown(fs, ms[1..], After(fs, ms[0], k));
      assert Boundaries(ms[1..]) <= Boundaries(ms);
      EventIsKnown(fs, ms, k);
      assert AllEvents(fs, ms, k) == EventsOf(fs, ms[0], k) + AllEvents(fs, ms[1..], After(fs, ms[0], k));
    }
  }

  lemma EventIsKnown(fs: FileSystem, ms: seq<Message>, k: Carry)
    requires ms != []
    ensures Known(EventsOf(fs, ms[0], k), Boundaries(ms))
  {
    hide Find, Lower, MS.OnData, MS.Finish, HeaderMap, ExpectsContinue, Boundaries;
    var e := HandledOf(fs, ms[0], k);
    assert UploadBoundary(e.request) == UploadBoundary(Received(ms[0], []));
    if IsUpload(ms[0]) {
      assert BoundaryOf(Received(ms[0], [])).value in Boundaries(ms) by { BoundaryIsListed(ms, ms[0]); }
    }
  }

  lemma BoundaryIsListed(ms: seq<Message>, m: Message)
    requires m in ms && IsUpload(m)
    ensures BoundaryOf(Received(m, [])).value in Boundaries(ms)
  {
  }

  /** Well-formed requests, uploads among them, may be cut anywhere but right after a delimiter of one of
      these uploads or one byte later. */
  lemma ClearPipelinedRoundTrip(fs: FileSystem, ms: seq<Message>, chunks: seq<string>)
    requires forall m | m in ms :: WellFormed(m)
    requires chunks != [] && MC.Concat(chunks) == EncodeAll(ms) && ClearOfAll(Boundaries(ms), "", chunks)
    ensures AllowedCuts(fs, INITIAL, chunks)
    ensures var q := OnMessages(fs, INITIAL, chunks);
            q.input == "" && q.core.state.AtRequestLine? && q.core.events == AllEvents(fs, ms, NOTHING_YET)
  {
    hide WellFormed, AllowedCuts, OnMessages, AllEvents, EncodeAll, ClearOfAll, Boundaries, Known, Run;
    PipelineIsRead(fs, ms, NOTHING_YET, []);
    assert INITIAL.Feed(EncodeAll(ms)) == Conn(EncodeAll(ms), Ready(NOTHING_YET, []));
    assert [] + AllEvents(fs, ms, NOTHING_YET) == AllEvents(fs, ms, NOTHING_YET);
    EventsAreKnown(fs, ms, NOTHING_YET);
    ClearCutsAreAllowed(fs, INITIAL, "", chunks, Boundaries(ms));
    PipelinedRoundTrip(fs, ms, chunks);
  }

  /** What must be received of a multipart body. */
  function Parts(fs: FileSystem, boundary: string, parts: seq<MR.Part>): MR.Results {
    MR.ReceiveAll(ConfigOf(fs, "--" + boundary), MR.Results(map[], [], [], 0), parts)
  }

  /** An upload of a well-formed multipart body. */
  predicate IsForm(m: Message, boundary: string, preamble: string, parts: seq<MR.Part>, epilogue: string) {
    && WellFormed(m) && HasBody(m) && BoundaryOf(Received(m, [])) == Some(boundary)
    && MR.WellFormed("--" + boundary, preamble, parts)
    && m.body == MR.Encode("--" + boundary, preamble, parts, epilogue)
  }

  /** `e` hands message `m` with the given parts to the handler: its whole body, the names of exactly
      the files that could be opened after `opens` calls of `open`, in order, and their contents byte
      for byte. */
  predicate HandsOver(e: Event, fs: FileSystem, m: Message, boundary: string, parts: seq<MR.Part>, opens: nat) {
    var saved := SavedOf(fs, boundary, parts, opens);
    e == Handled(Received(m, MS.Names(saved)), m.body, saved)
  }

  function SavedOf(fs: FileSystem, boundary: string, parts: seq<MR.Part>, opens: nat): seq<MS.Upload> {
    MR.SavedFiles(MS.Config("--" + boundary, "./upload/", fs), opens, parts)
  }

  /** A form is handed over with the files that could be opened. It makes one call of `open` for every
      file. */
  lemma FormIsReceived(fs: FileSystem, m: Message, boundary: string, preamble: string, parts: seq<MR.Part>,
                       epilogue: string, k: Carry)
    requires IsForm(m, boundary, preamble, parts, epilogue)
    ensures HandsOver(HandledOf(fs, m, k), fs, m, boundary, parts, k.opens)
    ensures After(fs, m, k) == Carry(MS.Names(SavedOf(fs, boundary, parts, k.opens)), k.opens + |MR.FilesOf(parts)|)
  {
    hide WellFormed, MS.OnData, MS.Finish, MR.WellFormed, MR.Encode, MR.ReceiveAll, Received, MS.Names, MR.SavedFiles,
         MR.FilesOf;
    var cfg := ConfigOf(fs, "--" + boundary);
    var start := MR.Results(map[], [], [], k.opens);
    MR.OneChunk(cfg, MS.Initial(k.opens), m.body);
    assert MC.Concat([m.body]) == m.body + MC.Concat([]) && m.body + "" == m.body;
    MR.RoundTrip(cfg, k.opens, preamble, parts, epilogue, [m.body]);
    MR.EveryFileArrives(cfg, start, parts);
    MR.ReceiveLast(cfg, start, parts);
    var saved := MR.SavedFiles(cfg, k.opens, parts);
    assert start.uploads + saved == saved && start.savedFiles + MS.Names(saved) == MS.Names(saved);
  }

  /** Form `i` of a pipeline reaches the handler, delivered in any allowed pieces. */
  lemma UploadRoundTrip(fs: FileSystem, ms: seq<Message>, i: nat, boundary: string, preamble: string,
                        parts: seq<MR.Part>, epilogue: string, chunks: seq<string>)
    requires i < |ms| && IsForm(ms[i], boundary, preamble, parts, epilogue) && forall m | m in ms :: WellFormed(m)
    requires chunks != [] && MC.Concat(chunks) == EncodeAll(ms) && AllowedCuts(fs, INITIAL, chunks)
    ensures var handled := Handlings(OnMessages(fs, INITIAL, chunks).core.events);
            && |handled| == |ms|
            && HandsOver(handled[i], fs, ms[i], boundary, parts, AfterAll(fs, ms[..i], NOTHING_YET).opens)
  {
    hide WellFormed, AllowedCuts, OnMessages, EncodeAll, IsForm, HandsOver, AllEvents, HandledOf;
    PipelinedRoundTrip(fs, ms, chunks);
    EachIsHandled(fs, ms, NOTHING_YET);
    FormIsReceived(fs, ms[i], boundary, preamble, parts, epilogue, AfterAll(fs, ms[..i], NOTHING_YET));
  }

  /** And so it does under all clear cuts. */
  lemma ClearUploadRoundTrip(fs: FileSystem, ms: seq<Message>, i: nat, boundary: string, preamble: string,
                             parts: seq<MR.Part>, epilogue: string, chunks: seq<string>)
    requires i < |ms| && IsForm(ms[i], boundary, preamble, parts, epilogue) && forall m | m in ms :: WellFormed(m)
    requires chunks != [] && MC.Concat(chunks) == EncodeAll(ms) && ClearOfAll(Boundaries(ms), "", chunks)
    ensures var handled := Handlings(OnMessages(fs, INITIAL, chunks).core.events);
            && |handled| == |ms|
            && HandsOver(handled[i], fs, ms[i], boundary, parts, AfterAll(fs, ms[..i], NOTHING_YET).opens)
  {
    hide WellFormed, AllowedCuts, OnMessages, EncodeAll, ClearOfAll, Boundaries, IsForm, HandsOver, AllEvents;
    ClearPipelinedRoundTrip(fs, ms, chunks);
    UploadRoundTrip(fs, ms, i, boundary, preamble, parts, epilogue, chunks);
  }

  // ---------- a form ----------

  const UPLOAD_PREFIX: string := "multipart/form-data; boundary="

  /** The request with which a browser sends a form. */
  function Form(boundary: string, body: string): Message {
    Message("POST", "/upload", "HTTP/1.1",
            [Field("Content-Type", UPLOAD_PREFIX + boundary), Field("Content-Length", Decimal(|body|))], body)
  }

  lemma BoundaryIsFound(boundary: string)
    ensures Find(UPLOAD_PREFIX + boundary, "boundary=", 0) == Some(21)
    ensures Find(UPLOAD_PREFIX + boundary, UPLOAD_TYPE, 0).Some?
    ensures (UPLOAD_PREFIX + boundary)[30..] == boundary &&
            TrimLeft(UPLOAD_PREFIX + boundary) == UPLOAD_PREFIX + boundary
  {
    var prefix := UPLOAD_PREFIX;
    assert OccursAt(prefix, "boundary=", 21) && OccursAt(prefix, UPLOAD_TYPE, 0);
    forall j: nat | j < 21
      ensures !OccursAt(prefix, "boundary=", j)
    {
      MR.CharAt(prefix, "boundary=", j, 0);
      MR.CharAt(prefix, "boundary=", j, 1);
    }
    FirstIsFound(prefix, "boundary=", 0, 21);
    FindIsFirst(prefix, UPLOAD_TYPE, 0);
    FindStable(prefix, boundary, "boundary=", 0);
    FindStable(prefix, boundary, UPLOAD_TYPE, 0);
  }

  function Power(k: nat): nat {
    if k == 0 then 1 else 10 * Power(k - 1)
  }

  lemma {:induction false} DecimalIsShort(n: nat, k: nat)
    requires 0 < k && n < Power(k)
    ensures |Decimal(n)| <= k
  {
    if n >= 10 {
      DecimalIsShort(n / 10, k - 1);
    }
  }

  lemma LengthLineIsPlain(n: nat)
    requires n <= MAX_BODY_SIZE
    ensures PlainField(Field("Content-Length", Decimal(n)))
  {
    hide Decimal;
    assert Power(5) == 100000 && Power(10) == 100000 * 100000;
    DecimalIsShort(n, 10);
    assert forall c | c in Decimal(n) :: IsDigit(c);
  }

  lemma FormHeaders(boundary: string, body: string)
    ensures var r := Received(Form(boundary, body), []);
            && r.HasHeader("Content-Length") && r.HasHeader("Content-Type")
            && r.GetHeader("Content-Type") == UPLOAD_PREFIX + boundary
  {
    hide Find, Lower, Decimal, TrimLeft;
    var m := Form(boundary, body);
    var typed, sized := m.fields[0], m.fields[1];
    assert m.fields == [typed] + [sized] && [] + [typed] == [typed];
    HeaderMapOfMore(map[], [typed], sized);
    HeaderMapOfMore(map[], [], typed);
    assert |Lower("Content-Type")| != |Lower("Content-Length")|;
    BoundaryIsFound(boundary);
  }

  lemma FormLines(boundary: string, body: string)
    requires '\r' !in boundary && |boundary| <= 1000 && |body| <= MAX_BODY_SIZE
    ensures forall f | f in Form(boundary, body).fields :: PlainField(f)
  {
    hide Decimal;
    LengthLineIsPlain(|body|);
    assert '\r' !in UPLOAD_PREFIX;
  }

  /** Every form of at most the largest size is a well-formed request and an upload. */
  lemma FormIsAnUpload(boundary: string, body: string)
    requires '\r' !in boundary && |boundary| <= 1000 && |body| <= MAX_BODY_SIZE
    ensures var m := Form(boundary, body); WellFormed(m) && HasBody(m) && BoundaryOf(Received(m, [])) == Some(boundary)
  {
    hide Find, Lower, Decimal, TrimLeft, LengthMatches, PlainField, Received;
    var m := Form(boundary, body);
    assert m.fields == [m.fields[0]] + [Field("Content-Length", Decimal(|m.body|))];
    AnnouncedLengthMatches(m, [m.fields[0]], "Content-Length");
    FormLines(boundary, body);
    FormHeaders(boundary, body);
    BoundaryIsFound(boundary);
    assert IsWord("POST") && IsWord("/upload") && IsWord("HTTP/1.1");
  }

  // ---------- what an unsafe cut costs ----------

  /** The first stretch of a body, as far as it has arrived with the headers. */
  lemma BodyStarts(fs: FileSystem, m: Message, x: string)
    requires WellFormed(m) && HasBody(m) && |x| < |m.body|
    ensures var s := Conn(x, WithBody(m, NOTHING_YET, []));
            && Settle(fs, INITIAL.Feed(EncodeHead(m, x))) == s && Accounted(s.core)
            && OnMessage(fs, INITIAL, EncodeHead(m, x)) == Conn("", TakeBody(fs, s.core, x))
  {
    hide WellFormed, EncodeHead, Received, TakeBody, Accounted;
    var s := Conn(x, WithBody(m, NOTHING_YET, []));
    assert INITIAL.Feed(EncodeHead(m, x)) == Conn(EncodeHead(m, x), Ready(NOTHING_YET, []));
    HeadIsRead(fs, m, NOTHING_YET, [], x);
    assert Step(fs, s) == Halt(Conn("", TakeBody(fs, s.core, x)));
    assert Accounted(INITIAL.core) by { StartIsAccounted(); }
    SettleIsAccounted(fs, INITIAL.Feed(EncodeHead(m, x)));
  }

  lemma StartIsAccounted()
    ensures Accounted(INITIAL.core)
  {
  }

  /** The encoded parts before part `i`, its delimiter and `tail`. */
  function UpToPart(boundary: string, preamble: string, parts: seq<MR.Part>, i: nat, tail: string): string
    requires i <= |parts|
  {
    preamble + MR.EncodeUpTo("--" + boundary, parts[..i], tail)
  }

  /** An upload whose first delivery ends right after the delimiter of part `i`, or one byte later, reaches
      the handler without that part and otherwise complete: the rest of the body is `b`. */
  lemma UnsafeDeliveryLosesThePart(fs: FileSystem, m: Message, boundary: string, preamble: string, parts: seq<MR.Part>,
                                   epilogue: string, i: nat, tail: string, b: string)
    requires IsForm(m, boundary, preamble, parts, epilogue) && i < |parts|
    requires Find(MR.PartHeaders(parts[i]), "--" + boundary, 0).None?
    requires |tail| < 2 && "--" + boundary + (tail + b) == MR.EncodeParts("--" + boundary, parts[i..], epilogue)
    ensures var a := EncodeHead(m, UpToPart(boundary, preamble, parts, i, tail));
            var events := OnMessages(fs, INITIAL, [a, b]).core.events;
            var r := Parts(fs, boundary, parts[..i] + parts[i + 1..]);
            && a + b == EncodeAll([m])
            && !SafeCut(fs, INITIAL, a)
            && LastEventIs(events, Handled(Received(m, r.savedFiles), m.body, r.uploads))
  {
    hide WellFormed, IsForm, MR.EncodeUpTo, MR.EncodeParts, MR.PartHeaders, MR.ReceiveAll, EncodeHead, Received,
         OnMessage, SafeCut, MS.OnData, MS.Finish, Find;
    var x := UpToPart(boundary, preamble, parts, i, tail);
    BodySplits(m, boundary, preamble, parts, epilogue, i, tail, b);
    HeadGoesOn(m, x, b);
    FormHasParts(m, boundary, preamble, parts, epilogue);
    MR.UnsafeCutLosesThePart(ConfigOf(fs, "--" + boundary), 0, preamble, parts, epilogue, i, tail, b);
    CutIsUnsafe(fs, m, boundary, x, tail);
    TwoDeliveries(fs, m, boundary, x, b);
    TwoMessages(fs, INITIAL, EncodeHead(m, x), b);
  }

  lemma TwoMessages(fs: FileSystem, c: Conn, a: string, b: string)
    ensures OnMessages(fs, c, [a, b]) == OnMessage(fs, OnMessage(fs, c, a), b)
  {
    hide OnMessage;
    assert [a, b][1..] == [b] && [b][1..] == [];
    assert OnMessages(fs, OnMessage(fs, c, a), [b]) == OnMessages(fs, OnMessage(fs, OnMessage(fs, c, a), b), []);
  }

  lemma FormHasParts(m: Message, boundary: string, preamble: string, parts: seq<MR.Part>, epilogue: string)
    requires IsForm(m, boundary, preamble, parts, epilogue)
    ensures WellFormed(m) && HasBody(m) && BoundaryOf(Received(m, [])) == Some(boundary)
    ensures MR.WellFormed("--" + boundary, preamble, parts) &&
            m.body == MR.Encode("--" + boundary, preamble, parts, epilogue)
  {
  }

  lemma BodySplits(m: Message, boundary: string, preamble: string, parts: seq<MR.Part>, epilogue: string,
                   i: nat, tail: string, b: string)
    requires IsForm(m, boundary, preamble, parts, epilogue) && i < |parts|
    requires |tail| < 2 && "--" + boundary + (tail + b) == MR.EncodeParts("--" + boundary, parts[i..], epilogue)
    ensures m.body == UpToPart(boundary, preamble, parts, i, tail) + b && |tail| + |b| > 2 && b != ""
  {
    hide WellFormed, MR.WellFormed, MR.EncodeUpTo, MR.AfterOpening, MR.EncodeParts;
    var d := "--" + boundary;
    assert parts[..i] + parts[i..] == parts;
    MR.EncodingGoesOn(d, parts[..i], parts[i..], epilogue, tail, b);
    var x := MR.EncodeUpTo(d, parts[..i], tail);
    assert preamble + (x + b) == preamble + x + b;
    MR.SplitEncoding(d, parts, epilogue, i);
    OpeningIsLong(parts[i]);
  }

  lemma OpeningIsLong(part: MR.Part)
    ensures |MR.AfterOpening(part, "")| > 2
  {
  }

  lemma HeadGoesOn(m: Message, x: string, b: string)
    requires m.body == x + b
    ensures EncodeHead(m, x) + b == EncodeAll([m])
  {
    FieldsGoOn(m.fields, LINE_END + x, b);
    var line := RequestLine(m.verb, m.path, m.version);
    var fields := EncodeFields(m.fields, x);
    assert LINE_END + (x + b) == LINE_END + x + b;
    assert line + (LINE_END + (fields + b)) == line + (LINE_END + fields) + b;
    assert [m][1..] == [] && m.body + "" == m.body;
  }

  lemma {:induction false} FieldsGoOn(fields: seq<Field>, x: string, b: string)
    ensures FieldLines(fields, x + b) == FieldLines(fields, x) + b
    decreases |fields|
  {
    if fields != [] {
      FieldsGoOn(fields[1..], x, b);
      var line, rest := FieldLine(fields[0]), FieldLines(fields[1..], x);
      assert line + (LINE_END + (rest + b)) == line + (LINE_END + rest) + b;
    }
  }

  /** The parser of an upload, given its first stretch, is about to forget a delimiter. */
  lemma ForgetsInBody(fs: FileSystem, s: Conn, tail: string)
    requires s.core.state.AtBody? && s.core.multipart.Some? && s.core.multipart.value.parser == MS.Initial(0)
    requires |s.input| < Need(s.core) && |tail| + Need(s.core) - |s.input| > 2
    requires var cfg := UploadConfig(fs, s);
             var h := MS.Settle(cfg, MS.Initial(0).Feed(s.input));
             MC.ForgetsDelimiter(cfg, h) && MC.Trailer(cfg, h) == tail
    ensures ForgetsMidBody(fs, s) && Pending(fs, s) == tail
  {
    hide MS.Settle, MC.ForgetsDelimiter, MC.Trailer;
  }

  lemma CutIsUnsafe(fs: FileSystem, m: Message, boundary: string, x: string, tail: string)
    requires WellFormed(m) && HasBody(m) && BoundaryOf(Received(m, [])) == Some(boundary)
    requires |x| < |m.body| && |tail| + |m.body| - |x| > 2 && tail in ["", "-", "\r"]
    requires var cfg := ConfigOf(fs, "--" + boundary);
             var h := MS.Settle(cfg, MS.Initial(0).Feed(x));
             MC.ForgetsDelimiter(cfg, h) && MC.Trailer(cfg, h) == tail
    ensures !SafeCut(fs, INITIAL, EncodeHead(m, x))
  {
    hide WellFormed, EncodeHead, Received, MS.Settle, MC.ForgetsDelimiter, MC.Trailer, ForgetsMidBody, Pending,
         WithBody, Settle;
    BodyStarts(fs, m, x);
    UploadStarts(m, boundary);
    ForgetsInBody(fs, Conn(x, WithBody(m, NOTHING_YET, [])), tail);
  }

  lemma UploadStarts(m: Message, boundary: string)
    requires HasBody(m) && BoundaryOf(Received(m, [])) == Some(boundary)
    ensures var core := WithBody(m, NOTHING_YET, []);
            && core.multipart == Some(Multipart("--" + boundary, MS.Initial(0), "")) && core.state.AtBody?
            && core.contentLength == |m.body| && core.bodyReceived == 0 && core.request == Received(m, [])
  {
    hide Find, Lower;
  }

  lemma CompletedUpload(fs: FileSystem, core: Core, piece: string)
    requires core.multipart.Some?
    ensures var m := core.multipart.value;
            var p := MS.Finish(MS.OnData(ConfigOf(fs, m.delimiter), m.parser, piece));
            Completed(fs, core, piece).events ==
              core.events + [Handled(core.request.(savedFiles := p.work.savedFiles), m.fed + piece, p.work.uploads)]
  {
    hide MS.OnData, MS.Finish;
  }

  lemma ReceivedWith(m: Message, files: seq<string>)
    ensures Received(m, []).(savedFiles := files) == Received(m, files)
  {
  }

  /** An upload in two deliveries, in terms of its parser. */
  lemma TwoDeliveries(fs: FileSystem, m: Message, boundary: string, x: string, b: string)
    requires WellFormed(m) && HasBody(m) && BoundaryOf(Received(m, [])) == Some(boundary)
    requires m.body == x + b && b != ""
    ensures var cfg := ConfigOf(fs, "--" + boundary);
            var p := MS.Finish(MS.OnData(cfg, MS.OnData(cfg, MS.Initial(0), x), b));
            var events := OnMessage(fs, OnMessage(fs, INITIAL, EncodeHead(m, x)), b).core.events;
            LastEventIs(events, Handled(Received(m, p.work.savedFiles), m.body, p.work.uploads))
  {
    hide WellFormed, EncodeHead, Received, Find, MS.OnData, MS.Finish, Settle, Step, WithBody, Accounted, HandleRequest,
         BoundaryOf;
    BodyStarts(fs, m, x);
    UploadStarts(m, boundary);
    var core := TakeBody(fs, WithBody(m, NOTHING_YET, []), x);
    MessagesAreAccountedFrom(fs, EncodeHead(m, x));
    BodyIsDelivered(fs, Conn("", core), b);
    FedIsCounted(core);
    assert "" + b == b && b[..|b|] == b && "" + x == x && x + "" == x;
    var next := Completed(fs, core, b);
    assert (x + b)[|m.body|..] == "" && (x + b)[..|m.body|] == m.body;
    CompletedUpload(fs, core, b);
    var done := MS.Finish(MS.OnData(ConfigOf(fs, "--" + boundary), core.multipart.value.parser, b));
    ReceivedWith(m, done.work.savedFiles);
    NothingIsRead(fs, next);
    RunHalts(fs, Conn("", next));
  }

  lemma MessagesAreAccountedFrom(fs: FileSystem, data: string)
    ensures Accounted(OnMessage(fs, INITIAL, data).core)
  {
    StartIsAccounted();
    MessagesAreAccounted(fs, INITIAL, data);
  }

  // ---------- a delivery that ends at the closing delimiter ----------

  /** An upload whose first delivery ends right after its closing delimiter, or one byte later, in terms of
      the parser. */
  lemma ClosingDelivery(fs: FileSystem, m: Message, boundary: string, preamble: string, parts: seq<MR.Part>,
                        epilogue: string, tail: string, b: string)
    requires IsForm(m, boundary, preamble, parts, epilogue) && |tail| < 2 && tail + b == "--" + epilogue
    ensures var cfg := ConfigOf(fs, "--" + boundary);
            var x := preamble + MR.EncodeUpTo("--" + boundary, parts, tail);
            var p := MS.Finish(MS.OnData(cfg, MS.OnData(cfg, MS.Initial(0), x), b));
            var events := OnMessages(fs, INITIAL, [EncodeHead(m, x), b]).core.events;
            && EncodeHead(m, x) + b == EncodeAll([m]) && (epilogue != "" ==> !SafeCut(fs, INITIAL, EncodeHead(m, x)))
            && LastEventIs(events, Handled(Received(m, p.work.savedFiles), m.body, p.work.uploads))
  {
    hide WellFormed, IsForm, MR.Encode, MR.EncodeUpTo, MR.EncodeParts, MR.ReceiveAll, EncodeHead, Received, OnMessage,
         SafeCut, MS.OnData, MS.Finish, Find;
    var x := preamble + MR.EncodeUpTo("--" + boundary, parts, tail);
    FormHasParts(m, boundary, preamble, parts, epilogue);
    MR.ClosingCut(ConfigOf(fs, "--" + boundary), 0, preamble, parts, epilogue, tail, b);
    MR.ClosingTail(tail, b, epilogue);
    assert m.body == x + b && |tail| + |b| == 2 + |epilogue|;
    HeadGoesOn(m, x, b);
    if epilogue != "" {
      CutIsUnsafe(fs, m, boundary, x, tail);
    }
    TwoDeliveries(fs, m, boundary, x, b);
    TwoMessages(fs, INITIAL, EncodeHead(m, x), b);
  }

  /** If no delimiter follows in the epilogue, the upload is handled all the same. */
  lemma ClosingDeliveryIsHarmless(fs: FileSystem, m: Message, boundary: string, preamble: string,
                                  parts: seq<MR.Part>, epilogue: string, tail: string, b: string)
    requires IsForm(m, boundary, preamble, parts, epilogue) && |tail| < 2 && tail + b == "--" + epilogue
    requires Find("--" + epilogue, "--" + boundary, 0).None?
    ensures var a := EncodeHead(m, preamble + MR.EncodeUpTo("--" + boundary, parts, tail));
            var events := OnMessages(fs, INITIAL, [a, b]).core.events;
            var r := Parts(fs, boundary, parts);
            && a + b == EncodeAll([m])
            && LastEventIs(events, Handled(Received(m, r.savedFiles), m.body, r.uploads))
  {
    hide WellFormed, IsForm, MR.EncodeUpTo, MR.Encode, MR.ReceiveAll, EncodeHead, Received, OnMessages, SafeCut,
         MS.OnData, MS.Finish, Find;
    FormHasParts(m, boundary, preamble, parts, epilogue);
    ClosingDelivery(fs, m, boundary, preamble, parts, epilogue, tail, b);
    MR.ClosingCutIsHarmless(ConfigOf(fs, "--" + boundary), 0, preamble, parts, epilogue, tail, b);
  }

  /** If the epilogue goes on like a body, its files are saved too. */
  lemma EpilogueIsUploaded(fs: FileSystem, m: Message, boundary: string, preamble: string, parts: seq<MR.Part>,
                           epilogue: string, tail: string, b: string, gap: string, phantoms: seq<MR.Part>, rest: string)
    requires IsForm(m, boundary, preamble, parts, epilogue) && |tail| < 2 && tail + b == "--" + epilogue
    requires MR.WellFormed("--" + boundary, gap, phantoms)
    requires "--" + epilogue == MR.Encode("--" + boundary, gap, phantoms, rest)
    ensures var a := EncodeHead(m, preamble + MR.EncodeUpTo("--" + boundary, parts, tail));
            var events := OnMessages(fs, INITIAL, [a, b]).core.events;
            var r := Parts(fs, boundary, parts + phantoms);
            && a + b == EncodeAll([m])
            && LastEventIs(events, Handled(Received(m, r.savedFiles), m.body, r.uploads))
  {
    hide WellFormed, IsForm, MR.WellFormed, MR.EncodeUpTo, MR.Encode, MR.ReceiveAll, EncodeHead, Received, OnMessages,
         SafeCut, MS.OnData, MS.Finish, Find;
    FormHasParts(m, boundary, preamble, parts, epilogue);
    ClosingDelivery(fs, m, boundary, preamble, parts, epilogue, tail, b);
    MR.EpilogueIsReadAsParts(ConfigOf(fs, "--" + boundary), 0, preamble, parts, epilogue, tail, b, gap, phantoms, rest);
  }

  /** A form with one file. */
  function OneFile(boundary: string, part: MR.Part): Message {
    Form(boundary, MR.Encode("--" + boundary, "", [part], ""))
  }

  predicate Sendable(boundary: string, part: MR.Part) {
    && '\r' !in boundary && '\n' !in boundary && |boundary| <= 1000 && part.FilePart?
    && MR.Encodable("--" + boundary, part) && Find(MR.PartHeaders(part), "--" + boundary, 0).None?
    && |MR.Encode("--" + boundary, "", [part], "")| <= MAX_BODY_SIZE
  }

  /** What follows its first delimiter. */
  function BehindDelimiter(boundary: string, part: MR.Part): string {
    MR.AfterOpening(part, "--" + boundary + ("--" + ""))
  }

  lemma OneFileIsAForm(boundary: string, part: MR.Part)
    requires Sendable(boundary, part)
    ensures IsForm(OneFile(boundary, part), boundary, "", [part], "")
    ensures part.FilePart? && Find(MR.PartHeaders(part), "--" + boundary, 0).None?
  {
    hide WellFormed, Find, MR.Encodable, MR.PartHeaders, Received, MR.Encode;
    FormIsAnUpload(boundary, MR.Encode("--" + boundary, "", [part], ""));
    MR.EmptyPreamble("--" + boundary);
  }

  /** The smallest case: a form with one file, delivered in two pieces of which the first ends with the
      delimiter. Delivered at once it saves the file; in the two pieces, nothing. */
  lemma OneFileIsLost(fs: FileSystem, boundary: string, part: MR.Part)
    requires Sendable(boundary, part) && forall n, path :: fs(n, path) >= 0
    ensures var m := OneFile(boundary, part);
            var a, b := EncodeHead(m, "--" + boundary), BehindDelimiter(boundary, part);
            var whole := OnMessages(fs, INITIAL, [a + b]).core.events;
            var split := OnMessages(fs, INITIAL, [a, b]).core.events;
            && a + b == EncodeAll([m]) && !SafeCut(fs, INITIAL, a)
            && LastEventIs(whole, Handled(Received(m, [part.filename]), m.body,
                                          [MS.Upload(part.filename, part.contents)]))
            && LastEventIs(split, Handled(Received(m, []), m.body, []))
  {
    hide Sendable, IsForm, EncodeHead, Received, OnMessages, OneFile, SafeCut, EncodeAll, BehindDelimiter, Parts,
         LastEventIs, After, MR.EncodeParts, MR.PartHeaders, Find;
    var m, b := OneFile(boundary, part), BehindDelimiter(boundary, part);
    OneFileIsAForm(boundary, part);
    WholeIsSaved(fs, m, boundary, part);
    OnePart(boundary, part);
    UnsafeDeliveryLosesThePart(fs, m, boundary, "", [part], "", 0, "", b);
    assert Parts(fs, boundary, [part][..0] + [part][0 + 1..])
        == MR.Results(map[], [], [], 0) by {
      NoParts(fs, boundary, part);
    }
  }

  lemma OnePart(boundary: string, part: MR.Part)
    ensures "--" + boundary + ("" + BehindDelimiter(boundary, part)) == MR.EncodeParts("--" + boundary, [part][0..], "")
    ensures UpToPart(boundary, "", [part], 0, "") == "--" + boundary
  {
    assert [part][0..] == [part] && [part][1..] == [] && [part][..0] == [];
    assert "" + BehindDelimiter(boundary, part) == BehindDelimiter(boundary, part);
    assert "" + ("--" + boundary + "") == "--" + boundary;
  }

  lemma NoParts(fs: FileSystem, boundary: string, part: MR.Part)
    ensures Parts(fs, boundary, [part][..0] + [part][0 + 1..]) == MR.Results(map[], [], [], 0)
  {
    assert [part][..0] + [part][0 + 1..] == [];
  }

  predicate LastUploadsAre(events: seq<Event>, uploads: seq<MS.Upload>) {
    events != [] && events[|events| - 1].Handled? && events[|events| - 1].uploads == uploads
  }

  /** It happens: boundary `b`, file name `a`, contents `x`. */
  lemma AFileIsLost(fs: FileSystem)
    requires forall n, path :: fs(n, path) >= 0
    ensures var part := MR.FilePart("f", "a", "x", [], ["Content-Type: text/plain"]);
            var m := OneFile("b", part);
            var a, b := EncodeHead(m, "--b"), BehindDelimiter("b", part);
            var whole := OnMessages(fs, INITIAL, [a + b]).core.events;
            var split := OnMessages(fs, INITIAL, [a, b]).core.events;
            LastUploadsAre(whole, [MS.Upload("a", "x")]) && LastUploadsAre(split, [])
  {
    hide EncodeHead, OnMessages, OneFile, BehindDelimiter, Sendable, EncodeAll, Received, SafeCut;
    SmallFileIsSendable();
    OneFileIsLost(fs, "b", MR.FilePart("f", "a", "x", [], ["Content-Type: text/plain"]));
    assert "--" + "b" == "--b";
  }

  lemma SmallFileIsSendable()
    ensures Sendable("b", MR.FilePart("f", "a", "x", [], ["Content-Type: text/plain"]))
  {
    hide Find, MR.PartHeaders, OccursAt, MR.Encodable, MR.Encode;
    var part := MR.FilePart("f", "a", "x", [], ["Content-Type: text/plain"]);
    assert "--" + "b" == "--b";
    NotInHeaders("f", "a");
    NoDelimiterWithout("b", MR.PartHeaders(part));
    SmallFileIsEncodable();
    SmallFileIsShort();
  }

  lemma SmallFileIsEncodable()
    ensures MR.Encodable("--b", MR.FilePart("f", "a", "x", [], ["Content-Type: text/plain"]))
  {
    hide Find, OccursAt;
    assert MR.Plain("f") && MR.Plain("a");
    assert [] + ["Content-Type: text/plain"] == ["Content-Type: text/plain"];
    assert MR.SoundLine("Content-Type: text/plain");
    NoDelimiterWithout("b", "x");
    assert "--" + "b" == "--b";
  }

  lemma SmallFileIsShort()
    ensures |MR.Encode("--b", "", [MR.FilePart("f", "a", "x", [], ["Content-Type: text/plain"])], "")| <= 1000
  {
    hide MR.PartHeaders;
    var part := MR.FilePart("f", "a", "x", [], ["Content-Type: text/plain"]);
    HeadersAreShort("f", "a");
    OnePart("b", part);
    assert [part][0..] == [part] && "--" + "b" == "--b";
    assert MR.Encode("--b", "", [part], "") == "" + ("--b" + ("" + BehindDelimiter("b", part)));
  }

  lemma NotInHeaders(name: string, filename: string)
    requires 'b' !in name && 'b' !in filename
    ensures 'b' !in MR.PartHeaders(MR.FilePart(name, filename, "x", [], ["Content-Type: text/plain"]))
  {
    assert 'b' !in MR.FORM_DATA && 'b' !in MS.NAME_KEY && 'b' !in MS.FILENAME_KEY && 'b' !in "Content-Type: text/plain";
    assert 'b' !in MR.NameLine(name);
    assert 'b' !in MR.FileLine(name, filename);
    TwoLines(name, filename);
  }

  lemma TwoLines(name: string, filename: string)
    ensures MR.PartHeaders(MR.FilePart(name, filename, "x", [], ["Content-Type: text/plain"]))
         == MR.FileLine(name, filename) + ("\r\n" + "Content-Type: text/plain")
  {
    MR.JoinedStarts(MR.FileLine(name, filename), ["Content-Type: text/plain"]);
    var lines := [MR.FileLine(name, filename)] + ["Content-Type: text/plain"];
    assert [] + lines == lines;
  }

  lemma HeadersAreShort(name: string, filename: string)
    ensures var part := MR.FilePart(name, filename, "x", [], ["Content-Type: text/plain"]);
            |MR.PartHeaders(part)| <= 100 + |name| + |filename|
  {
    TwoLines(name, filename);
  }

  lemma NoDelimiterWithout(boundary: string, text: string)
    requires boundary != "" && boundary[|boundary| - 1] !in text
    ensures Find(text, "--" + boundary, 0).None?
  {
    hide Find;
    forall j: nat
      ensures !OccursAt(text, "--" + boundary, j)
    {
      MR.CharAt(text, "--" + boundary, j, |boundary| + 1);
    }
    NoneIsFound(text, "--" + boundary, 0);
  }

  lemma WholeIsSaved(fs: FileSystem, m: Message, boundary: string, part: MR.Part)
    requires IsForm(m, boundary, "", [part], "") && part.FilePart?
    requires forall n, path :: fs(n, path) >= 0
    ensures var whole := OnMessages(fs, INITIAL, [EncodeAll([m])]).core.events;
            var saved := [MS.Upload(part.filename, part.contents)];
            && LastEventIs(whole, Handled(Received(m, [part.filename]), m.body, saved))
            && After(fs, m, NOTHING_YET).savedFiles == [part.filename]
  {
    hide Received, OnMessages, EncodeAll, MS.Names, WellFormed, HandledOf, After, MR.FilesOf, MR.SavedFiles;
    OneChunkIsAllowed(fs, EncodeAll([m]));
    PipelinedRoundTrip(fs, [m], [EncodeAll([m])]);
    assert [] + [m] == [m];
    EventsOfMore(fs, [], m, NOTHING_YET);
    FormIsReceived(fs, m, boundary, "", [part], "", NOTHING_YET);
    MR.AllFilesAreSaved(ConfigOf(fs, "--" + boundary), 0, [part]);
    FilesOfOne(part);
    NamesOfOne(part.filename, part.contents);
  }

  lemma OneChunkIsAllowed(fs: FileSystem, text: string)
    ensures MC.Concat([text]) == text && AllowedCuts(fs, INITIAL, [text])
  {
    assert [text][1..] == [] && text + "" == text;
  }

  lemma FilesOfOne(part: MR.Part)
    requires part.FilePart?
    ensures MR.FilesOf([part]) == [MS.Upload(part.filename, part.contents)]
  {
    assert [part][1..] == [];
  }

  /** A GET behind that form, on the same connection, reaches the handler with the name of its file. */
  lemma AGetCarriesTheFile(fs: FileSystem)
    requires forall n, path :: fs(n, path) >= 0
    ensures var form := OneFile("b", MR.FilePart("f", "a", "x", [], ["Content-Type: text/plain"]));
            var get := Message("GET", "/", "HTTP/1.1", [], "");
            var events := OnMessages(fs, INITIAL, [EncodeAll([form] + [get])]).core.events;
            LastEventIs(events, Handled(Received(get, ["a"]), "", []))
  {
    hide LastEventIs, OnMessages, OneFile, EncodeAll, Received, Sendable, IsForm, After, WellFormed, MS.Names,
         MR.SavedFiles;
    var part := MR.FilePart("f", "a", "x", [], ["Content-Type: text/plain"]);
    var form, get := OneFile("b", part), Message("GET", "/", "HTTP/1.1", [], "");
    SmallFileIsSendable();
    OneFileIsAForm("b", part);
    FormHasParts(form, "b", "", [part], "");
    GetIsWellFormed();
    WholeIsSaved(fs, form, "b", part);
    OneChunkIsAllowed(fs, EncodeAll([form] + [get]));
    EarlierFilesReachTheHandler(fs, [form], get, [EncodeAll([form] + [get])]);
    OneUpload(fs, form);
  }

  lemma OneUpload(fs: FileSystem, m: Message)
    requires IsUpload(m)
    ensures IsLastUpload([m], 0) && AfterAll(fs, [m][..0], NOTHING_YET) == NOTHING_YET && [m][0] == m
  {
    assert [m][..0] == [];
  }

  lemma GetIsWellFormed()
    ensures var get := Message("GET", "/", "HTTP/1.1", [], ""); WellFormed(get) && !IsUpload(get)
  {
    assert IsWord("GET") && IsWord("/") && IsWord("HTTP/1.1");
  }

  lemma NamesOfOne(filename: string, contents: string)
    ensures MS.Names([MS.Upload(filename, contents)]) == [filename]
  {
  }
}
