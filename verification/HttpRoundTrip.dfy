/** Pipelined requests come out of the parser as they were encoded, however the stream is cut.
    Message framing is that of sections 2.2, 3, 5 and 6.3 of RFC 9112, Content-Length only;
    pipelining is section 9.3.2. */
module HttpRoundTrip {
  import opened Wrappers
  import opened Bytes
  import opened HttpRequest
  import opened HttpFramer
  import opened HttpCuts
  import MS = MultipartStream
  import MC = MultipartCuts
  import MR = MultipartRoundTrip

  datatype Field = Field(name: string, value: string)

  datatype Message = Message(verb: string, path: string, version: string, fields: seq<Field>, body: string)

  const LINE_END: string := "\r\n"

  function FieldLine(f: Field): string {
    f.name + (": " + f.value)
  }

  /** The lines of `fields`, followed by `next`. */
  function FieldLines(fields: seq<Field>, next: string): string {
    if fields == [] then next else FieldLine(fields[0]) + (LINE_END + FieldLines(fields[1..], next))
  }

  function EncodeFields(fields: seq<Field>, next: string): string {
    FieldLines(fields, LINE_END + next)
  }

  /** The request line and the header lines of `m`, followed by `text`. */
  function EncodeHead(m: Message, text: string): string {
    RequestLine(m.verb, m.path, m.version) + (LINE_END + EncodeFields(m.fields, text))
  }

  /** A message followed by `next`. */
  function EncodeMessage(m: Message, next: string): string {
    EncodeHead(m, m.body + next)
  }

  function EncodeAll(ms: seq<Message>): string {
    if ms == [] then "" else EncodeMessage(ms[0], EncodeAll(ms[1..]))
  }

  // ---------- what may be encoded ----------

  /** The header map of a list of fields: lower-cased names, trimmed values, the last one wins. */
  function HeaderMap(headers: map<string, string>, fields: seq<Field>): map<string, string>
    decreases |fields|
  {
    if fields == [] then headers
    else HeaderMap(headers[Lower(fields[0].name) := TrimLeft(fields[0].value)], fields[1..])
  }

  predicate PlainField(f: Field) {
    ':' !in f.name && '\r' !in f.name && '\r' !in f.value && |FieldLine(f)| <= MAX_HEADER_LINE
  }

  function Received(m: Message, savedFiles: seq<string>): Request {
    Request(VerbOf(m.verb), m.path, m.version, HeaderMap(map[], m.fields), NoError, savedFiles)
  }

  /** The announced length is the length of the body; without one there is no body. */
  predicate LengthMatches(m: Message) {
    var r := Received(m, []);
    if r.HasHeader("Content-Length")
    then Stoul(r.GetHeader("Content-Length")) == Some(|m.body|) && |m.body| <= 1073741824
    else m.body == ""
  }

  /** The request line and the header lines are within the limits. */
  predicate GoodHead(m: Message) {
    && IsWord(m.verb) && IsWord(m.path) && IsWord(m.version)
    && |m.path| <= MAX_URI_LENGTH && |RequestLine(m.verb, m.path, m.version)| <= MAX_REQUEST_LINE
    && |m.fields| <= MAX_HEADERS && (forall f | f in m.fields :: PlainField(f))
  }

  predicate WellFormed(m: Message) {
    GoodHead(m) && LengthMatches(m)
  }

  // ---------- what must be received ----------

  predicate HasBody(m: Message) {
    Received(m, []).HasHeader("Content-Length")
  }

  /** The upload parser after the whole body of `m`, if `m` is an upload. */
  function UploadOf(fs: FileSystem, m: Message, opens: nat): Option<MS.Parser> {
    if !HasBody(m) then None
    else
      match BoundaryOf(Received(m, []))
      case None => None
      case Some(boundary) => Some(MS.Finish(MS.OnData(ConfigOf(fs, "--" + boundary), MS.Initial(opens), m.body)))
  }

  /** What the list of saved files and the count of `open` calls are carried along as. */
  datatype Carry = Carry(savedFiles: seq<string>, opens: nat)

  function After(fs: FileSystem, m: Message, k: Carry): Carry {
    match UploadOf(fs, m, k.opens)
    case None => k
    case Some(p) => Carry(p.work.savedFiles, p.work.opens)
  }

  /** What reaches the handler: the request, and of an upload its whole body and the files closed. Any
      other request has the saved files of the one before it. */
  function HandledOf(fs: FileSystem, m: Message, k: Carry): Event {
    match UploadOf(fs, m, k.opens)
    case None => Handled(Received(m, k.savedFiles), "", [])
    case Some(p) => Handled(Received(m, p.work.savedFiles), m.body, p.work.uploads)
  }

  function EventsOf(fs: FileSystem, m: Message, k: Carry): seq<Event> {
    (if HasBody(m) && ExpectsContinue(Received(m, [])) then [Continue100] else []) + [HandledOf(fs, m, k)]
  }

  function AllEvents(fs: FileSystem, ms: seq<Message>, k: Carry): seq<Event>
    decreases |ms|
  {
    if ms == [] then [] else EventsOf(fs, ms[0], k) + AllEvents(fs, ms[1..], After(fs, ms[0], k))
  }

  function Ready(k: Carry, events: seq<Event>): Core {
    Fresh(EMPTY_REQUEST.(savedFiles := k.savedFiles), k.opens, events)
  }

  // ---------- lines ----------

  lemma LineEnds(line: string, rest: string)
    requires '\r' !in line
    ensures Find(line + (LINE_END + rest), LINE_END, 0) == Some(|line|)
    ensures (line + (LINE_END + rest))[..|line|] == line
    ensures (line + (LINE_END + rest))[|line| + 2..] == rest
  {
    hide Find, OccursAt;
    var text := line + (LINE_END + rest);
    SplitAtLineEnd(line, rest);
    forall j: nat | j < |line|
      ensures !OccursAt(text, LINE_END, j)
    {
      NoLineEndBefore(line, LINE_END + rest, j);
    }
    FirstIsFound(text, LINE_END, 0, |line|);
  }

  lemma SplitAtLineEnd(line: string, rest: string)
    ensures OccursAt(line + (LINE_END + rest), LINE_END, |line|)
    ensures (line + (LINE_END + rest))[..|line|] == line
    ensures (line + (LINE_END + rest))[|line| + 2..] == rest
  {
    assert (line + (LINE_END + rest))[|line|..|line| + 2] == LINE_END;
  }

  lemma NoLineEndBefore(line: string, rest: string, j: nat)
    requires '\r' !in line && j < |line|
    ensures !OccursAt(line + rest, LINE_END, j)
  {
    assert (line + rest)[j] == line[j];
    MR.CharAt(line + rest, LINE_END, j, 0);
  }

  lemma StepTakesLine(fs: FileSystem, line: string, rest: string, core: Core)
    requires '\r' !in line && (core.state.AtRequestLine? || core.state.AtHeaders?)
    ensures Step(fs, Conn(line + (LINE_END + rest), core)) == Go(Conn(rest, TakeLine(core, line)))
  {
    hide Find, TakeLine;
    LineEnds(line, rest);
  }

  lemma FieldIsTaken(core: Core, f: Field)
    requires core.state.AtHeaders? && PlainField(f) && |core.request.headers| < MAX_HEADERS
    ensures TakeLine(core, FieldLine(f))
         == core.(request := core.request.(headers := core.request.headers[Lower(f.name) := TrimLeft(f.value)]))
  {
    hide Lower;
    var line := FieldLine(f);
    assert line[|f.name|..|f.name| + 1] == ":";
    forall j: nat | j < |f.name|
      ensures !OccursAt(line, ":", j)
    {
      assert line[j] == f.name[j];
      MR.CharAt(line, ":", j, 0);
    }
    FirstIsFound(line, ":", 0, |f.name|);
    assert line[..|f.name|] == f.name;
    assert line[|f.name| + 2..] == f.value;
  }

  lemma {:induction false} FieldsAreTaken(fs: FileSystem, core: Core, fields: seq<Field>, next: string)
    requires core.state.AtHeaders? && |core.request.headers| + |fields| <= MAX_HEADERS
    requires forall f | f in fields :: PlainField(f)
    ensures Settle(fs, Conn(FieldLines(fields, next), core))
         == Settle(fs, Conn(next, core.(request := core.request.(headers := HeaderMap(core.request.headers, fields)))))
    decreases |fields|
  {
    hide TakeLine, Lower, TrimLeft, PlainField, FieldLine;
    if fields != [] {
      var f, rest := fields[0], FieldLines(fields[1..], next);
      var headers := core.request.headers[Lower(f.name) := TrimLeft(f.value)];
      assert '\r' !in FieldLine(f) by { assert PlainField(f); NoReturnInField(f); }
      StepTakesLine(fs, FieldLine(f), rest, core);
      FieldIsTaken(core, f);
      FieldsAreTaken(fs, core.(request := core.request.(headers := headers)), fields[1..], next);
    } else {
      assert core.(request := core.request.(headers := HeaderMap(core.request.headers, fields))) == core;
    }
  }

  lemma NoReturnInField(f: Field)
    requires PlainField(f)
    ensures '\r' !in FieldLine(f)
  {
  }

  // ---------- one message ----------

  /** The connection after the header lines of `m`. */
  function WithHeaders(m: Message, k: Carry, events: seq<Event>): Core {
    Fresh(Received(m, k.savedFiles), k.opens, events).(state := AtHeaders)
  }

  /** The request line and the header lines of `m`, without the blank line. */
  function OpenHead(m: Message, text: string): string {
    RequestLine(m.verb, m.path, m.version) + (LINE_END + FieldLines(m.fields, text))
  }

  lemma LinesAreRead(fs: FileSystem, m: Message, k: Carry, events: seq<Event>, text: string)
    requires GoodHead(m)
    ensures Settle(fs, Conn(OpenHead(m, text), Ready(k, events))) == Settle(fs, Conn(text, WithHeaders(m, k, events)))
  {
    hide SkipSpaces, Word, PlainField, VerbOf;
    var line := RequestLine(m.verb, m.path, m.version);
    var rest := FieldLines(m.fields, text);
    var start := Ready(k, events);
    RequestLineIsRead(start.request, m.verb, m.path, m.version);
    NoReturnInRequestLine(m);
    StepTakesLine(fs, line, rest, start);
    var read := TakeLine(start, line);
    assert read.state.AtHeaders? &&
           read.request == Request(VerbOf(m.verb), m.path, m.version, map[], NoError, k.savedFiles);
    FieldsAreTaken(fs, read, m.fields, text);
    assert read.(request := read.request.(headers := HeaderMap(map[], m.fields))) == WithHeaders(m, k, events);
  }

  lemma NoReturnInRequestLine(m: Message)
    requires IsWord(m.verb) && IsWord(m.path) && IsWord(m.version)
    ensures '\r' !in RequestLine(m.verb, m.path, m.version)
  {
    assert '\r' !in m.verb && '\r' !in m.path && '\r' !in m.version;
  }

  /** The connection when the body of `m` is about to be read. */
  function WithBody(m: Message, k: Carry, events: seq<Event>): Core
    requires HasBody(m)
  {
    var core := WithHeaders(m, k, events);
    core.(state := AtBody, contentLength := |m.body|, multipart := StartUpload(core),
          events := events + if ExpectsContinue(core.request) then [Continue100] else [])
  }

  lemma HeadersEnd(m: Message, k: Carry, events: seq<Event>)
    requires WellFormed(m)
    ensures TakeLine(WithHeaders(m, k, events), "") ==
            if HasBody(m) then WithBody(m, k, events) else WithHeaders(m, k, events).(state := AtFinish)
  {
    hide Stoul, Lower, HeaderMap, IsWord, BoundaryOf;
  }

  lemma BodyIsHandled(fs: FileSystem, m: Message, k: Carry, events: seq<Event>)
    requires WellFormed(m) && HasBody(m)
    ensures var done := EndBody(TakeBody(fs, WithBody(m, k, events), m.body));
            && done.state.AtFinish? && (done.multipart.Some? ==> done.uploadFinished)
            && HandleRequest(done) == Ready(After(fs, m, k), events + EventsOf(fs, m, k))
  {
    hide Stoul, Lower, HeaderMap, IsWord, Find, MS.OnData, MS.Finish, PlainField;
    var expects := if ExpectsContinue(Received(m, k.savedFiles)) then [Continue100] else [];
    var handled := [HandledOf(fs, m, k)];
    assert events + expects + handled == events + (expects + handled);
    assert "" + m.body == m.body;
  }

  /** Up to the blank line after the headers. */
  lemma HeadIsRead(fs: FileSystem, m: Message, k: Carry, events: seq<Event>, text: string)
    requires WellFormed(m)
    ensures Settle(fs, Conn(EncodeHead(m, text), Ready(k, events)))
         == Settle(fs, Conn(text, if HasBody(m) then WithBody(m, k, events)
                                  else WithHeaders(m, k, events).(state := AtFinish)))
  {
    hide TakeLine, Find, HeaderMap, GoodHead, LengthMatches, Lower, BoundaryOf, Step;
    LinesAreRead(fs, m, k, events, LINE_END + text);
    assert EncodeHead(m, text) == OpenHead(m, LINE_END + text);
    var head := WithHeaders(m, k, events);
    assert "" + (LINE_END + text) == LINE_END + text;
    StepTakesLine(fs, "", text, head);
    HeadersEnd(m, k, events);
    OneStep(fs, Conn(LINE_END + text, head), Conn(text, TakeLine(head, "")));
  }

  lemma OneStep(fs: FileSystem, c: Conn, next: Conn)
    requires Step(fs, c) == Go(next)
    ensures Settle(fs, c) == Settle(fs, next)
  {
  }

  lemma MessageIsRead(fs: FileSystem, m: Message, k: Carry, events: seq<Event>, next: string)
    requires WellFormed(m)
    ensures Settle(fs, Conn(EncodeMessage(m, next), Ready(k, events)))
         == Settle(fs, Conn(next, Ready(After(fs, m, k), events + EventsOf(fs, m, k))))
  {
    hide TakeLine, TakeBody, EndBody, HandleRequest, Find, HeaderMap, EncodeHead, EventsOf, WellFormed, Lower;
    HeadIsRead(fs, m, k, events, m.body + next);
    if HasBody(m) {
      var body := WithBody(m, k, events);
      assert (m.body + next)[..|m.body|] == m.body;
      assert (m.body + next)[|m.body|..] == next;
      BodyIsHandled(fs, m, k, events);
      var done := EndBody(TakeBody(fs, body, m.body));
      assert Step(fs, Conn(m.body + next, body)) == Go(Conn(next, done));
      OneStep(fs, Conn(m.body + next, body), Conn(next, done));
      OneStep(fs, Conn(next, done), Conn(next, HandleRequest(done)));
    } else {
      NoBodyIsHandled(fs, m, k, events);
      assert m.body + next == next;
      var done := WithHeaders(m, k, events).(state := AtFinish);
      OneStep(fs, Conn(next, done), Conn(next, HandleRequest(done)));
    }
  }

  lemma NoBodyIsHandled(fs: FileSystem, m: Message, k: Carry, events: seq<Event>)
    requires WellFormed(m) && !HasBody(m)
    ensures m.body == ""
    ensures HandleRequest(WithHeaders(m, k, events).(state := AtFinish))
            == Ready(After(fs, m, k), events + EventsOf(fs, m, k))
  {
    hide Stoul, Lower, HeaderMap, IsWord, Find, PlainField;
  }

  // ---------- lengths ----------

  lemma {:induction false} HeaderMapOfMore(headers: map<string, string>, fields: seq<Field>, f: Field)
    ensures HeaderMap(headers, fields + [f]) == HeaderMap(headers, fields)[Lower(f.name) := TrimLeft(f.value)]
    decreases |fields|
  {
    hide Lower, TrimLeft;
    if fields == [] {
      assert [f][1..] == [];
    } else {
      assert (fields + [f])[1..] == fields[1..] + [f];
      HeaderMapOfMore(headers[Lower(fields[0].name) := TrimLeft(fields[0].value)], fields[1..], f);
    }
  }

  /** Line `i` has that name, in whatever case, and no later line has. */
  predicate IsLastField(fields: seq<Field>, i: nat, name: string) {
    && i < |fields| && SameName(fields[i].name, name)
    && forall j: nat | i < j < |fields| :: !SameName(fields[j].name, name)
  }

  /** The request received has, under a name in any case, the value of the last header line of that name,
      without the blanks in front of it; it has no header that no line names. */
  lemma LastFieldWins(m: Message, savedFiles: seq<string>, name: string)
    ensures forall i: nat | IsLastField(m.fields, i, name) ::
              IsTrimmed(m.fields[i].value, Received(m, savedFiles).GetHeader(name))
    ensures Received(m, savedFiles).HasHeader(name) <==> exists i: nat :: IsLastField(m.fields, i, name)
  {
    hide Lower, IsTrimmed, SameName;
    LastEntryWins(map[], m.fields, name);
  }

  lemma {:induction false} LastEntryWins(headers: map<string, string>, fields: seq<Field>, name: string)
    ensures var q := HeaderMap(headers, fields);
            && (forall i: nat | IsLastField(fields, i, name) ::
              Lower(name) in q && IsTrimmed(fields[i].value, q[Lower(name)]))
            && (Lower(name) in q <==> Lower(name) in headers || exists i: nat :: IsLastField(fields, i, name))
    decreases |fields|
  {
    hide Lower, TrimLeft, IsTrimmed, SameName;
    if fields != [] {
      var n := |fields| - 1;
      assert fields == fields[..n] + [fields[n]];
      HeaderMapOfMore(headers, fields[..n], fields[n]);
      LastEntryWins(headers, fields[..n], name);
      LowerIdentifies(fields[n].name, name);
      TrimLeftTrims(fields[n].value);
      if SameName(fields[n].name, name) {
        assert IsLastField(fields, n, name);
      } else {
        forall i: nat
          ensures IsLastField(fields, i, name) <==> IsLastField(fields[..n], i, name)
        {
        }
      }
    }
  }

  /** Announcing the length of the body in its last header line, in whatever case, frames any message. */
  lemma AnnouncedLengthMatches(m: Message, fields: seq<Field>, name: string)
    requires |m.body| <= 1073741824 && SameName(name, "Content-Length")
    requires m.fields == fields + [Field(name, Decimal(|m.body|))]
    ensures LengthMatches(m)
  {
    hide Lower, Stoul, Decimal, SameName;
    HeaderMapOfMore(map[], fields, Field(name, Decimal(|m.body|)));
    LowerIdentifies(name, "Content-Length");
    StoulOfDecimal(|m.body|);
    assert IsDigit(Decimal(|m.body|)[0]);
  }

  // ---------- pipelines ----------

  lemma {:induction false} PipelineIsRead(fs: FileSystem, ms: seq<Message>, k: Carry, events: seq<Event>)
    requires forall m | m in ms :: WellFormed(m)
    ensures var q := Run(fs, Conn(EncodeAll(ms), Ready(k, events)));
            q.input == "" && q.core.state.AtRequestLine? && q.core.events == events + AllEvents(fs, ms, k)
    decreases |ms|
  {
    hide WellFormed, EncodeMessage, EventsOf, After, Step;
    if ms == [] {
      NothingIsRead(fs, Ready(k, events));
      assert events + [] == events;
    } else {
      MessageIsRead(fs, ms[0], k, events, EncodeAll(ms[1..]));
      PipelineIsRead(fs, ms[1..], After(fs, ms[0], k), events + EventsOf(fs, ms[0], k));
      assert events + EventsOf(fs, ms[0], k) + AllEvents(fs, ms[1..], After(fs, ms[0], k))
             == events + AllEvents(fs, ms, k);
    }
  }

  lemma NothingIsRead(fs: FileSystem, core: Core)
    requires core.state.AtRequestLine?
    ensures Step(fs, Conn("", core)) == Halt(Conn("", core))
  {
  }

  const NOTHING_YET: Carry := Carry([], 0)

  /** Any number of well-formed requests, pipelined and delivered in any allowed pieces, are handled
      in order and exactly once, with nothing left over. */
  lemma PipelinedRoundTrip(fs: FileSystem, ms: seq<Message>, chunks: seq<string>)
    requires forall m | m in ms :: WellFormed(m)
    requires chunks != [] && MC.Concat(chunks) == EncodeAll(ms) && AllowedCuts(fs, INITIAL, chunks)
    ensures var q := OnMessages(fs, INITIAL, chunks);
            q.input == "" && q.core.state.AtRequestLine? && q.core.events == AllEvents(fs, ms, NOTHING_YET)
  {
    hide WellFormed, AllowedCuts, OnMessages, AllEvents, EncodeAll;
    DeliverInChunks(fs, INITIAL, chunks);
    PipelineIsRead(fs, ms, NOTHING_YET, []);
    assert INITIAL.Feed(EncodeAll(ms)) == Conn(EncodeAll(ms), Ready(NOTHING_YET, []));
    assert [] + AllEvents(fs, ms, NOTHING_YET) == AllEvents(fs, ms, NOTHING_YET);
  }

  /** Without uploads the pieces may be cut anywhere. */
  lemma PlainPipelinedRoundTrip(fs: FileSystem, ms: seq<Message>, chunks: seq<string>)
    requires forall m | m in ms :: WellFormed(m)
    requires chunks != [] && MC.Concat(chunks) == EncodeAll(ms) && !Mentions(EncodeAll(ms))
    ensures var q := OnMessages(fs, INITIAL, chunks);
            q.input == "" && q.core.state.AtRequestLine? && q.core.events == AllEvents(fs, ms, NOTHING_YET)
  {
    hide WellFormed, AllowedCuts, OnMessages, AllEvents, EncodeAll, Mentions;
    assert "" + MC.Concat(chunks) == MC.Concat(chunks);
    CutsWithoutUploads(fs, INITIAL, chunks);
    PipelinedRoundTrip(fs, ms, chunks);
  }

  lemma FinishIsHandled(fs: FileSystem, c: Conn)
    requires c.core.state.AtFinish? && c.core.multipart.None?
    ensures Step(fs, c) == Go(Conn(c.input, HandleRequest(c.core)))
  {
  }

  // ---------- saved files of earlier requests ----------

  predicate IsUpload(m: Message) {
    HasBody(m) && BoundaryOf(Received(m, [])).Some?
  }

  /** What is carried along after all of `ms`. */
  function AfterAll(fs: FileSystem, ms: seq<Message>, k: Carry): Carry
    decreases |ms|
  {
    if ms == [] then k else AfterAll(fs, ms[1..], After(fs, ms[0], k))
  }

  lemma {:induction false} EventsOfMore(fs: FileSystem, ms: seq<Message>, m: Message, k: Carry)
    ensures AllEvents(fs, ms + [m], k) == AllEvents(fs, ms, k) + EventsOf(fs, m, AfterAll(fs, ms, k))
    ensures AfterAll(fs, ms + [m], k) == After(fs, m, AfterAll(fs, ms, k))
    decreases |ms|
  {
    hide EventsOf, After;
    if ms == [] {
      assert ([m])[1..] == [] && [] + [m] == [m];
      assert AllEvents(fs, [m], k) == EventsOf(fs, m, k) + AllEvents(fs, [m][1..], After(fs, m, k));
    } else {
      assert (ms + [m])[1..] == ms[1..] + [m];
      EventsOfMore(fs, ms[1..], m, After(fs, ms[0], k));
    }
  }

  // ---------- one event for every request ----------

  predicate LastEventIs(events: seq<Event>, e: Event) {
    events != [] && events[|events| - 1] == e
  }

  function Handlings(events: seq<Event>): seq<Event> {
    if events == [] then [] else HandlingOf(events[0]) + Handlings(events[1..])
  }

  function HandlingOf(e: Event): seq<Event> {
    if e.Handled? then [e] else []
  }

  lemma {:induction false} HandlingsOfBoth(a: seq<Event>, b: seq<Event>)
    ensures Handlings(a + b) == Handlings(a) + Handlings(b)
    decreases |a|
  {
    hide HandlingOf;
    if a == [] {
      assert a + b == b;
    } else {
      assert (a + b)[1..] == a[1..] + b;
      HandlingsOfBoth(a[1..], b);
      assert HandlingOf(a[0]) + (Handlings(a[1..]) + Handlings(b))
             == HandlingOf(a[0]) + Handlings(a[1..]) + Handlings(b);
    }
  }

  lemma HandlingOfOne(fs: FileSystem, m: Message, k: Carry)
    ensures Handlings(EventsOf(fs, m, k)) == [HandledOf(fs, m, k)]
  {
    hide HandledOf, HasBody, ExpectsContinue;
    var first := if HasBody(m) && ExpectsContinue(Received(m, [])) then [Continue100] else [];
    var last := [HandledOf(fs, m, k)];
    IsHandling(fs, m, k);
    HandlingsOfBoth(first, last);
    assert last[1..] == [] && [Continue100][1..] == [];
  }

  lemma IsHandling(fs: FileSystem, m: Message, k: Carry)
    ensures HandledOf(fs, m, k).Handled?
  {
    hide UploadOf;
  }

  /** Every request of a pipeline is handled once, in order, with what the requests before it left. */
  lemma {:induction false} EachIsHandled(fs: FileSystem, ms: seq<Message>, k: Carry)
    ensures |Handlings(AllEvents(fs, ms, k))| == |ms|
    ensures forall i: nat | i < |ms| ::
              Handlings(AllEvents(fs, ms, k))[i] == HandledOf(fs, ms[i], AfterAll(fs, ms[..i], k))
    decreases |ms|
  {
    hide EventsOf, HandledOf, After;
    if ms != [] {
      var n := |ms| - 1;
      var last := AfterAll(fs, ms[..n], k);
      assert ms == ms[..n] + [ms[n]];
      EventsOfMore(fs, ms[..n], ms[n], k);
      HandlingsOfBoth(AllEvents(fs, ms[..n], k), EventsOf(fs, ms[n], last));
      HandlingOfOne(fs, ms[n], last);
      EachIsHandled(fs, ms[..n], k);
      forall i: nat | i < n
        ensures ms[..n][..i] == ms[..i]
      {
      }
    }
  }

  predicate IsLastUpload(ms: seq<Message>, i: nat) {
    i < |ms| && IsUpload(ms[i]) && forall j: nat | i < j < |ms| :: !IsUpload(ms[j])
  }

  /** What is carried along comes from the last upload, if there is one. */
  lemma {:induction false} LastUploadCounts(fs: FileSystem, ms: seq<Message>, k: Carry)
    ensures (forall m | m in ms :: !IsUpload(m)) ==> AfterAll(fs, ms, k) == k
    ensures forall i: nat | IsLastUpload(ms, i) :: AfterAll(fs, ms, k) == After(fs, ms[i], AfterAll(fs, ms[..i], k))
    decreases |ms|
  {
    hide IsUpload, After;
    if ms != [] {
      var n := |ms| - 1;
      assert ms == ms[..n] + [ms[n]];
      EventsOfMore(fs, ms[..n], ms[n], k);
      OnlyUploadsCount(fs, ms[n], AfterAll(fs, ms[..n], k));
      LastUploadCounts(fs, ms[..n], k);
      forall i: nat | IsLastUpload(ms, i)
        ensures AfterAll(fs, ms, k) == After(fs, ms[i], AfterAll(fs, ms[..i], k))
      {
        if i < n {
          assert IsLastUpload(ms[..n], i) && ms[..n][..i] == ms[..i];
        }
      }
    }
  }

  lemma OnlyUploadsCount(fs: FileSystem, m: Message, k: Carry)
    ensures UploadOf(fs, m, k.opens).Some? <==> IsUpload(m)
    ensures !IsUpload(m) ==> After(fs, m, k) == k && HandledOf(fs, m, k) == Handled(Received(m, k.savedFiles), "", [])
  {
    hide Find, MS.OnData, MS.Finish;
  }

  /** A request that is not an upload reaches the handler with the saved files of the last upload before
      it, whatever that was: with none exactly when there is none or it saved none. */
  lemma EarlierFilesReachTheHandler(fs: FileSystem, ms: seq<Message>, m: Message, chunks: seq<string>)
    requires WellFormed(m) && !IsUpload(m) && forall e | e in ms :: WellFormed(e)
    requires chunks != [] && MC.Concat(chunks) == EncodeAll(ms + [m]) && AllowedCuts(fs, INITIAL, chunks)
    ensures var saved := AfterAll(fs, ms, NOTHING_YET).savedFiles;
            && LastEventIs(OnMessages(fs, INITIAL, chunks).core.events, Handled(Received(m, saved), "", []))
            && ((forall e | e in ms :: !IsUpload(e)) ==> saved == [])
            && forall i: nat | IsLastUpload(ms, i) ::
                 saved == After(fs, ms[i], AfterAll(fs, ms[..i], NOTHING_YET)).savedFiles
  {
    hide WellFormed, AllowedCuts, OnMessages, AllEvents, EncodeAll, IsUpload, After;
    PipelinedRoundTrip(fs, ms + [m], chunks);
    EventsOfMore(fs, ms, m, NOTHING_YET);
    OnlyUploadsCount(fs, m, AfterAll(fs, ms, NOTHING_YET));
    LastUploadCounts(fs, ms, NOTHING_YET);
  }
}
