/** Which bytes the parser of an upload is given: exactly those that the Content-Length announces after
    the blank line, however they arrive, and none of the next request. */
module HttpBody {
  import opened Wrappers
  import opened Bytes
  import opened HttpRequest
  import opened HttpFramer
  import MS = MultipartStream
  import MC = MultipartCuts

  /** An upload whose body is being read. */
  predicate Uploading(core: Core) {
    Accounted(core) && core.state.AtBody? && core.multipart.Some?
  }

  /** The body so far, with what has arrived and not been read yet. */
  function BodySoFar(c: Conn): string
    requires c.core.multipart.Some?
  {
    c.core.multipart.value.fed + c.input
  }

  /** When the headers end in an upload, its parser has been given nothing and expects what the headers
      announce. */
  lemma BlankLineStartsTheBody(core: Core)
    requires Accounted(core) && core.state.AtHeaders? && TakeLine(core, "").state.AtBody? &&
             TakeLine(core, "").multipart.Some?
    ensures var q := TakeLine(core, "");
            && Uploading(q) && q.multipart.value.fed == "" && q.multipart.value.parser == MS.Initial(core.opens)
            && Stoul(core.request.GetHeader("Content-Length")) == Some(q.contentLength)
  {
    hide Find, Stoul, Lower;
    LineIsAccounted(core, "");
  }

  /** The connection once the rest of the body, `piece`, has been read and its request handled. */
  function Completed(fs: FileSystem, core: Core, piece: string): Core {
    HandleRequest(EndBody(TakeBody(fs, core, piece)))
  }

  lemma FedIsCounted(core: Core)
    requires Uploading(core)
    ensures |core.multipart.value.fed| + Need(core) == core.contentLength
  {
  }

  /** One delivery: until the body is complete, the parser is given everything; when it is, the request
      is handled with exactly the announced bytes, and the rest is read as the next request. */
  lemma BodyIsDelivered(fs: FileSystem, c: Conn, data: string)
    requires Uploading(c.core)
    ensures var text := BodySoFar(c) + data;
            var q := OnMessage(fs, c, data);
            var n := c.core.contentLength;
            if |text| < n then
              && Uploading(q.core) && q.input == "" && BodySoFar(q) == text
              && q.core.contentLength == n && q.core.events == c.core.events
            else
              var next := Completed(fs, c.core, (c.input + data)[..Need(c.core)]);
              && q == Run(fs, Conn(text[n..], next)) && next.state.AtRequestLine?
              && next.events == c.core.events
                 + [Handled(next.events[|c.core.events|].request, text[..n], next.events[|c.core.events|].uploads)]
  {
    hide MS.OnData, MS.Finish, MS.Disciplined, Settle;
    var s := c.Feed(data);
    var fed, need, n := c.core.multipart.value.fed, Need(c.core), c.core.contentLength;
    assert BodySoFar(c) + data == fed + s.input;
    StepIsAccounted(fs, s);
    if |s.input| < need {
      RunHalts(fs, s);
      assert BodySoFar(Step(fs, s).c) == fed + s.input + "";
    } else {
      var done := Step(fs, s).c;
      StepIsAccounted(fs, done);
      assert (fed + s.input)[..n] == fed + s.input[..need] && (fed + s.input)[n..] == s.input[need..];
      RunGoes(fs, s, done);
      RunGoes(fs, done, Conn(done.input, HandleRequest(done.core)));
    }
  }

  lemma RunHalts(fs: FileSystem, c: Conn)
    requires Step(fs, c).Halt?
    ensures Run(fs, c) == Step(fs, c).c
  {
  }

  lemma RunGoes(fs: FileSystem, c: Conn, next: Conn)
    requires Step(fs, c) == Go(next)
    ensures Run(fs, c) == Run(fs, next)
  {
  }

  lemma StepKeepsEvents(fs: FileSystem, c: Conn)
    ensures c.core.events <= Step(fs, c).c.core.events
  {
    hide Find, Stoul, Lower, TrimLeft, SkipSpaces, Word, BoundaryOf, MS.OnData, MS.Finish;
  }

  lemma {:induction false} RunKeepsEvents(fs: FileSystem, c: Conn)
    ensures c.core.events <= Run(fs, c).core.events
    decreases |c.input|, Rank(c.core.state)
  {
    hide Step;
    StepKeepsEvents(fs, c);
    if Step(fs, c).Go? {
      RunKeepsEvents(fs, Step(fs, c).c);
    }
  }

  lemma {:induction false} EventsAreKept(fs: FileSystem, c: Conn, chunks: seq<string>)
    ensures c.core.events <= OnMessages(fs, c, chunks).core.events
    decreases |chunks|
  {
    hide Run;
    if chunks != [] {
      RunKeepsEvents(fs, c.Feed(chunks[0]));
      EventsAreKept(fs, OnMessage(fs, c, chunks[0]), chunks[1..]);
    }
  }

  /** However the body arrives, cut anywhere: its parser is given exactly the first `contentLength` bytes,
      in order, and the request is handled as soon as they are there. */
  lemma {:induction false} BodyIsExact(fs: FileSystem, c: Conn, chunks: seq<string>)
    requires Uploading(c.core)
    requires chunks == [] ==> c.input == "" && |BodySoFar(c)| < c.core.contentLength
    ensures var text := BodySoFar(c) + MC.Concat(chunks);
            var q := OnMessages(fs, c, chunks);
            var n, k := c.core.contentLength, |c.core.events|;
            if |text| < n then Uploading(q.core) && q.input == "" && BodySoFar(q) == text &&
              q.core.events == c.core.events
            else k < |q.core.events| && q.core.events[..k] == c.core.events
                 && q.core.events[k].Handled? && q.core.events[k].fed == text[..n]
    decreases |chunks|
  {
    hide Accounted, OnMessage, Completed;
    if chunks == [] {
      assert BodySoFar(c) + "" == BodySoFar(c);
    } else {
      var text := BodySoFar(c) + chunks[0];
      var q := OnMessage(fs, c, chunks[0]);
      var n, k := c.core.contentLength, |c.core.events|;
      assert BodySoFar(c) + MC.Concat(chunks) == text + MC.Concat(chunks[1..]);
      BodyIsDelivered(fs, c, chunks[0]);
      FedIsCounted(c.core);
      if |text| < n {
        BodyIsExact(fs, q, chunks[1..]);
      } else {
        var next := Completed(fs, c.core, (c.input + chunks[0])[..Need(c.core)]);
        RunKeepsEvents(fs, Conn(text[n..], next));
        EventsAreKept(fs, q, chunks[1..]);
        FirstEventStays(c.core.events, next.events, q.core.events, OnMessages(fs, c, chunks).core.events);
        assert (text + MC.Concat(chunks[1..]))[..n] == text[..n];
      }
    }
  }

  lemma FirstEventStays(before: seq<Event>, one: seq<Event>, more: seq<Event>, all: seq<Event>)
    requires |one| == |before| + 1 && before <= one <= more && more <= all
    ensures |before| < |all| && all[..|before|] == before && all[|before|] == one[|before|]
  {
  }
}
