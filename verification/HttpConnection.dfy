/** The imperative request parser: HttpRequest.cpp and HttpConnection.cpp over Buffer.cpp and
    MultipartStreamParser.cpp, proved against `HttpFramer`. */
module HttpConnection {
  import opened Wrappers
  import opened Bytes
  import opened HttpRequest
  import opened HttpFramer
  import opened ByteBuffer
  import MS = MultipartStream
  import MultipartStreamParser

  class RequestObject {
    var verb: Verb
    var path: string
    var version: string
    var headers: map<string, string>
    var error: HttpError
    var savedFiles: seq<string>

    ghost function View(): Request
      reads this
    {
      Request(verb, path, version, headers, error, savedFiles)
    }

    constructor ()
      ensures View() == EMPTY_REQUEST
    {
      verb, path, version, headers := Unknown, "", "", map[];
      error, savedFiles := NoError, [];
    }

    method ParseRequestLine(line: string) returns (ok: bool)
      modifies this
      ensures View() == old(View()).ReadLine(line) && ok == View().LineAccepted()
    {
      verb := VerbOf(Extract(line, ""));
      var rest := AfterWord(line);
      path := Extract(rest, path);
      rest := AfterWord(rest);
      version := Extract(rest, version);
      if |path| > MAX_LINE_PATH {
        error := UriTooLong;
        return false;
      }
      return path != "" && version != "";
    }

    method AddHeader(key: string, value: string)
      modifies this`headers
      ensures View() == old(View()).AddHeader(key, value)
    {
      headers := headers[Lower(key) := TrimLeft(value)];
    }

    predicate HasHeader(key: string)
      reads this
      ensures HasHeader(key) == View().HasHeader(key)
    {
      Lower(key) in headers
    }

    function GetHeader(key: string): (value: string)
      reads this
      ensures value == View().GetHeader(key)
    {
      if Lower(key) in headers then headers[Lower(key)] else ""
    }

    method SetError(e: HttpError)
      modifies this`error
      ensures View() == old(View()).(error := e)
    {
      error := e;
    }

    method SetSavedFiles(files: seq<string>)
      modifies this`savedFiles
      ensures View() == old(View()).(savedFiles := files)
    {
      savedFiles := files;
    }

    method Reset()
      modifies this
      ensures View() == old(View()).Reset()
    {
      verb, path, version, headers := Unknown, "", "", map[];
      error := NoError;
    }
  }

  class HttpConnection {
    const fs: FileSystem
    const request: RequestObject
    var state: ParseState
    var contentLength: nat
    var bodyReceived: nat
    var multipartParser: MultipartStreamParser.MultipartStreamParser?
    var uploadFinished: bool
    var opens: nat
    /** The bytes given to the upload parser, and what the peer and the handler have seen. */
    ghost var fed: string
    ghost var events: seq<Event>

    ghost function Upload(): Option<Multipart>
      reads this, multipartParser
    {
      if multipartParser == null then None
      else Some(Multipart(multipartParser.cfg.delimiter, multipartParser.View(), fed))
    }

    ghost function View(): Core
      reads this, request, multipartParser
    {
      Core(state, request.View(), contentLength, bodyReceived, Upload(), uploadFinished, opens, events)
    }

    ghost predicate Valid()
      reads this, request, multipartParser
    {
      (multipartParser != null ==> multipartParser.cfg == ConfigOf(fs, multipartParser.cfg.delimiter)) &&
        Accounted(View())
    }

    constructor (fs: FileSystem)
      ensures this.fs == fs && fresh(request) && Valid() && View() == INITIAL.core
    {
      this.fs := fs;
      request := new RequestObject();
      state, contentLength, bodyReceived := AtRequestLine, 0, 0;
      multipartParser, uploadFinished, opens := null, false, 0;
      fed, events := "", [];
    }

    method Fail(e: HttpError)
      modifies this`state, request`error
      ensures View() == HttpFramer.Fail(old(View()), e)
    {
      request.SetError(e);
      state := AtFinish;
    }

    method TakeRequestLine(line: string)
      requires state.AtRequestLine?
      modifies this`state, request
      ensures View() == TakeLine(old(View()), line)
    {
      if |line| > MAX_REQUEST_LINE {
        Fail(UriTooLong);
        return;
      }
      var ok := request.ParseRequestLine(line);
      if !ok {
        Fail(BadRequest);
        return;
      }
      if |request.path| > MAX_URI_LENGTH {
        Fail(UriTooLong);
        return;
      }
      state := AtHeaders;
    }

    /** Creates the upload parser when the request is a multipart form. */
    method CreateParser()
      requires multipartParser == null
      modifies this`multipartParser, this`fed
      ensures View() == old(View()).(multipart := StartUpload(old(View())))
      ensures multipartParser == null ||
              (fresh(multipartParser) && multipartParser.cfg == ConfigOf(fs, multipartParser.cfg.delimiter))
    {
      if request.HasHeader("Content-Type") {
        var ct := request.GetHeader("Content-Type");
        var pos := Find(ct, "boundary=", 0);
        if pos.Some? && Find(ct, "multipart/form-data", 0).Some? {
          var delimiter := "--" + ct[pos.value + 9..];
          multipartParser := new MultipartStreamParser.MultipartStreamParser(ConfigOf(fs, delimiter), opens);
          fed := "";
        }
      }
    }

    /** The blank line after the headers. */
    method EndHeaders()
      requires state.AtHeaders? && multipartParser == null
      modifies this, request`error
      ensures View() == HttpFramer.EndHeaders(old(View()))
      ensures multipartParser == null ||
              (fresh(multipartParser) && multipartParser.cfg == ConfigOf(fs, multipartParser.cfg.delimiter))
    {
      hide Stoul, Find, Lower;
      var expects := request.HasHeader("Expect") && request.GetHeader("Expect") == "100-continue";
      if expects && request.error != NoError {
        state := AtFinish;
        return;
      }
      if !request.HasHeader("Content-Length") {
        state := AtFinish;
        return;
      }
      var length := Stoul(request.GetHeader("Content-Length"));
      if length.None? {
        Fail(BadRequest);
        return;
      }
      contentLength := length.value;
      if contentLength > MAX_BODY_SIZE {
        Fail(PayloadTooLarge);
        return;
      }
      if expects {
        events := events + [Continue100];
      }
      CreateParser();
      state := AtBody;
    }

    method TakeHeaderLine(line: string)
      requires state.AtHeaders? && multipartParser == null
      modifies this, request`error, request`headers
      ensures View() == TakeLine(old(View()), line)
      ensures multipartParser == null ||
              (fresh(multipartParser) && multipartParser.cfg == ConfigOf(fs, multipartParser.cfg.delimiter))
    {
      if |line| > MAX_HEADER_LINE {
        Fail(HeaderTooLarge);
        return;
      }
      if line == "" {
        EndHeaders();
        return;
      }
      if |request.headers| >= MAX_HEADERS {
        Fail(HeaderTooLarge);
        return;
      }
      var pos := Find(line, ":", 0);
      if pos.None? {
        Fail(BadRequest);
        return;
      }
      if pos.value + 2 > |line| {
        state := Thrown;
        return;
      }
      request.AddHeader(line[..pos.value], line[pos.value + 2..]);
    }

    /** The BODY block: hands the parser its share of the input; `done` when the body is complete. */
    method TakeBody(buf: Buffer) returns (done: bool)
      requires state.AtBody? && Valid() && buf.Valid()
      modifies this, multipartParser, buf`readIndex, buf`writeIndex
      ensures buf.Valid() && multipartParser == old(multipartParser)
      ensures !done ==> state.AtBody? && |buf.Contents()| <= |old(buf.Contents())|
      ensures multipartParser != null ==> multipartParser.cfg == old(multipartParser.cfg)
      ensures StepBody(fs, Conn(old(buf.Contents()), old(View())))
           == if done then Go(Conn(buf.Contents(), View())) else Halt(Conn(buf.Contents(), View()))
    {
      hide MS.OnData, MS.Finish, MS.Disciplined, HttpFramer.TakeBody, HttpFramer.EndBody;
      var readable := buf.ReadableBytes();
      var need := contentLength - bodyReceived;
      var n := if readable < need then readable else need;
      var input := buf.Peek();
      assert input[..|input|] == input && input[|input|..] == "";
      Receive(input[..n]);
      buf.Retrieve(n);

      if bodyReceived == contentLength {
        CompleteBody();
        return true;
      }
      return false;
    }

    /** Gives a piece of the body to the parser. */
    method Receive(piece: string)
      requires multipartParser != null ==> multipartParser.cfg == ConfigOf(fs, multipartParser.cfg.delimiter)
      modifies this`fed, this`bodyReceived, multipartParser
      ensures View() == HttpFramer.TakeBody(fs, old(View()), piece)
      ensures multipartParser != null ==> multipartParser.cfg == old(multipartParser.cfg)
      ensures bodyReceived == old(bodyReceived) + |piece|
    {
      hide MS.OnData, MS.Disciplined;
      if multipartParser != null {
        multipartParser.OnData(piece);
        fed := fed + piece;
      }
      bodyReceived := bodyReceived + |piece|;
    }

    /** The end of the body. */
    method CompleteBody()
      modifies this`uploadFinished, this`state, multipartParser
      ensures View() == EndBody(old(View())) && state.AtFinish?
      ensures multipartParser != null ==> multipartParser.cfg == old(multipartParser.cfg)
    {
      hide MS.Disciplined;
      if multipartParser != null {
        multipartParser.Finish();
        uploadFinished := true;
      }
      state := AtFinish;
    }

    /** Hands the request over and gets ready for the next one. */
    method HandleRequest()
      modifies this, request
      ensures View() == HttpFramer.HandleRequest(old(View())) && multipartParser == null
    {
      if multipartParser != null {
        request.SetSavedFiles(multipartParser.savedFiles);
        opens := multipartParser.opens;
        events := events + [Handled(request.View(), fed, multipartParser.uploads)];
      } else {
        events := events + [Handled(request.View(), "", [])];
      }

      state := AtRequestLine;
      request.Reset();
      multipartParser := null;
      contentLength, bodyReceived, uploadFinished := 0, 0, false;
    }

    /** One line from the input, if it is complete. */
    method TakeLineFrom(buf: Buffer) returns (found: bool)
      requires (state.AtRequestLine? || state.AtHeaders?) && Valid() && buf.Valid()
      modifies this, request, buf`readIndex, buf`writeIndex
      ensures buf.Valid() && (!found ==> Conn(buf.Contents(), View()) == old(Conn(buf.Contents(), View())))
      ensures multipartParser == null ||
              (fresh(multipartParser) && multipartParser.cfg == ConfigOf(fs, multipartParser.cfg.delimiter))
      ensures StepLine(Conn(old(buf.Contents()), old(View())))
           == if found then Go(Conn(buf.Contents(), View())) else Halt(Conn(buf.Contents(), View()))
    {
      hide HttpFramer.TakeRequestLine, HttpFramer.TakeHeaderLine, Find, MS.Disciplined;
      var input := buf.Peek();
      var crlf := Find(input, "\r\n", 0);
      if crlf.None? { return false; }
      var line := input[..crlf.value];
      buf.Retrieve(|line| + 2);
      if state.AtRequestLine? {
        TakeRequestLine(line);
      } else {
        TakeHeaderLine(line);
      }
      return true;
    }

    /** One turn of the loop of `parseRequest` that handles a line or a stretch of body; `goOn` when the
        loop continues. */
    method TakeTurn(buf: Buffer) returns (goOn: bool)
      requires !state.AtFinish? && !state.Thrown? && Valid() && buf.Valid()
      modifies this, request, multipartParser, buf`readIndex, buf`writeIndex
      ensures Valid() && buf.Valid() && (!goOn ==> state == old(state) && |buf.Contents()| <= |old(buf.Contents())|)
      ensures multipartParser == old(multipartParser) || multipartParser == null || fresh(multipartParser)
      ensures Step(fs, Conn(old(buf.Contents()), old(View())))
           == if goOn then Go(Conn(buf.Contents(), View())) else Halt(Conn(buf.Contents(), View()))
    {
      hide StepLine, StepBody, StepFinish, Accounted, MS.Settle, MS.OnData, MS.Disciplined;
      StepIsAccounted(fs, Conn(buf.Contents(), View()));
      if state.AtBody? {
        goOn := TakeBody(buf);
      } else {
        goOn := TakeLineFrom(buf);
      }
    }

    /** `parseRequest`: true when a request, or an error, is complete. */
    method ParseRequest(buf: Buffer) returns (ok: bool)
      requires Valid() && buf.Valid()
      modifies this, request, multipartParser, buf`readIndex, buf`writeIndex
      ensures Valid() && buf.Valid()
      ensures multipartParser == old(multipartParser) || multipartParser == null || fresh(multipartParser)
      ensures |buf.Contents()| < |old(buf.Contents())| ||
              (|buf.Contents()| == |old(buf.Contents())| && Rank(state) <= Rank(old(state)))
      ensures var c, q := Conn(old(buf.Contents()), old(View())), Conn(buf.Contents(), View());
              if ok then state.AtFinish? && Run(fs, c) == Run(fs, q) else Run(fs, c) == q
    {
      hide Step, Accounted, MS.Settle, MS.OnData, MS.Disciplined;
      ghost var result := Run(fs, Conn(buf.Contents(), View()));
      while !state.AtFinish?
        invariant Valid() && buf.Valid()
        invariant multipartParser == old(multipartParser) || multipartParser == null || fresh(multipartParser)
        invariant |buf.Contents()| < |old(buf.Contents())| ||
                  (|buf.Contents()| == |old(buf.Contents())| && Rank(state) <= Rank(old(state)))
        invariant result == Run(fs, Conn(buf.Contents(), View()))
        decreases |buf.Contents()|, Rank(state)
      {
        if state.Thrown? {
          ThrownHalts(fs, Conn(buf.Contents(), View()));
          return false;
        }
        var goOn := TakeTurn(buf);
        if !goOn { return false; }
      }
      return true;
    }

    /** `onMessage`: handles every request that the input completes. */
    method OnMessage(buf: Buffer)
      requires Valid() && buf.Valid()
      modifies this, request, multipartParser, buf`readIndex, buf`writeIndex
      ensures Valid() && buf.Valid()
      ensures multipartParser == old(multipartParser) || multipartParser == null || fresh(multipartParser)
      ensures Conn(buf.Contents(), View()) == Run(fs, Conn(old(buf.Contents()), old(View())))
    {
      hide StepLine, StepBody, Accounted;
      ghost var result := Run(fs, Conn(buf.Contents(), View()));
      while true
        invariant Valid() && buf.Valid()
        invariant multipartParser == old(multipartParser) || multipartParser == null || fresh(multipartParser)
        invariant result == Run(fs, Conn(buf.Contents(), View()))
        decreases |buf.Contents()|, Rank(state)
      {
        var ok := ParseRequest(buf);
        if !ok { return; }
        ghost var c := Conn(buf.Contents(), View());
        StepIsAccounted(fs, c);
        if multipartParser != null && !uploadFinished { return; }
        HandleRequest();
        assert Step(fs, c) == Go(Conn(buf.Contents(), View()));
      }
    }
  }

  lemma ThrownHalts(fs: FileSystem, c: Conn)
    requires c.core.state.Thrown?
    ensures Run(fs, c) == c
  {
  }
}
