/** When a header line ends the process: the `substr` behind its colon throws, and nothing catches it. */
module HttpThrows {
  import opened Wrappers
  import opened Bytes
  import opened HttpRequest
  import opened HttpFramer
  import opened HttpRoundTrip
  import MC = MultipartCuts

  const COLON_END: string := ":\r\n"

  /** No line so far was such a line, and none can be in what is still to be read. */
  predicate Quiet(c: Conn, future: string) {
    !c.core.state.Thrown? && Find(c.input + future, COLON_END, 0).None?
  }

  /** A line that throws shows in the stream. */
  lemma ThrowingLineShows(core: Core, text: string, n: nat)
    requires core.state.AtRequestLine? || core.state.AtHeaders?
    requires OccursAt(text, LINE_END, n)
    ensures TakeLine(core, text[..n]).state.Thrown? ==> Find(text, COLON_END, 0).Some?
  {
    hide Find, TakeLine;
    LineThrowsIff(core, text[..n]);
    if n > 0 && text[n - 1] == ':' {
      assert text[n - 1..n + 2] == [text[n - 1]] + text[n..n + 2];
      assert OccursAt(text, COLON_END, n - 1);
      FindIsFirst(text, COLON_END, 0);
    }
  }

  lemma SuffixStaysQuiet(input: string, future: string, n: nat)
    requires n <= |input| && Find(input + future, COLON_END, 0).None?
    ensures Find(input[n..] + future, COLON_END, 0).None?
    ensures Find(input, COLON_END, 0).None?
  {
    hide Find;
    MC.NoneInSuffix(input + future, COLON_END, n);
    assert (input + future)[n..] == input[n..] + future;
    if Find(input, COLON_END, 0).Some? {
      FindStable(input, future, COLON_END, 0);
    }
  }

  lemma StepStaysQuiet(fs: FileSystem, c: Conn, future: string)
    requires Quiet(c, future)
    ensures Quiet(Step(fs, c).c, future)
  {
    hide Find, OccursAt, TakeLine, TakeBody, EndBody;
    match c.core.state
    case AtBody =>
      var n := if |c.input| >= Need(c.core) then Need(c.core) else |c.input|;
      SuffixStaysQuiet(c.input, future, n);
      assert c.input[|c.input|..] == "" && c.input[..|c.input|] == c.input;
      BodyDoesNotThrow(fs, c.core, c.input[..n]);
    case AtFinish =>
    case Thrown =>
    case _ =>
      FindIsFirst(c.input, LINE_END, 0);
      if Find(c.input, LINE_END, 0).Some? {
        var n := Find(c.input, LINE_END, 0).value;
        SuffixStaysQuiet(c.input, future, n + 2);
        ThrowingLineShows(c.core, c.input, n);
      }
  }

  lemma BodyDoesNotThrow(fs: FileSystem, core: Core, data: string)
    requires core.state.AtBody?
    ensures !TakeBody(fs, core, data).state.Thrown? && !EndBody(TakeBody(fs, core, data)).state.Thrown?
  {
  }

  lemma {:induction false} RunStaysQuiet(fs: FileSystem, c: Conn, future: string)
    requires Quiet(c, future)
    ensures Quiet(Run(fs, c), future)
    decreases |c.input|, Rank(c.core.state)
  {
    hide Step, Quiet;
    StepStaysQuiet(fs, c, future);
    if Step(fs, c).Go? {
      RunStaysQuiet(fs, Step(fs, c).c, future);
    }
  }

  /** A stream in which no colon stands right before a line end never reaches the exception, however it
      is cut. */
  lemma {:induction false} NeverThrows(fs: FileSystem, c: Conn, chunks: seq<string>)
    requires !c.core.state.Thrown? && Find(c.input + MC.Concat(chunks), COLON_END, 0).None?
    ensures !OnMessages(fs, c, chunks).core.state.Thrown?
    decreases |chunks|
  {
    hide Run, Find;
    if chunks != [] {
      var rest := MC.Concat(chunks[1..]);
      assert c.input + MC.Concat(chunks) == c.Feed(chunks[0]).input + rest;
      RunStaysQuiet(fs, c.Feed(chunks[0]), rest);
      NeverThrows(fs, OnMessage(fs, c, chunks[0]), chunks[1..]);
    }
  }

  /** Any header line whose only colon is its last byte will do. */
  lemma ColonLineThrows(fs: FileSystem, core: Core, name: string)
    requires core.state.AtHeaders? && |core.request.headers| < MAX_HEADERS
    requires ':' !in name && '\r' !in name && |name| < MAX_HEADER_LINE
    ensures OnMessage(fs, Conn("", core), name + COLON_END).core.state.Thrown?
  {
    hide Find, TakeLine;
    var line := name + ":";
    var c := Conn("", core).Feed(name + COLON_END);
    assert COLON_END == ":" + (LINE_END + "") && c.input == line + (LINE_END + "");
    assert line[..|line| - 1] == name;
    LineThrowsIff(core, line);
    StepTakesLine(fs, line, "", core);
    var next := Conn("", TakeLine(core, line));
    assert Step(fs, next) == Halt(next);
    assert Settle(fs, c) == next;
  }

  /** A client gets there with two lines. */
  lemma TwoLinesThrow(fs: FileSystem)
    ensures var lines := [RequestLine("GET", "/", "HTTP/1.1") + LINE_END, "X" + COLON_END];
            OnMessages(fs, INITIAL, lines).core.state.Thrown?
  {
    hide Find, TakeLine, OnMessage;
    var chunks := [RequestLine("GET", "/", "HTTP/1.1") + LINE_END, "X" + COLON_END];
    var q := OnMessage(fs, INITIAL, chunks[0]);
    RequestLineLeadsToHeaders(fs);
    ColonLineThrows(fs, q.core, "X");
    assert chunks[1..] == [chunks[1]] && chunks[1..][1..] == [];
    assert OnMessages(fs, q, chunks[1..]) == OnMessages(fs, OnMessage(fs, q, chunks[1]), []);
  }

  lemma RequestLineLeadsToHeaders(fs: FileSystem)
    ensures var q := OnMessage(fs, INITIAL, RequestLine("GET", "/", "HTTP/1.1") + LINE_END);
            q.input == "" && q.core.state.AtHeaders? && q.core.request.headers == map[]
  {
    hide Find, SkipSpaces, Word;
    var line := RequestLine("GET", "/", "HTTP/1.1");
    assert IsWord("GET") && IsWord("/") && IsWord("HTTP/1.1");
    RequestLineIsRead(EMPTY_REQUEST, "GET", "/", "HTTP/1.1");
    assert '\r' !in line;
    StepTakesLine(fs, line, "", INITIAL.core);
    assert INITIAL.Feed(line + LINE_END).input == line + (LINE_END + "");
    var next := Conn("", TakeLine(INITIAL.core, line));
    NothingFound(fs, next.core);
    assert Settle(fs, INITIAL.Feed(line + LINE_END)) == next;
  }

  lemma NothingFound(fs: FileSystem, core: Core)
    requires core.state.AtHeaders?
    ensures Step(fs, Conn("", core)) == Halt(Conn("", core))
  {
  }
}
