/** Requests that are refused: which ones, with which error, and that the stream behind them is read all the
    same; and what is answered before a body is read. */
module HttpRefusals {
  import opened Wrappers
  import opened Bytes
  import opened HttpRequest
  import opened HttpFramer
  import opened HttpRoundTrip

  /** The request is refused with this error and goes to the handler as it stands. */
  predicate Refuses(q: Core, k: Carry, events: seq<Event>, error: HttpError) {
    && q.state.AtFinish? && q.multipart.None? && q.request.error == error
    && HandleRequest(q) == Ready(k, events + [Handled(q.request, "", [])])
  }

  /** Behind a refused request, any number of well-formed ones are handled. */
  lemma PipelineGoesOn(fs: FileSystem, failed: Core, ms: seq<Message>, k: Carry, events: seq<Event>, error: HttpError)
    requires Refuses(failed, k, events, error) && forall m | m in ms :: WellFormed(m)
    ensures var q := Run(fs, Conn(EncodeAll(ms), failed));
            && q.input == "" && q.core.state.AtRequestLine?
            && q.core.events == events + [Handled(failed.request, "", [])] + AllEvents(fs, ms, k)
  {
    hide EncodeAll, WellFormed, AllEvents, Step;
    FinishIsHandled(fs, Conn(EncodeAll(ms), failed));
    OneStep(fs, Conn(EncodeAll(ms), failed), Conn(EncodeAll(ms), HandleRequest(failed)));
    PipelineIsRead(fs, ms, k, events + [Handled(failed.request, "", [])]);
  }

  // ---------- request lines ----------

  /** Exactly which request lines are refused, and with what: those of more than 8192 bytes with 414, those
      of fewer than three words with 400, those whose path exceeds 2048 bytes with 414. Any other one is
      accepted, with its words as method, path and version. */
  lemma RequestLineVerdict(k: Carry, events: seq<Event>, gaps: seq<string>, words: seq<string>)
    requires WellSpread(gaps, words)
    ensures var line := Spread(gaps, words);
            var q := TakeLine(Ready(k, events), line);
            if |line| > 8192 then Refuses(q, k, events, UriTooLong)
            else if |words| < 3 then Refuses(q, k, events, BadRequest)
            else if |words[1]| > 2048 then Refuses(q, k, events, UriTooLong)
            else q == Ready(k, events).(state := AtHeaders, request := q.request) && q.request.error == NoError &&
                 q.request.path == words[1] && q.request.version == words[2]
  {
    hide WellSpread, Spread, VerbOf, Extract, AfterWord;
    WordsAreRead(Ready(k, events).request, gaps, words);
    if |words| >= 3 {
      WordIsShort(gaps, words);
    }
    assert forall i | 0 <= i < |words| :: words[i] != "" by { WordsAreNotEmpty(gaps, words); }
  }

  lemma WordsAreNotEmpty(gaps: seq<string>, words: seq<string>)
    requires WellSpread(gaps, words)
    ensures forall i | 0 <= i < |words| :: words[i] != ""
  {
  }

  lemma WordIsShort(gaps: seq<string>, words: seq<string>)
    requires WellSpread(gaps, words) && |words| > 1
    ensures |words[1]| <= |Spread(gaps, words)|
  {
    assert |Spread(gaps[1..], words[1..])| >= |words[1]|;
  }

  /** Parsing goes on after an error: behind a request line that is refused, any number of well-formed
      requests are handled all the same. */
  lemma ParsingGoesOn(fs: FileSystem, gaps: seq<string>, words: seq<string>, ms: seq<Message>, k: Carry,
                      events: seq<Event>)
    requires WellSpread(gaps, words) && '\r' !in Spread(gaps, words) && forall m | m in ms :: WellFormed(m)
    requires |Spread(gaps, words)| > 8192 || |words| < 3 || |words[1]| > 2048
    ensures var line := Spread(gaps, words);
            var refused := TakeLine(Ready(k, events), line).request;
            var q := Run(fs, Conn(line + (LINE_END + EncodeAll(ms)), Ready(k, events)));
            && refused.error == (if |line| > 8192 || |words| >= 3 then UriTooLong else BadRequest)
            && q.input == "" && q.core.state.AtRequestLine?
            && q.core.events == events + [Handled(refused, "", [])] + AllEvents(fs, ms, k)
  {
    hide Find, EncodeAll, WellFormed, AllEvents, Step, TakeLine, Spread, HandleRequest;
    var line, start := Spread(gaps, words), Ready(k, events);
    RequestLineVerdict(k, events, gaps, words);
    StepTakesLine(fs, line, EncodeAll(ms), start);
    OneStep(fs, Conn(line + (LINE_END + EncodeAll(ms)), start), Conn(EncodeAll(ms), TakeLine(start, line)));
    PipelineGoesOn(fs, TakeLine(start, line), ms, k, events, TakeLine(start, line).request.error);
  }

  // ---------- header lines ----------

  /** Exactly what becomes of a header line: refused with 431 if it has more than 8192 bytes or a hundred
      headers are known, with 400 if it has no colon; otherwise its name is what stands before the first
      colon, and its value what stands behind the character that follows the colon, whatever that is. */
  lemma HeaderLineVerdict(core: Core, line: string)
    requires core.state.AtHeaders? && line != ""
    ensures var q := TakeLine(core, line);
            if |line| > 8192 || |core.request.headers| >= 100 then
              q == core.(state := AtFinish, request := core.request.(error := HeaderTooLarge))
            else if ':' !in line then
              q == core.(state := AtFinish, request := core.request.(error := BadRequest))
            else
              forall name: string, c: char, value: string | ':' !in name && line == name + ([':', c] + value) ::
                q == core.(request := core.request.AddHeader(name, value))
  {
    hide Find, Lower, TrimLeft;
    if ':' !in line {
      NoColon(line);
    }
    forall name: string, c: char, value: string | ':' !in name && line == name + ([':', c] + value)
      ensures Find(line, ":", 0) == Some(|name|) && line[..|name|] == name && line[|name| + 2..] == value
    {
      FirstColon(name, c, value);
    }
  }

  lemma NoColon(line: string)
    requires ':' !in line
    ensures Find(line, ":", 0).None?
  {
    hide Find;
    forall j: nat
      ensures !OccursAt(line, ":", j)
    {
      if j < |line| {
        ColonAt(line, j);
      }
    }
    NoneIsFound(line, ":", 0);
  }

  lemma FirstColon(name: string, c: char, value: string)
    requires ':' !in name
    ensures var line := name + ([':', c] + value);
            Find(line, ":", 0) == Some(|name|) && line[..|name|] == name && line[|name| + 2..] == value
  {
    hide Find;
    var line := name + ([':', c] + value);
    assert line[..|name|] == name;
    ColonAt(line, |name|);
    FirstIsFound(line, ":", 0, |name|);
  }

  /** Behind good lines, a bad one refuses the request as it stands; what follows is read as the next one. */
  lemma BadHeaderIsRefused(fs: FileSystem, m: Message, line: string, ms: seq<Message>, k: Carry, events: seq<Event>)
    requires GoodHead(m) && '\r' !in line && line != "" && forall e | e in ms :: WellFormed(e)
    requires |line| > 8192 || |Received(m, []).headers| >= 100 || ':' !in line
    ensures var error := if |line| > 8192 || |Received(m, []).headers| >= 100 then HeaderTooLarge else BadRequest;
            var q := Run(fs, Conn(OpenHead(m, line + (LINE_END + EncodeAll(ms))), Ready(k, events)));
            && q.input == "" && q.core.state.AtRequestLine?
            && q.core.events
               == events + [Handled(Received(m, k.savedFiles).(error := error), "", [])] + AllEvents(fs, ms, k)
  {
    hide Find, EncodeAll, WellFormed, AllEvents, Step, TakeLine, OpenHead, GoodHead, HeaderMap;
    var text := line + (LINE_END + EncodeAll(ms));
    var head := WithHeaders(m, k, events);
    LinesAreRead(fs, m, k, events, text);
    HeaderLineVerdict(head, line);
    StepTakesLine(fs, line, EncodeAll(ms), head);
    OneStep(fs, Conn(text, head), Conn(EncodeAll(ms), TakeLine(head, line)));
    var failed := TakeLine(head, line);
    PipelineGoesOn(fs, failed, ms, k, events, failed.request.error);
  }

  // ---------- the blank line ----------

  /** A length that is no number below 2^64 is refused with 400, one of more than 2^30 with 413: at once,
      without a 100-continue, and without skipping the body: what follows is read as the next request. */
  lemma BadLengthIsRefused(fs: FileSystem, m: Message, ms: seq<Message>, k: Carry, events: seq<Event>)
    requires GoodHead(m) && HasBody(m) && forall e | e in ms :: WellFormed(e)
    requires var n := Stoul(Received(m, []).GetHeader("Content-Length")); n.None? || n.value > 1073741824
    ensures var n := Stoul(Received(m, []).GetHeader("Content-Length"));
            var error := if n.None? then BadRequest else PayloadTooLarge;
            var q := Run(fs, Conn(EncodeHead(m, EncodeAll(ms)), Ready(k, events)));
            && q.input == "" && q.core.state.AtRequestLine?
            && q.core.events
               == events + [Handled(Received(m, k.savedFiles).(error := error), "", [])] + AllEvents(fs, ms, k)
  {
    hide Find, EncodeAll, WellFormed, AllEvents, Step, TakeLine, OpenHead, GoodHead, HeaderMap, Stoul, Lower;
    var text := LINE_END + EncodeAll(ms);
    var head := WithHeaders(m, k, events);
    LinesAreRead(fs, m, k, events, text);
    assert EncodeHead(m, EncodeAll(ms)) == OpenHead(m, text) by { BlankLineEndsHead(m, EncodeAll(ms)); }
    assert "" + text == text;
    StepTakesLine(fs, "", EncodeAll(ms), head);
    OneStep(fs, Conn(text, head), Conn(EncodeAll(ms), TakeLine(head, "")));
    LengthIsRefused(m, k, events);
    PipelineGoesOn(fs, TakeLine(head, ""), ms, k, events, TakeLine(head, "").request.error);
  }

  lemma BlankLineEndsHead(m: Message, text: string)
    ensures EncodeHead(m, text) == OpenHead(m, LINE_END + text)
  {
  }

  lemma LengthIsRefused(m: Message, k: Carry, events: seq<Event>)
    requires HasBody(m)
    requires var n := Stoul(Received(m, []).GetHeader("Content-Length")); n.None? || n.value > 1073741824
    ensures var n := Stoul(Received(m, []).GetHeader("Content-Length"));
            var q := TakeLine(WithHeaders(m, k, events), "");
            var error := if n.None? then BadRequest else PayloadTooLarge;
            Refuses(q, k, events, error) && q.request == Received(m, k.savedFiles).(error := error)
  {
    hide HeaderMap, Stoul, Lower, BoundaryOf;
  }

  /** The value of the last line of that name. */
  ghost predicate HasValue(m: Message, name: string, value: string) {
    exists i: nat :: IsLastField(m.fields, i, name) && IsTrimmed(m.fields[i].value, value)
  }

  lemma FirstOfTrimmed(value: string, rest: string)
    requires IsTrimmed(value, rest)
    ensures rest != "" ==> rest[0] == value[|value| - |rest|]
  {
  }

  lemma OneTrimming(value: string, a: string, b: string)
    requires IsTrimmed(value, a) && IsTrimmed(value, b)
    ensures a == b
  {
    FirstOfTrimmed(value, a);
    FirstOfTrimmed(value, b);
  }

  /** The request received has a header with a value exactly when its last line of that name has it. */
  lemma ValueIsReceived(m: Message, files: seq<string>, name: string, value: string)
    ensures var r := Received(m, files); HasValue(m, name, value) <==> r.HasHeader(name) && r.GetHeader(name) == value
  {
    hide IsTrimmed, SameName, Lower;
    LastFieldWins(m, files, name);
    forall i: nat | IsLastField(m.fields, i, name)
      ensures IsTrimmed(m.fields[i].value, value) <==> value == Received(m, files).GetHeader(name)
    {
      if IsTrimmed(m.fields[i].value, value) {
        OneTrimming(m.fields[i].value, value, Received(m, files).GetHeader(name));
      }
    }
  }

  /** Exactly which requests are answered with 100 Continue: those that announce a body and expect it, in
      these very words. The answer comes before the request is handled. */
  lemma ContinueIsAnsweredIff(fs: FileSystem, m: Message, k: Carry)
    ensures Continue100 in EventsOf(fs, m, k) <==>
            (exists n :: HasValue(m, "Content-Length", n)) && HasValue(m, "Expect", "100-continue")
    ensures EventsOf(fs, m, k)[|EventsOf(fs, m, k)| - 1] == HandledOf(fs, m, k) && |EventsOf(fs, m, k)| <= 2
  {
    hide UploadOf, HasValue;
    IsHandling(fs, m, k);
    ValueIsReceived(m, [], "Expect", "100-continue");
    ValueIsReceived(m, [], "Content-Length", Received(m, []).GetHeader("Content-Length"));
    forall n | HasValue(m, "Content-Length", n)
      ensures HasBody(m)
    {
      ValueIsReceived(m, [], "Content-Length", n);
    }
  }

  /** A content type that mentions multipart/form-data, and a boundary, which is everything behind the first
      `boundary=`. */
  ghost predicate NamesBoundary(ct: string, boundary: string) {
    && (exists p: nat :: FirstFrom(ct, "boundary=", 0, p) && ct[p + 9..] == boundary)
    && exists j: nat :: OccursAt(ct, "multipart/form-data", j)
  }

  lemma BoundaryIsRead(r: Request, boundary: string)
    requires r.HasHeader("Content-Type")
    ensures BoundaryOf(r) == Some(boundary) <==> NamesBoundary(r.GetHeader("Content-Type"), boundary)
  {
    hide Find, Lower;
    var ct := r.GetHeader("Content-Type");
    FindIsFirst(ct, "multipart/form-data", 0);
    if NamesBoundary(ct, boundary) {
      var p: nat :| FirstFrom(ct, "boundary=", 0, p) && ct[p + 9..] == boundary;
      FoundIff(ct, "boundary=", 0, p);
    }
    if BoundaryOf(r) == Some(boundary) {
      FoundIff(ct, "boundary=", 0, Find(ct, "boundary=", 0).value);
    }
  }

  /** Exactly which requests are uploads: those that announce a body and whose content type names a boundary. */
  lemma IsUploadIff(m: Message, boundary: string)
    ensures HasBody(m) && BoundaryOf(Received(m, [])) == Some(boundary) <==>
            (exists n :: HasValue(m, "Content-Length", n)) &&
            exists ct :: HasValue(m, "Content-Type", ct) && NamesBoundary(ct, boundary)
  {
    hide Find, HasValue, NamesBoundary, HeaderMap, Lower;
    var r := Received(m, []);
    ValueIsReceived(m, [], "Content-Length", r.GetHeader("Content-Length"));
    ValueIsReceived(m, [], "Content-Type", r.GetHeader("Content-Type"));
    if r.HasHeader("Content-Type") {
      BoundaryIsRead(r, boundary);
    }
    forall n | HasValue(m, "Content-Length", n)
      ensures HasBody(m)
    {
      ValueIsReceived(m, [], "Content-Length", n);
    }
    forall t | HasValue(m, "Content-Type", t)
      ensures t == r.GetHeader("Content-Type") && r.HasHeader("Content-Type")
    {
      ValueIsReceived(m, [], "Content-Type", t);
    }
  }

  /** It happens: without a blank behind the colon the first character of the value is lost. A request that
      announces five bytes in this way is refused with 400. */
  lemma ColonWithoutBlank(core: Core)
    requires core.state.AtHeaders? && |core.request.headers| < 100
    ensures TakeLine(core, "Content-Length:5") == core.(request := core.request.AddHeader("Content-Length", ""))
    ensures Stoul("").None?
  {
    HeaderLineVerdict(core, "Content-Length:5");
    var name := "Content-Length";
    assert "Content-Length:5" == name + ([':', '5'] + "");
  }
}
