/** How the HTTP parser depends on where the stream is cut into deliveries. */
module HttpCuts {
  import opened Wrappers
  import opened Bytes
  import opened HttpRequest
  import opened HttpFramer
  import MS = MultipartStream
  import MC = MultipartCuts

  // ---------- equality up to a finished upload's epilogue ----------

  predicate SameUpload(m: Option<Multipart>, n: Option<Multipart>) {
    m == n ||
    (m.Some? && n.Some? && m.value.delimiter == n.value.delimiter && m.value.fed == n.value.fed &&
     MC.Same(m.value.parser, n.value.parser))
  }

  predicate SameCore(c: Core, d: Core) {
    c.(multipart := None) == d.(multipart := None) && SameUpload(c.multipart, d.multipart)
  }

  predicate SameConn(c: Conn, d: Conn) {
    c.input == d.input && SameCore(c.core, d.core)
  }

  lemma SameAfterData(cfg: MS.Config, p: MS.Parser, q: MS.Parser, data: string)
    requires MC.Same(p, q)
    ensures MC.Same(MS.OnData(cfg, p, data), MS.OnData(cfg, q, data))
    ensures MC.Same(MS.Finish(p), MS.Finish(q))
  {
    if p.phase.Done? && q.phase.Done? {
      assert MS.OnData(cfg, p, data) == p.Feed(data);
      assert MS.OnData(cfg, q, data) == q.Feed(data);
    }
  }

  lemma SameBody(fs: FileSystem, c: Core, d: Core, data: string)
    requires SameCore(c, d)
    ensures SameCore(TakeBody(fs, c, data), TakeBody(fs, d, data))
    ensures SameCore(EndBody(c), EndBody(d))
  {
    hide MS.OnData, MS.Finish, MC.Same;
    if c.multipart.Some? {
      assert MC.Same(c.multipart.value.parser, d.multipart.value.parser) by {
        SameIsReflexive(c.multipart.value.parser);
      }
      var delimiter := c.multipart.value.delimiter;
      SameAfterData(ConfigOf(fs, delimiter), c.multipart.value.parser, d.multipart.value.parser, data);
    }
  }

  lemma SameIsReflexive(p: MS.Parser)
    ensures MC.Same(p, p)
  {
  }

  lemma SameStep(fs: FileSystem, c: Conn, d: Conn)
    requires SameConn(c, d) && Accounted(c.core)
    ensures Step(fs, c).Halt? == Step(fs, d).Halt?
    ensures SameConn(Step(fs, c).c, Step(fs, d).c)
  {
    hide Find, TakeLine, TakeBody, EndBody, MS.OnData;
    match c.core.state
    case AtBody =>
      var need := Need(c.core);
      var data := if |c.input| >= need then c.input[..need] else c.input;
      SameBody(fs, c.core, d.core, data);
      SameBody(fs, TakeBody(fs, c.core, data), TakeBody(fs, d.core, data), "");
    case AtFinish =>
    case Thrown =>
    case _ => assert c.core.multipart.None? && c == d;
  }

  lemma {:induction false} SameRun(fs: FileSystem, c: Conn, d: Conn)
    requires SameConn(c, d) && Accounted(c.core)
    ensures SameConn(Run(fs, c), Run(fs, d))
    decreases |c.input|, Rank(c.core.state)
  {
    hide Step, SameConn, Accounted;
    SameStep(fs, c, d);
    if Step(fs, c).Go? {
      StepIsAccounted(fs, c);
      SameRun(fs, Step(fs, c).c, Step(fs, d).c);
    }
  }

  // ---------- bytes that have not arrived ----------

  lemma StepIsLocal(fs: FileSystem, c: Conn, b: string)
    requires Step(fs, c).Go?
    ensures Step(fs, c.Feed(b)) == Go(Step(fs, c).c.Feed(b))
  {
    hide Find, TakeLine, TakeBody, EndBody, HandleRequest;
    match c.core.state
    case AtBody =>
      var need := Need(c.core);
      assert (c.input + b)[..need] == c.input[..need];
      assert (c.input + b)[need..] == c.input[need..] + b;
    case AtFinish =>
    case Thrown =>
    case _ =>
      FindStable(c.input, b, "\r\n", 0);
      var n := Find(c.input, "\r\n", 0).value;
      assert (c.input + b)[..n] == c.input[..n];
      assert (c.input + b)[n + 2..] == c.input[n + 2..] + b;
  }

  lemma {:induction false} SettleIsLocal(fs: FileSystem, c: Conn, b: string)
    ensures Settle(fs, c.Feed(b)) == Settle(fs, Settle(fs, c).Feed(b))
    decreases |c.input|, Rank(c.core.state)
  {
    hide Step;
    if Step(fs, c).Go? {
      StepIsLocal(fs, c, b);
      SettleIsLocal(fs, Step(fs, c).c, b);
    }
  }

  // ---------- cuts inside an upload ----------

  /** The call returns in the middle of an upload. */
  predicate InUpload(s: Conn) {
    s.core.state.AtBody? && s.core.multipart.Some? && |s.input| < Need(s.core)
  }

  function UploadConfig(fs: FileSystem, s: Conn): MS.Config
    requires s.core.multipart.Some?
  {
    ConfigOf(fs, s.core.multipart.value.delimiter)
  }

  /** What of `b` still belongs to the body of which `input` is the next stretch. */
  function Share(s: Conn, b: string): string
    requires |s.input| < Need(s.core)
  {
    if |b| <= Need(s.core) - |s.input| then b else b[..Need(s.core) - |s.input|]
  }

  /** The upload parser at the loop head at which its last call returns. */
  function UploadHead(fs: FileSystem, s: Conn): MS.Parser
    requires s.core.multipart.Some?
  {
    MS.Settle(UploadConfig(fs, s), s.core.multipart.value.parser.Feed(s.input))
  }

  /** The call returns in the middle of an upload, just after its parser has forgotten a delimiter,
      and the body goes on beyond the two bytes that follow it. */
  predicate ForgetsMidBody(fs: FileSystem, s: Conn) {
    InUpload(s) && MC.ForgetsDelimiter(UploadConfig(fs, s), UploadHead(fs, s)) &&
    |Pending(fs, s)| + Need(s.core) - |s.input| > 2
  }

  /** The zero or one bytes seen after that delimiter. */
  function Pending(fs: FileSystem, s: Conn): string
    requires InUpload(s) && MC.ForgetsDelimiter(UploadConfig(fs, s), UploadHead(fs, s))
  {
    MC.Trailer(UploadConfig(fs, s), UploadHead(fs, s))
  }

  /** The cut between `a` and `b` loses a delimiter of an upload. */
  predicate LosesDelimiter(fs: FileSystem, c: Conn, a: string, b: string) {
    var s := Settle(fs, c.Feed(a));
    ForgetsMidBody(fs, s) &&
    var pending := Pending(fs, s) + Share(s, b);
    |pending| >= 2 && MC.Meaningful(pending[..2])
  }

  lemma BodyInTwo(fs: FileSystem, core: Core, x: string, y: string)
    requires core.multipart.Some? ==>
               var m := core.multipart.value; !MC.LosesDelimiter(ConfigOf(fs, m.delimiter), m.parser, x, y)
    ensures SameCore(TakeBody(fs, TakeBody(fs, core, x), y), TakeBody(fs, core, x + y))
  {
    hide MS.OnData, MC.Same, MC.LosesDelimiter;
    if core.multipart.Some? {
      var m := core.multipart.value;
      MC.FeedInTwo(ConfigOf(fs, m.delimiter), m.parser, x, y);
      assert m.fed + x + y == m.fed + (x + y);
    }
  }

  /** At the very end of the body a forgotten delimiter does no harm. */
  lemma BodyEndsInTwo(fs: FileSystem, core: Core, x: string, y: string)
    requires Accounted(core) && core.multipart.Some?
    requires var m := core.multipart.value;
             var cfg := ConfigOf(fs, m.delimiter);
             var s := MS.Settle(cfg, m.parser.Feed(x));
             MC.ForgetsDelimiter(cfg, s) && |MC.Trailer(cfg, s) + y| == 2
    ensures SameCore(EndBody(TakeBody(fs, TakeBody(fs, core, x), y)), EndBody(TakeBody(fs, core, x + y)))
  {
    hide MS.OnData, MS.Finish, MC.Same, MS.Disciplined, MS.Settle;
    var m := core.multipart.value;
    MC.ForgottenAtTheEnd(ConfigOf(fs, m.delimiter), m.parser, x, y);
    assert m.fed + x + y == m.fed + (x + y);
  }

  /** The body of `s` up to its end or to the end of `b`, fed in two calls and in one. */
  lemma ShareInTwo(fs: FileSystem, s: Conn, b: string)
    requires Accounted(s.core) && s.core.state.AtBody? && |s.input| < Need(s.core)
    requires ForgetsMidBody(fs, s) ==>
               var pending := Pending(fs, s) + Share(s, b);
               |pending| < 2 || !MC.Meaningful(pending[..2])
    ensures var two := TakeBody(fs, TakeBody(fs, s.core, s.input), Share(s, b));
            var one := TakeBody(fs, s.core, s.input + Share(s, b));
            if |b| < Need(s.core) - |s.input| then SameCore(two, one) else SameCore(EndBody(two), EndBody(one))
  {
    hide TakeBody, EndBody, SameCore, MC.Meaningful, MC.ForgetsDelimiter, MS.Settle, Accounted;
    var y := Share(s, b);
    if s.core.multipart.Some? &&
       MC.LosesDelimiter(UploadConfig(fs, s), s.core.multipart.value.parser, s.input, y) {
      BodyEndsInTwo(fs, s.core, s.input, y);
    } else {
      BodyInTwo(fs, s.core, s.input, y);
      SameBody(fs, TakeBody(fs, TakeBody(fs, s.core, s.input), y), TakeBody(fs, s.core, s.input + y), "");
    }
  }

  lemma ResumeInBody(fs: FileSystem, s: Conn, b: string)
    requires Accounted(s.core) && s.core.state.AtBody? && |s.input| < Need(s.core)
    requires ForgetsMidBody(fs, s) ==>
               var pending := Pending(fs, s) + Share(s, b);
               |pending| < 2 || !MC.Meaningful(pending[..2])
    ensures SameConn(OnMessage(fs, Step(fs, s).c, b), Run(fs, s.Feed(b)))
  {
    hide TakeBody, EndBody, SameCore, ForgetsMidBody, Accounted, MC.Meaningful;
    var rem := Need(s.core) - |s.input|;
    var y := Share(s, b);
    var left, right := Conn(b, TakeBody(fs, s.core, s.input)), s.Feed(b);
    assert "" + b == b;
    assert Need(left.core) == rem by { NeedAfterBody(fs, s.core, s.input); }
    assert left.core.state.AtBody? by { NeedAfterBody(fs, s.core, s.input); }
    ShareInTwo(fs, s, b);
    if |b| >= rem {
      assert b[..rem] == y;
      assert (s.input + b)[..Need(s.core)] == s.input + y;
      assert (s.input + b)[Need(s.core)..] == b[rem..];
      var two := Conn(b[rem..], EndBody(TakeBody(fs, left.core, y)));
      var one := Conn(b[rem..], EndBody(TakeBody(fs, s.core, s.input + y)));
      assert Step(fs, left) == Go(two) && Step(fs, right) == Go(one);
      assert Accounted(two.core) by {
        StepIsAccounted(fs, s);
        StepIsAccounted(fs, left);
      }
      SameRun(fs, two, one);
    }
  }

  lemma HaltsUnchanged(fs: FileSystem, s: Conn)
    requires Step(fs, s).Halt? && !s.core.state.AtBody?
    ensures Step(fs, s).c == s
  {
  }

  lemma NeedAfterBody(fs: FileSystem, core: Core, data: string)
    requires |data| <= Need(core)
    ensures Need(TakeBody(fs, core, data)) == Need(core) - |data|
    ensures TakeBody(fs, core, data).state == core.state
  {
  }

  /** Segmentation independence: two deliveries and one leave the same connection, having handled
      the same requests, unless the cut loses a delimiter in the middle of an upload. */
  lemma DeliverInTwo(fs: FileSystem, c: Conn, a: string, b: string)
    requires Accounted(c.core)
    requires !LosesDelimiter(fs, c, a, b)
    ensures SameConn(OnMessage(fs, OnMessage(fs, c, a), b), OnMessage(fs, c, a + b))
  {
    hide Accounted, SameConn, ForgetsMidBody, StepLine, StepFinish, MC.Meaningful;
    var s := Settle(fs, c.Feed(a));
    assert c.Feed(a).Feed(b) == c.Feed(a + b) by {
      assert c.input + a + b == c.input + (a + b);
    }
    SettleIsLocal(fs, c.Feed(a), b);
    SettleIsAccounted(fs, c.Feed(a));
    assert Run(fs, s.Feed(b)) == OnMessage(fs, c, a + b);
    if s.core.state.AtBody? {
      ResumeInBody(fs, s, b);
    } else {
      assert Step(fs, s).c == s by { HaltsUnchanged(fs, s); }
      SameConnIsReflexive(OnMessage(fs, s, b));
    }
  }

  lemma SameConnIsReflexive(c: Conn)
    ensures SameConn(c, c)
  {
  }

  // ---------- which cuts are safe ----------

  /** `a` does not end where an upload forgets a delimiter whose trailer may still matter. */
  predicate SafeCut(fs: FileSystem, c: Conn, a: string) {
    var s := Settle(fs, c.Feed(a));
    ForgetsMidBody(fs, s) ==> Pending(fs, s) !in ["", "-", "\r"]
  }

  lemma SafeCutLosesNothing(fs: FileSystem, c: Conn, a: string, b: string)
    requires SafeCut(fs, c, a)
    ensures !LosesDelimiter(fs, c, a, b)
  {
    hide MC.Meaningful, MC.ForgetsDelimiter;
    var s := Settle(fs, c.Feed(a));
    if ForgetsMidBody(fs, s) && |Pending(fs, s) + Share(s, b)| >= 2 {
      MC.MeaningfulStart(Pending(fs, s), Share(s, b));
    }
  }

  /** An unsafe cut shows: the upload parser ends up in different states. */
  lemma UnsafeCutShows(fs: FileSystem, c: Conn, a: string)
    requires Accounted(c.core) && !SafeCut(fs, c, a)
    ensures var b := MC.Completion(Pending(fs, Settle(fs, c.Feed(a))));
            !SameConn(OnMessage(fs, OnMessage(fs, c, a), b), OnMessage(fs, c, a + b))
  {
    hide Accounted, StepLine, StepFinish, MC.ForgetsDelimiter, MC.Completion, MS.OnData;
    var s := Settle(fs, c.Feed(a));
    var cfg, p := UploadConfig(fs, s), s.core.multipart.value.parser;
    var b := MC.Completion(Pending(fs, s));
    assert c.Feed(a).Feed(b) == c.Feed(a + b) by {
      assert c.input + a + b == c.input + (a + b);
    }
    SettleIsLocal(fs, c.Feed(a), b);
    assert |b| == 2 - |Pending(fs, s)| by { CompletionLength(Pending(fs, s)); }
    MC.UnsafeCutShows(cfg, p, s.input);
    var core := TakeBody(fs, s.core, s.input);
    assert "" + b == b;
    assert OnMessage(fs, OnMessage(fs, c, a), b) == Conn("", TakeBody(fs, core, b));
    assert OnMessage(fs, c, a + b) == Conn("", TakeBody(fs, s.core, s.input + b));
  }

  lemma CompletionLength(r: string)
    requires |r| < 2 && r in ["", "-", "\r"]
    ensures |MC.Completion(r)| == 2 - |r|
  {
  }

  /** Exactly when a cut after `a` is invisible, whatever follows. */
  lemma CutIsSafeIff(fs: FileSystem, c: Conn, a: string)
    requires Accounted(c.core)
    ensures SafeCut(fs, c, a) <==>
            forall b: string :: SameConn(OnMessage(fs, OnMessage(fs, c, a), b), OnMessage(fs, c, a + b))
  {
    hide SameConn, OnMessage, Settle;
    if SafeCut(fs, c, a) {
      forall b: string
        ensures SameConn(OnMessage(fs, OnMessage(fs, c, a), b), OnMessage(fs, c, a + b))
      {
        SafeCutLosesNothing(fs, c, a, b);
        DeliverInTwo(fs, c, a, b);
      }
    } else {
      UnsafeCutShows(fs, c, a);
    }
  }

  // ---------- many cuts ----------

  predicate AllowedCuts(fs: FileSystem, c: Conn, chunks: seq<string>)
    decreases |chunks|
  {
    |chunks| <= 1 ||
    (!LosesDelimiter(fs, c, chunks[0], MC.Concat(chunks[1..])) &&
     AllowedCuts(fs, OnMessage(fs, c, chunks[0]), chunks[1..]))
  }

  lemma SameConnIsTransitive(c: Conn, d: Conn, e: Conn)
    requires SameConn(c, d) && SameConn(d, e)
    ensures SameConn(c, e)
  {
  }

  /** Any allowed way of cutting the stream leaves the same connection. */
  lemma {:induction false} DeliverInChunks(fs: FileSystem, c: Conn, chunks: seq<string>)
    requires Accounted(c.core) && chunks != [] && AllowedCuts(fs, c, chunks)
    ensures SameConn(OnMessages(fs, c, chunks), OnMessage(fs, c, MC.Concat(chunks)))
    decreases |chunks|
  {
    hide SameConn, OnMessage, Accounted, LosesDelimiter;
    if |chunks| == 1 {
      assert MC.Concat(chunks) == chunks[0];
      SameConnIsReflexive(OnMessage(fs, c, chunks[0]));
    } else {
      var rest := MC.Concat(chunks[1..]);
      var first := OnMessage(fs, c, chunks[0]);
      MessagesAreAccounted(fs, c, chunks[0]);
      DeliverInChunks(fs, first, chunks[1..]);
      DeliverInTwo(fs, c, chunks[0], rest);
      SameConnIsTransitive(OnMessages(fs, c, chunks), OnMessage(fs, first, rest), OnMessage(fs, c, MC.Concat(chunks)));
    }
  }

  // ---------- streams without uploads ----------

  const UPLOAD_TYPE: string := "multipart/form-data"

  predicate Mentions(text: string) {
    Find(text, UPLOAD_TYPE, 0).Some?
  }

  /** Neither the headers so far nor the bytes still to come mention an upload. */
  predicate NoUploads(core: Core, stream: string) {
    core.multipart.None? && !Mentions(stream) &&
    forall k | k in core.request.headers :: !Mentions(core.request.headers[k])
  }

  lemma OccursInPart(text: string, p: string, i: nat, j: nat, k: nat)
    requires i <= j <= |text| && OccursAt(text[i..j], p, k)
    ensures OccursAt(text, p, i + k)
  {
    hide OccursAt;
    PartOf(text, i, j);
    OccursInSuffix(text[..j], i, p, i + k);
    InPart(text[i..j], p, k);
    OccursInPrefix(text[..j], text[j..], p, i + k);
  }

  lemma PartOf(text: string, i: nat, j: nat)
    requires i <= j <= |text|
    ensures text[..j][i..] == text[i..j] && text[..j] + text[j..] == text
  {
  }

  lemma InPart(text: string, p: string, k: nat)
    requires OccursAt(text, p, k)
    ensures k + |p| <= |text|
  {
  }

  lemma RestOfSum(a: string, b: string, n: nat)
    requires n <= |a|
    ensures (a + b)[n..|a + b|] == a[n..] + b && (a + b)[0..n] == a[..n]
  {
  }

  lemma PartMentionsNothing(text: string, i: nat, j: nat)
    requires i <= j <= |text| && !Mentions(text)
    ensures !Mentions(text[i..j])
  {
    hide Find;
    FindIsFirst(text, UPLOAD_TYPE, 0);
    FindIsFirst(text[i..j], UPLOAD_TYPE, 0);
    if Mentions(text[i..j]) {
      OccursInPart(text, UPLOAD_TYPE, i, j, Find(text[i..j], UPLOAD_TYPE, 0).value);
    }
  }

  lemma {:induction false} TrimMentionsNothing(value: string)
    requires !Mentions(value)
    ensures !Mentions(TrimLeft(value))
  {
    hide Mentions;
    if value != [] && (value[0] == ' ' || value[0] == '\t') {
      PartMentionsNothing(value, 1, |value|);
      assert value[1..|value|] == value[1..];
      TrimMentionsNothing(value[1..]);
    }
  }

  lemma LineStartsNoUpload(core: Core, line: string, rest: string)
    requires NoUploads(core, line) && !Mentions(rest)
    ensures NoUploads(TakeLine(core, line), rest)
  {
    hide Mentions, Find, Stoul, Lower, TrimLeft, SkipSpaces, Word, BoundaryOf;
    NoBoundary(core.request);
    var colon := Find(line, ":", 0);
    if colon.Some? && colon.value + 2 <= |line| {
      PartMentionsNothing(line, colon.value + 2, |line|);
      assert line[colon.value + 2..|line|] == line[colon.value + 2..];
      TrimMentionsNothing(line[colon.value + 2..]);
    }
  }

  lemma NoBoundary(r: Request)
    requires forall k | k in r.headers :: !Mentions(r.headers[k])
    ensures BoundaryOf(r) == None
  {
    hide Find;
  }

  lemma StepStartsNoUpload(fs: FileSystem, c: Conn, future: string)
    requires NoUploads(c.core, c.input + future)
    ensures var q := Step(fs, c).c; NoUploads(q.core, q.input + future)
  {
    hide Mentions, Find, TakeLine;
    var text := c.input + future;
    match c.core.state
    case AtBody =>
      var n := if |c.input| >= Need(c.core) then Need(c.core) else |c.input|;
      PartMentionsNothing(text, n, |text|);
      RestOfSum(c.input, future, n);
      assert c.input[|c.input|..] == "";
    case AtFinish =>
    case Thrown =>
    case _ =>
      if Find(c.input, "\r\n", 0).Some? {
        var n := Find(c.input, "\r\n", 0).value;
        PartMentionsNothing(text, 0, n);
        PartMentionsNothing(text, n + 2, |text|);
        RestOfSum(c.input, future, n);
        RestOfSum(c.input, future, n + 2);
        LineStartsNoUpload(c.core, c.input[..n], c.input[n + 2..] + future);
      }
  }

  lemma {:induction false} SettleStartsNoUpload(fs: FileSystem, c: Conn, future: string)
    requires NoUploads(c.core, c.input + future)
    ensures var s := Settle(fs, c); NoUploads(s.core, s.input + future)
    decreases |c.input|, Rank(c.core.state)
  {
    hide NoUploads;
    StepStartsNoUpload(fs, c, future);
    if Step(fs, c).Go? {
      SettleStartsNoUpload(fs, Step(fs, c).c, future);
    }
  }

  /** A stream that never mentions multipart/form-data may be cut anywhere. */
  lemma {:induction false} CutsWithoutUploads(fs: FileSystem, c: Conn, chunks: seq<string>)
    requires NoUploads(c.core, c.input + MC.Concat(chunks))
    ensures AllowedCuts(fs, c, chunks)
    decreases |chunks|
  {
    hide Mentions;
    if |chunks| > 1 {
      var rest := MC.Concat(chunks[1..]);
      assert c.input + MC.Concat(chunks) == c.Feed(chunks[0]).input + rest;
      SettleStartsNoUpload(fs, c.Feed(chunks[0]), rest);
      StepStartsNoUpload(fs, Settle(fs, c.Feed(chunks[0])), rest);
      CutsWithoutUploads(fs, OnMessage(fs, c, chunks[0]), chunks[1..]);
    }
  }
}
