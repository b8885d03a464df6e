/** How the streaming parser depends on where its input is cut into calls. */
module MultipartCuts {
  import opened Wrappers
  import opened Bytes
  import opened MultipartStream

  /** Feeding a list of chunks one after the other. */
  function OnChunks(cfg: Config, p: Parser, chunks: seq<string>): Parser
    decreases |chunks|
  {
    if chunks == [] then p else OnChunks(cfg, OnData(cfg, p, chunks[0]), chunks[1..])
  }

  // ---------- cutting the input ----------

  /** Equal up to the epilogue bytes that a finished parser keeps in its buffer. */
  predicate Same(p: Parser, q: Parser) {
    p == q || (p.phase.Done? && q.phase.Done? && p.(buffer := "") == q.(buffer := ""))
  }

  /** A loop head that is about to forget a delimiter: fewer than two bytes follow it, and the
      call returns with only those bytes held back. */
  predicate ForgetsDelimiter(cfg: Config, s: Parser) {
    s.phase.ScanBoundary? &&
    match Find(s.buffer, cfg.delimiter, 0)
    case None => false
    case Some(pos) => |s.buffer| < pos + |cfg.delimiter| + 2
  }

  /** The zero or one bytes after the delimiter that is being forgotten. */
  function Trailer(cfg: Config, s: Parser): (r: string)
    requires ForgetsDelimiter(cfg, s)
    ensures |r| < 2
  {
    s.buffer[Find(s.buffer, cfg.delimiter, 0).value + |cfg.delimiter|..]
  }

  predicate Meaningful(trailer: string) {
    trailer == "--" || trailer == CRLF
  }

  /** Cutting between `a` and `b` loses a delimiter: `a` ends inside its two trailer bytes and
      `b` completes them to CRLF or `--`. */
  predicate LosesDelimiter(cfg: Config, p: Parser, a: string, b: string) {
    var s := Settle(cfg, p.Feed(a));
    ForgetsDelimiter(cfg, s) &&
    var pending := Trailer(cfg, s) + b;
    |pending| >= 2 && Meaningful(pending[..2])
  }

  lemma ScanIsLocal(cfg: Config, p: Parser, b: string)
    requires Find(p.buffer, cfg.delimiter, 0).Some?
    requires |p.buffer| >= Find(p.buffer, cfg.delimiter, 0).value + |cfg.delimiter| + 2
    ensures StepScan(cfg, p.Feed(b)) == match StepScan(cfg, p)
                                        case Go(q) => Go(q.Feed(b))
                                        case Halt(q) => Halt(q)
  {
    var delim := cfg.delimiter;
    FindStable(p.buffer, b, delim, 0);
    var k := Find(p.buffer, delim, 0).value + |delim|;
    var rest := p.buffer[k..];
    assert (p.buffer + b)[k..] == rest + b;
    assert (rest + b)[..2] == rest[..2];
    assert (rest + b)[2..] == rest[2..] + b;
  }

  lemma HeadersAreLocal(cfg: Config, p: Parser, b: string)
    requires StepHeaders(cfg, p).Go?
    ensures StepHeaders(cfg, p.Feed(b)) == Go(StepHeaders(cfg, p).p.Feed(b))
  {
    FindStable(p.buffer, b, BLANK_LINE, 0);
    var pos := Find(p.buffer, BLANK_LINE, 0).value;
    assert (p.buffer + b)[..pos] == p.buffer[..pos];
    assert (p.buffer + b)[pos + 4..] == p.buffer[pos + 4..] + b;
  }

  lemma DataIsLocal(cfg: Config, p: Parser, b: string)
    requires StepData(cfg, p).Go?
    ensures StepData(cfg, p.Feed(b)) == Go(StepData(cfg, p).p.Feed(b))
  {
    FindStable(p.buffer, b, cfg.delimiter, 0);
    var pos := Find(p.buffer, cfg.delimiter, 0).value;
    var dataLen := if pos >= 2 then pos - 2 else 0;
    assert (p.buffer + b)[..dataLen] == p.buffer[..dataLen];
    assert (p.buffer + b)[pos..] == p.buffer[pos..] + b;
  }

  /** A step that goes on does not look at bytes that have not arrived. */
  lemma StepIsLocal(cfg: Config, p: Parser, b: string)
    requires Step(cfg, p).Go?
    ensures Step(cfg, p.Feed(b)) == Go(Step(cfg, p).p.Feed(b))
  {
    match p.phase
    case ScanBoundary => ScanIsLocal(cfg, p, b);
    case ReadHeaders => HeadersAreLocal(cfg, p, b);
    case ReadData => DataIsLocal(cfg, p, b);
    case Done =>
  }

  lemma {:induction false} SettleIsLocal(cfg: Config, p: Parser, b: string)
    ensures Settle(cfg, p.Feed(b)) == Settle(cfg, Settle(cfg, p).Feed(b))
    decreases |p.buffer|, Rank(p)
  {
    match Step(cfg, p)
    case Halt(_) =>
    case Go(next) =>
      StepIsLocal(cfg, p, b);
      SettleIsLocal(cfg, next, b);
  }

  /** While scanning, the last |delimiter| bytes are all that can matter. */
  lemma ScanHoldsEnough(cfg: Config, s: Parser, b: string)
    requires Find(s.buffer, cfg.delimiter, 0).None?
    ensures StepScan(cfg, StepScan(cfg, s).p.Feed(b)) == StepScan(cfg, s.Feed(b))
  {
    hide Find;
    var size, held := |s.buffer|, |cfg.delimiter|;
    if size > held {
      ScanDropsSafely(cfg, s, size - held, b);
    }
  }

  lemma ScanDropsSafely(cfg: Config, s: Parser, drop: nat, b: string)
    requires Find(s.buffer, cfg.delimiter, 0).None?
    requires |s.buffer| == drop + |cfg.delimiter|
    ensures StepScan(cfg, s.(buffer := s.buffer[drop..] + b)) == StepScan(cfg, s.Feed(b))
  {
    hide Find;
    var tail := s.buffer[drop..] + b;
    FindAfterTrim(s.buffer, drop, b, cfg.delimiter);
    if Find(tail, cfg.delimiter, 0).None? {
      SplitAfter(s.buffer, b, drop, |tail| - |cfg.delimiter|);
    } else {
      ScanFoundAfterTrim(cfg, s, drop, b, Find(tail, cfg.delimiter, 0).value);
    }
  }

  lemma ScanFoundAfterTrim(cfg: Config, s: Parser, drop: nat, b: string, i: nat)
    requires drop <= |s.buffer| && Find(s.buffer[drop..] + b, cfg.delimiter, 0) == Some(i)
    requires Find(s.buffer + b, cfg.delimiter, 0) == Some(i + drop)
    ensures StepScan(cfg, s.(buffer := s.buffer[drop..] + b)) == StepScan(cfg, s.Feed(b))
  {
    hide Find;
    FindIsFirst(s.buffer[drop..] + b, cfg.delimiter, 0);
    SplitAfter(s.buffer, b, drop, i + |cfg.delimiter|);
    AfterIgnoresBuffer(s, s.(buffer := s.buffer[drop..] + b), (s.buffer[drop..] + b)[i + |cfg.delimiter|..]);
  }

  lemma AfterIgnoresBuffer(p: Parser, q: Parser, rest: string)
    requires p.(buffer := "") == q.(buffer := "")
    ensures AfterDelimiter(p, rest) == AfterDelimiter(q, rest)
  {
  }

  /** In part data the delimiter cannot start within two bytes of the held-back tail, so the CRLF
      in front of it has not been written out either. */
  lemma DelimiterIsDeep(cfg: Config, text: string, drop: nat, b: string)
    requires Find(text, cfg.delimiter, 0).None?
    requires |text| == drop + |cfg.delimiter| + 4
    requires Find(text[drop..] + b, cfg.delimiter, 0).Some?
    ensures Find(text[drop..] + b, cfg.delimiter, 0).value >= 2
  {
    var tail := text[drop..];
    var i := Find(tail + b, cfg.delimiter, 0).value;
    FindIsFirst(tail + b, cfg.delimiter, 0);
    FindIsFirst(text, cfg.delimiter, 0);
    if i < 2 {
      OccursInPrefix(tail, b, cfg.delimiter, i);
      OccursInSuffix(text, drop, cfg.delimiter, i + drop);
    }
  }

  lemma DataHoldsEnough(cfg: Config, s: Parser, b: string)
    requires s.phase.ReadData? && Find(s.buffer, cfg.delimiter, 0).None?
    ensures StepData(cfg, StepData(cfg, s).p.Feed(b)) == StepData(cfg, s.Feed(b))
  {
    var drop := Surplus(|s.buffer|, HeldBack(cfg, ReadData));
    var tail := s.buffer[drop..] + b;
    if drop > 0 {
      FindAfterTrim(s.buffer, drop, b, cfg.delimiter);
      if Find(tail, cfg.delimiter, 0).Some? {
        DelimiterIsDeep(cfg, s.buffer, drop, b);
      }
    }
    if Find(tail, cfg.delimiter, 0).Some? {
      DataFoundAfterTrim(cfg, s.buffer, s.work, drop, b, Find(tail, cfg.delimiter, 0).value);
    } else {
      DataHeldAfterTrim(cfg, s.buffer, s.work, drop, b);
    }
  }

  lemma DataHeldAfterTrim(cfg: Config, text: string, w: Work, drop: nat, b: string)
    requires drop == 0 || |text| >= drop + HeldBack(cfg, ReadData)
    requires drop <= |text| && Find(text[drop..] + b, cfg.delimiter, 0).None?
    requires Find(text + b, cfg.delimiter, 0).None?
    ensures StepData(cfg, Parser(ReadData, text[drop..] + b, w.Sink(text[..drop])))
         == StepData(cfg, Parser(ReadData, text + b, w))
  {
    var tail := text[drop..] + b;
    var n := Surplus(|tail|, HeldBack(cfg, ReadData));
    SplitAfter(text, b, drop, n);
    w.SinkTwice(text[..drop], tail[..n]);
  }

  lemma DataFoundAfterTrim(cfg: Config, text: string, w: Work, drop: nat, b: string, i: nat)
    requires drop <= |text| && Find(text[drop..] + b, cfg.delimiter, 0) == Some(i) && (i >= 2 || drop == 0)
    requires Find(text + b, cfg.delimiter, 0) == Some(i + drop)
    ensures StepData(cfg, Parser(ReadData, text[drop..] + b, w.Sink(text[..drop])))
         == StepData(cfg, Parser(ReadData, text + b, w))
  {
    var tail := text[drop..] + b;
    var n := if i >= 2 then i - 2 else 0;
    SplitAfter(text, b, drop, n);
    SplitAfter(text, b, drop, i);
    w.SinkTwice(text[..drop], tail[..n]);
  }

  lemma SplitAfter(text: string, b: string, drop: nat, n: nat)
    requires drop <= |text| && n <= |text| - drop + |b|
    ensures (text + b)[..drop + n] == text[..drop] + (text[drop..] + b)[..n]
    ensures (text + b)[drop + n..] == (text[drop..] + b)[n..]
  {
  }

  /** A call that resumes where an earlier one returned, unless that one forgot a delimiter. */
  lemma ResumeAfterHalt(cfg: Config, s: Parser, b: string)
    requires Step(cfg, s).Halt?
    requires ForgetsDelimiter(cfg, s) ==>
               var pending := Trailer(cfg, s) + b;
               |pending| < 2 || !Meaningful(pending[..2])
    ensures Same(OnData(cfg, Step(cfg, s).p, b), Step(cfg, Settle(cfg, s.Feed(b))).p)
  {
    match s.phase
    case ScanBoundary =>
      if Find(s.buffer, cfg.delimiter, 0).None? {
        ScanHoldsEnough(cfg, s, b);
      } else if ForgetsDelimiter(cfg, s) {
        ResumeAfterTrailer(cfg, s, b);
      } else {
        ScanIsLocal(cfg, s, b);
      }
    case ReadHeaders =>
    case ReadData => DataHoldsEnough(cfg, s, b);
    case Done =>
  }

  lemma ResumeAfterTrailer(cfg: Config, s: Parser, b: string)
    requires ForgetsDelimiter(cfg, s)
    requires var pending := Trailer(cfg, s) + b;
             |pending| < 2 || !Meaningful(pending[..2])
    ensures OnData(cfg, Step(cfg, s).p, b) == Step(cfg, Settle(cfg, s.Feed(b))).p
  {
    var resumed := s.(buffer := Trailer(cfg, s) + b);
    assert Step(cfg, s).p.Feed(b) == resumed;
    ScanPastDelimiter(cfg, s, b);
    if |resumed.buffer| < 2 {
      assert Step(cfg, resumed) == Halt(resumed);
    }
  }

  lemma ScanPastDelimiter(cfg: Config, s: Parser, b: string)
    requires ForgetsDelimiter(cfg, s)
    ensures StepScan(cfg, s.Feed(b)) == AfterDelimiter(s, Trailer(cfg, s) + b)
  {
    hide Find;
    var delim := cfg.delimiter;
    FindStable(s.buffer, b, delim, 0);
    var k := Find(s.buffer, delim, 0).value + |delim|;
    assert (s.buffer + b)[k..] == s.buffer[k..] + b;
  }

  /** Feeding is a homomorphism: a cut that does not fall inside a delimiter's trailer is invisible. */
  lemma FeedInTwo(cfg: Config, p: Parser, a: string, b: string)
    requires !LosesDelimiter(cfg, p, a, b)
    ensures Same(OnData(cfg, OnData(cfg, p, a), b), OnData(cfg, p, a + b))
  {
    assert p.Feed(a).Feed(b) == p.Feed(a + b) by {
      assert p.buffer + a + b == p.buffer + (a + b);
    }
    SettleIsLocal(cfg, p.Feed(a), b);
    ResumeAfterHalt(cfg, Settle(cfg, p.Feed(a)), b);
  }

  // ---------- many cuts ----------

  function Concat(chunks: seq<string>): string {
    if chunks == [] then "" else chunks[0] + Concat(chunks[1..])
  }

  /** No cut between two consecutive chunks loses a delimiter. */
  predicate AllowedCuts(cfg: Config, p: Parser, chunks: seq<string>)
    decreases |chunks|
  {
    |chunks| <= 1 ||
    (!LosesDelimiter(cfg, p, chunks[0], Concat(chunks[1..])) &&
     AllowedCuts(cfg, OnData(cfg, p, chunks[0]), chunks[1..]))
  }

  /** Any allowed way of cutting the input leaves the same parser. */
  lemma {:induction false} FeedInChunks(cfg: Config, p: Parser, chunks: seq<string>)
    requires chunks != [] && AllowedCuts(cfg, p, chunks)
    ensures Same(OnChunks(cfg, p, chunks), OnData(cfg, p, Concat(chunks)))
    decreases |chunks|
  {
    if |chunks| == 1 {
      assert Concat(chunks) == chunks[0];
    } else {
      FeedInChunks(cfg, OnData(cfg, p, chunks[0]), chunks[1..]);
      FeedInTwo(cfg, p, chunks[0], Concat(chunks[1..]));
    }
  }

  // ---------- which cuts are safe ----------

  /** `a` does not end where the code forgets a delimiter whose trailer may still become CRLF or
      `--`: line 23 is not reached, or it is reached with one byte that starts neither. */
  predicate SafeCut(cfg: Config, p: Parser, a: string) {
    var s := Settle(cfg, p.Feed(a));
    ForgetsDelimiter(cfg, s) ==> Trailer(cfg, s) !in ["", "-", "\r"]
  }

  lemma SafeCutLosesNothing(cfg: Config, p: Parser, a: string, b: string)
    requires SafeCut(cfg, p, a)
    ensures !LosesDelimiter(cfg, p, a, b)
  {
    var s := Settle(cfg, p.Feed(a));
    if ForgetsDelimiter(cfg, s) && |Trailer(cfg, s) + b| >= 2 {
      MeaningfulStart(Trailer(cfg, s), b);
    }
  }

  lemma MeaningfulStart(r: string, b: string)
    requires |r| < 2 <= |r + b|
    ensures Meaningful((r + b)[..2]) ==> r in ["", "-", "\r"]
  {
    assert r == "" || r == [(r + b)[..2][0]];
  }

  /** An input that makes an unsafe cut visible. */
  function Completion(trailer: string): string {
    if trailer == "" then "--" else if trailer == "-" then "-" else "\n"
  }

  /** What the second of two calls starts from when the first one forgot a delimiter, and what a
      single call does at that place. */
  lemma CutInTrailer(cfg: Config, p: Parser, a: string, b: string)
    requires ForgetsDelimiter(cfg, Settle(cfg, p.Feed(a)))
    ensures var s := Settle(cfg, p.Feed(a));
            && s.phase.ScanBoundary?
            && OnData(cfg, p, a).Feed(b) == s.(buffer := Trailer(cfg, s) + b)
            && Step(cfg, s.Feed(b)) == AfterDelimiter(s, Trailer(cfg, s) + b)
            && OnData(cfg, p, a + b) == Run(cfg, s.Feed(b))
  {
    hide Find;
    var s := Settle(cfg, p.Feed(a));
    assert p.Feed(a).Feed(b) == p.Feed(a + b) by {
      assert p.buffer + a + b == p.buffer + (a + b);
    }
    SettleIsLocal(cfg, p.Feed(a), b);
    ScanPastDelimiter(cfg, s, b);
    assert Step(cfg, s).p == s.(buffer := Trailer(cfg, s));
  }

  lemma UnsafeCutShows(cfg: Config, p: Parser, a: string)
    requires !SafeCut(cfg, p, a)
    ensures var b := Completion(Trailer(cfg, Settle(cfg, p.Feed(a))));
            OnData(cfg, OnData(cfg, p, a), b).phase.ScanBoundary? && !OnData(cfg, p, a + b).phase.ScanBoundary?
  {
    hide Find;
    var s := Settle(cfg, p.Feed(a));
    var r := Trailer(cfg, s);
    var b := Completion(r);
    CutInTrailer(cfg, p, a, b);
    var resumed := s.(buffer := r + b);
    ScanOfTwoBytes(cfg, resumed);
    assert Meaningful(r + b);
    AfterMeaningful(cfg, s, r + b, s.Feed(b));
  }

  lemma AfterMeaningful(cfg: Config, s: Parser, two: string, fed: Parser)
    requires s.phase.ScanBoundary? && Meaningful(two) && Step(cfg, fed) == AfterDelimiter(s, two)
    ensures !Run(cfg, fed).phase.ScanBoundary?
  {
    var next := AfterDelimiter(s, two);
    if next.Go? {
      assert Settle(cfg, fed) == Settle(cfg, next.p);
      assert next.p.buffer == "" && Step(cfg, next.p).Halt?;
    }
  }

  lemma ScanOfTwoBytes(cfg: Config, p: Parser)
    requires p.phase.ScanBoundary? && |p.buffer| == 2
    ensures Step(cfg, p).Halt? && Step(cfg, p).p.phase.ScanBoundary?
  {
  }

  lemma TwoBytesDoNoWork(cfg: Config, p: Parser)
    requires p.phase.ScanBoundary? && |p.buffer| == 2
    ensures Run(cfg, p).work == p.work && Run(cfg, p).phase.ScanBoundary?
  {
    assert Step(cfg, p).Halt?;
  }

  lemma AfterTwoBytes(cfg: Config, s: Parser, two: string, fed: Parser)
    requires s.phase.ScanBoundary? && |two| == 2 && Step(cfg, fed) == AfterDelimiter(s, two)
    ensures Run(cfg, fed).work == s.work && !Run(cfg, fed).phase.ReadData?
  {
    var next := AfterDelimiter(s, two);
    if next.Go? {
      assert Settle(cfg, fed) == Settle(cfg, next.p);
      if next.p.phase.ScanBoundary? {
        TwoBytesDoNoWork(cfg, next.p);
      }
    }
  }

  /** If the input ends with the two trailer bytes, forgetting the delimiter does no harm. */
  lemma ForgottenAtTheEnd(cfg: Config, p: Parser, a: string, b: string)
    requires Disciplined(p)
    requires var s := Settle(cfg, p.Feed(a)); ForgetsDelimiter(cfg, s) && |Trailer(cfg, s) + b| == 2
    ensures Same(Finish(OnData(cfg, OnData(cfg, p, a), b)), Finish(OnData(cfg, p, a + b)))
  {
    hide Find, Disciplined, Settle, Step, Run, Finish, ForgetsDelimiter, Trailer, AfterDelimiter;
    var s := Settle(cfg, p.Feed(a));
    CutInTrailer(cfg, p, a, b);
    var resumed := s.(buffer := Trailer(cfg, s) + b);
    TwoBytesDoNoWork(cfg, resumed);
    AfterTwoBytes(cfg, s, resumed.buffer, s.Feed(b));
    OnDataKeepsDiscipline(cfg, p, a);
    OnDataKeepsDiscipline(cfg, OnData(cfg, p, a), b);
    OnDataKeepsDiscipline(cfg, p, a + b);
    FinishBetweenParts(OnData(cfg, OnData(cfg, p, a), b), OnData(cfg, p, a + b));
  }

  lemma FinishBetweenParts(p: Parser, q: Parser)
    requires Disciplined(p) && Disciplined(q) && p.work == q.work
    requires !p.phase.ReadData? && !q.phase.ReadData?
    ensures Same(Finish(p), Finish(q))
  {
  }

  /** Exactly when a cut after `a` is invisible, whatever follows. */
  lemma CutIsSafeIff(cfg: Config, p: Parser, a: string)
    ensures SafeCut(cfg, p, a) <==>
            forall b: string :: Same(OnData(cfg, OnData(cfg, p, a), b), OnData(cfg, p, a + b))
  {
    if SafeCut(cfg, p, a) {
      forall b: string
        ensures Same(OnData(cfg, OnData(cfg, p, a), b), OnData(cfg, p, a + b))
      {
        SafeCutLosesNothing(cfg, p, a, b);
        FeedInTwo(cfg, p, a, b);
      }
    } else {
      UnsafeCutShows(cfg, p, a);
      var b := Completion(Trailer(cfg, Settle(cfg, p.Feed(a))));
      assert !Same(OnData(cfg, OnData(cfg, p, a), b), OnData(cfg, p, a + b));
    }
  }

  // ---------- a condition on the bytes alone ----------

  /** `text` does not end with a delimiter, nor with a delimiter and one byte. */
  predicate ClearOfDelimiter(delimiter: string, text: string) {
    && (|text| >= |delimiter| ==> !OccursAt(text, delimiter, |text| - |delimiter|))
    && (|text| >= |delimiter| + 1 ==> !OccursAt(text, delimiter, |text| - |delimiter| - 1))
  }

  predicate IsSuffix(suffix: string, text: string) {
    |suffix| <= |text| && text[|text| - |suffix|..] == suffix
  }

  lemma StepDropsAPrefix(cfg: Config, p: Parser)
    requires Step(cfg, p).Go?
    ensures IsSuffix(Step(cfg, p).p.buffer, p.buffer)
  {
  }

  lemma {:induction false} SettleDropsAPrefix(cfg: Config, p: Parser)
    ensures IsSuffix(Settle(cfg, p).buffer, p.buffer)
    decreases |p.buffer|, Rank(p)
  {
    if Step(cfg, p).Go? {
      var q := Step(cfg, p).p;
      StepDropsAPrefix(cfg, p);
      SettleDropsAPrefix(cfg, q);
      var s := Settle(cfg, q).buffer;
      assert p.buffer[|p.buffer| - |s|..] == p.buffer[|p.buffer| - |q.buffer|..][|q.buffer| - |s|..];
    }
  }

  lemma LateOccurrence(delimiter: string, text: string, tail: string)
    requires IsSuffix(tail, text) && Find(tail, delimiter, 0).Some?
    requires |tail| < Find(tail, delimiter, 0).value + |delimiter| + 2
    ensures !ClearOfDelimiter(delimiter, text)
  {
    hide Find;
    FindIsFirst(tail, delimiter, 0);
    var at := |text| - |tail| + Find(tail, delimiter, 0).value;
    OccursInSuffix(text, |text| - |tail|, delimiter, at);
    assert at == |text| - |delimiter| || at == |text| - |delimiter| - 1;
  }

  // ---------- a condition on the stream alone ----------

  /** No piece but the last ends the stream so far right after a delimiter or one byte later. */
  predicate ClearCuts(delimiter: string, seen: string, chunks: seq<string>) {
    forall i | 0 < i < |chunks| :: ClearOfDelimiter(delimiter, seen + Concat(chunks[..i]))
  }

  lemma ClearCutsAfterFirst(delimiter: string, seen: string, chunks: seq<string>)
    requires chunks != [] && ClearCuts(delimiter, seen, chunks)
    ensures |chunks| > 1 ==> ClearOfDelimiter(delimiter, seen + chunks[0])
    ensures ClearCuts(delimiter, seen + chunks[0], chunks[1..])
  {
    if |chunks| > 1 {
      assert chunks[..1] == [chunks[0]] && Concat([chunks[0]]) == chunks[0];
    }
    forall i | 0 < i < |chunks[1..]|
      ensures ClearOfDelimiter(delimiter, seen + chunks[0] + Concat(chunks[1..][..i]))
    {
      assert chunks[..i + 1][1..] == chunks[1..][..i];
      assert seen + chunks[0] + Concat(chunks[1..][..i]) == seen + Concat(chunks[..i + 1]);
    }
  }

  lemma SuffixOfSuffix(a: string, b: string, c: string)
    requires IsSuffix(a, b) && IsSuffix(b, c)
    ensures IsSuffix(a, c)
  {
    assert c[|c| - |a|..] == c[|c| - |b|..][|b| - |a|..];
  }

  lemma SuffixGrows(a: string, b: string, more: string)
    requires IsSuffix(a, b)
    ensures IsSuffix(a + more, b + more)
  {
    assert (b + more)[|b| - |a|..] == b[|b| - |a|..] + more;
  }

  /** The parser holds back the end of what it has been given. */
  lemma OnDataHoldsASuffix(cfg: Config, p: Parser, data: string)
    ensures IsSuffix(Settle(cfg, p.Feed(data)).buffer, p.buffer + data)
    ensures IsSuffix(OnData(cfg, p, data).buffer, p.buffer + data)
  {
    hide Find, Step;
    var s := Settle(cfg, p.Feed(data));
    SettleDropsAPrefix(cfg, p.Feed(data));
    HaltDropsAPrefix(cfg, s);
    SuffixOfSuffix(Step(cfg, s).p.buffer, s.buffer, p.buffer + data);
  }

  lemma HaltDropsAPrefix(cfg: Config, s: Parser)
    requires Step(cfg, s).Halt?
    ensures IsSuffix(Step(cfg, s).p.buffer, s.buffer)
  {
    hide Find;
  }

  /** A stream may be cut anywhere but right after a delimiter or one byte later. */
  lemma {:induction false} ClearCutsAreAllowed(cfg: Config, p: Parser, seen: string, chunks: seq<string>)
    requires IsSuffix(p.buffer, seen) && ClearCuts(cfg.delimiter, seen, chunks)
    ensures AllowedCuts(cfg, p, chunks)
    decreases |chunks|
  {
    hide ClearOfDelimiter, ClearCuts, IsSuffix, OnData, LosesDelimiter;
    if |chunks| > 1 {
      var a := chunks[0];
      ClearCutsAfterFirst(cfg.delimiter, seen, chunks);
      SuffixGrows(p.buffer, seen, a);
      if ForgetsDelimiter(cfg, Settle(cfg, p.Feed(a))) {
        ForgettingShowsIn(cfg, p, a, seen + a);
      }
      SafeCutLosesNothing(cfg, p, a, Concat(chunks[1..]));
      OnDataHoldsASuffix(cfg, p, a);
      SuffixOfSuffix(OnData(cfg, p, a).buffer, p.buffer + a, seen + a);
      ClearCutsAreAllowed(cfg, OnData(cfg, p, a), seen + a, chunks[1..]);
    }
  }

  lemma ForgettingShowsIn(cfg: Config, p: Parser, a: string, text: string)
    requires ForgetsDelimiter(cfg, Settle(cfg, p.Feed(a))) && IsSuffix(p.buffer + a, text)
    ensures !ClearOfDelimiter(cfg.delimiter, text)
  {
    hide Find, Step, IsSuffix, ClearOfDelimiter;
    var s := Settle(cfg, p.Feed(a));
    OnDataHoldsASuffix(cfg, p, a);
    SuffixOfSuffix(s.buffer, p.buffer + a, text);
    LateOccurrence(cfg.delimiter, text, s.buffer);
  }

  /** The first delimiter of a body is already one: a call that ends with it returns at line 23, and
      the cut there is not safe. */
  lemma UnsafeCutHappens(cfg: Config, opens: nat)
    ensures !SafeCut(cfg, Initial(opens), cfg.delimiter)
    ensures !SafeCut(cfg, Initial(opens), cfg.delimiter + "-") && !SafeCut(cfg, Initial(opens), cfg.delimiter + "\r")
  {
    hide Find;
    UnsafeAfterDelimiter(cfg, opens, "");
    assert cfg.delimiter + "" == cfg.delimiter;
    UnsafeAfterDelimiter(cfg, opens, "-");
    UnsafeAfterDelimiter(cfg, opens, "\r");
  }

  lemma UnsafeAfterDelimiter(cfg: Config, opens: nat, r: string)
    requires r in ["", "-", "\r"]
    ensures !SafeCut(cfg, Initial(opens), cfg.delimiter + r)
  {
    hide Find;
    var text := cfg.delimiter + r;
    assert text[0..|cfg.delimiter|] == cfg.delimiter;
    FirstIsFound(text, cfg.delimiter, 0, 0);
    assert text[|cfg.delimiter|..] == r;
    assert Initial(opens).Feed(text).buffer == text;
  }

  // ---------- memory ----------

  /** The bound on the buffer does not extend to headers: a header block that never ends is kept
      whole, however it arrives. */
  lemma {:induction false} HeadersAreKeptWhole(cfg: Config, p: Parser, chunks: seq<string>)
    requires p.phase.ReadHeaders? && Find(p.buffer + Concat(chunks), BLANK_LINE, 0).None?
    ensures OnChunks(cfg, p, chunks) == p.Feed(Concat(chunks))
    decreases |chunks|
  {
    hide Find;
    if chunks == [] {
      assert p.Feed("") == p;
    } else {
      var q := p.Feed(chunks[0]);
      assert p.buffer + Concat(chunks) == q.buffer + Concat(chunks[1..]);
      if Find(q.buffer, BLANK_LINE, 0).Some? {
        FindStable(q.buffer, Concat(chunks[1..]), BLANK_LINE, 0);
      }
      HeadersAreKeptWhole(cfg, q, chunks[1..]);
    }
  }

  /** Nor to the epilogue: after the final delimiter everything that arrives is kept. */
  lemma {:induction false} EpilogueIsKept(cfg: Config, p: Parser, chunks: seq<string>)
    requires p.phase.Done?
    ensures OnChunks(cfg, p, chunks) == p.Feed(Concat(chunks))
    decreases |chunks|
  {
    if chunks == [] {
      assert p.Feed("") == p;
    } else {
      assert p.buffer + Concat(chunks) == p.buffer + chunks[0] + Concat(chunks[1..]);
      EpilogueIsKept(cfg, p.Feed(chunks[0]), chunks[1..]);
    }
  }

  lemma NothingLost(value: string, text: string, rest: string, n: nat)
    requires n <= |text|
    ensures text[n..] + rest == (text + rest)[n..]
    ensures value + text[..n] + (text[n..] + rest) == value + (text + rest)
  {
  }

  /** Nor to the value of a field: until the next delimiter every byte of it is kept. */
  lemma {:induction false} FieldValuesAreKept(cfg: Config, p: Parser, chunks: seq<string>)
    requires p.phase.ReadData? && !p.work.WritingFile() && Find(p.buffer + Concat(chunks), cfg.delimiter, 0).None?
    ensures var q := OnChunks(cfg, p, chunks);
            q.phase.ReadData? && q.work.fieldValue + q.buffer == p.work.fieldValue + (p.buffer + Concat(chunks))
    decreases |chunks|
  {
    hide Find;
    if chunks != [] {
      var a, rest := chunks[0], Concat(chunks[1..]);
      var text := p.buffer + a;
      var n := Surplus(|text|, HeldBack(cfg, ReadData));
      var q := OnData(cfg, p, a);
      assert p.buffer + Concat(chunks) == text + rest;
      if Find(text, cfg.delimiter, 0).Some? {
        FindStable(text, rest, cfg.delimiter, 0);
      }
      assert q == Parser(ReadData, text[n..], p.work.Sink(text[..n]));
      NothingLost(p.work.fieldValue, text, rest, n);
      NoneInSuffix(text + rest, cfg.delimiter, n);
      FieldValuesAreKept(cfg, q, chunks[1..]);
    }
  }

  lemma NoneInSuffix(text: string, pattern: string, n: nat)
    requires n <= |text| && Find(text, pattern, 0).None?
    ensures Find(text[n..], pattern, 0).None?
  {
    hide Find;
    FindIsFirst(text, pattern, 0);
    forall j: nat
      ensures !OccursAt(text[n..], pattern, j)
    {
      OccursInSuffix(text, n, pattern, j + n);
    }
    NoneIsFound(text[n..], pattern, 0);
  }
}
