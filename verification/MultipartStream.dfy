/** The incremental multipart/form-data parser of MultipartStreamParser.cpp.

    `Step` is one `if` block of the loop in `onData`; `Settle` runs the loop up to the iteration
    that returns; `OnData` is a whole call. The class in MultipartStreamParser.dfy is the imperative
    parser, proved to compute exactly these functions. */
module MultipartStream {
  import opened Wrappers
  import opened Bytes

  datatype Phase = ScanBoundary | ReadHeaders | ReadData | Done

  /** A file closed by the parser: its name and every byte written through its descriptor. */
  datatype Upload = Upload(filename: string, contents: string)

  /** `boundary_`: the constructor puts two dashes in front of the boundary parameter. */
  type Delimiter = d: string | |d| >= 2 && d[0] == '-' && d[1] == '-' witness "--"

  /** What the parser never changes, and the file system: `open(n, path)` is the descriptor that
      the n-th call of `open` returns for `path`, negative when it fails. */
  datatype Config = Config(delimiter: Delimiter, uploadDir: string, open: (nat, string) -> int)

  /** The part being read and the results so far. The last three fields record the effects on the
      file system: the number of `open` calls, the bytes written through the open descriptor, and
      the closed files. */
  datatype Work = Work(
    headers: string,
    name: string,
    filename: string,
    isFile: bool,
    fileFd: int,
    fieldValue: string,
    fields: map<string, string>,
    savedFiles: seq<string>,
    opens: nat,
    written: string,
    uploads: seq<Upload>)
  {
    predicate WritingFile() {
      isFile && fileFd >= 0
    }

    /** Part data goes to the open file, or else to the pending field value. */
    function Sink(data: string): Work {
      if WritingFile() then this.(written := written + data) else this.(fieldValue := fieldValue + data)
    }

    lemma SinkTwice(a: string, b: string)
      ensures Sink(a).Sink(b) == Sink(a + b)
    {
      assert written + a + b == written + (a + b);
      assert fieldValue + a + b == fieldValue + (a + b);
    }

    function EndPart(): Work {
      if WritingFile() then
        this.(fileFd := -1, savedFiles := savedFiles + [filename],
              written := "", uploads := uploads + [Upload(filename, written)])
      else
        this.(fields := fields[name := fieldValue], fieldValue := "")
    }
  }

  /** The parser: its state, the bytes held back, and the work done. */
  datatype Parser = Parser(phase: Phase, buffer: string, work: Work) {
    function Feed(more: string): Parser {
      this.(buffer := buffer + more)
    }
  }

  function Initial(opens: nat): Parser {
    Parser(ScanBoundary, "", Work("", "", "", false, -1, "", map[], [], opens, "", []))
  }

  // ---------- headers ----------

  const CRLF: string := "\r\n"
  const BLANK_LINE: string := "\r\n\r\n"
  const DISPOSITION: string := "Content-Disposition:"
  const NAME_KEY: string := "name=\""
  const FILENAME_KEY: string := "filename=\""

  /** The text between the first `key` at or after `from` and the next quote, or the end. */
  function Quoted(headers: string, key: string, from: nat): Option<string> {
    match Find(headers, key, from)
    case None => None
    case Some(pos) =>
      var start := pos + |key|;
      match Find(headers, "\"", start)
      case None => Some(headers[start..])
      case Some(end) => Some(headers[start..end])
  }

  function ProcessHeader(cfg: Config, headers: string, w: Work): Work {
    var cleared := w.(headers := headers, name := "", filename := "", isFile := false);
    match Find(headers, DISPOSITION, 0)
    case None => cleared
    case Some(cd) =>
      var named := match Quoted(headers, NAME_KEY, cd)
                   case None => cleared
                   case Some(n) => cleared.(name := n);
      match Quoted(headers, FILENAME_KEY, cd)
      case None => named
      case Some(f) =>
        named.(filename := f, isFile := true, fileFd := cfg.open(w.opens, cfg.uploadDir + f),
               opens := w.opens + 1, written := "")
  }

  // ---------- the loop ----------

  datatype Outcome = Halt(p: Parser) | Go(p: Parser)

  /** Bytes held back while no delimiter is in sight. */
  function HeldBack(cfg: Config, phase: Phase): nat {
    if phase.ReadData? then |cfg.delimiter| + 4 else |cfg.delimiter|
  }

  /** `rest` follows a delimiter that has just been erased. */
  function AfterDelimiter(p: Parser, rest: string): Outcome {
    if |rest| < 2 then Halt(p.(buffer := rest))
    else if rest[..2] == "--" then Halt(p.(phase := Done, buffer := ""))
    else if rest[..2] == CRLF then Go(p.(phase := ReadHeaders, buffer := rest[2..]))
    else Go(p.(buffer := rest))
  }

  function StepScan(cfg: Config, p: Parser): Outcome {
    var size, held := |p.buffer|, HeldBack(cfg, ScanBoundary);
    match Find(p.buffer, cfg.delimiter, 0)
    case None => Halt(if size > held then p.(buffer := p.buffer[size - held..]) else p)
    case Some(pos) => AfterDelimiter(p, p.buffer[pos + |cfg.delimiter|..])
  }

  function StepHeaders(cfg: Config, p: Parser): Outcome {
    match Find(p.buffer, BLANK_LINE, 0)
    case None => Halt(p)
    case Some(pos) => Go(Parser(ReadData, p.buffer[pos + 4..], ProcessHeader(cfg, p.buffer[..pos], p.work)))
  }

  /** How many of `size` bytes of part data are written out while no delimiter is in sight. */
  function Surplus(size: nat, held: nat): nat {
    if size > held then size - held else 0
  }

  function StepData(cfg: Config, p: Parser): Outcome {
    match Find(p.buffer, cfg.delimiter, 0)
    case None =>
      var n := Surplus(|p.buffer|, HeldBack(cfg, ReadData));
      Halt(Parser(ReadData, p.buffer[n..], p.work.Sink(p.buffer[..n])))
    case Some(pos) =>
      var dataLen := if pos >= 2 then pos - 2 else 0;
      Go(Parser(ScanBoundary, p.buffer[pos..], p.work.Sink(p.buffer[..dataLen]).EndPart()))
  }

  function Step(cfg: Config, p: Parser): (o: Outcome)
    ensures o.Go? ==> |o.p.buffer| < |p.buffer| || (|o.p.buffer| == |p.buffer| && Rank(o.p) < Rank(p))
  {
    match p.phase
    case ScanBoundary => StepScan(cfg, p)
    case ReadHeaders => StepHeaders(cfg, p)
    case ReadData => StepData(cfg, p)
    case Done => Halt(p)
  }

  function Rank(p: Parser): nat {
    if p.phase.ReadData? then 1 else 0
  }

  /** The loop head at which `onData` will return. */
  function Settle(cfg: Config, p: Parser): (s: Parser)
    ensures Step(cfg, s).Halt?
    decreases |p.buffer|, Rank(p)
  {
    match Step(cfg, p)
    case Halt(_) => p
    case Go(next) => Settle(cfg, next)
  }

  /** The rest of the call from loop head `p`. */
  function Run(cfg: Config, p: Parser): Parser {
    Step(cfg, Settle(cfg, p)).p
  }

  function OnData(cfg: Config, p: Parser, data: string): Parser {
    Run(cfg, p.Feed(data))
  }

  function Finish(p: Parser): Parser {
    if p.phase.Done? then p
    else p.(phase := Done, work := if p.work.WritingFile() then p.work.EndPart() else p.work)
  }

  // ---------- what every call keeps ----------

  function Names(uploads: seq<Upload>): seq<string> {
    seq(|uploads|, i requires 0 <= i < |uploads| => uploads[i].filename)
  }

  /** A descriptor is open only while the data of a file part is read, a field value is pending only
      while the data of another part is read, and the saved names are those of the closed files. */
  predicate Disciplined(p: Parser) {
    var w := p.work;
    && (w.fileFd >= 0 ==> p.phase.ReadData? && w.isFile)
    && (p.phase.ScanBoundary? || p.phase.ReadHeaders? || w.WritingFile() ==> w.fieldValue == "")
    && (!w.WritingFile() ==> w.written == "")
    && w.savedFiles == Names(w.uploads)
  }

  lemma InitialIsDisciplined(opens: nat)
    ensures Disciplined(Initial(opens))
  {
  }

  lemma StepKeepsDiscipline(cfg: Config, p: Parser)
    requires Disciplined(p)
    ensures Disciplined(Step(cfg, p).p)
  {
    assert Names(p.work.uploads + [Upload(p.work.filename, p.work.written)])
        == Names(p.work.uploads) + [p.work.filename];
  }

  lemma {:induction false} SettleKeepsDiscipline(cfg: Config, p: Parser)
    requires Disciplined(p)
    ensures Disciplined(Settle(cfg, p))
    decreases |p.buffer|, Rank(p)
  {
    if Step(cfg, p).Go? {
      StepKeepsDiscipline(cfg, p);
      SettleKeepsDiscipline(cfg, Step(cfg, p).p);
    }
  }

  /** Whatever arrives, a file is open only while its data is read, and `finish` leaves none open. */
  lemma OnDataKeepsDiscipline(cfg: Config, p: Parser, data: string)
    requires Disciplined(p)
    ensures Disciplined(OnData(cfg, p, data))
    ensures Disciplined(Finish(OnData(cfg, p, data)))
    ensures Finish(OnData(cfg, p, data)).work.fileFd < 0 && Finish(OnData(cfg, p, data)).phase.Done?
  {
    SettleKeepsDiscipline(cfg, p.Feed(data));
    StepKeepsDiscipline(cfg, Settle(cfg, p.Feed(data)));
    var w := OnData(cfg, p, data).work;
    assert Names(w.uploads + [Upload(w.filename, w.written)]) == Names(w.uploads) + [w.filename];
  }

  /** Uploads of any size need a bounded buffer: after a call at most |delimiter| + 4 bytes of part
      data are held back, and at most |delimiter| bytes between parts. */
  lemma HeldBackIsBounded(cfg: Config, p: Parser, data: string)
    ensures var q := OnData(cfg, p, data);
            q.phase.ScanBoundary? || q.phase.ReadData? ==> |q.buffer| <= HeldBack(cfg, q.phase)
  {
    var s := Settle(cfg, p.Feed(data));
    assert Step(cfg, s).Halt?;
  }
}
