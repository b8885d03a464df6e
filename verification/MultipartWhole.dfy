/** The whole-body parser of MultipartParser.cpp, and its agreement with the streaming one. */
module MultipartWhole {
  import opened Wrappers
  import opened Bytes
  import opened MultipartStream
  import opened MultipartCuts
  import opened MultipartRoundTrip

  datatype MultipartFile = MultipartFile(filename: string, contentType: string, data: string)

  datatype Parsed = Parsed(ok: bool, files: seq<MultipartFile>)

  const TYPE_KEY: string := "Content-Type:"

  /** The file name parameter that `headers` carry, if any. */
  function FilenameIn(headers: string): Option<string> {
    match Find(headers, DISPOSITION, 0)
    case None => None
    case Some(cd) => Quoted(headers, FILENAME_KEY, cd)
  }

  /** The name parameter that the streaming parser reads from `headers`. */
  function NameIn(headers: string): string {
    match Find(headers, DISPOSITION, 0)
    case None => ""
    case Some(cd) => match Quoted(headers, NAME_KEY, cd) case None => "" case Some(n) => n
  }

  function ContentTypeIn(headers: string): string {
    match Find(headers, TYPE_KEY, 0)
    case None => ""
    case Some(ct) =>
      var start := ct + |TYPE_KEY|;
      match Find(headers, CRLF, start)
      case None => headers[start..]
      case Some(end) => headers[start..end]
  }

  /** `substr(0, n - 2)`: with `n < 2` the length wraps around and the whole text is taken. */
  function AllButTwo(text: string, n: nat): string
    requires n <= |text|
  {
    if n < 2 then text else text[..n - 2]
  }

  function FileFrom(headers: string, data: string): MultipartFile {
    MultipartFile(match FilenameIn(headers) case None => "" case Some(f) => f, ContentTypeIn(headers), data)
  }

  /** What one turn of the loop finds at `pos`. */
  datatype Turn = NoMore | Broken | Piece(headers: string, data: string, end: nat)

  function TurnAt(body: string, boundary: string, pos: nat): (t: Turn)
    ensures t.Piece? ==> pos < t.end <= |body|
  {
    match Find(body, boundary, pos)
    case None => NoMore
    case Some(at) =>
      var start := at + |boundary|;
      if OccursAt(body, "--", start) then NoMore
      else PieceAt(body, boundary, if OccursAt(body, CRLF, start) then start + 2 else start)
  }

  /** The part whose headers start at `start`. */
  function PieceAt(body: string, boundary: string, start: nat): (t: Turn)
    requires start <= |body|
    ensures !t.NoMore?
    ensures t.Piece? ==> start < t.end <= |body|
  {
    match Find(body, BLANK_LINE, start)
    case None => Broken
    case Some(headerEnd) =>
      match Find(body, boundary, headerEnd + 4)
      case None => Broken
      case Some(dataEnd) =>
        Piece(body[start..headerEnd], AllButTwo(body[headerEnd + 4..], dataEnd - headerEnd - 4), dataEnd)
  }

  /** The loop of `parseAll` from offset `pos` on. */
  function ParseFrom(body: string, boundary: string, pos: nat, files: seq<MultipartFile>): Parsed
    decreases |body| - pos
  {
    match TurnAt(body, boundary, pos)
    case NoMore => Parsed(files != [], files)
    case Broken => Parsed(false, files)
    case Piece(headers, data, end) => ParseFrom(body, boundary, end, files + [FileFrom(headers, data)])
  }

  /** One turn of the loop: the part at `pos`, its headers and its data. */
  method ReadPart(body: string, boundary: string, pos: nat) returns (turn: Turn)
    ensures turn == TurnAt(body, boundary, pos)
  {
    hide Find;
    var found := Find(body, boundary, pos);
    if found.None? { return NoMore; }

    var start := found.value + |boundary|;
    if OccursAt(body, "--", start) { return NoMore; }
    if OccursAt(body, CRLF, start) {
      start := start + 2;
    }

    var headerEnd := Find(body, BLANK_LINE, start);
    if headerEnd.None? { return Broken; }
    var dataStart := headerEnd.value + 4;
    var dataEnd := Find(body, boundary, dataStart);
    if dataEnd.None? { return Broken; }
    return Piece(body[start..headerEnd.value],
                 AllButTwo(body[dataStart..], dataEnd.value - dataStart), dataEnd.value);
  }

  method ParseAll(body: string, boundary: string) returns (ok: bool, files: seq<MultipartFile>)
    ensures Parsed(ok, files) == ParseFrom(body, boundary, 0, [])
  {
    files := [];
    var pos := 0;
    while true
      invariant ParseFrom(body, boundary, pos, files) == ParseFrom(body, boundary, 0, [])
      decreases |body| - pos
    {
      var turn := ReadPart(body, boundary, pos);
      if turn.NoMore? { return files != [], files; }
      if turn.Broken? { return false, files; }
      files := files + [FileFrom(turn.headers, turn.data)];
      pos := turn.end;
    }
  }

  // ---------- bodies on which the two parsers agree ----------

  datatype Block = Block(headers: string, data: string)

  /** How a text goes on after its first delimiter. */
  datatype Opening = Closing | Malformed | Next(block: Block, rest: string)

  function BlockOf(text: string, boundary: string): (o: Opening)
    ensures !o.Closing?
    ensures o.Next? ==> |o.rest| < |text|
  {
    match Find(text, BLANK_LINE, 0)
    case None => Malformed
    case Some(end) =>
      var body := text[end + 4..];
      match Find(body, boundary, 0)
      case None => Malformed
      case Some(n) => if n < 2 then Malformed else Next(Block(text[..end], body[..n - 2]), body[n..])
  }

  function OpeningOf(text: string, boundary: string): (o: Opening)
    ensures o.Next? ==> |o.rest| < |text|
  {
    match Find(text, boundary, 0)
    case None => Malformed
    case Some(at) =>
      var rest := text[at + |boundary|..];
      if |rest| < 2 then Malformed
      else if rest[..2] == "--" then Closing
      else if rest[..2] == CRLF then BlockOf(rest[2..], boundary)
      else Malformed
  }

  /** `text` is a sequence of parts: every delimiter is followed by CRLF or by the closing dashes,
      every header block ends, and the data of each part ends in two bytes and a delimiter. */
  predicate Clean(text: string, boundary: string)
    decreases |text|
  {
    match OpeningOf(text, boundary)
    case Closing => true
    case Malformed => false
    case Next(_, rest) => Clean(rest, boundary)
  }

  /** The parts of a clean text. */
  function Blocks(text: string, boundary: string): seq<Block>
    requires Clean(text, boundary)
    decreases |text|
  {
    var o := OpeningOf(text, boundary);
    if o.Closing? then [] else [o.block] + Blocks(o.rest, boundary)
  }

  function WholeFiles(blocks: seq<Block>): seq<MultipartFile> {
    if blocks == [] then [] else [FileFrom(blocks[0].headers, blocks[0].data)] + WholeFiles(blocks[1..])
  }

  /** The part that a block stands for: a file if its headers carry a file name, else a field. */
  function PartIn(block: Block): Part {
    match FilenameIn(block.headers)
    case None => FieldPart(NameIn(block.headers), block.data)
    case Some(f) => FilePart(NameIn(block.headers), f, block.data)
  }

  function PartsIn(blocks: seq<Block>): seq<Part> {
    if blocks == [] then [] else [PartIn(blocks[0])] + PartsIn(blocks[1..])
  }

  // ---------- what stands in a header block ----------

  /** `value` stands at `start` and runs to the next quote or to the end. */
  predicate RunsToQuote(text: string, start: nat, value: string) {
    && start + |value| <= |text| && text[start..start + |value|] == value && '"' !in value
    && (start + |value| == |text| || text[start + |value|] == '"')
  }

  lemma QuoteAt(text: string, j: nat)
    ensures OccursAt(text, "\"", j) <==> j < |text| && text[j] == '"'
  {
    if j < |text| {
      assert text[j..j + 1] == [text[j]];
    }
  }

  /** What `Quoted` reads is what runs from the key to the next quote. */
  lemma QuotedRunsToQuote(text: string, key: string, from: nat, p: nat, value: string)
    requires FirstFrom(text, key, from, p)
    ensures Quoted(text, key, from) == Some(value) <==> RunsToQuote(text, p + |key|, value)
  {
    hide Find;
    FoundIff(text, key, from, p);
    var start := p + |key|;
    FindIsFirst(text, "\"", start);
    forall j: nat
      ensures OccursAt(text, "\"", j) <==> j < |text| && text[j] == '"'
    {
      QuoteAt(text, j);
    }
    var end := match Find(text, "\"", start) case None => |text| case Some(e) => e;
    assert text[start..] == text[start..|text|];
    assert Quoted(text, key, from) == Some(text[start..end]);
    forall j | start <= j < end
      ensures text[j] != '"'
    {
      assert !OccursAt(text, "\"", j);
    }
    assert RunsToQuote(text, start, text[start..end]);
    if RunsToQuote(text, start, value) {
      RunIsUnique(text, start, value, text[start..end]);
    }
  }

  lemma RunIsUnique(text: string, start: nat, a: string, b: string)
    requires RunsToQuote(text, start, a) && RunsToQuote(text, start, b)
    ensures a == b
  {
    RunIsNotLonger(text, start, a, b);
    RunIsNotLonger(text, start, b, a);
    assert a == text[start..start + |a|] && b == text[start..start + |b|];
  }

  lemma RunIsNotLonger(text: string, start: nat, a: string, b: string)
    requires RunsToQuote(text, start, a) && RunsToQuote(text, start, b)
    ensures |a| <= |b|
  {
    assert forall i | 0 <= i < |a| :: text[start + i] == text[start..start + |a|][i] == a[i];
  }

  /** The value of the first parameter behind the first `Content-Disposition:` that starts with `key`. */
  ghost predicate IsParameter(headers: string, key: string, value: string) {
    exists cd: nat, p: nat ::
      FirstFrom(headers, "Content-Disposition:", 0, cd) && FirstFrom(headers, key, cd, p) &&
      RunsToQuote(headers, p + |key|, value)
  }

  ghost predicate NoParameter(headers: string, key: string) {
    forall cd: nat, p: nat :: !(FirstFrom(headers, "Content-Disposition:", 0, cd) && FirstFrom(headers, key, cd, p))
  }

  lemma ParameterIsRead(headers: string, key: string)
    ensures match Find(headers, DISPOSITION, 0)
            case None => NoParameter(headers, key) && forall v :: !IsParameter(headers, key, v)
            case Some(cd) =>
              match Quoted(headers, key, cd)
              case None => NoParameter(headers, key) && forall v :: !IsParameter(headers, key, v)
              case Some(value) => !NoParameter(headers, key) && forall v :: IsParameter(headers, key, v) <==> v == value
  {
    hide Find, Quoted, FirstFrom, RunsToQuote;
    forall cd: nat
      ensures FirstFrom(headers, "Content-Disposition:", 0, cd) <==> Find(headers, DISPOSITION, 0) == Some(cd)
    {
      FoundIff(headers, DISPOSITION, 0, cd);
    }
    if Find(headers, DISPOSITION, 0).Some? {
      var cd := Find(headers, DISPOSITION, 0).value;
      forall p: nat
        ensures FirstFrom(headers, key, cd, p) <==> Find(headers, key, cd) == Some(p)
      {
        FoundIff(headers, key, cd, p);
      }
      QuotedIsFound(headers, key, cd);
    }
  }

  lemma QuotedIsFound(text: string, key: string, from: nat)
    ensures Quoted(text, key, from).Some? <==> Find(text, key, from).Some?
    ensures Find(text, key, from).Some? ==>
              var start := Find(text, key, from).value + |key|;
              forall v :: RunsToQuote(text, start, v) <==> Quoted(text, key, from) == Some(v)
  {
    hide Find, RunsToQuote;
    if Find(text, key, from).Some? {
      var p := Find(text, key, from).value;
      FoundIff(text, key, from, p);
      forall v
        ensures RunsToQuote(text, p + |key|, v) <==> Quoted(text, key, from) == Some(v)
      {
        QuotedRunsToQuote(text, key, from, p, v);
      }
    }
  }

  /** What `processHeader` makes of any header block: the name is what runs from the first `name="` behind the
      disposition to the next quote, and empty without one; it is a file exactly if `filename="` stands there
      too, and then that file is opened, and nothing else is. */
  lemma HeaderBlockIsProcessed(cfg: Config, headers: string, w: Work)
    ensures var q := ProcessHeader(cfg, headers, w);
            && (IsParameter(headers, "name=\"", q.name) || (NoParameter(headers, "name=\"") && q.name == ""))
            && (forall f | IsParameter(headers, "filename=\"", f) ::
                  q.isFile && q.filename == f && q.opens == w.opens + 1 && q.written == "" &&
                  q.fileFd == cfg.open(w.opens, cfg.uploadDir + f))
            && (NoParameter(headers, "filename=\"") ==>
                  !q.isFile && q.filename == "" && q.opens == w.opens && q.fileFd == w.fileFd)
            && (NoParameter(headers, "filename=\"") || exists f :: IsParameter(headers, "filename=\"", f))
            && q.fields == w.fields && q.uploads == w.uploads && q.savedFiles == w.savedFiles
            && q.fieldValue == w.fieldValue
  {
    hide Find, Quoted, IsParameter, NoParameter;
    ParameterIsRead(headers, "name=\"");
    ParameterIsRead(headers, "filename=\"");
  }

  /** The same for the names that the blocks of a body are read with, by either parser. */
  lemma NamesOfBlock(headers: string)
    ensures || IsParameter(headers, "name=\"", NameIn(headers))
            || (NoParameter(headers, "name=\"") && NameIn(headers) == "")
    ensures forall f :: FilenameIn(headers) == Some(f) <==> IsParameter(headers, "filename=\"", f)
  {
    hide Find, Quoted, IsParameter, NoParameter;
    ParameterIsRead(headers, "name=\"");
    ParameterIsRead(headers, "filename=\"");
  }

  /** `name="` also ends `filename="`: a file name that stands before the name is taken for it. */
  lemma FilenameFirst(filename: string, rest: string)
    requires '"' !in filename
    ensures NameIn("Content-Disposition: form-data; filename=\"" + filename + "\"" + rest) == filename
  {
    hide Find, Quoted, OccursAt;
    var pre := "Content-Disposition: form-data; file";
    var tail := filename + "\"" + rest;
    var headers := "Content-Disposition: form-data; filename=\"" + filename + "\"" + rest;
    assert headers == pre + ("name=" + "\"") + tail && headers == pre + NAME_KEY + filename + "\"" + rest;
    assert "Content-Disposition: form-data; filename=\""[..20] == DISPOSITION;
    assert headers[..20] == DISPOSITION;
    DispositionIsFound(headers);
    assert NAME_KEY == "name=" + "\"";
    KeyAtFirstQuote(pre, "name=", tail, 0);
    QuotedValue(headers, pre, NAME_KEY, filename, rest, 0);
  }

  // ---------- the whole-body parser reads the blocks ----------

  lemma PieceIsBlock(body: string, boundary: string, start: nat)
    requires start <= |body| && BlockOf(body[start..], boundary).Next?
    ensures var o, t := BlockOf(body[start..], boundary), PieceAt(body, boundary, start);
            t.Piece? && Block(t.headers, t.data) == o.block && o.rest == body[t.end..]
  {
    hide Find;
    FindShifts(body, BLANK_LINE, start);
    var end := Find(body[start..], BLANK_LINE, 0).value;
    Drop(body, start, end);
    Drop(body, start, end + 4);
    var dataStart := start + end + 4;
    FindShifts(body, boundary, dataStart);
    Drop(body, dataStart, Find(body[dataStart..], boundary, 0).value);
  }

  /** The two bytes after a delimiter, compared in place. */
  lemma TwoBytesAt(body: string, start: nat, two: string)
    requires start + 2 <= |body| && |two| == 2
    ensures OccursAt(body, two, start) <==> body[start..][..2] == two
  {
    Drop(body, start, 2);
  }

  lemma TurnIsOpening(body: string, boundary: string, pos: nat)
    requires pos <= |body| && !OpeningOf(body[pos..], boundary).Malformed?
    ensures var o, t := OpeningOf(body[pos..], boundary), TurnAt(body, boundary, pos);
            if o.Closing? then t.NoMore?
            else t.Piece? && Block(t.headers, t.data) == o.block && o.rest == body[t.end..]
  {
    hide Find, BlockOf, PieceAt;
    FindShifts(body, boundary, pos);
    var offset := Find(body[pos..], boundary, 0).value + |boundary|;
    var start := pos + offset;
    Drop(body, pos, offset);
    TwoBytesAt(body, start, "--");
    TwoBytesAt(body, start, CRLF);
    if OpeningOf(body[pos..], boundary).Next? {
      Drop(body, start, 2);
      PieceIsBlock(body, boundary, start + 2);
    }
  }

  /** On a clean text `parseAll` returns exactly its blocks. */
  lemma {:induction false} WholeReadsBlocks(body: string, boundary: string, pos: nat, files: seq<MultipartFile>)
    requires pos <= |body| && Clean(body[pos..], boundary)
    ensures var all := files + WholeFiles(Blocks(body[pos..], boundary));
            ParseFrom(body, boundary, pos, files) == Parsed(all != [], all)
    decreases |body| - pos
  {
    hide OpeningOf, TurnAt, FileFrom;
    TurnIsOpening(body, boundary, pos);
    var o := OpeningOf(body[pos..], boundary);
    if o.Next? {
      var file := FileFrom(o.block.headers, o.block.data);
      WholeReadsBlocks(body, boundary, TurnAt(body, boundary, pos).end, files + [file]);
      var others := WholeFiles(Blocks(o.rest, boundary));
      assert files + [file] + others == files + ([file] + others);
      assert WholeFiles(Blocks(body[pos..], boundary)) == [file] + others;
    }
  }

  // ---------- the streaming parser reads the blocks ----------

  /** The work after a block has gone through the streaming parser. */
  function Taken(cfg: Config, block: Block, w: Work): Work {
    ProcessHeader(cfg, block.headers, w).Sink(block.data).EndPart()
  }

  lemma BlockIsTaken(cfg: Config, block: Block, w: Work)
    requires w.fieldValue == ""
    ensures var q := Taken(cfg, block, w);
            q.fieldValue == "" && ResultsOf(q) == Receive(cfg, ResultsOf(w), PartIn(block))
  {
    hide Find, Quoted;
    assert "" + block.data == block.data;
  }

  lemma StreamTakesBlock(cfg: Config, text: string, w: Work)
    requires !OpeningOf(text, cfg.delimiter).Malformed?
    ensures var p, o := Parser(ScanBoundary, text, w), OpeningOf(text, cfg.delimiter);
            if o.Closing? then Step(cfg, p) == Halt(Parser(Done, "", w))
            else Settle(cfg, p) == Settle(cfg, Parser(ScanBoundary, o.rest, Taken(cfg, o.block, w)))
  {
    var p := Parser(ScanBoundary, text, w);
    var rest := text[Find(text, cfg.delimiter, 0).value + |cfg.delimiter|..];
    assert Step(cfg, p) == AfterDelimiter(p, rest);
    if rest[..2] == CRLF {
      HeadersThenData(cfg, rest[2..], w);
    }
  }

  lemma HeadersThenData(cfg: Config, text: string, w: Work)
    requires BlockOf(text, cfg.delimiter).Next?
    ensures var o := BlockOf(text, cfg.delimiter);
            Settle(cfg, Parser(ReadHeaders, text, w))
              == Settle(cfg, Parser(ScanBoundary, o.rest, Taken(cfg, o.block, w)))
  {
    var end := Find(text, BLANK_LINE, 0).value;
    var p := Parser(ReadHeaders, text, w);
    var q := Parser(ReadData, text[end + 4..], ProcessHeader(cfg, text[..end], w));
    assert Step(cfg, p) == Go(q);
    assert Settle(cfg, p) == Settle(cfg, q);
  }

  /** On a clean text the streaming parser receives exactly the parts that its blocks stand for. */
  lemma {:induction false} StreamReadsBlocks(cfg: Config, text: string, w: Work)
    requires Clean(text, cfg.delimiter) && w.fieldValue == ""
    ensures var q := Run(cfg, Parser(ScanBoundary, text, w));
            q.phase.Done? && ResultsOf(q.work) == ReceiveAll(cfg, ResultsOf(w), PartsIn(Blocks(text, cfg.delimiter)))
    decreases |text|
  {
    hide OpeningOf, Taken, Step, PartIn, Receive;
    StreamTakesBlock(cfg, text, w);
    var o := OpeningOf(text, cfg.delimiter);
    if o.Next? {
      BlockIsTaken(cfg, o.block, w);
      StreamReadsBlocks(cfg, o.rest, Taken(cfg, o.block, w));
      var others := Blocks(o.rest, cfg.delimiter);
      assert ([o.block] + others)[1..] == others;
      assert PartsIn([o.block] + others) == [PartIn(o.block)] + PartsIn(others);
      assert ([PartIn(o.block)] + PartsIn(others))[1..] == PartsIn(others);
    }
  }

  /** Streaming refines whole-body parsing: on every clean body, however it is cut, `parseAll` returns the
      blocks, and the streaming parser receives the parts that they stand for: as files those that carry a
      file name and could be opened, the others as fields. */
  lemma StreamRefinesWhole(cfg: Config, opens: nat, body: string, chunks: seq<string>)
    requires Clean(body, cfg.delimiter)
    requires chunks != [] && Concat(chunks) == body && AllowedCuts(cfg, Initial(opens), chunks)
    ensures var blocks := Blocks(body, cfg.delimiter);
            var q := OnChunks(cfg, Initial(opens), chunks);
            && ParseFrom(body, cfg.delimiter, 0, []) == Parsed(blocks != [], WholeFiles(blocks))
            && ResultsOf(q.work) == ReceiveAll(cfg, Results(map[], [], [], opens), PartsIn(blocks))
            && q.work.uploads == SavedFiles(cfg, opens, PartsIn(blocks))
  {
    hide Clean, Blocks, ParseFrom, ReceiveAll, SavedFiles, PartsIn;
    var start := Results(map[], [], [], opens);
    FeedInChunks(cfg, Initial(opens), chunks);
    assert Initial(opens).Feed(body) == Parser(ScanBoundary, body, Initial(opens).work);
    StreamReadsBlocks(cfg, body, Initial(opens).work);
    assert body[0..] == body;
    WholeReadsBlocks(body, cfg.delimiter, 0, []);
    var parts := PartsIn(Blocks(body, cfg.delimiter));
    EveryFileArrives(cfg, start, parts);
    assert start.uploads + SavedFiles(cfg, opens, parts) == SavedFiles(cfg, opens, parts);
    assert ResultsOf(OnChunks(cfg, Initial(opens), chunks).work).uploads == SavedFiles(cfg, opens, parts);
  }

  /** The fields received: under each name the data of the last block of that name that did not become a
      file, and no other name. */
  lemma LastBlockWins(cfg: Config, opens: nat, body: string, chunks: seq<string>, name: string)
    requires Clean(body, cfg.delimiter)
    requires chunks != [] && Concat(chunks) == body && AllowedCuts(cfg, Initial(opens), chunks)
    ensures var blocks := Blocks(body, cfg.delimiter);
            var fields := OnChunks(cfg, Initial(opens), chunks).work.fields;
            && (forall i: nat | i < |blocks| && IsLastField(cfg, opens, PartsIn(blocks), i, name) ::
                  name in fields && fields[name] == blocks[i].data)
            && (NoField(cfg, opens, PartsIn(blocks), name) ==> name !in fields)
  {
    hide Clean, Blocks, ParseFrom, ReceiveAll, SavedFiles, IsLastField, NoField, OnChunks;
    StreamRefinesWhole(cfg, opens, body, chunks);
    var blocks := Blocks(body, cfg.delimiter);
    LastFieldWins(cfg, Results(map[], [], [], opens), PartsIn(blocks), name);
    forall i: nat | i < |blocks|
      ensures i < |PartsIn(blocks)| && PartsIn(blocks)[i].Data() == blocks[i].data
    {
      PartAt(blocks, i);
    }
  }

  lemma {:induction false} PartAt(blocks: seq<Block>, i: nat)
    requires i < |blocks|
    ensures |PartsIn(blocks)| == |blocks| && PartsIn(blocks)[i] == PartIn(blocks[i])
    decreases |blocks|
  {
    hide PartIn;
    if |blocks| > 1 {
      PartAt(blocks[1..], if i > 0 then i - 1 else 0);
    }
  }

  /** The same for a body of files that can be opened: under all cuts but those right after a delimiter
      or one byte later, the two parsers return the same names and contents. */
  lemma ClearStreamRefinesWhole(cfg: Config, opens: nat, body: string, chunks: seq<string>)
    requires forall n, path :: cfg.open(n, path) >= 0
    requires Clean(body, cfg.delimiter) && forall b | b in Blocks(body, cfg.delimiter) :: FilenameIn(b.headers).Some?
    requires chunks != [] && Concat(chunks) == body && ClearCuts(cfg.delimiter, "", chunks)
    ensures OnChunks(cfg, Initial(opens), chunks).work.uploads == AsUploads(ParseFrom(body, cfg.delimiter, 0, []).files)
  {
    hide ClearCuts, Clean, Blocks, ParseFrom, FilenameIn, AsUploads;
    ClearCutsAreAllowed(cfg, Initial(opens), "", chunks);
    StreamRefinesWhole(cfg, opens, body, chunks);
    AllFilesAreSaved(cfg, opens, PartsIn(Blocks(body, cfg.delimiter)));
    SameFilesWhenAllAreFiles(Blocks(body, cfg.delimiter));
  }

  /** The upload that a file returned by `parseAll` stands for. */
  function AsUploads(files: seq<MultipartFile>): seq<Upload> {
    seq(|files|, i requires 0 <= i < |files| => Upload(files[i].filename, files[i].data))
  }

  /** When every part is a file, the two lists of names and contents are equal. */
  lemma {:induction false} SameFilesWhenAllAreFiles(blocks: seq<Block>)
    requires forall b | b in blocks :: FilenameIn(b.headers).Some?
    ensures FilesOf(PartsIn(blocks)) == AsUploads(WholeFiles(blocks))
  {
    hide FilenameIn, NameIn, ContentTypeIn;
    if blocks != [] {
      SameFilesWhenAllAreFiles(blocks[1..]);
      var file := FileFrom(blocks[0].headers, blocks[0].data);
      AsUploadsOfMore(file, WholeFiles(blocks[1..]));
      FilesOfFirst(PartIn(blocks[0]), PartsIn(blocks[1..]));
    }
  }

  lemma FilesOfFirst(part: Part, parts: seq<Part>)
    ensures FilesOf([part] + parts) == FileOf(part) + FilesOf(parts)
  {
    assert ([part] + parts)[1..] == parts;
  }

  lemma AsUploadsOfMore(first: MultipartFile, rest: seq<MultipartFile>)
    ensures AsUploads([first] + rest) == [Upload(first.filename, first.data)] + AsUploads(rest)
  {
  }

  // ---------- where the parsers differ ----------

  /** Where the headers of the part start whose delimiter stands at `at`: behind a line break, if there is one,
      but whatever else follows is taken for a header. */
  function HeadersAt(body: string, boundary: string, at: nat): nat {
    if OccursAt(body, "\r\n", at + |boundary|) then at + |boundary| + 2 else at + |boundary|
  }

  /** A turn of the loop of `parseAll` in terms of positions, on any body: the headers run to the next blank
      line, the data from there to two bytes before the next delimiter; if there are fewer than two bytes the
      length wraps around, and the data is everything up to the end of the body. */
  lemma TurnInPositions(body: string, boundary: string, pos: nat, at: nat, end: nat, next: nat)
    requires FirstFrom(body, boundary, pos, at) && !OccursAt(body, "--", at + |boundary|)
    requires FirstFrom(body, "\r\n\r\n", HeadersAt(body, boundary, at), end) && FirstFrom(body, boundary, end + 4, next)
    ensures TurnAt(body, boundary, pos)
         == Piece(body[HeadersAt(body, boundary, at)..end],
                  if next < end + 6 then body[end + 4..] else body[end + 4..next - 2], next)
  {
    hide Find;
    FoundIff(body, boundary, pos, at);
    FoundIff(body, BLANK_LINE, HeadersAt(body, boundary, at), end);
    FoundIff(body, boundary, end + 4, next);
    if next >= end + 6 {
      Drop(body, end + 4, next - end - 6);
    }
  }

  /** Whatever has been read before, `parseAll` fails on a part whose headers do not end, or behind whose
      headers no delimiter follows. */
  lemma BrokenBodyFails(body: string, boundary: string, pos: nat, at: nat, files: seq<MultipartFile>)
    requires FirstFrom(body, boundary, pos, at) && !OccursAt(body, "--", at + |boundary|)
    requires var start := HeadersAt(body, boundary, at);
             || Find(body, "\r\n\r\n", start).None?
             || Find(body, boundary, Find(body, "\r\n\r\n", start).value + 4).None?
    ensures ParseFrom(body, boundary, pos, files) == Parsed(false, files)
  {
    hide Find, OccursAt, FirstFrom;
    FoundIff(body, boundary, pos, at);
    assert BLANK_LINE == "\r\n\r\n" && CRLF == "\r\n";
    assert TurnAt(body, boundary, pos).Broken?;
  }

  /** The streaming parser takes the data of such a part to be empty. */
  lemma ShortDataIsEmpty(cfg: Config, text: string, n: nat, w: Work)
    requires FirstFrom(text, cfg.delimiter, 0, n) && n < 2 && w.fieldValue == ""
    ensures Step(cfg, Parser(ReadData, text, w)) == Go(Parser(ScanBoundary, text[n..], w.Sink("").EndPart()))
  {
    hide Find;
    FoundIff(text, cfg.delimiter, 0, n);
    assert text[..0] == "";
  }

  // ---------- encoded bodies ----------

  function BlocksOf(parts: seq<Part>): seq<Block> {
    if parts == [] then [] else [Block(PartHeaders(parts[0]), parts[0].Data())] + BlocksOf(parts[1..])
  }

  lemma EncodedBlock(delimiter: string, part: Part, rest: string)
    requires Unfolded(delimiter) && |delimiter| > 0 && Encodable(delimiter, part)
    ensures BlockOf(PartHeaders(part) + (BLANK_LINE + (part.Data() + (CRLF + (delimiter + rest)))), delimiter)
         == Next(Block(PartHeaders(part), part.Data()), delimiter + rest)
  {
    hide Find, Joined, HeaderLines, Unfolded, Part.Data;
    var data := part.Data() + (CRLF + (delimiter + rest));
    LinesAreSound(delimiter, part);
    BlankLineIsFound(HeaderLines(part), data);
    CutBlock(PartHeaders(part), data);
    DataEnds(delimiter, part.Data(), rest);
    CutData(part.Data(), delimiter + rest);
  }

  lemma CutData(data: string, rest: string)
    ensures (data + (CRLF + rest))[..|data|] == data
    ensures (data + (CRLF + rest))[|data| + 2..] == rest
  {
  }

  lemma EncodedOpening(delimiter: string, pre: string, part: Part, rest: string)
    requires Preamble(delimiter, pre) && Unfolded(delimiter) && |delimiter| > 0 && Encodable(delimiter, part)
    ensures OpeningOf(pre + EncodePart(delimiter, part, delimiter + rest), delimiter)
         == Next(Block(PartHeaders(part), part.Data()), delimiter + rest)
  {
    hide Find, BlockOf;
    var opening := AfterOpening(part, delimiter + rest);
    FirstDelimiter(delimiter, pre, opening);
    assert opening[..2] == CRLF;
    assert opening[2..] == PartHeaders(part) + (BLANK_LINE + (part.Data() + (CRLF + (delimiter + rest))));
    EncodedBlock(delimiter, part, rest);
  }

  /** Every encoded body is clean, and its blocks are its parts. */
  lemma {:induction false} EncodedIsClean(delimiter: string, pre: string, parts: seq<Part>, epilogue: string)
    requires |delimiter| > 0 && WellFormed(delimiter, pre, parts)
    ensures var body := Encode(delimiter, pre, parts, epilogue);
            Clean(body, delimiter) && Blocks(body, delimiter) == BlocksOf(parts)
    decreases |parts|
  {
    hide OpeningOf, PartHeaders, Find;
    if parts == [] {
      EncodedEnd(delimiter, pre, epilogue);
    } else {
      var rest := AfterFirst(delimiter, parts[1..], epilogue);
      EncodedOpening(delimiter, pre, parts[0], rest);
      EmptyPreamble(delimiter);
      EncodedIsClean(delimiter, "", parts[1..], epilogue);
      assert "" + EncodeParts(delimiter, parts[1..], epilogue) == delimiter + rest;
    }
  }

  lemma EncodedEnd(delimiter: string, pre: string, epilogue: string)
    requires Preamble(delimiter, pre)
    ensures OpeningOf(pre + (delimiter + ("--" + epilogue)), delimiter).Closing?
  {
    hide Find;
    FirstDelimiter(delimiter, pre, "--" + epilogue);
    assert ("--" + epilogue)[..2] == "--";
  }

  lemma FilenameOfPart(delimiter: string, part: Part)
    requires Encodable(delimiter, part)
    ensures FilenameIn(PartHeaders(part)) == if part.FilePart? then Some(part.filename) else None
  {
    hide Find, Quoted, PartHeaders, FromDisposition, Encodable;
    DispositionStarts(delimiter, part);
    QuotedShifts(PartHeaders(part), FILENAME_KEY, Offset(part.before));
    FilenameIsRead(delimiter, part);
  }

  /** The first header line that mentions a content type starts with it, and goes on with `contentType`. */
  ghost predicate TypedAs(part: Part, contentType: string) {
    exists k: nat :: k < |HeaderLines(part)| && TypeLineAt(HeaderLines(part), k, contentType)
  }

  predicate TypeLineAt(lines: seq<string>, k: nat, contentType: string)
    requires k < |lines|
  {
    lines[k] == "Content-Type:" + contentType && LacksKey("Content-Type:", lines[..k])
  }

  /** The content type that `parseAll` reads is everything behind the colon of that line, a blank included. */
  lemma TypeOfLines(lines: seq<string>, k: nat, contentType: string)
    requires k < |lines| && TypeLineAt(lines, k, contentType) && SoundLine(lines[k])
    ensures ContentTypeIn(Joined(lines)) == contentType
  {
    hide Find, LacksKey, ContentTypeIn, Joined, SoundLine, OccursAt;
    var before, tail := lines[..k], lines[k + 1..];
    assert lines == before + ([lines[k]] + tail);
    JoinedStarts(lines[k], tail);
    var rest := if tail == [] then "" else CRLF + Joined(tail);
    assert "Content-Type:" + contentType + rest == TYPE_KEY + (contentType + rest);
    KeyStandsFirst(TYPE_KEY, contentType + rest);
    assert Unfolded(TYPE_KEY);
    KeyBehindLines(TYPE_KEY, before, [lines[k]] + tail);
    JoinedSplits(before, [lines[k]] + tail);
    TailIsSound(contentType);
    TypeRunsOut(Joined(lines), Offset(before), contentType, rest);
  }

  lemma TypeRunsOut(headers: string, at: nat, contentType: string, rest: string)
    requires at <= |headers| && headers[at..] == TYPE_KEY + (contentType + rest)
    requires Find(headers, TYPE_KEY, 0) == Some(at)
    requires '\r' !in contentType && (rest == "" || (|rest| >= 2 && rest[..2] == CRLF))
    ensures ContentTypeIn(headers) == contentType
  {
    hide Find, OccursAt;
    var start := at + |TYPE_KEY|;
    Drop(headers, at, |TYPE_KEY|);
    assert (TYPE_KEY + (contentType + rest))[|TYPE_KEY|..] == contentType + rest;
    FindShifts(headers, CRLF, start);
    LineRunsOut(contentType, rest);
    if rest == "" {
      assert contentType + rest == contentType;
    } else {
      Drop(headers, start, |contentType|);
      assert (contentType + rest)[..|contentType|] == contentType;
    }
  }

  lemma TailIsSound(contentType: string)
    requires SoundLine("Content-Type:" + contentType)
    ensures '\r' !in contentType
  {
    assert forall c | c in contentType :: c in "Content-Type:" + contentType;
  }

  lemma KeyStandsFirst(key: string, rest: string)
    ensures Find(key + rest, key, 0) == Some(0)
  {
    assert (key + rest)[0..|key|] == key;
  }

  /** A line ends at the first line break, if there is one. */
  lemma LineRunsOut(line: string, rest: string)
    requires '\r' !in line && (rest == "" || (|rest| >= 2 && rest[..2] == CRLF))
    ensures Find(line + rest, CRLF, 0) == if rest == "" then None else Some(|line|)
  {
    hide Find;
    var text := line + rest;
    forall j: nat | j < |line|
      ensures !OccursAt(text, CRLF, j)
    {
      assert text[j] == line[j];
      CharAt(text, CRLF, j, 0);
    }
    if rest == "" {
      NoneIsFound(text, CRLF, 0);
    } else {
      assert text[|line|..|line| + 2] == rest[..2];
      FirstIsFound(text, CRLF, 0, |line|);
    }
  }

  lemma NoType(lines: seq<string>)
    requires lines != [] && LacksKey("Content-Type:", lines)
    ensures ContentTypeIn(Joined(lines)) == ""
  {
    assert Unfolded(TYPE_KEY);
    NoKeyInLines(TYPE_KEY, lines);
  }

  lemma {:induction false} WholeFileAt(parts: seq<Part>, i: nat)
    requires i < |parts|
    ensures |WholeFiles(BlocksOf(parts))| == |parts|
    ensures WholeFiles(BlocksOf(parts))[i] == FileFrom(PartHeaders(parts[i]), parts[i].Data())
    decreases |parts|
  {
    hide PartHeaders, FileFrom;
    var first := Block(PartHeaders(parts[0]), parts[0].Data());
    assert BlocksOf(parts) == [first] + BlocksOf(parts[1..]);
    assert ([first] + BlocksOf(parts[1..]))[1..] == BlocksOf(parts[1..]);
    if |parts| > 1 {
      WholeFileAt(parts[1..], if i > 0 then i - 1 else 0);
    } else {
      assert BlocksOf(parts[1..]) == [];
    }
  }

  /** `parseAll` undoes the encoder: one record for each part, in order, with its file name, if any, its data,
      and the content type that its headers declare, if any; failure exactly when there is no part at all. */
  lemma WholeRoundTrip(delimiter: string, preamble: string, parts: seq<Part>, epilogue: string)
    requires |delimiter| > 0 && WellFormed(delimiter, preamble, parts)
    ensures var parsed := ParseFrom(Encode(delimiter, preamble, parts, epilogue), delimiter, 0, []);
            && (parsed.ok <==> parts != []) && |parsed.files| == |parts|
            && forall i: nat | i < |parts| ::
                 && parsed.files[i].filename == (if parts[i].FilePart? then parts[i].filename else "")
                 && parsed.files[i].data == parts[i].Data()
                 && (forall t | TypedAs(parts[i], t) :: parsed.files[i].contentType == t)
                 && (LacksKey("Content-Type:", HeaderLines(parts[i])) ==> parsed.files[i].contentType == "")
  {
    hide Clean, Blocks, BlocksOf, WholeFiles, ParseFrom, Encode, FileFrom, Encodable, Preamble, Find, TypedAs, LacksKey;
    var body := Encode(delimiter, preamble, parts, epilogue);
    EncodedIsClean(delimiter, preamble, parts, epilogue);
    assert body[0..] == body;
    WholeReadsBlocks(body, delimiter, 0, []);
    var files := WholeFiles(BlocksOf(parts));
    assert [] + files == files;
    NoFilesOfNoParts();
    if parts != [] {
      WholeFileAt(parts, 0);
    }
    forall i: nat | i < |parts|
      ensures && files[i].filename == (if parts[i].FilePart? then parts[i].filename else "")
              && files[i].data == parts[i].Data()
              && (forall t | TypedAs(parts[i], t) :: files[i].contentType == t)
              && (LacksKey("Content-Type:", HeaderLines(parts[i])) ==> files[i].contentType == "")
    {
      WholeFileAt(parts, i);
      RecordOfPart(delimiter, parts[i]);
    }
  }

  lemma NoFilesOfNoParts()
    ensures WholeFiles(BlocksOf([])) == []
  {
  }

  lemma RecordOfPart(delimiter: string, part: Part)
    requires Encodable(delimiter, part)
    ensures var file := FileFrom(PartHeaders(part), part.Data());
            && file.filename == (if part.FilePart? then part.filename else "") && file.data == part.Data()
            && (forall t | TypedAs(part, t) :: file.contentType == t)
            && (LacksKey("Content-Type:", HeaderLines(part)) ==> file.contentType == "")
  {
    hide FilenameIn, ContentTypeIn, Joined, Encodable, LacksKey, HeaderLines;
    FilenameOfPart(delimiter, part);
    LinesAreSound(delimiter, part);
    forall t | TypedAs(part, t)
      ensures ContentTypeIn(PartHeaders(part)) == t
    {
      var k: nat :| k < |HeaderLines(part)| && TypeLineAt(HeaderLines(part), k, t);
      TypeOfLines(HeaderLines(part), k, t);
    }
    if LacksKey("Content-Type:", HeaderLines(part)) {
      NoType(HeaderLines(part));
    }
  }
}
