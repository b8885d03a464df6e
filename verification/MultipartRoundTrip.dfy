/** The streaming parser undoes a multipart/form-data encoder (section 5.1.1 of RFC 2046,
    sections 4.1 and 4.2 of RFC 7578), however the body is cut. */
module MultipartRoundTrip {
  import opened Wrappers
  import opened Bytes
  import opened MultipartStream
  import opened MultipartCuts

  /** A form field or a file, with the header lines that stand before and behind its Content-Disposition. */
  datatype Part =
    | FieldPart(name: string, value: string, before: seq<string> := [], behind: seq<string> := [])
    | FilePart(name: string, filename: string, contents: string, before: seq<string> := [], behind: seq<string> := [])
  {
    function Data(): string {
      if FieldPart? then value else contents
    }
  }

  const FORM_DATA: string := "Content-Disposition: form-data; "

  function NameLine(name: string): string {
    FORM_DATA + NAME_KEY + name + "\""
  }

  function FileLine(name: string, filename: string): string {
    NameLine(name) + "; " + FILENAME_KEY + filename + "\""
  }

  function DispositionLine(part: Part): string {
    if part.FieldPart? then NameLine(part.name) else FileLine(part.name, part.filename)
  }

  function HeaderLines(part: Part): (lines: seq<string>)
    ensures lines != []
  {
    part.before + ([DispositionLine(part)] + part.behind)
  }

  /** Lines with line breaks between them. */
  function Joined(lines: seq<string>): string {
    if lines == [] then ""
    else if |lines| == 1 then lines[0]
    else lines[0] + (CRLF + Joined(lines[1..]))
  }

  function PartHeaders(part: Part): string {
    Joined(HeaderLines(part))
  }

  /** One part, starting at its delimiter, followed by `next`. */
  function EncodePart(delimiter: string, part: Part, next: string): string {
    delimiter + AfterOpening(part, next)
  }

  function AfterOpening(part: Part, next: string): string {
    CRLF + (PartHeaders(part) + (BLANK_LINE + (part.Data() + (CRLF + next))))
  }

  function EncodeParts(delimiter: string, parts: seq<Part>, epilogue: string): string {
    if parts == [] then delimiter + ("--" + epilogue)
    else EncodePart(delimiter, parts[0], EncodeParts(delimiter, parts[1..], epilogue))
  }

  function Encode(delimiter: string, preamble: string, parts: seq<Part>, epilogue: string): string {
    preamble + EncodeParts(delimiter, parts, epilogue)
  }

  // ---------- what may be encoded ----------

  predicate EndsWith(text: string, suffix: string) {
    |suffix| <= |text| && text[|text| - |suffix|..] == suffix
  }

  predicate Plain(text: string) {
    '"' !in text && '\r' !in text && '\n' !in text
  }

  /** A header line of its own. */
  predicate SoundLine(line: string) {
    line != "" && '\r' !in line
  }

  predicate LacksKey(key: string, lines: seq<string>) {
    forall line | line in lines :: Find(line, key, 0).None?
  }

  /** No line before the Content-Disposition holds another one, and none behind that of a field a file name. */
  predicate Encodable(delimiter: string, part: Part) {
    && Plain(part.name) && !EndsWith(part.name, "filename=") && (part.FilePart? ==> Plain(part.filename))
    && (forall line | line in part.before + part.behind :: SoundLine(line))
    && LacksKey(DISPOSITION, part.before) && (part.FieldPart? ==> LacksKey(FILENAME_KEY, part.behind))
    && Find(part.Data(), delimiter, 0).None?
  }

  predicate Unfolded(delimiter: string) {
    '\r' !in delimiter && '\n' !in delimiter
  }

  /** The first delimiter of the body is the one that ends the preamble. */
  predicate Preamble(delimiter: string, preamble: string) {
    Find(preamble + delimiter, delimiter, 0) == Some(|preamble|)
  }

  // ---------- what must be received ----------

  datatype Results = Results(fields: map<string, string>, savedFiles: seq<string>, uploads: seq<Upload>, opens: nat)

  function ResultsOf(w: Work): Results {
    Results(w.fields, w.savedFiles, w.uploads, w.opens)
  }

  /** A file whose `open` succeeds is saved; one whose `open` fails ends up as a form field. */
  function Receive(cfg: Config, r: Results, part: Part): Results {
    match part
    case FieldPart(name, value, _, _) => r.(fields := r.fields[name := value])
    case FilePart(name, filename, contents, _, _) =>
      if cfg.open(r.opens, cfg.uploadDir + filename) >= 0 then
        r.(savedFiles := r.savedFiles + [filename],
           uploads := r.uploads + [Upload(filename, contents)],
           opens := r.opens + 1)
      else
        r.(fields := r.fields[name := contents], opens := r.opens + 1)
  }

  function ReceiveAll(cfg: Config, r: Results, parts: seq<Part>): Results
    decreases |parts|
  {
    if parts == [] then r else ReceiveAll(cfg, Receive(cfg, r, parts[0]), parts[1..])
  }

  // ---------- finding the parameters ----------

  lemma CharAt(text: string, pattern: string, j: nat, k: nat)
    requires k < |pattern|
    ensures OccursAt(text, pattern, j) ==> text[j + k] == pattern[k]
  {
    if OccursAt(text, pattern, j) {
      assert text[j..j + |pattern|][k] == pattern[k];
    }
  }

  /** A key that ends in a quote is first found where the text first has a quote. */
  lemma KeyAtFirstQuote(pre: string, stem: string, rest: string, from: nat)
    requires '"' !in pre && '"' !in stem && from <= |pre|
    ensures Find(pre + (stem + "\"") + rest, stem + "\"", from) == Some(|pre|)
  {
    var key := stem + "\"";
    var text := pre + key + rest;
    assert text[|pre|..|pre| + |key|] == key;
    forall j: nat | from <= j < |pre|
      ensures !OccursAt(text, key, j)
    {
      assert text[j + |stem|] == (pre + stem)[j + |stem|];
      CharAt(text, key, j, |stem|);
    }
    FirstIsFound(text, key, from, |pre|);
  }

  lemma QuotedValue(text: string, pre: string, key: string, value: string, rest: string, from: nat)
    requires text == pre + key + value + "\"" + rest
    requires '"' !in value && Find(text, key, from) == Some(|pre|)
    ensures Quoted(text, key, from) == Some(value)
  {
    var start, end := |pre| + |key|, |pre| + |key| + |value|;
    assert text[start..end] == value;
    assert text[end..end + 1] == "\"";
    forall j: nat | start <= j < end
      ensures !OccursAt(text, "\"", j)
    {
      assert text[j] == value[j - start];
      CharAt(text, "\"", j, 0);
    }
    FirstIsFound(text, "\"", start, end);
  }

  lemma NameIsFound(name: string, rest: string)
    requires '"' !in name
    ensures Quoted(NameLine(name) + rest, NAME_KEY, 0) == Some(name)
  {
    var text := NameLine(name) + rest;
    assert NAME_KEY == "name=" + "\"";
    assert text == FORM_DATA + NAME_KEY + (name + "\"" + rest);
    KeyAtFirstQuote(FORM_DATA, "name=", name + "\"" + rest, 0);
    assert text == FORM_DATA + NAME_KEY + name + "\"" + rest;
    QuotedValue(text, FORM_DATA, NAME_KEY, name, rest, 0);
  }

  /** The quotes of a name line stand around the name. */
  lemma QuotesOfNameLine(name: string, j: nat)
    requires '"' !in name && j < |NameLine(name)|
    ensures NameLine(name)[j] == '"' <==> j == |FORM_DATA| + 5 || j == |NameLine(name)| - 1
  {
    assert '"' !in FORM_DATA + "name=";
    assert NameLine(name) == (FORM_DATA + "name=") + "\"" + name + "\"";
  }

  /** A name line holds a file name parameter only if the name itself ends in one. */
  lemma FilenameInNameLine(name: string, j: nat)
    requires '"' !in name && OccursAt(NameLine(name), FILENAME_KEY, j)
    ensures EndsWith(name, "filename=")
  {
    var line := NameLine(name);
    assert line[j..j + 10] == FILENAME_KEY;
    QuotesOfNameLine(name, j + 9);
    if j + 9 == |FORM_DATA| + 5 {
      assert line[|FORM_DATA| - 1] == FORM_DATA[|FORM_DATA| - 1] == ' ';
      CharAt(line, FILENAME_KEY, j, 3);
    } else if |name| >= 9 {
      assert line[j..j + 9] == name[|name| - 9..];
      assert FILENAME_KEY[..9] == "filename=";
      assert line[j..j + 9] == line[j..j + 10][..9];
    } else {
      var k := |FORM_DATA| + 5 - j;
      QuotesOfNameLine(name, j + k);
      CharAt(line, FILENAME_KEY, j, k);
    }
  }

  lemma NoFilename(name: string)
    requires '"' !in name && !EndsWith(name, "filename=")
    ensures Quoted(NameLine(name), FILENAME_KEY, 0) == None
  {
    forall j: nat
      ensures !OccursAt(NameLine(name), FILENAME_KEY, j)
    {
      if OccursAt(NameLine(name), FILENAME_KEY, j) {
        FilenameInNameLine(name, j);
      }
    }
    NoneIsFound(NameLine(name), FILENAME_KEY, 0);
  }

  lemma FilenameIsFound(name: string, filename: string, rest: string)
    requires '"' !in name && !EndsWith(name, "filename=") && '"' !in filename
    ensures Quoted(FileLine(name, filename) + rest, FILENAME_KEY, 0) == Some(filename)
  {
    hide Find, Quoted, OccursAt, NameLine, EndsWith;
    var pre := NameLine(name) + "; ";
    var tail := filename + "\"" + rest;
    var text := FileLine(name, filename) + rest;
    assert text == pre + (FILENAME_KEY + tail) && text == pre + FILENAME_KEY + filename + "\"" + rest;
    forall j: nat | j < |pre|
      ensures !OccursAt(pre + (FILENAME_KEY + tail), FILENAME_KEY, j)
    {
      NoFilenameBefore(name, tail, j);
    }
    KeyStandsAt(pre, FILENAME_KEY, tail);
    FirstIsFound(text, FILENAME_KEY, 0, |pre|);
    QuotedValue(text, pre, FILENAME_KEY, filename, rest, 0);
  }

  lemma KeyStandsAt(pre: string, key: string, rest: string)
    ensures OccursAt(pre + (key + rest), key, |pre|)
  {
    assert (pre + (key + rest))[|pre|..|pre| + |key|] == key;
  }

  /** The key of the file name does not stand earlier in the line. */
  lemma NoFilenameBefore(name: string, tail: string, j: nat)
    requires '"' !in name && !EndsWith(name, "filename=") && j < |NameLine(name)| + 2
    ensures !OccursAt(NameLine(name) + "; " + (FILENAME_KEY + tail), FILENAME_KEY, j)
  {
    hide NameLine, EndsWith;
    var line := NameLine(name);
    var text := line + "; " + (FILENAME_KEY + tail);
    if j + 10 <= |line| {
      assert text == line + ("; " + (FILENAME_KEY + tail));
      OccursInPrefix(line, "; " + (FILENAME_KEY + tail), FILENAME_KEY, j);
      if OccursAt(line, FILENAME_KEY, j) {
        FilenameInNameLine(name, j);
      }
    } else {
      CharAt(text, FILENAME_KEY, j, 9);
      BetweenQuotes(line, tail, j + 9);
    }
  }

  /** No quote stands between the name and the file name. */
  lemma BetweenQuotes(line: string, tail: string, i: nat)
    requires |line| <= i < |line| + 11
    ensures (line + "; " + (FILENAME_KEY + tail))[i] != '"'
  {
    assert (line + "; " + (FILENAME_KEY + tail))[|line|..|line| + 11] == "; filename=";
    assert (line + "; " + (FILENAME_KEY + tail))[i] == "; filename="[i - |line|];
    assert '"' !in "; filename=";
  }

  lemma DispositionIsFound(headers: string)
    requires |headers| >= 20 && headers[..20] == DISPOSITION
    ensures Find(headers, DISPOSITION, 0) == Some(0)
  {
  }

  lemma NameLineStarts(name: string, rest: string)
    ensures Find(NameLine(name) + rest, DISPOSITION, 0) == Some(0)
  {
    assert FORM_DATA[..20] == DISPOSITION;
    assert (NameLine(name) + rest)[..20] == FORM_DATA[..20];
    DispositionIsFound(NameLine(name) + rest);
  }

  /** What `processHeader` makes of the headers of an encoded part. */
  function Opened(cfg: Config, part: Part, w: Work): Work {
    var named := w.(headers := PartHeaders(part), name := part.name, filename := "", isFile := false);
    if part.FieldPart? then named
    else named.(filename := part.filename, isFile := true, written := "",
                fileFd := cfg.open(w.opens, cfg.uploadDir + part.filename), opens := w.opens + 1)
  }

  /** A key in a later line is found behind a line that lacks it. */
  lemma KeyBehindLine(key: string, line: string, text: string)
    requires Unfolded(key) && |key| > 0 && Find(line, key, 0).None? && Find(text, key, 0).Some?
    ensures Find(line + (CRLF + text), key, 0) == Some(|line| + 2 + Find(text, key, 0).value)
  {
    hide Find, Unfolded, OccursAt;
    var all := line + (CRLF + text);
    FindIsFirst(line, key, 0);
    forall j: nat | j < |line| + 2
      ensures !OccursAt(all, key, j)
    {
      NoDelimiterBefore(key, line, text, j);
    }
    FindSkips(all, key, |line| + 2);
    FindBehindLine(line, text, key);
  }

  lemma FindBehindLine(line: string, text: string, key: string)
    ensures Find(line + (CRLF + text), key, |line| + 2)
         == match Find(text, key, 0) case None => None case Some(p) => Some(p + |line| + 2)
  {
    hide Find;
    assert (line + (CRLF + text))[|line| + 2..] == text;
    FindShifts(line + (CRLF + text), key, |line| + 2);
  }

  /** Where `lines` start in the block that begins with the lines `before`. */
  function Offset(before: seq<string>): nat {
    if before == [] then 0 else |before[0]| + 2 + Offset(before[1..])
  }

  lemma {:induction false} JoinedSplits(before: seq<string>, lines: seq<string>)
    requires lines != []
    ensures |Joined(before + lines)| == Offset(before) + |Joined(lines)|
    ensures Joined(before + lines)[Offset(before)..] == Joined(lines)
    decreases |before|
  {
    if before == [] {
      assert before + lines == lines;
    } else {
      assert (before + lines)[1..] == before[1..] + lines;
      JoinedSplits(before[1..], lines);
      var rest := Joined(before[1..] + lines);
      assert Joined(before + lines) == before[0] + (CRLF + rest);
      assert (before[0] + (CRLF + rest))[|before[0]| + 2..] == rest;
    }
  }

  /** A key that a line starts with is first found there when the lines before lack it. */
  lemma {:induction false} KeyBehindLines(key: string, before: seq<string>, lines: seq<string>)
    requires Unfolded(key) && |key| > 0 && LacksKey(key, before)
    requires lines != [] && Find(Joined(lines), key, 0) == Some(0)
    ensures Find(Joined(before + lines), key, 0) == Some(Offset(before))
    decreases |before|
  {
    hide Find, Unfolded;
    if before == [] {
      assert before + lines == lines;
    } else {
      assert (before + lines)[1..] == before[1..] + lines;
      assert before[0] in before && forall line | line in before[1..] :: line in before;
      KeyBehindLines(key, before[1..], lines);
      KeyBehindLine(key, before[0], Joined(before[1..] + lines));
    }
  }

  /** Lines that lack a key lack it when they are joined. */
  lemma {:induction false} NoKeyInLines(key: string, lines: seq<string>)
    requires Unfolded(key) && |key| > 0 && LacksKey(key, lines) && lines != []
    ensures Find(Joined(lines), key, 0).None?
    decreases |lines|
  {
    hide Find, Unfolded;
    assert lines[0] in lines;
    if |lines| > 1 {
      assert forall line | line in lines[1..] :: line in lines;
      NoKeyInLines(key, lines[1..]);
      NoDelimiterInJoin(key, lines[0], Joined(lines[1..]));
    }
  }

  lemma QuotedShifts(text: string, key: string, from: nat)
    requires from <= |text|
    ensures Quoted(text, key, from) == Quoted(text[from..], key, 0)
  {
    hide Find;
    FindShifts(text, key, from);
    if Find(text, key, from).Some? {
      var start := Find(text[from..], key, 0).value + |key|;
      FindShifts(text, "\"", from + start);
      FindShifts(text[from..], "\"", start);
      Drop(text, from, start);
      if Find(text[from..], "\"", start).Some? {
        var end := Find(text[from..], "\"", start).value;
        assert text[from..][start..end] == text[from + start..from + end];
      }
    }
  }

  /** The disposition line and what follows it. */
  function FromDisposition(part: Part): string {
    Joined([DispositionLine(part)] + part.behind)
  }

  lemma JoinedStarts(line: string, lines: seq<string>)
    ensures Joined([line] + lines) == line + if lines == [] then "" else CRLF + Joined(lines)
  {
    assert ([line] + lines)[1..] == lines;
  }

  lemma DispositionStarts(delimiter: string, part: Part)
    requires Encodable(delimiter, part)
    ensures var cd := Offset(part.before);
            && cd <= |PartHeaders(part)| && PartHeaders(part)[cd..] == FromDisposition(part)
            && Find(PartHeaders(part), DISPOSITION, 0) == Some(cd)
  {
    hide Find, Joined, DispositionLine;
    DispositionIsFirst(part);
    assert Unfolded(DISPOSITION);
    var lines := [DispositionLine(part)] + part.behind;
    JoinedSplits(part.before, lines);
    KeyBehindLines(DISPOSITION, part.before, lines);
  }

  lemma DispositionIsFirst(part: Part)
    ensures Find(FromDisposition(part), DISPOSITION, 0) == Some(0)
  {
    hide Find, NameLine;
    var rest := if part.behind == [] then "" else CRLF + Joined(part.behind);
    JoinedStarts(DispositionLine(part), part.behind);
    if part.FieldPart? {
      NameLineStarts(part.name, rest);
    } else {
      var tail := "; " + FILENAME_KEY + part.filename + "\"";
      assert DispositionLine(part) + rest == NameLine(part.name) + (tail + rest);
      NameLineStarts(part.name, tail + rest);
    }
  }

  lemma NameIsRead(delimiter: string, part: Part)
    requires Encodable(delimiter, part)
    ensures Quoted(FromDisposition(part), NAME_KEY, 0) == Some(part.name)
  {
    hide Quoted, Find;
    var rest := if part.behind == [] then "" else CRLF + Joined(part.behind);
    JoinedStarts(DispositionLine(part), part.behind);
    if part.FieldPart? {
      NameIsFound(part.name, rest);
    } else {
      var tail := "; " + FILENAME_KEY + part.filename + "\"";
      assert DispositionLine(part) + rest == NameLine(part.name) + (tail + rest);
      NameIsFound(part.name, tail + rest);
    }
  }

  lemma FilenameIsRead(delimiter: string, part: Part)
    requires Encodable(delimiter, part)
    ensures Quoted(FromDisposition(part), FILENAME_KEY, 0) == if part.FilePart? then Some(part.filename) else None
  {
    hide Find, NameLine;
    if part.FieldPart? {
      var lines := [DispositionLine(part)] + part.behind;
      NoFilename(part.name);
      assert forall line | line in lines :: line == NameLine(part.name) || line in part.behind;
      NoKeyInLines(FILENAME_KEY, lines);
    } else {
      JoinedStarts(DispositionLine(part), part.behind);
      FilenameIsFound(part.name, part.filename, if part.behind == [] then "" else CRLF + Joined(part.behind));
    }
  }

  lemma HeadersAreRead(cfg: Config, part: Part, w: Work)
    requires Encodable(cfg.delimiter, part)
    ensures ProcessHeader(cfg, PartHeaders(part), w) == Opened(cfg, part, w)
  {
    hide Find, Quoted, PartHeaders, FromDisposition, Encodable;
    DispositionStarts(cfg.delimiter, part);
    QuotedShifts(PartHeaders(part), NAME_KEY, Offset(part.before));
    QuotedShifts(PartHeaders(part), FILENAME_KEY, Offset(part.before));
    NameIsRead(cfg.delimiter, part);
    FilenameIsRead(cfg.delimiter, part);
  }

  // ---------- reading one part ----------

  /** A block of lines ends at its first blank line. */
  lemma {:induction false} BlankLineIsFound(lines: seq<string>, rest: string)
    requires lines != [] && forall line | line in lines :: SoundLine(line)
    ensures Find(Joined(lines) + (BLANK_LINE + rest), BLANK_LINE, 0) == Some(|Joined(lines)|)
    decreases |lines|
  {
    hide Find, OccursAt, SoundLine, Joined;
    var line, end := lines[0], BLANK_LINE + rest;
    assert SoundLine(line);
    if |lines| == 1 {
      OneLine(lines);
      BlankLineAtOnce(line, rest);
    } else {
      var next := Joined(lines[1..]);
      assert forall l | l in lines[1..] :: l in lines;
      assert SoundLine(lines[1..][0]);
      BlankLineIsFound(lines[1..], rest);
      StartsSoundly(lines[1..]);
      BlankLineLater(line, next + end, |next|);
      FirstLine(lines, end);
    }
  }

  lemma OneLine(lines: seq<string>)
    requires |lines| == 1
    ensures Joined(lines) == lines[0]
  {
  }

  lemma FirstLine(lines: seq<string>, end: string)
    requires |lines| > 1
    ensures Joined(lines) + end == lines[0] + (CRLF + (Joined(lines[1..]) + end))
    ensures |Joined(lines)| == |lines[0]| + 2 + |Joined(lines[1..])|
  {
    var line, next := lines[0], Joined(lines[1..]);
    assert line + (CRLF + next) + end == line + (CRLF + (next + end));
  }

  lemma StartsSoundly(lines: seq<string>)
    requires lines != [] && SoundLine(lines[0])
    ensures Joined(lines) != "" && Joined(lines)[0] != '\r'
  {
  }

  lemma BlankLineAtOnce(line: string, rest: string)
    requires SoundLine(line)
    ensures Find(line + (BLANK_LINE + rest), BLANK_LINE, 0) == Some(|line|)
  {
    hide Find;
    var text := line + (BLANK_LINE + rest);
    assert text[|line|..|line| + 4] == BLANK_LINE;
    forall j: nat | j < |line|
      ensures !OccursAt(text, BLANK_LINE, j)
    {
      assert text[j] == line[j];
      CharAt(text, BLANK_LINE, j, 0);
    }
    FirstIsFound(text, BLANK_LINE, 0, |line|);
  }

  /** None starts in a line, nor in the line break behind it. */
  lemma BlankLineLater(line: string, text: string, p: nat)
    requires SoundLine(line) && text != "" && text[0] != '\r' && Find(text, BLANK_LINE, 0) == Some(p)
    ensures Find(line + (CRLF + text), BLANK_LINE, 0) == Some(|line| + 2 + p)
  {
    hide Find, OccursAt, SoundLine;
    forall j: nat | j < |line| + 2
      ensures !OccursAt(line + (CRLF + text), BLANK_LINE, j)
    {
      NotInLineBreak(line, text, j);
    }
    FindSkips(line + (CRLF + text), BLANK_LINE, |line| + 2);
    FindBehindLine(line, text, BLANK_LINE);
  }

  lemma NotInLineBreak(line: string, text: string, j: nat)
    requires SoundLine(line) && text != "" && text[0] != '\r' && j < |line| + 2
    ensures !OccursAt(line + (CRLF + text), BLANK_LINE, j)
  {
    var all := line + (CRLF + text);
    CharAt(all, BLANK_LINE, j, 0);
    CharAt(all, BLANK_LINE, j, 2);
    if j < |line| {
      assert all[j] == line[j];
    } else {
      assert all[|line| + 1] == '\n' && all[|line| + 2] == text[0];
    }
  }

  lemma LinesAreSound(delimiter: string, part: Part)
    requires Encodable(delimiter, part)
    ensures forall line | line in HeaderLines(part) :: SoundLine(line)
  {
    hide SoundLine, DispositionLine, Plain, Find;
    DispositionIsSound(delimiter, part);
    forall line | line in HeaderLines(part)
      ensures line == DispositionLine(part) || line in part.before + part.behind
    {
    }
  }

  lemma DispositionIsSound(delimiter: string, part: Part)
    requires Encodable(delimiter, part)
    ensures SoundLine(DispositionLine(part))
  {
    hide Find, NameLine, FileLine, LacksKey;
    NoReturnInName(part.name);
    if part.FilePart? {
      NoReturnInFile(part.name, part.filename);
    }
  }

  lemma NoReturnInName(name: string)
    requires Plain(name)
    ensures NameLine(name) != "" && '\r' !in NameLine(name)
  {
    assert '\r' !in FORM_DATA && '\r' !in NAME_KEY;
  }

  lemma NoReturnInFile(name: string, filename: string)
    requires Plain(name) && Plain(filename)
    ensures FileLine(name, filename) != "" && '\r' !in FileLine(name, filename)
  {
    hide NameLine;
    NoReturnInName(name);
    assert '\r' !in FILENAME_KEY && '\r' !in "; ";
  }

  lemma NoDelimiterBefore(delimiter: string, data: string, rest: string, j: nat)
    requires Unfolded(delimiter) && |delimiter| > 0 && !OccursAt(data, delimiter, j) && j < |data| + 2
    ensures !OccursAt(data + (CRLF + rest), delimiter, j)
  {
    if j + |delimiter| <= |data| {
      OccursInPrefix(data, CRLF + rest, delimiter, j);
    } else {
      CharAt(data + (CRLF + rest), delimiter, j, if j <= |data| then |data| - j else 0);
    }
  }

  /** Data free of the delimiter runs up to the line break in front of the next delimiter. */
  lemma DataEnds(delimiter: string, data: string, rest: string)
    requires Unfolded(delimiter) && |delimiter| > 0 && Find(data, delimiter, 0).None?
    ensures Find(data + (CRLF + (delimiter + rest)), delimiter, 0) == Some(|data| + 2)
  {
    hide Find, Unfolded;
    var text := data + (CRLF + (delimiter + rest));
    assert text[|data| + 2..|data| + 2 + |delimiter|] == delimiter;
    FindIsFirst(data, delimiter, 0);
    forall j: nat | j < |data| + 2
      ensures !OccursAt(text, delimiter, j)
    {
      NoDelimiterBefore(delimiter, data, delimiter + rest, j);
    }
    FirstIsFound(text, delimiter, 0, |data| + 2);
  }

  /** The delimiter that ends the preamble is the first one of the whole text. */
  lemma FirstDelimiter(delimiter: string, pre: string, rest: string)
    requires Preamble(delimiter, pre)
    ensures Find(pre + (delimiter + rest), delimiter, 0) == Some(|pre|)
    ensures (pre + (delimiter + rest))[|pre| + |delimiter|..] == rest
  {
    hide Find;
    FindStable(pre + delimiter, rest, delimiter, 0);
    assert pre + (delimiter + rest) == pre + delimiter + rest;
    assert (pre + delimiter + rest)[|pre + delimiter|..] == rest;
  }

  lemma DelimiterIsRead(cfg: Config, pre: string, rest: string, w: Work)
    requires Preamble(cfg.delimiter, pre)
    ensures StepScan(cfg, Parser(ScanBoundary, pre + (cfg.delimiter + rest), w))
         == AfterDelimiter(Parser(ScanBoundary, pre + (cfg.delimiter + rest), w), rest)
  {
    hide Find;
    FirstDelimiter(cfg.delimiter, pre, rest);
  }

  lemma OpeningIsRead(cfg: Config, pre: string, rest: string, w: Work)
    requires Preamble(cfg.delimiter, pre)
    ensures StepScan(cfg, Parser(ScanBoundary, pre + (cfg.delimiter + (CRLF + rest)), w))
            == Go(Parser(ReadHeaders, rest, w))
  {
    DelimiterIsRead(cfg, pre, CRLF + rest, w);
    assert (CRLF + rest)[..2] == CRLF;
    assert (CRLF + rest)[2..] == rest;
  }

  lemma EndIsRead(cfg: Config, pre: string, epilogue: string, w: Work)
    requires Preamble(cfg.delimiter, pre)
    ensures StepScan(cfg, Parser(ScanBoundary, pre + (cfg.delimiter + ("--" + epilogue)), w))
            == Halt(Parser(Done, "", w))
  {
    DelimiterIsRead(cfg, pre, "--" + epilogue, w);
    assert ("--" + epilogue)[..2] == "--";
  }

  lemma HeaderBlockIsCut(cfg: Config, part: Part, rest: string, w: Work)
    requires Encodable(cfg.delimiter, part)
    ensures StepHeaders(cfg, Parser(ReadHeaders, PartHeaders(part) + (BLANK_LINE + rest), w))
         == Go(Parser(ReadData, rest, ProcessHeader(cfg, PartHeaders(part), w)))
  {
    hide Find;
    LinesAreSound(cfg.delimiter, part);
    BlankLineIsFound(HeaderLines(part), rest);
    CutBlock(PartHeaders(part), rest);
  }

  lemma CutBlock(headers: string, rest: string)
    ensures (headers + (BLANK_LINE + rest))[..|headers|] == headers
    ensures (headers + (BLANK_LINE + rest))[|headers| + 4..] == rest
  {
  }

  lemma HeaderBlockIsRead(cfg: Config, part: Part, rest: string, w: Work)
    requires Encodable(cfg.delimiter, part)
    ensures StepHeaders(cfg, Parser(ReadHeaders, PartHeaders(part) + (BLANK_LINE + rest), w))
         == Go(Parser(ReadData, rest, Opened(cfg, part, w)))
  {
    HeaderBlockIsCut(cfg, part, rest, w);
    HeadersAreRead(cfg, part, w);
  }

  lemma DataIsRead(cfg: Config, data: string, rest: string, w: Work)
    requires Unfolded(cfg.delimiter) && Find(data, cfg.delimiter, 0).None?
    ensures StepData(cfg, Parser(ReadData, data + (CRLF + (cfg.delimiter + rest)), w))
         == Go(Parser(ScanBoundary, cfg.delimiter + rest, w.Sink(data).EndPart()))
  {
    var text := data + (CRLF + (cfg.delimiter + rest));
    DataEnds(cfg.delimiter, data, rest);
    assert text[..|data|] == data;
    assert text[|data| + 2..] == cfg.delimiter + rest;
  }

  /** The work after one encoded part has gone through the parser. */
  function Delivered(cfg: Config, part: Part, w: Work): Work {
    Opened(cfg, part, w).Sink(part.Data()).EndPart()
  }

  lemma DeliveredIsReceived(cfg: Config, part: Part, w: Work)
    requires w.fieldValue == ""
    ensures ResultsOf(Delivered(cfg, part, w)) == Receive(cfg, ResultsOf(w), part)
    ensures Delivered(cfg, part, w).fieldValue == ""
  {
    assert "" + part.Data() == part.Data();
  }

  lemma PartIsRead(cfg: Config, pre: string, part: Part, rest: string, w: Work)
    requires Preamble(cfg.delimiter, pre) && Unfolded(cfg.delimiter) && Encodable(cfg.delimiter, part)
    ensures Settle(cfg, Parser(ScanBoundary, pre + EncodePart(cfg.delimiter, part, cfg.delimiter + rest), w))
         == Settle(cfg, Parser(ScanBoundary, cfg.delimiter + rest, Delivered(cfg, part, w)))
  {
    var data := part.Data() + (CRLF + (cfg.delimiter + rest));
    var headers := PartHeaders(part) + (BLANK_LINE + data);
    OpeningIsRead(cfg, pre, headers, w);
    HeaderBlockIsRead(cfg, part, data, w);
    DataIsRead(cfg, part.Data(), rest, Opened(cfg, part, w));
    ThreeSteps(cfg,
      Parser(ScanBoundary, pre + (cfg.delimiter + (CRLF + headers)), w),
      Parser(ReadHeaders, headers, w),
      Parser(ReadData, data, Opened(cfg, part, w)),
      Parser(ScanBoundary, cfg.delimiter + rest, Delivered(cfg, part, w)));
  }

  lemma ThreeSteps(cfg: Config, p0: Parser, p1: Parser, p2: Parser, p3: Parser)
    requires Step(cfg, p0) == Go(p1) && Step(cfg, p1) == Go(p2) && Step(cfg, p2) == Go(p3)
    ensures Settle(cfg, p0) == Settle(cfg, p3)
  {
    assert Settle(cfg, p0) == Settle(cfg, p1);
    assert Settle(cfg, p1) == Settle(cfg, p2);
  }

  lemma EmptyPreamble(delimiter: string)
    ensures Preamble(delimiter, "")
  {
    assert "" + delimiter == delimiter;
    assert delimiter[0..|delimiter|] == delimiter;
  }

  /** What follows the first delimiter of encoded parts. */
  function AfterFirst(delimiter: string, parts: seq<Part>, epilogue: string): (rest: string)
    ensures EncodeParts(delimiter, parts, epilogue) == delimiter + rest
  {
    if parts == [] then "--" + epilogue
    else AfterOpening(parts[0], EncodeParts(delimiter, parts[1..], epilogue))
  }

  /** Reading all the parts and the closing delimiter. */
  lemma {:induction false} PartsAreRead(cfg: Config, pre: string, parts: seq<Part>, epilogue: string, w: Work)
    requires Preamble(cfg.delimiter, pre) && Unfolded(cfg.delimiter) && w.fieldValue == ""
    requires forall part | part in parts :: Encodable(cfg.delimiter, part)
    ensures var q := Run(cfg, Parser(ScanBoundary, Encode(cfg.delimiter, pre, parts, epilogue), w));
            q.phase.Done? && q.buffer == "" && ResultsOf(q.work) == ReceiveAll(cfg, ResultsOf(w), parts)
    decreases |parts|
  {
    if parts == [] {
      EndIsRead(cfg, pre, epilogue, w);
    } else {
      var rest := AfterFirst(cfg.delimiter, parts[1..], epilogue);
      PartIsRead(cfg, pre, parts[0], rest, w);
      DeliveredIsReceived(cfg, parts[0], w);
      EmptyPreamble(cfg.delimiter);
      PartsAreRead(cfg, "", parts[1..], epilogue, Delivered(cfg, parts[0], w));
      assert "" + EncodeParts(cfg.delimiter, parts[1..], epilogue) == cfg.delimiter + rest;
    }
  }

  // ---------- the round trip ----------

  predicate WellFormed(delimiter: string, preamble: string, parts: seq<Part>) {
    Unfolded(delimiter) && Preamble(delimiter, preamble) && forall part | part in parts :: Encodable(delimiter, part)
  }

  /** A well-formed body, cut in any allowed way, is received completely, and `finish` adds nothing. */
  lemma RoundTrip(cfg: Config, opens: nat, preamble: string, parts: seq<Part>, epilogue: string, chunks: seq<string>)
    requires WellFormed(cfg.delimiter, preamble, parts)
    requires chunks != [] && Concat(chunks) == Encode(cfg.delimiter, preamble, parts, epilogue)
    requires AllowedCuts(cfg, Initial(opens), chunks)
    ensures var q := OnChunks(cfg, Initial(opens), chunks);
            && q.phase.Done? && Finish(q) == q
            && ResultsOf(q.work) == ReceiveAll(cfg, Results(map[], [], [], opens), parts)
  {
    var body := Encode(cfg.delimiter, preamble, parts, epilogue);
    FeedInChunks(cfg, Initial(opens), chunks);
    assert Initial(opens).Feed(body) == Parser(ScanBoundary, body, Initial(opens).work);
    PartsAreRead(cfg, preamble, parts, epilogue, Initial(opens).work);
  }

  function FileOf(part: Part): seq<Upload> {
    if part.FilePart? then [Upload(part.filename, part.contents)] else []
  }

  function FilesOf(parts: seq<Part>): seq<Upload> {
    if parts == [] then [] else FileOf(parts[0]) + FilesOf(parts[1..])
  }

  /** Whether part `i` of `parts` ends up as a form field, `opens` calls of `open` having been made
      before the first part: it is one, or its file cannot be opened. */
  predicate BecomesField(cfg: Config, opens: nat, parts: seq<Part>, i: nat)
    requires i < |parts|
  {
    parts[i].FieldPart? || cfg.open(opens + |FilesOf(parts[..i])|, cfg.uploadDir + parts[i].filename) < 0
  }

  /** The files that can be opened. */
  function SavedFiles(cfg: Config, opens: nat, parts: seq<Part>): seq<Upload>
    decreases |parts|
  {
    if parts == [] then []
    else
      var n := |parts| - 1;
      SavedFiles(cfg, opens, parts[..n]) + SavedFile(cfg, opens, parts, n)
  }

  lemma {:induction false} FilesOfMore(parts: seq<Part>, part: Part)
    ensures FilesOf(parts + [part]) == FilesOf(parts) + FileOf(part)
  {
    hide FileOf;
    if parts == [] {
      assert FilesOf([part]) == FileOf(part) + FilesOf([part][1..]);
      assert [part][1..] == [];
    } else {
      assert (parts + [part])[1..] == parts[1..] + [part];
      FilesOfMore(parts[1..], part);
      assert FileOf(parts[0]) + (FilesOf(parts[1..]) + FileOf(part))
             == FileOf(parts[0]) + FilesOf(parts[1..]) + FileOf(part);
    }
  }

  lemma {:induction false} ReceiveMore(cfg: Config, r: Results, parts: seq<Part>, part: Part)
    ensures ReceiveAll(cfg, r, parts + [part]) == Receive(cfg, ReceiveAll(cfg, r, parts), part)
    decreases |parts|
  {
    if parts == [] {
      assert [part][1..] == [];
    } else {
      assert (parts + [part])[1..] == parts[1..] + [part];
      ReceiveMore(cfg, Receive(cfg, r, parts[0]), parts[1..], part);
    }
  }

  /** The last part is received after all the others, with one `open` for every file among them. */
  lemma {:induction false} ReceiveLast(cfg: Config, r: Results, parts: seq<Part>)
    ensures ReceiveAll(cfg, r, parts).opens == r.opens + |FilesOf(parts)|
    ensures parts != [] ==>
              var n := |parts| - 1;
              && ReceiveAll(cfg, r, parts) == Receive(cfg, ReceiveAll(cfg, r, parts[..n]), parts[n])
              && ReceiveAll(cfg, r, parts[..n]).opens == r.opens + |FilesOf(parts[..n])|
    decreases |parts|
  {
    if parts != [] {
      var n := |parts| - 1;
      assert parts == parts[..n] + [parts[n]];
      ReceiveMore(cfg, r, parts[..n], parts[n]);
      FilesOfMore(parts[..n], parts[n]);
      ReceiveLast(cfg, r, parts[..n]);
    }
  }

  /** What part `i` adds to the saved files. */
  function SavedFile(cfg: Config, opens: nat, parts: seq<Part>, i: nat): seq<Upload>
    requires i < |parts|
  {
    if BecomesField(cfg, opens, parts, i) then [] else [Upload(parts[i].filename, parts[i].contents)]
  }

  lemma ReceivedFile(cfg: Config, r: Results, parts: seq<Part>, opens: nat)
    requires parts != [] && r.opens == opens + |FilesOf(parts[..|parts| - 1])|
    ensures var n := |parts| - 1;
            var q := Receive(cfg, r, parts[n]);
            && q.uploads == r.uploads + SavedFile(cfg, opens, parts, n)
            && q.savedFiles == r.savedFiles + Names(SavedFile(cfg, opens, parts, n))
  {
    hide FilesOf;
    var n := |parts| - 1;
    if !BecomesField(cfg, opens, parts, n) {
      assert Names([Upload(parts[n].filename, parts[n].contents)]) == [parts[n].filename];
    }
  }

  lemma NamesOfBoth(a: seq<Upload>, b: seq<Upload>)
    ensures Names(a + b) == Names(a) + Names(b)
  {
  }

  /** The files received are exactly those encoded whose `open` succeeds, in order and with identical
      contents. */
  lemma {:induction false} EveryFileArrives(cfg: Config, r: Results, parts: seq<Part>)
    ensures ReceiveAll(cfg, r, parts).uploads == r.uploads + SavedFiles(cfg, r.opens, parts)
    ensures ReceiveAll(cfg, r, parts).savedFiles == r.savedFiles + Names(SavedFiles(cfg, r.opens, parts))
    decreases |parts|
  {
    hide Receive, FilesOf, BecomesField, Names;
    if parts == [] {
      NoNames();
    } else {
      var n := |parts| - 1;
      var before, last := SavedFiles(cfg, r.opens, parts[..n]), SavedFile(cfg, r.opens, parts, n);
      EveryFileArrives(cfg, r, parts[..n]);
      ReceiveLast(cfg, r, parts);
      ReceivedFile(cfg, ReceiveAll(cfg, r, parts[..n]), parts, r.opens);
      NamesOfBoth(before, last);
      assert r.uploads + before + last == r.uploads + (before + last);
      assert r.savedFiles + Names(before) + Names(last) == r.savedFiles + (Names(before) + Names(last));
    }
  }

  lemma NoNames()
    ensures Names([]) == []
  {
  }

  /** All of them, when every `open` succeeds. */
  lemma {:induction false} AllFilesAreSaved(cfg: Config, opens: nat, parts: seq<Part>)
    requires forall n, path :: cfg.open(n, path) >= 0
    ensures SavedFiles(cfg, opens, parts) == FilesOf(parts)
    decreases |parts|
  {
    if parts != [] {
      var n := |parts| - 1;
      assert parts == parts[..n] + [parts[n]];
      FilesOfMore(parts[..n], parts[n]);
      AllFilesAreSaved(cfg, opens, parts[..n]);
    }
  }

  /** Part `i` becomes the field `name`, and no later part does. */
  predicate IsLastField(cfg: Config, opens: nat, parts: seq<Part>, i: nat, name: string) {
    && i < |parts| && parts[i].name == name && BecomesField(cfg, opens, parts, i)
    && forall j: nat | i < j < |parts| :: parts[j].name == name ==> !BecomesField(cfg, opens, parts, j)
  }

  predicate NoField(cfg: Config, opens: nat, parts: seq<Part>, name: string) {
    forall j: nat | j < |parts| :: parts[j].name == name ==> !BecomesField(cfg, opens, parts, j)
  }

  /** Of several fields with one name the last value wins, and no other name appears. */
  lemma LastFieldWins(cfg: Config, r: Results, parts: seq<Part>, name: string)
    ensures var fields := ReceiveAll(cfg, r, parts).fields;
            && (forall i: nat | IsLastField(cfg, r.opens, parts, i, name) ::
                  name in fields && fields[name] == parts[i].Data())
            && (NoField(cfg, r.opens, parts, name) ==>
                  (name in fields <==> name in r.fields) && (name in fields ==> fields[name] == r.fields[name]))
  {
    hide IsLastField, NoField, ReceiveAll;
    var fields := ReceiveAll(cfg, r, parts).fields;
    forall i: nat | IsLastField(cfg, r.opens, parts, i, name)
      ensures i < |parts| && name in fields && fields[name] == parts[i].Data()
    {
      LastFieldIsKept(cfg, r, parts, i, name);
    }
    if NoField(cfg, r.opens, parts, name) {
      OldFieldIsKept(cfg, r, parts, name);
    }
  }

  lemma {:induction false} LastFieldIsKept(cfg: Config, r: Results, parts: seq<Part>, i: nat, name: string)
    requires IsLastField(cfg, r.opens, parts, i, name)
    ensures var fields := ReceiveAll(cfg, r, parts).fields;
            i < |parts| && name in fields && fields[name] == parts[i].Data()
    decreases |parts|
  {
    hide Receive, FilesOf, BecomesField, ReceiveAll;
    var n := |parts| - 1;
    ReceiveLast(cfg, r, parts);
    ReceivedField(cfg, ReceiveAll(cfg, r, parts[..n]), parts, r.opens);
    if i < n {
      LastFieldInPrefix(cfg, r.opens, parts, i, name);
      LastFieldIsKept(cfg, r, parts[..n], i, name);
    }
  }

  lemma {:induction false} OldFieldIsKept(cfg: Config, r: Results, parts: seq<Part>, name: string)
    requires NoField(cfg, r.opens, parts, name)
    ensures var fields := ReceiveAll(cfg, r, parts).fields;
            (name in fields <==> name in r.fields) && (name in fields ==> fields[name] == r.fields[name])
    decreases |parts|
  {
    hide Receive, FilesOf, BecomesField;
    if parts != [] {
      var n := |parts| - 1;
      ReceiveLast(cfg, r, parts);
      ReceivedField(cfg, ReceiveAll(cfg, r, parts[..n]), parts, r.opens);
      NoFieldInPrefix(cfg, r.opens, parts, name);
      OldFieldIsKept(cfg, r, parts[..n], name);
    }
  }

  lemma NoFieldInPrefix(cfg: Config, opens: nat, parts: seq<Part>, name: string)
    requires parts != []
    ensures NoField(cfg, opens, parts, name) ==> NoField(cfg, opens, parts[..|parts| - 1], name)
  {
    hide BecomesField;
    var n := |parts| - 1;
    forall j: nat | j < n
      ensures BecomesField(cfg, opens, parts, j) == BecomesField(cfg, opens, parts[..n], j)
    {
      FieldInPrefix(cfg, opens, parts, n, j);
    }
  }

  /** The part before the last one that becomes the field is still the last to do so. */
  lemma LastFieldInPrefix(cfg: Config, opens: nat, parts: seq<Part>, i: nat, name: string)
    requires IsLastField(cfg, opens, parts, i, name) && i < |parts| - 1
    ensures IsLastField(cfg, opens, parts[..|parts| - 1], i, name)
    ensures var n := |parts| - 1; parts[n].name == name ==> !BecomesField(cfg, opens, parts, n)
  {
    hide BecomesField;
    var n := |parts| - 1;
    forall j: nat | j < n
      ensures BecomesField(cfg, opens, parts, j) == BecomesField(cfg, opens, parts[..n], j)
    {
      FieldInPrefix(cfg, opens, parts, n, j);
    }
  }

  lemma FieldInPrefix(cfg: Config, opens: nat, parts: seq<Part>, n: nat, i: nat)
    requires i < n <= |parts|
    ensures BecomesField(cfg, opens, parts, i) == BecomesField(cfg, opens, parts[..n], i)
  {
    assert parts[..n][..i] == parts[..i];
  }

  lemma ReceivedField(cfg: Config, r: Results, parts: seq<Part>, opens: nat)
    requires parts != [] && r.opens == opens + |FilesOf(parts[..|parts| - 1])|
    ensures var n := |parts| - 1;
            Receive(cfg, r, parts[n]).fields ==
              if BecomesField(cfg, opens, parts, n) then r.fields[parts[n].name := parts[n].Data()] else r.fields
  {
  }

  /** Any cuts will do that fall neither right after a delimiter nor one byte later. */
  lemma ClearRoundTrip(cfg: Config, opens: nat, preamble: string, parts: seq<Part>, epilogue: string,
                       chunks: seq<string>)
    requires WellFormed(cfg.delimiter, preamble, parts)
    requires chunks != [] && Concat(chunks) == Encode(cfg.delimiter, preamble, parts, epilogue)
    requires ClearCuts(cfg.delimiter, "", chunks)
    ensures var q := OnChunks(cfg, Initial(opens), chunks);
            && q.phase.Done? && Finish(q) == q
            && q.work.uploads == SavedFiles(cfg, opens, parts)
            && ResultsOf(q.work) == ReceiveAll(cfg, Results(map[], [], [], opens), parts)
  {
    hide ClearCuts, Encode, WellFormed;
    var start := Results(map[], [], [], opens);
    ClearCutsAreAllowed(cfg, Initial(opens), "", chunks);
    RoundTrip(cfg, opens, preamble, parts, epilogue, chunks);
    EveryFileArrives(cfg, start, parts);
    assert start.uploads + SavedFiles(cfg, opens, parts) == SavedFiles(cfg, opens, parts);
    assert ResultsOf(OnChunks(cfg, Initial(opens), chunks).work).uploads == SavedFiles(cfg, opens, parts);
  }

  // ---------- what an unsafe cut costs ----------

  /** Encoded parts up to the delimiter that follows them and `tail`. */
  function EncodeUpTo(delimiter: string, parts: seq<Part>, tail: string): string {
    if parts == [] then delimiter + tail else EncodePart(delimiter, parts[0], EncodeUpTo(delimiter, parts[1..], tail))
  }

  function AfterFirstUpTo(delimiter: string, parts: seq<Part>, tail: string): (rest: string)
    ensures EncodeUpTo(delimiter, parts, tail) == delimiter + rest
  {
    if parts == [] then tail else AfterOpening(parts[0], EncodeUpTo(delimiter, parts[1..], tail))
  }

  /** A call that ends after a delimiter and fewer than two bytes has received the parts before it and
      is about to forget the delimiter. */
  lemma {:induction false} StopsAfterDelimiter(cfg: Config, pre: string, parts: seq<Part>, tail: string, w: Work)
    requires Preamble(cfg.delimiter, pre) && Unfolded(cfg.delimiter) && w.fieldValue == "" && |tail| < 2
    requires forall part | part in parts :: Encodable(cfg.delimiter, part)
    ensures var s := Settle(cfg, Parser(ScanBoundary, pre + EncodeUpTo(cfg.delimiter, parts, tail), w));
            && ForgetsDelimiter(cfg, s) && Trailer(cfg, s) == tail
            && Step(cfg, s) == Halt(Parser(ScanBoundary, tail, s.work))
            && s.work.fieldValue == "" && ResultsOf(s.work) == ReceiveAll(cfg, ResultsOf(w), parts)
    decreases |parts|
  {
    hide Find, PartHeaders, Encodable;
    if parts == [] {
      FirstDelimiter(cfg.delimiter, pre, tail);
      DelimiterIsRead(cfg, pre, tail, w);
    } else {
      var rest := AfterFirstUpTo(cfg.delimiter, parts[1..], tail);
      PartIsRead(cfg, pre, parts[0], rest, w);
      DeliveredIsReceived(cfg, parts[0], w);
      EmptyPreamble(cfg.delimiter);
      StopsAfterDelimiter(cfg, "", parts[1..], tail, Delivered(cfg, parts[0], w));
      assert "" + EncodeUpTo(cfg.delimiter, parts[1..], tail) == cfg.delimiter + rest;
    }
  }

  /** A line break keeps two texts free of the delimiter apart. */
  lemma NoDelimiterInJoin(delimiter: string, a: string, b: string)
    requires Unfolded(delimiter) && |delimiter| > 0 && Find(a, delimiter, 0).None? && Find(b, delimiter, 0).None?
    ensures Find(a + (CRLF + b), delimiter, 0).None?
  {
    hide Find, Unfolded;
    var text := a + (CRLF + b);
    FindIsFirst(a, delimiter, 0);
    FindIsFirst(b, delimiter, 0);
    forall j: nat
      ensures !OccursAt(text, delimiter, j)
    {
      if j < |a| + 2 {
        NoDelimiterBefore(delimiter, a, b, j);
      } else {
        assert text[|a| + 2..] == b;
        OccursInSuffix(text, |a| + 2, delimiter, j);
      }
    }
    NoneIsFound(text, delimiter, 0);
  }

  /** A part without its delimiter reads like a preamble. */
  lemma PartIsAPreamble(delimiter: string, part: Part)
    requires Unfolded(delimiter) && |delimiter| > 0 && Encodable(delimiter, part)
    requires Find(PartHeaders(part), delimiter, 0).None?
    ensures Preamble(delimiter, AfterOpening(part, ""))
  {
    hide Find, PartHeaders, Unfolded;
    var headers, data := PartHeaders(part), part.Data();
    assert Find("", delimiter, 0).None? by { NoneInNothing(delimiter); }
    NoDelimiterInJoin(delimiter, "", headers);
    NoDelimiterInJoin(delimiter, "" + (CRLF + headers), "");
    NoDelimiterInJoin(delimiter, "" + (CRLF + headers) + (CRLF + ""), data);
    var text := "" + (CRLF + headers) + (CRLF + "") + (CRLF + data);
    DataEnds(delimiter, text, "");
    assert AfterOpening(part, "") == text + CRLF;
    assert text + (CRLF + (delimiter + "")) == AfterOpening(part, "") + delimiter;
  }

  lemma NoneInNothing(delimiter: string)
    requires |delimiter| > 0
    ensures Find("", delimiter, 0).None?
  {
  }

  lemma SplitEncoding(delimiter: string, parts: seq<Part>, epilogue: string, i: nat)
    requires i < |parts|
    ensures EncodeParts(delimiter, parts[i..], epilogue)
         == delimiter + (AfterOpening(parts[i], "") + EncodeParts(delimiter, parts[i + 1..], epilogue))
  {
    var next := EncodeParts(delimiter, parts[i + 1..], epilogue);
    assert parts[i..][0] == parts[i] && parts[i..][1..] == parts[i + 1..];
    OpeningThenNext(parts[i], next);
  }

  lemma OpeningThenNext(part: Part, next: string)
    ensures AfterOpening(part, next) == AfterOpening(part, "") + next
  {
    var headers, data := PartHeaders(part), part.Data();
    assert CRLF + ("" + next) == CRLF + "" + next;
    assert data + (CRLF + next) == data + (CRLF + "") + next;
    assert BLANK_LINE + (data + (CRLF + next)) == BLANK_LINE + (data + (CRLF + "")) + next;
    assert headers + (BLANK_LINE + (data + (CRLF + next))) == headers + (BLANK_LINE + (data + (CRLF + ""))) + next;
  }

  lemma {:induction false} EncodingGoesOn(delimiter: string, first: seq<Part>, second: seq<Part>, epilogue: string,
                                          tail: string, b: string)
    requires delimiter + (tail + b) == EncodeParts(delimiter, second, epilogue)
    ensures EncodeParts(delimiter, first + second, epilogue) == EncodeUpTo(delimiter, first, tail) + b
    decreases |first|
  {
    hide AfterOpening;
    if first == [] {
      assert first + second == second;
      assert delimiter + (tail + b) == delimiter + tail + b;
    } else {
      assert (first + second)[1..] == first[1..] + second;
      EncodingGoesOn(delimiter, first[1..], second, epilogue, tail, b);
      var next := EncodeUpTo(delimiter, first[1..], tail);
      OpeningThenNext(first[0], next);
      OpeningThenNext(first[0], next + b);
      assert delimiter + (AfterOpening(first[0], "") + (next + b))
             == delimiter + (AfterOpening(first[0], "") + next) + b;
    }
  }

  /** What an unsafe cut costs: cut after the delimiter of part `i`, or one byte later, a well-formed body
      is received without that part and otherwise completely. */
  lemma UnsafeCutLosesThePart(cfg: Config, opens: nat, preamble: string, parts: seq<Part>, epilogue: string,
                              i: nat, tail: string, b: string)
    requires WellFormed(cfg.delimiter, preamble, parts) && i < |parts|
    requires Find(PartHeaders(parts[i]), cfg.delimiter, 0).None?
    requires |tail| < 2 && cfg.delimiter + (tail + b) == EncodeParts(cfg.delimiter, parts[i..], epilogue)
    ensures var a := preamble + EncodeUpTo(cfg.delimiter, parts[..i], tail);
            var s := Settle(cfg, Initial(opens).Feed(a));
            var q := OnData(cfg, OnData(cfg, Initial(opens), a), b);
            && ForgetsDelimiter(cfg, s) && Trailer(cfg, s) == tail && tail in ["", "-", "\r"] &&
              !SafeCut(cfg, Initial(opens), a)
            && q.phase.Done? && Finish(q) == q
            && ResultsOf(q.work) == ReceiveAll(cfg, Results(map[], [], [], opens), parts[..i] + parts[i + 1..])
  {
    hide Find, PartHeaders, Encodable, Step;
    var d := cfg.delimiter;
    var a := preamble + EncodeUpTo(d, parts[..i], tail);
    var lost, left := AfterOpening(parts[i], ""), EncodeParts(d, parts[i + 1..], epilogue);
    assert Initial(opens).Feed(a) == Parser(ScanBoundary, a, Initial(opens).work);
    StopsAfterDelimiter(cfg, preamble, parts[..i], tail, Initial(opens).work);
    var s := Settle(cfg, Initial(opens).Feed(a));
    SplitEncoding(d, parts, epilogue, i);
    SameAfterDelimiter(d, tail + b, lost + left);
    assert OnData(cfg, Initial(opens), a).Feed(b)
           == Parser(ScanBoundary, Encode(d, lost, parts[i + 1..], epilogue), s.work);
    PartIsAPreamble(d, parts[i]);
    PartsAreRead(cfg, lost, parts[i + 1..], epilogue, s.work);
    ReceiveBoth(cfg, Results(map[], [], [], opens), parts[..i], parts[i + 1..]);
    TailIsUnsafe(tail, b, lost + left);
  }

  lemma SameAfterDelimiter(d: string, x: string, y: string)
    requires d + x == d + y
    ensures x == y
  {
    assert x == (d + x)[|d|..] && y == (d + y)[|d|..];
  }

  lemma TailIsUnsafe(tail: string, b: string, rest: string)
    requires |tail| < 2 && tail + b == rest && |rest| > 0 && rest[0] == '\r'
    ensures tail in ["", "-", "\r"]
  {
    assert tail == "" || tail == [rest[0]];
  }

  lemma {:induction false} ReceiveBoth(cfg: Config, r: Results, first: seq<Part>, second: seq<Part>)
    ensures ReceiveAll(cfg, r, first + second) == ReceiveAll(cfg, ReceiveAll(cfg, r, first), second)
    decreases |first|
  {
    if first == [] {
      assert first + second == second;
    } else {
      assert (first + second)[1..] == first[1..] + second;
      ReceiveBoth(cfg, Receive(cfg, r, first[0]), first[1..], second);
    }
  }

  // ---------- a body that breaks off ----------

  lemma {:induction false} PartsGoThrough(cfg: Config, pre: string, parts: seq<Part>, tail: string, w: Work)
    returns (pre': string, w': Work)
    requires Preamble(cfg.delimiter, pre) && Unfolded(cfg.delimiter) && w.fieldValue == ""
    requires forall part | part in parts :: Encodable(cfg.delimiter, part)
    ensures Preamble(cfg.delimiter, pre') && w'.fieldValue == ""
    ensures ResultsOf(w') == ReceiveAll(cfg, ResultsOf(w), parts)
    ensures Settle(cfg, Parser(ScanBoundary, pre + EncodeUpTo(cfg.delimiter, parts, tail), w))
         == Settle(cfg, Parser(ScanBoundary, pre' + (cfg.delimiter + tail), w'))
    decreases |parts|
  {
    hide Find, PartHeaders, Encodable, Settle;
    if parts == [] {
      pre', w' := pre, w;
    } else {
      var rest := AfterFirstUpTo(cfg.delimiter, parts[1..], tail);
      PartIsRead(cfg, pre, parts[0], rest, w);
      DeliveredIsReceived(cfg, parts[0], w);
      EmptyPreamble(cfg.delimiter);
      pre', w' := PartsGoThrough(cfg, "", parts[1..], tail, Delivered(cfg, parts[0], w));
      assert "" + EncodeUpTo(cfg.delimiter, parts[1..], tail) == cfg.delimiter + rest;
    }
  }

  /** How many bytes of unfinished part data have been written out: all but the delimiter's length and four. */
  function WrittenOut(delimiter: string, data: string): (n: nat)
    ensures n <= |data|
  {
    if |data| > |delimiter| + 4 then |data| - |delimiter| - 4 else 0
  }

  /** What must be received of a part that breaks off in its data: of a file that can be opened, what has been
      written out; of a field, or a file that cannot be opened, nothing. */
  function Unfinished(cfg: Config, r: Results, part: Part, data: string): Results {
    if part.FieldPart? then r
    else if cfg.open(r.opens, cfg.uploadDir + part.filename) < 0 then r.(opens := r.opens + 1)
    else
      var written := Upload(part.filename, data[..WrittenOut(cfg.delimiter, data)]);
      r.(savedFiles := r.savedFiles + [part.filename], uploads := r.uploads + [written], opens := r.opens + 1)
  }

  /** A body that breaks off in the data of a part: after `finish` all the parts before it have been received,
      and a file that was being written counts as saved, although its last bytes are missing. */
  lemma BrokenBodyIsSaved(cfg: Config, opens: nat, preamble: string, parts: seq<Part>, part: Part, data: string)
    requires WellFormed(cfg.delimiter, preamble, parts) && Encodable(cfg.delimiter, part)
    requires Find(data, cfg.delimiter, 0).None?
    ensures var tail := CRLF + (PartHeaders(part) + (BLANK_LINE + data));
            var q := Finish(OnData(cfg, Initial(opens), preamble + EncodeUpTo(cfg.delimiter, parts, tail)));
            var r := ReceiveAll(cfg, Results(map[], [], [], opens), parts);
            q.phase.Done? && ResultsOf(q.work) == Unfinished(cfg, r, part, data)
  {
    hide Find, PartHeaders, Encodable, EncodeUpTo, Settle, ReceiveAll;
    var block := PartHeaders(part) + (BLANK_LINE + data);
    var a := preamble + EncodeUpTo(cfg.delimiter, parts, CRLF + block);
    var pre, w := PartsGoThrough(cfg, preamble, parts, CRLF + block, Initial(opens).work);
    assert Initial(opens).Feed(a) == Parser(ScanBoundary, a, Initial(opens).work);
    OpeningIsRead(cfg, pre, block, w);
    HeaderBlockIsRead(cfg, part, data, w);
    var p0 := Parser(ScanBoundary, pre + (cfg.delimiter + (CRLF + block)), w);
    var p := Parser(ReadData, data, Opened(cfg, part, w));
    TwoStepsThenHalt(cfg, p0, Parser(ReadHeaders, block, w), p);
    DataBreaksOff(cfg, data, Opened(cfg, part, w));
    UnfinishedIsSaved(cfg, part, data, w);
  }

  lemma TwoStepsThenHalt(cfg: Config, p0: Parser, p1: Parser, p2: Parser)
    requires Step(cfg, p0) == Go(p1) && Step(cfg, p1) == Go(p2) && Step(cfg, p2).Halt?
    ensures Settle(cfg, p0) == p2
  {
    assert Settle(cfg, p0) == Settle(cfg, p1);
    assert Settle(cfg, p1) == Settle(cfg, p2);
  }

  lemma DataBreaksOff(cfg: Config, data: string, w: Work)
    requires Find(data, cfg.delimiter, 0).None?
    ensures var n := WrittenOut(cfg.delimiter, data);
            Step(cfg, Parser(ReadData, data, w)) == Halt(Parser(ReadData, data[n..], w.Sink(data[..n])))
  {
  }

  lemma UnfinishedIsSaved(cfg: Config, part: Part, data: string, w: Work)
    requires w.fieldValue == ""
    ensures var n := WrittenOut(cfg.delimiter, data);
            var q := Finish(Parser(ReadData, data[n..], Opened(cfg, part, w).Sink(data[..n])));
            q.phase.Done? && ResultsOf(q.work) == Unfinished(cfg, ResultsOf(w), part, data)
  {
    var n := WrittenOut(cfg.delimiter, data);
    assert "" + data[..n] == data[..n];
  }

  // ---------- what a cut after the closing delimiter costs ----------

  /** The call that ends after the closing delimiter and fewer than two bytes has received every part; the
      next one reads what follows as if a body began there. */
  lemma ClosingCut(cfg: Config, opens: nat, preamble: string, parts: seq<Part>, epilogue: string, tail: string,
                   b: string)
    requires WellFormed(cfg.delimiter, preamble, parts) && |tail| < 2 && tail + b == "--" + epilogue
    ensures var a := preamble + EncodeUpTo(cfg.delimiter, parts, tail);
            var s := Settle(cfg, Initial(opens).Feed(a));
            && a + b == Encode(cfg.delimiter, preamble, parts, epilogue)
            && ForgetsDelimiter(cfg, s) && Trailer(cfg, s) == tail && tail in ["", "-", "\r"] &&
              !SafeCut(cfg, Initial(opens), a)
            && s.work.fieldValue == "" && ResultsOf(s.work) == ReceiveAll(cfg, Results(map[], [], [], opens), parts)
            && OnData(cfg, Initial(opens), a) == Parser(ScanBoundary, tail, s.work)
            && OnData(cfg, OnData(cfg, Initial(opens), a), b) == Run(cfg, Parser(ScanBoundary, "--" + epilogue, s.work))
  {
    hide Find, Step, Encodable, EncodeUpTo, Preamble, ReceiveAll, ForgetsDelimiter, Trailer, Settle, AfterOpening;
    var d := cfg.delimiter;
    var a := preamble + EncodeUpTo(d, parts, tail);
    assert EncodeParts(d, [], epilogue) == d + (tail + b);
    EncodingGoesOn(d, parts, [], epilogue, tail, b);
    assert parts + [] == parts;
    assert preamble + (EncodeUpTo(d, parts, tail) + b) == a + b;
    assert Initial(opens).Feed(a) == Parser(ScanBoundary, a, Initial(opens).work);
    StopsAfterDelimiter(cfg, preamble, parts, tail, Initial(opens).work);
    ClosingTail(tail, b, epilogue);
  }

  lemma ClosingTail(tail: string, b: string, epilogue: string)
    requires |tail| < 2 && tail + b == "--" + epilogue
    ensures tail in ["", "-", "\r"] && b != ""
  {
    assert tail == "" || tail == [("--" + epilogue)[0]];
  }

  /** If no delimiter follows in the epilogue, such a cut does no harm: after `finish` everything has been
      received, and nothing else. */
  lemma ClosingCutIsHarmless(cfg: Config, opens: nat, preamble: string, parts: seq<Part>, epilogue: string,
                             tail: string, b: string)
    requires WellFormed(cfg.delimiter, preamble, parts) && |tail| < 2 && tail + b == "--" + epilogue
    requires Find("--" + epilogue, cfg.delimiter, 0).None?
    ensures var a := preamble + EncodeUpTo(cfg.delimiter, parts, tail);
            var q := Finish(OnData(cfg, OnData(cfg, Initial(opens), a), b));
            && a + b == Encode(cfg.delimiter, preamble, parts, epilogue) && !SafeCut(cfg, Initial(opens), a)
            && q.phase.Done? && ResultsOf(q.work) == ReceiveAll(cfg, Results(map[], [], [], opens), parts)
  {
    hide Find, Encode, EncodeUpTo, WellFormed, ReceiveAll, SafeCut, ForgetsDelimiter, Disciplined, Settle;
    var a := preamble + EncodeUpTo(cfg.delimiter, parts, tail);
    ClosingCut(cfg, opens, preamble, parts, epilogue, tail, b);
    InitialIsDisciplined(opens);
    OnDataKeepsDiscipline(cfg, Initial(opens), a);
    NothingIsFound(cfg, Parser(ScanBoundary, "--" + epilogue, OnData(cfg, Initial(opens), a).work));
    NoOpenFile(OnData(cfg, Initial(opens), a));
  }

  lemma NothingIsFound(cfg: Config, p: Parser)
    requires p.phase.ScanBoundary? && Find(p.buffer, cfg.delimiter, 0).None?
    ensures Run(cfg, p).phase.ScanBoundary? && Run(cfg, p).work == p.work
  {
    assert Step(cfg, p).Halt?;
  }

  lemma NoOpenFile(p: Parser)
    requires Disciplined(p) && p.phase.ScanBoundary?
    ensures !p.work.WritingFile()
  {
  }

  /** If the epilogue goes on like a body, its parts are received after those of the body, although the
      body was closed. */
  lemma EpilogueIsReadAsParts(cfg: Config, opens: nat, preamble: string, parts: seq<Part>, epilogue: string,
                              tail: string, b: string, gap: string, phantoms: seq<Part>, rest: string)
    requires WellFormed(cfg.delimiter, preamble, parts) && |tail| < 2 && tail + b == "--" + epilogue
    requires WellFormed(cfg.delimiter, gap, phantoms) && "--" + epilogue == Encode(cfg.delimiter, gap, phantoms, rest)
    ensures var a := preamble + EncodeUpTo(cfg.delimiter, parts, tail);
            var q := OnData(cfg, OnData(cfg, Initial(opens), a), b);
            && a + b == Encode(cfg.delimiter, preamble, parts, epilogue)
            && q.phase.Done? && Finish(q) == q
            && ResultsOf(q.work) == ReceiveAll(cfg, Results(map[], [], [], opens), parts + phantoms)
  {
    hide Find, Encode, EncodeUpTo, Preamble, Encodable, ReceiveAll, SafeCut, ForgetsDelimiter, Settle, Run;
    ClosingCut(cfg, opens, preamble, parts, epilogue, tail, b);
    var a := preamble + EncodeUpTo(cfg.delimiter, parts, tail);
    PartsAreRead(cfg, gap, phantoms, rest, OnData(cfg, Initial(opens), a).work);
    ReceiveBoth(cfg, Results(map[], [], [], opens), parts, phantoms);
  }

  /** It happens: a body without parts whose epilogue holds one field. In one call nothing is received, in
      two the field is. */
  lemma PhantomPart(cfg: Config)
    requires cfg.delimiter == "--b"
    ensures var field := FieldPart("n", "v");
            var a, b := "--b", "--" + (CRLF + EncodeParts("--b", [field], ""));
            && OnData(cfg, Initial(0), a + b).work.fields == map[]
            && OnData(cfg, OnData(cfg, Initial(0), a), b).work.fields == map["n" := "v"]
  {
    hide Find, OnData, EncodeParts;
    var field := FieldPart("n", "v");
    var epilogue := CRLF + EncodeParts("--b", [field], "");
    var a, b := "--b", "--" + epilogue;
    EmptyPreamble("--b");
    SmallPartsAreWellFormed();
    assert "" + b == b && b == "--\r\n" + EncodeParts("--b", [field], "");
    assert [] + [field] == [field];
    NoPartsYet("--b", epilogue);
    EpilogueIsReadAsParts(cfg, 0, "", [], epilogue, "", b, "--\r\n", [field], "");
    assert Concat([a + b]) == a + b + Concat([]) && a + b + "" == a + b;
    assert AllowedCuts(cfg, Initial(0), [a + b]);
    RoundTrip(cfg, 0, "", [], epilogue, [a + b]);
    OneChunk(cfg, Initial(0), a + b);
    OneFieldIsReceived(cfg, Results(map[], [], [], 0), field);
  }

  lemma OneFieldIsReceived(cfg: Config, r: Results, field: Part)
    requires field.FieldPart?
    ensures ReceiveAll(cfg, r, [field]) == r.(fields := r.fields[field.name := field.value]) &&
            ReceiveAll(cfg, r, []) == r
  {
    assert [field][1..] == [];
  }

  lemma OneChunk(cfg: Config, p: Parser, x: string)
    ensures OnChunks(cfg, p, [x]) == OnData(cfg, p, x)
  {
    assert [x][1..] == [];
    assert OnChunks(cfg, OnData(cfg, p, x), []) == OnData(cfg, p, x);
  }

  lemma NoPartsYet(delimiter: string, epilogue: string)
    ensures "" + EncodeUpTo(delimiter, [], "") == delimiter
    ensures Encode(delimiter, "", [], epilogue) == delimiter + ("--" + epilogue)
  {
    assert "" + (delimiter + "") == delimiter;
    assert "" + (delimiter + ("--" + epilogue)) == delimiter + ("--" + epilogue);
  }

  lemma SmallPartsAreWellFormed()
    ensures WellFormed("--b", "", []) && WellFormed("--b", "--\r\n", [FieldPart("n", "v")])
  {
    hide Find;
    EmptyPreamble("--b");
    assert Find("--", "--b", 0).None? by { NoneInShort("--", "--b"); }
    assert Find("v", "--b", 0).None? by { NoneInShort("v", "--b"); }
    DataEnds("--b", "--", "");
    assert "--" + (CRLF + ("--b" + "")) == "--\r\n" + "--b";
    assert Plain("n");
  }

  lemma NoneInShort(text: string, pattern: string)
    requires |text| < |pattern|
    ensures Find(text, pattern, 0).None?
  {
  }
}
