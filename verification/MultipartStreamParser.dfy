/** The imperative parser of MultipartStreamParser.cpp, proved against `MultipartStream`. */
module MultipartStreamParser {
  import opened Wrappers
  import opened Bytes
  import opened MultipartStream

  class MultipartStreamParser {
    const cfg: Config
    var state: Phase
    var buffer: string
    var currentHeaders: string
    var currentName: string
    var currentFilename: string
    var isFile: bool
    var fileFd: int
    var fieldValue: string
    var fields: map<string, string>
    var savedFiles: seq<string>
    /** `open` calls made so far on behalf of this connection. */
    var opens: nat
    /** Bytes written through the open descriptor, and the files closed. */
    ghost var written: string
    ghost var uploads: seq<Upload>

    ghost function Progress(): Work
      reads this
    {
      Work(currentHeaders, currentName, currentFilename, isFile, fileFd, fieldValue,
           fields, savedFiles, opens, written, uploads)
    }

    ghost function View(): Parser
      reads this
    {
      Parser(state, buffer, Progress())
    }

    constructor (cfg: Config, opens: nat)
      ensures this.cfg == cfg && View() == Initial(opens)
    {
      this.cfg := cfg;
      state, buffer := ScanBoundary, "";
      currentHeaders, currentName, currentFilename := "", "", "";
      isFile, fileFd, fieldValue := false, -1, "";
      fields, savedFiles := map[], [];
      this.opens := opens;
      written, uploads := "", [];
    }

    method OpenFile()
      modifies this`fileFd, this`opens, this`written
      ensures fileFd == cfg.open(old(opens), cfg.uploadDir + currentFilename)
      ensures opens == old(opens) + 1 && written == ""
    {
      fileFd := cfg.open(opens, cfg.uploadDir + currentFilename);
      opens := opens + 1;
      written := "";
    }

    method CloseFile()
      modifies this`fileFd, this`written, this`uploads
      ensures fileFd == if old(fileFd) >= 0 then -1 else old(fileFd)
      ensures old(fileFd) >= 0 ==> written == "" && uploads == old(uploads) + [Upload(currentFilename, old(written))]
      ensures old(fileFd) < 0 ==> written == old(written) && uploads == old(uploads)
    {
      if fileFd >= 0 {
        fileFd := -1;
        uploads := uploads + [Upload(currentFilename, written)];
        written := "";
      }
    }

    method ProcessHeader()
      modifies this`currentName, this`currentFilename, this`isFile, this`fileFd, this`opens, this`written
      ensures Progress() == MultipartStream.ProcessHeader(cfg, currentHeaders, old(Progress()))
    {
      hide Find, Quoted;
      currentName, currentFilename := "", "";
      isFile := false;

      var cdPos := Find(currentHeaders, DISPOSITION, 0);
      if cdPos.None? { return; }

      var name := Quoted(currentHeaders, NAME_KEY, cdPos.value);
      if name.Some? {
        currentName := name.value;
      }

      var file := Quoted(currentHeaders, FILENAME_KEY, cdPos.value);
      if file.Some? {
        currentFilename := file.value;
        isFile := true;
        OpenFile();
      }
    }

    /** The `write` or `append` of part data. */
    method Write(data: string)
      modifies this`written, this`fieldValue
      ensures Progress() == old(Progress()).Sink(data)
    {
      if isFile && fileFd >= 0 {
        written := written + data;
      } else {
        fieldValue := fieldValue + data;
      }
    }

    /** The SCAN_BOUNDARY block of the loop; `stop` when the call returns. */
    method Scan() returns (stop: bool)
      requires state.ScanBoundary?
      modifies this`buffer, this`state
      ensures Step(cfg, old(View())) == if stop then Halt(View()) else Go(View())
      ensures Run(cfg, old(View())) == if stop then View() else Run(cfg, View())
      ensures !stop ==> |buffer| < old(|buffer|)
    {
      var pos := Find(buffer, cfg.delimiter, 0);
      if pos.None? {
        if |buffer| > |cfg.delimiter| {
          buffer := buffer[|buffer| - |cfg.delimiter|..];
        }
        return true;
      }
      buffer := buffer[pos.value + |cfg.delimiter|..];
      if |buffer| < 2 { return true; }
      if buffer[..2] == "--" {
        state := Done;
        buffer := "";
        return true;
      }
      if buffer[..2] == CRLF {
        buffer := buffer[2..];
        state := ReadHeaders;
      }
      return false;
    }

    /** The READ_HEADERS block. */
    method TakeHeaders() returns (stop: bool)
      requires state.ReadHeaders?
      modifies this
      ensures Step(cfg, old(View())) == if stop then Halt(View()) else Go(View())
      ensures Run(cfg, old(View())) == if stop then View() else Run(cfg, View())
      ensures !stop ==> |buffer| < old(|buffer|)
    {
      var pos := Find(buffer, BLANK_LINE, 0);
      if pos.None? { return true; }
      currentHeaders := buffer[..pos.value];
      buffer := buffer[pos.value + 4..];
      ProcessHeader();
      state := ReadData;
      return false;
    }

    /** The end of a part: close and record the file, or record the field. */
    method EndPart()
      modifies this`fileFd, this`written, this`uploads, this`savedFiles, this`fields, this`fieldValue
      ensures Progress() == old(Progress()).EndPart()
    {
      if isFile && fileFd >= 0 {
        CloseFile();
        savedFiles := savedFiles + [currentFilename];
      } else {
        fields := fields[currentName := fieldValue];
        fieldValue := "";
      }
    }

    /** The READ_DATA block. */
    method TakeData() returns (stop: bool)
      requires state.ReadData?
      modifies this
      ensures Step(cfg, old(View())) == if stop then Halt(View()) else Go(View())
      ensures Run(cfg, old(View())) == if stop then View() else Run(cfg, View())
      ensures !stop ==> |buffer| <= old(|buffer|) && state.ScanBoundary?
    {
      var pos := Find(buffer, cfg.delimiter, 0);
      if pos.None? {
        assert Progress().Sink("") == Progress() && buffer[0..] == buffer;
        if |buffer| > |cfg.delimiter| + 4 {
          var writeLen := |buffer| - |cfg.delimiter| - 4;
          Write(buffer[..writeLen]);
          buffer := buffer[writeLen..];
        }
        return true;
      }
      var dataLen := if pos.value >= 2 then pos.value - 2 else 0;
      Write(buffer[..dataLen]);
      EndPart();
      buffer := buffer[pos.value..];
      state := ScanBoundary;
      return false;
    }

    method OnData(data: string)
      modifies this
      ensures View() == MultipartStream.OnData(cfg, old(View()), data)
    {
      buffer := buffer + data;
      ghost var result := Run(cfg, View());
      var stop := false;
      while !stop
        invariant result == if stop then View() else Run(cfg, View())
        decreases !stop, |buffer|, Rank(View())
      {
        if state.ScanBoundary? {
          stop := Scan();
        }
        if !stop && state.ReadHeaders? {
          stop := TakeHeaders();
        }
        if !stop && state.ReadData? {
          stop := TakeData();
        }
        if state.Done? {
          stop := true;
        }
      }
    }

    method Finish()
      modifies this
      ensures View() == MultipartStream.Finish(old(View()))
    {
      if !state.Done? {
        if isFile && fileFd >= 0 {
          CloseFile();
          savedFiles := savedFiles + [currentFilename];
        }
        state := Done;
      }
    }
  }
}
