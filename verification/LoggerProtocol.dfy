/** The double-buffer protocol of log/AsyncLogger.cpp as a state machine: producers append under the
    mutex, the logging thread swaps the buffers out under the mutex and writes them without it. */
module LoggerProtocol {
  import opened Wrappers

  /** A string with reserved room, and the log records it holds. */
  datatype Buf = Buf(text: string, capacity: nat, records: seq<string>)

  const RESERVED: nat := 4096

  const EMPTY: Buf := Buf("", RESERVED, [])

  /** A log file: what this process has written to it. */
  datatype LogFile = LogFile(text: string, records: seq<string>)

  const NEW_FILE: LogFile := LogFile("", [])

  /** A record given to the stream, and whether a file was open to keep it. */
  datatype Handed = Handed(record: string, kept: bool)

  /** Where the logging thread is: at the loop condition, before its critical section, writing the
      batch, before the two roll checks, or gone. */
  datatype Pc = AtCheck | AtSwap | Writing | AtSizeRoll | AtDateRoll | Exited

  datatype Logger = Logger(
    current: Option<Buf>,
    spare: Option<Buf>,
    buffers: seq<Buf>,
    running: bool,
    pc: Pc,
    newBuffer1: Option<Buf>,
    newBuffer2: Option<Buf>,
    toWrite: seq<Buf>,
    openFile: LogFile,
    isOpen: bool,
    rolled: seq<LogFile>,
    writtenBytes: nat,
    curDate: string,
    appended: seq<string>,
    sinceSwap: seq<string>,
    handed: seq<Handed>)

  /** `opens` says whether the log file could be opened. */
  function Start(date: string, opens: bool): Logger {
    Logger(Some(EMPTY), Some(EMPTY), [], true, AtCheck, Some(EMPTY), Some(EMPTY), [], NEW_FILE, opens, [], 0, date,
           [], [], [])
  }

  // ---------- steps ----------

  /** The record that an append adds to the history; an empty append adds none. */
  function Record(data: string): seq<string> {
    if data == "" then [] else [data]
  }

  /** `buffer->append(data)`; a string that must grow at least doubles. */
  function Put(b: Buf, data: string): Buf {
    var size := |b.text| + |data|;
    Buf(b.text + data,
        if size <= b.capacity then b.capacity else if size <= 2 * b.capacity then 2 * b.capacity else size,
        b.records + Record(data))
  }

  function OrEmpty(b: Option<Buf>): Buf {
    match b case None => EMPTY case Some(x) => x
  }

  function Append(l: Logger, data: string): Logger
    requires l.current.Some?
  {
    var noted := l.(appended := l.appended + Record(data), sinceSwap := l.sinceSwap + Record(data));
    var cur := l.current.value;
    if |cur.text| + |data| < cur.capacity then noted.(current := Some(Put(cur, data)))
    else noted.(buffers := l.buffers + [cur], current := Some(Put(OrEmpty(l.spare), data)), spare := None)
  }

  function Check(l: Logger): Logger {
    l.(pc := if l.running || l.buffers != [] then AtSwap else Exited)
  }

  /** The critical section of the logging thread; the wait before it may end at any time. */
  function Swap(l: Logger): Logger
    requires l.current.Some?
  {
    var cur := l.current.value;
    var moved := cur.text != "";
    var new1 := if moved then Some(EMPTY) else Some(OrEmpty(l.newBuffer1));
    var new2 := Some(OrEmpty(l.newBuffer2));
    l.(buffers := [],
       toWrite := l.buffers + if moved then [cur] else [],
       current := if moved then Some(OrEmpty(l.newBuffer1)) else l.current,
       newBuffer1 := new1,
       newBuffer2 := if l.spare.Some? then new2 else None,
       spare := if l.spare.Some? then l.spare else new2,
       sinceSwap := [],
       pc := Writing)
  }

  function Hand(records: seq<string>, kept: bool): seq<Handed> {
    seq(|records|, i requires 0 <= i < |records| => Handed(records[i], kept))
  }

  /** `ofs_ << *buffer`: a stream whose file is not open swallows what it is given. */
  function WriteOne(l: Logger): Logger {
    if l.toWrite == [] then l.(pc := AtSizeRoll)
    else
      var b := l.toWrite[0];
      var file := if l.isOpen then LogFile(l.openFile.text + b.text, l.openFile.records + b.records) else l.openFile;
      l.(openFile := file, handed := l.handed + Hand(b.records, l.isOpen),
         writtenBytes := l.writtenBytes + |b.text|, toWrite := l.toWrite[1..])
  }

  /** `rollFileIfNeeded`; `opens` says whether the new file can be opened. */
  function RollBySize(l: Logger, rollSize: nat, opens: bool): Logger {
    if l.isOpen && l.writtenBytes >= rollSize then
      l.(rolled := l.rolled + [l.openFile], openFile := NEW_FILE, isOpen := opens, writtenBytes := 0, pc := AtDateRoll)
    else l.(pc := AtDateRoll)
  }

  function RollByDate(l: Logger, today: string, opens: bool): Logger {
    if today != l.curDate then
      l.(rolled := l.rolled + [l.openFile], openFile := NEW_FILE, isOpen := opens, curDate := today, pc := AtCheck)
    else l.(pc := AtCheck)
  }

  datatype Action =
    | DoAppend(data: string)
    | DoStop
    | DoCheck
    | DoSwap
    | DoWrite
    | DoRollBySize(opens: bool)
    | DoRollByDate(today: string, opens: bool)

  predicate Enabled(l: Logger, a: Action) {
    match a
    case DoAppend(_) => l.current.Some?
    case DoStop => true
    case DoCheck => l.pc.AtCheck?
    case DoSwap => l.pc.AtSwap? && l.current.Some?
    case DoWrite => l.pc.Writing?
    case DoRollBySize(_) => l.pc.AtSizeRoll?
    case DoRollByDate(_, _) => l.pc.AtDateRoll?
  }

  function Next(rollSize: nat, l: Logger, a: Action): Logger
    requires Enabled(l, a)
  {
    match a
    case DoAppend(data) => Append(l, data)
    case DoStop => l.(running := false)
    case DoCheck => Check(l)
    case DoSwap => Swap(l)
    case DoWrite => WriteOne(l)
    case DoRollBySize(opens) => RollBySize(l, rollSize, opens)
    case DoRollByDate(today, opens) => RollByDate(l, today, opens)
  }

  // ---------- what every interleaving keeps ----------

  function Text(records: seq<string>): string {
    if records == [] then "" else Text(records[..|records| - 1]) + records[|records| - 1]
  }

  function RecordsOfBuffers(bs: seq<Buf>): seq<string> {
    if bs == [] then [] else bs[0].records + RecordsOfBuffers(bs[1..])
  }

  function RecordsOfFiles(fs: seq<LogFile>): seq<string> {
    if fs == [] then [] else RecordsOfFiles(fs[..|fs| - 1]) + fs[|fs| - 1].records
  }

  /** Everything this process has written to its log files, in roll order. */
  function Written(l: Logger): seq<string> {
    RecordsOfFiles(l.rolled) + l.openFile.records
  }

  /** Everything given to the stream. */
  function Passed(hs: seq<Handed>): seq<string> {
    seq(|hs|, i requires 0 <= i < |hs| => hs[i].record)
  }

  /** What of it was given to an open file. */
  function Kept(hs: seq<Handed>): seq<string> {
    if hs == [] then []
    else
      var last := hs[|hs| - 1];
      Kept(hs[..|hs| - 1]) + if last.kept then [last.record] else []
  }

  predicate AllKept(hs: seq<Handed>) {
    forall h | h in hs :: h.kept
  }

  function Unwritten(l: Logger): seq<string>
    requires l.current.Some?
  {
    RecordsOfBuffers(l.toWrite) + (RecordsOfBuffers(l.buffers) + l.current.value.records)
  }

  predicate Whole(b: Buf) {
    b.text == Text(b.records) && (b.text == "" ==> b.records == [])
  }

  predicate Blank(b: Option<Buf>) {
    b.Some? ==> b.value == EMPTY
  }

  predicate Inv(rollSize: nat, l: Logger) {
    && l.current.Some? && Whole(l.current.value)
    && Blank(l.spare) && l.newBuffer1 == Some(EMPTY) && Blank(l.newBuffer2) && (l.spare.None? ==> l.buffers != [])
    && (forall b | b in l.buffers :: Whole(b)) && (forall b | b in l.toWrite :: Whole(b))
    && (forall f | f in l.rolled :: f.text == Text(f.records)) && l.openFile.text == Text(l.openFile.records)
    && Passed(l.handed) + Unwritten(l) == l.appended && Kept(l.handed) == Written(l)
    && RecordsOfBuffers(l.buffers) + l.current.value.records == l.sinceSwap
    && (!l.pc.Writing? ==> l.toWrite == [])
    && |l.openFile.text| <= l.writtenBytes && (!l.isOpen ==> l.openFile == NEW_FILE)
    && (l.pc.AtCheck? || l.pc.AtSwap? || l.pc.AtDateRoll? || l.pc.Exited? ==>
      l.openFile.text == "" || l.writtenBytes < rollSize)
  }

  lemma {:induction false} RecordsOfMoreBuffers(bs: seq<Buf>, b: Buf)
    ensures RecordsOfBuffers(bs + [b]) == RecordsOfBuffers(bs) + b.records
  {
    if bs == [] {
      assert [b][1..] == [];
    } else {
      assert (bs + [b])[1..] == bs[1..] + [b];
      RecordsOfMoreBuffers(bs[1..], b);
    }
  }

  lemma RecordsOfMoreFiles(fs: seq<LogFile>, f: LogFile)
    ensures RecordsOfFiles(fs + [f]) == RecordsOfFiles(fs) + f.records
  {
    assert (fs + [f])[..|fs|] == fs;
  }

  lemma {:induction false} TextOfBoth(a: seq<string>, b: seq<string>)
    ensures Text(a + b) == Text(a) + Text(b)
    decreases |b|
  {
    if b == [] {
      assert a + b == a;
    } else {
      var n := |b| - 1;
      assert (a + b)[..|a| + n] == a + b[..n];
      TextOfBoth(a, b[..n]);
      assert Text(a) + Text(b[..n]) + b[n] == Text(a) + (Text(b[..n]) + b[n]);
    }
  }

  lemma TextOfNothing()
    ensures Text([]) == "" && Whole(EMPTY)
  {
  }

  lemma PutKeepsWhole(b: Buf, data: string)
    requires Whole(b)
    ensures Whole(Put(b, data))
  {
    TextOfBoth(b.records, Record(data));
    assert data != "" ==> Text([data]) == Text([]) + data by { assert [data][..0] == []; }
  }

  /** A record goes behind everything unwritten, wherever it is put. */
  lemma AppendComesLast(l: Logger, data: string)
    requires l.current.Some? && Blank(l.spare)
    ensures var q := Append(l, data);
            && q.current.Some?
            && RecordsOfBuffers(q.buffers) + q.current.value.records
               == RecordsOfBuffers(l.buffers) + l.current.value.records + Record(data)
            && Passed(q.handed) + Unwritten(q) == Passed(l.handed) + Unwritten(l) + Record(data)
            && Written(q) == Written(l)
  {
    hide RecordsOfFiles, RecordsOfBuffers, Passed;
    RecordsOfMoreBuffers(l.buffers, l.current.value);
    var held := RecordsOfBuffers(l.buffers);
    Behind(Passed(l.handed), RecordsOfBuffers(l.toWrite), held, l.current.value.records, Record(data));
  }

  lemma Behind(files: seq<string>, batch: seq<string>, held: seq<string>, cur: seq<string>, r: seq<string>)
    ensures [] + r == r
    ensures held + (cur + r) == held + cur + r
    ensures files + (batch + (held + (cur + r))) == files + (batch + (held + cur)) + r
    ensures files + (batch + (held + cur + r)) == files + (batch + (held + cur)) + r
  {
  }

  lemma AppendKeepsInv(rollSize: nat, l: Logger, data: string)
    requires Inv(rollSize, l)
    ensures Inv(rollSize, Append(l, data))
  {
    hide Text, RecordsOfBuffers, RecordsOfFiles, Unwritten, Written, Append, Whole, Blank, Passed, Kept;
    AppendKeepsWhole(l, data);
    AppendComesLast(l, data);
  }

  /** Buffers stay whole, and nothing else is touched. */
  lemma AppendKeepsWhole(l: Logger, data: string)
    requires l.current.Some? && Whole(l.current.value) && Blank(l.spare) && forall b | b in l.buffers :: Whole(b)
    ensures var q := Append(l, data);
            && q.current.Some? && Whole(q.current.value) && Blank(q.spare) && (forall b | b in q.buffers :: Whole(b))
            && (q.spare.None? ==> q.buffers != [] || (l.spare.None? && l.buffers == []))
            && q == l.(current := q.current, spare := q.spare, buffers := q.buffers,
                       appended := l.appended + Record(data), sinceSwap := l.sinceSwap + Record(data))
  {
    hide Text, Put;
    TextOfNothing();
    PutKeepsWhole(l.current.value, data);
    PutKeepsWhole(OrEmpty(l.spare), data);
  }

  lemma NoBuffers(bs: seq<Buf>, records: seq<string>)
    ensures bs + [] == bs && RecordsOfBuffers([]) == []
    ensures records + ([] + []) == [] + records
  {
  }

  lemma SwapKeepsInv(rollSize: nat, l: Logger)
    requires Inv(rollSize, l) && l.pc.AtSwap?
    ensures Inv(rollSize, Swap(l))
  {
    hide Text, RecordsOfBuffers, RecordsOfFiles, Passed, Kept;
    TextOfNothing();
    RecordsOfMoreBuffers(l.buffers, l.current.value);
    NoBuffers(l.buffers, RecordsOfBuffers(l.buffers) + l.current.value.records);
  }

  lemma WriteKeepsInv(rollSize: nat, l: Logger)
    requires Inv(rollSize, l) && l.pc.Writing?
    ensures Inv(rollSize, WriteOne(l))
  {
    hide Text, Passed, Kept, Hand, RecordsOfFiles, RecordsOfBuffers;
    TextOfNothing();
    if l.toWrite != [] {
      var b := l.toWrite[0];
      assert b in l.toWrite;
      TextOfBoth(l.openFile.records, b.records);
      HandedComesLast(l.handed, b.records, l.isOpen);
      FirstIsHanded(Passed(l.handed), l.toWrite, RecordsOfBuffers(l.buffers) + l.current.value.records);
      FileGrows(RecordsOfFiles(l.rolled), l.openFile.records, b.records);
    }
  }

  lemma FirstIsHanded(passed: seq<string>, batch: seq<Buf>, behind: seq<string>)
    requires batch != []
    ensures passed + (RecordsOfBuffers(batch) + behind)
         == passed + batch[0].records + (RecordsOfBuffers(batch[1..]) + behind)
  {
    Regroup(passed, batch[0].records, RecordsOfBuffers(batch[1..]), behind);
  }

  lemma Regroup(a: seq<string>, b: seq<string>, c: seq<string>, d: seq<string>)
    ensures a + (b + c + d) == a + b + (c + d)
  {
  }

  lemma FileGrows(rolled: seq<string>, open: seq<string>, records: seq<string>)
    ensures rolled + open + records == rolled + (open + records)
  {
  }

  /** Handing over a buffer adds its records, which are kept if the file is open. */
  lemma {:induction false} HandedComesLast(hs: seq<Handed>, records: seq<string>, kept: bool)
    ensures Passed(hs + Hand(records, kept)) == Passed(hs) + records
    ensures Kept(hs + Hand(records, kept)) == if kept then Kept(hs) + records else Kept(hs)
    decreases |records|
  {
    hide Passed, Hand;
    PassedComesLast(hs, records, kept);
    HandOneMore(hs, records, kept);
    if records == [] {
      assert Kept(hs) + records == Kept(hs);
    } else {
      var n := |records| - 1;
      HandedComesLast(hs, records[..n], kept);
      assert Kept(hs) + records[..n] + [records[n]] == Kept(hs) + records;
    }
  }

  lemma PassedComesLast(hs: seq<Handed>, records: seq<string>, kept: bool)
    ensures Passed(hs + Hand(records, kept)) == Passed(hs) + records
  {
  }

  lemma HandOneMore(hs: seq<Handed>, records: seq<string>, kept: bool)
    ensures records == [] ==> hs + Hand(records, kept) == hs
    ensures records != [] ==>
              var n := |records| - 1;
              var all := hs + Hand(records, kept);
              && |all| == |hs| + n + 1
              && all[..|all| - 1] == hs + Hand(records[..n], kept) && all[|all| - 1] == Handed(records[n], kept)
  {
  }

  lemma RollBySizeKeepsInv(rollSize: nat, l: Logger, opens: bool)
    requires Inv(rollSize, l) && l.pc.AtSizeRoll?
    ensures Inv(rollSize, RollBySize(l, rollSize, opens))
  {
    hide Text, RecordsOfFiles, RecordsOfBuffers, Whole, Blank, Unwritten, Passed, Kept;
    FileIsRolled(l.rolled, l.openFile);
    SameUnwritten(l, RollBySize(l, rollSize, opens));
    TextOfNothing();
  }

  lemma RollByDateKeepsInv(rollSize: nat, l: Logger, today: string, opens: bool)
    requires Inv(rollSize, l) && l.pc.AtDateRoll?
    ensures Inv(rollSize, RollByDate(l, today, opens))
  {
    hide Text, RecordsOfFiles, RecordsOfBuffers, Whole, Blank, Unwritten, Passed, Kept;
    FileIsRolled(l.rolled, l.openFile);
    SameUnwritten(l, RollByDate(l, today, opens));
    TextOfNothing();
  }

  lemma SameUnwritten(l: Logger, q: Logger)
    requires l.current.Some? && q.current == l.current && q.buffers == l.buffers && q.toWrite == l.toWrite
    ensures Unwritten(q) == Unwritten(l)
  {
  }

  /** Rolling a file keeps the records in order and starts an empty one. */
  lemma FileIsRolled(rolled: seq<LogFile>, f: LogFile)
    ensures RecordsOfFiles(rolled + [f]) + NEW_FILE.records == RecordsOfFiles(rolled) + f.records
  {
    RecordsOfMoreFiles(rolled, f);
  }

  /** Every step of every thread keeps all of it: no record is lost between the buffers, reordered or torn,
      the current buffer exists whenever the mutex is free, and spare buffers are empty. */
  lemma StepKeepsInv(rollSize: nat, l: Logger, a: Action)
    requires Inv(rollSize, l) && Enabled(l, a)
    ensures Inv(rollSize, Next(rollSize, l, a))
  {
    hide Text, RecordsOfBuffers, RecordsOfFiles, Append, Swap, WriteOne, RollBySize, RollByDate, Passed, Kept;
    match a
    case DoAppend(data) => AppendKeepsInv(rollSize, l, data);
    case DoSwap => SwapKeepsInv(rollSize, l);
    case DoWrite => WriteKeepsInv(rollSize, l);
    case DoRollBySize(opens) => RollBySizeKeepsInv(rollSize, l, opens);
    case DoRollByDate(today, opens) => RollByDateKeepsInv(rollSize, l, today, opens);
    case _ => SameUnwritten(l, Next(rollSize, l, a));
  }

  lemma ReadyToSwap(rollSize: nat, l: Logger)
    requires Inv(rollSize, l)
    ensures l.current.Some? && (!l.pc.Writing? ==> l.toWrite == [])
  {
  }

  // ---------- whole runs ----------

  /** `ls` are the states passed through when the threads take `steps` in this interleaving. */
  ghost predicate IsRun(rollSize: nat, ls: seq<Logger>, steps: seq<Action>) {
    |ls| == |steps| + 1 &&
    forall i: nat | i < |steps| :: Enabled(ls[i], steps[i]) && ls[i + 1] == Next(rollSize, ls[i], steps[i])
  }

  function FilesText(fs: seq<LogFile>): string {
    if fs == [] then "" else FilesText(fs[..|fs| - 1]) + fs[|fs| - 1].text
  }

  lemma {:induction false} FilesHoldWholeRecords(fs: seq<LogFile>)
    requires forall f | f in fs :: f.text == Text(f.records)
    ensures FilesText(fs) == Text(RecordsOfFiles(fs))
  {
    hide Text;
    if fs == [] {
      TextOfNothing();
    } else {
      FilesHoldWholeRecords(fs[..|fs| - 1]);
      TextOfBoth(RecordsOfFiles(fs[..|fs| - 1]), fs[|fs| - 1].records);
    }
  }

  /** Under every interleaving, in every state: the appends in lock order are the records given to the
      stream, then those in the batch, the full buffers and the current buffer; the log files, joined in
      roll order, are the text of the records given to an open file, each file holding whole records; and
      when the logging thread is back at its loop condition the open file is below the roll size. */
  lemma {:induction false} RunKeepsInv(rollSize: nat, date: string, opens: bool, ls: seq<Logger>, steps: seq<Action>,
                                       i: nat)
    requires IsRun(rollSize, ls, steps) && ls[0] == Start(date, opens) && i < |ls|
    ensures Inv(rollSize, ls[i])
    ensures Passed(ls[i].handed) + Unwritten(ls[i]) == ls[i].appended && Passed(ls[i].handed) <= ls[i].appended
    ensures Written(ls[i]) == Kept(ls[i].handed)
    ensures FilesText(ls[i].rolled) + ls[i].openFile.text == Text(Written(ls[i]))
    ensures ls[i].pc.AtCheck? && rollSize > 0 ==> |ls[i].openFile.text| < rollSize
    ensures ls[i].pc.AtCheck? ==> Passed(ls[i].handed) + ls[i].sinceSwap == ls[i].appended
  {
    hide Next, Text, RecordsOfFiles, RecordsOfBuffers, FilesText, Passed, Kept;
    if i > 0 {
      RunKeepsInv(rollSize, date, opens, ls, steps, i - 1);
      StepKeepsInv(rollSize, ls[i - 1], steps[i - 1]);
    } else {
      StartIsGood(rollSize, date, opens);
    }
    FilesHoldWholeRecords(ls[i].rolled);
    TextOfBoth(RecordsOfFiles(ls[i].rolled), ls[i].openFile.records);
    if ls[i].pc.AtCheck? {
      OnlyNewIsUnwritten(rollSize, ls[i]);
    }
  }

  lemma OnlyNewIsUnwritten(rollSize: nat, l: Logger)
    requires Inv(rollSize, l) && !l.pc.Writing?
    ensures Unwritten(l) == l.sinceSwap
  {
    assert RecordsOfBuffers([]) + l.sinceSwap == l.sinceSwap;
  }

  lemma StepCountsAppends(rollSize: nat, l: Logger, a: Action)
    requires Inv(rollSize, l) && Enabled(l, a)
    ensures var q := Next(rollSize, l, a);
            && l.appended <= q.appended
            && |q.sinceSwap| <= |l.sinceSwap| + |q.appended| - |l.appended|
            && (a.DoSwap? ==> q.sinceSwap == [])
  {
    hide Inv, Put, OrEmpty;
  }

  /** Since state `i`, right after a swap, no more has been set aside than was appended. */
  lemma {:induction false} AppendsSinceSwap(rollSize: nat, date: string, opens: bool, ls: seq<Logger>,
                                            steps: seq<Action>, i: nat, j: nat)
    requires IsRun(rollSize, ls, steps) && ls[0] == Start(date, opens) && i < j < |ls| && steps[i].DoSwap?
    ensures ls[i].appended <= ls[j].appended && |ls[j].sinceSwap| <= |ls[j].appended| - |ls[i].appended|
  {
    hide Next, Enabled, Inv;
    RunKeepsInv(rollSize, date, opens, ls, steps, j - 1);
    StepCountsAppends(rollSize, ls[j - 1], steps[j - 1]);
    if i + 1 < j {
      AppendsSinceSwap(rollSize, date, opens, ls, steps, i, j - 1);
    }
  }

  /** Under every interleaving, everything appended before a swap has been given to the stream when the
      logging thread is next at its loop condition, and is in the files if they could all be opened. */
  lemma SwappedIsWritten(rollSize: nat, date: string, opens: bool, ls: seq<Logger>, steps: seq<Action>, i: nat, j: nat)
    requires IsRun(rollSize, ls, steps) && ls[0] == Start(date, opens)
    requires i < j < |ls| && steps[i].DoSwap? && ls[j].pc.AtCheck?
    ensures ls[i].appended <= Passed(ls[j].handed)
    ensures AllKept(ls[j].handed) ==> ls[i].appended <= Written(ls[j])
  {
    hide Inv, Written, Passed, Kept, AllKept;
    RunKeepsInv(rollSize, date, opens, ls, steps, j);
    AppendsSinceSwap(rollSize, date, opens, ls, steps, i, j);
    PrefixesCompare(ls[i].appended, Passed(ls[j].handed), ls[j].appended);
    KeptIsAll(ls[j].handed);
  }

  lemma PrefixesCompare(a: seq<string>, b: seq<string>, c: seq<string>)
    requires a <= c && b <= c && |a| <= |b|
    ensures a <= b
  {
  }

  lemma StartIsGood(rollSize: nat, date: string, opens: bool)
    ensures Inv(rollSize, Start(date, opens))
  {
  }

  // ---------- how much is held in memory ----------

  /** An append adds the record behind the current buffer's text if that leaves room, and otherwise hands the
      buffer to the logging thread and starts an empty one of 4096 bytes with it. */
  lemma FullBufferIsHandedOver(rollSize: nat, l: Logger, data: string)
    requires Inv(rollSize, l)
    ensures var cur, q := l.current.value, Append(l, data);
            && q.current.Some? && (q.buffers == l.buffers <==> |cur.text| + |data| < cur.capacity)
            && (q.buffers == l.buffers ==> q.current.value.text == cur.text + data && q.spare == l.spare)
            && (q.buffers != l.buffers ==>
                  q.buffers == l.buffers + [cur] && q.spare.None? && q.current.value.text == data &&
                  q.current.value.capacity == Limit(|data|))
  {
    hide Text, RecordsOfBuffers, RecordsOfFiles, Whole, Passed, Kept, Unwritten, Written;
    assert |l.buffers + [l.current.value]| == |l.buffers| + 1;
    assert "" + data == data;
  }

  /** A round in which nothing was appended takes no buffer. */
  lemma IdleRoundTakesNothing(rollSize: nat, l: Logger)
    requires Inv(rollSize, l) && l.sinceSwap == [] && l.current.value.text == "" && l.buffers == []
    ensures Swap(l) == l.(pc := Writing, toWrite := [], newBuffer2 := Swap(l).newBuffer2)
  {
  }

  /** The largest buffer when no record is longer than `longest`. */
  function Limit(longest: nat): (n: nat)
    ensures n >= 4096 && n >= longest
  {
    if longest <= 4096 then 4096 else if longest <= 8192 then 8192 else longest
  }

  predicate Bounded(longest: nat, b: Buf) {
    |b.text| <= b.capacity <= Limit(longest)
  }

  predicate AllBounded(longest: nat, l: Logger) {
    && (l.current.Some? ==> Bounded(longest, l.current.value))
    && (forall b | b in l.buffers :: Bounded(longest, b)) && (forall b | b in l.toWrite :: Bounded(longest, b))
  }

  lemma StepKeepsBounds(rollSize: nat, l: Logger, a: Action, longest: nat)
    requires Inv(rollSize, l) && Enabled(l, a) && AllBounded(longest, l) && (a.DoAppend? ==> |a.data| <= longest)
    ensures AllBounded(longest, Next(rollSize, l, a))
  {
    hide Text, RecordsOfBuffers, RecordsOfFiles, Whole, Passed, Kept, Unwritten, Written, Hand, Append, Limit;
    if a.DoAppend? {
      AppendKeepsBounds(l, a.data, longest);
    }
  }

  lemma AppendKeepsBounds(l: Logger, data: string, longest: nat)
    requires l.current.Some? && Blank(l.spare) && AllBounded(longest, l) && |data| <= longest
    ensures AllBounded(longest, Append(l, data))
  {
  }

  /** In every state of every run: if no record is longer than `longest`, no buffer is longer than `Limit`,
      which is 4096 bytes for records of at most 4096. */
  lemma {:induction false} BuffersStayBounded(rollSize: nat, date: string, opens: bool, ls: seq<Logger>,
                                              steps: seq<Action>, i: nat, longest: nat)
    requires IsRun(rollSize, ls, steps) && ls[0] == Start(date, opens) && i < |ls|
    requires forall a | a in steps && a.DoAppend? :: |a.data| <= longest
    ensures AllBounded(longest, ls[i])
    ensures ls[i].current.Some? && |ls[i].current.value.text| <= Limit(longest)
  {
    hide Next, Enabled, Inv;
    RunKeepsInv(rollSize, date, opens, ls, steps, i);
    ReadyToSwap(rollSize, ls[i]);
    if i > 0 {
      BuffersStayBounded(rollSize, date, opens, ls, steps, i - 1, longest);
      RunKeepsInv(rollSize, date, opens, ls, steps, i - 1);
      assert steps[i - 1] in steps;
      StepKeepsBounds(rollSize, ls[i - 1], steps[i - 1], longest);
    }
  }

  /** So when the thread leaves, at most that many bytes have not been given to the stream. */
  lemma StopLosesAtMost(rollSize: nat, date: string, opens: bool, ls: seq<Logger>, steps: seq<Action>, i: nat,
                        longest: nat)
    requires IsRun(rollSize, ls, steps) && ls[0] == Start(date, opens) && i < |ls|
    requires forall a | a in steps && a.DoAppend? :: |a.data| <= longest
    requires ls[i].pc.AtCheck? && Check(ls[i]).pc.Exited?
    ensures ls[i].current.Some? && Passed(ls[i].handed) + ls[i].current.value.records == ls[i].appended
    ensures |Text(ls[i].current.value.records)| <= Limit(longest)
  {
    hide Inv, Text;
    RunKeepsInv(rollSize, date, opens, ls, steps, i);
    BuffersStayBounded(rollSize, date, opens, ls, steps, i, longest);
    ExitRemainder(rollSize, ls[i]);
    CurrentIsWhole(rollSize, ls[i]);
  }

  lemma CurrentIsWhole(rollSize: nat, l: Logger)
    requires Inv(rollSize, l)
    ensures l.current.Some? && l.current.value.text == Text(l.current.value.records)
  {
  }

  // ---------- when files are rolled ----------

  /** Within one date, and as long as files can be opened, a file is rolled exactly when it has reached the
      size: every rolled file is that long, and the open one, at the loop condition, is not. */
  lemma {:induction false} RolledFilesAreFull(rollSize: nat, date: string, ls: seq<Logger>, steps: seq<Action>, i: nat)
    requires IsRun(rollSize, ls, steps) && ls[0] == Start(date, true) && i < |ls|
    requires forall a | a in steps :: OpensWell(a) && (a.DoRollByDate? ==> a.today == date)
    ensures forall f | f in ls[i].rolled :: |f.text| >= rollSize
    ensures ls[i].isOpen && ls[i].curDate == date && ls[i].writtenBytes == |ls[i].openFile.text|
    ensures ls[i].pc.AtCheck? && rollSize > 0 ==> |ls[i].openFile.text| < rollSize
  {
    hide Next, Enabled, Inv;
    RunKeepsInv(rollSize, date, true, ls, steps, i);
    if i > 0 {
      RolledFilesAreFull(rollSize, date, ls, steps, i - 1);
      assert steps[i - 1] in steps;
      StepRollsFullFiles(rollSize, ls[i - 1], steps[i - 1]);
    }
  }

  lemma StepRollsFullFiles(rollSize: nat, l: Logger, a: Action)
    requires Enabled(l, a) && OpensWell(a) && (a.DoRollByDate? ==> a.today == l.curDate)
    requires (forall f | f in l.rolled :: |f.text| >= rollSize) && l.isOpen && l.writtenBytes == |l.openFile.text|
    ensures var q := Next(rollSize, l, a);
            && (forall f | f in q.rolled :: |f.text| >= rollSize)
            && q.isOpen && q.curDate == l.curDate && q.writtenBytes == |q.openFile.text|
  {
    hide Put, OrEmpty, Hand;
  }

  /** No file takes records of two dates: whenever the date has changed, a file has been rolled. Rolled files
      stay as they are. */
  lemma {:induction false} NoFileSpansTwoDates(rollSize: nat, ls: seq<Logger>, steps: seq<Action>, i: nat, j: nat)
    requires IsRun(rollSize, ls, steps) && i <= j < |ls|
    ensures ls[i].rolled <= ls[j].rolled
    ensures ls[i].curDate != ls[j].curDate ==> |ls[i].rolled| < |ls[j].rolled|
    decreases j
  {
    hide Next, Enabled;
    if i < j {
      NoFileSpansTwoDates(rollSize, ls, steps, i, j - 1);
      DateChangeRolls(rollSize, ls[j - 1], steps[j - 1]);
    }
  }

  /** A round on a new date ends with an empty file; the counter of the old one goes on. Each roll, and nothing
      else, decides anew whether a file is open. */
  lemma DateChangeRolls(rollSize: nat, l: Logger, a: Action)
    requires Enabled(l, a)
    ensures var q := Next(rollSize, l, a);
            && l.rolled <= q.rolled && (q.curDate != l.curDate ==> q.rolled == l.rolled + [l.openFile])
            && (a.DoRollByDate? ==> q.curDate == a.today)
            && (a.DoRollByDate? && a.today != l.curDate ==> q.openFile == NEW_FILE && q.writtenBytes == l.writtenBytes)
            && (q.isOpen == if q.rolled == l.rolled then l.isOpen else a.opens)
  {
    hide Put, OrEmpty, Hand;
  }

  /** So the next file can be rolled early: with a batch that takes the old counter to the size, it holds
      nothing but that batch. */
  lemma NextFileIsShort(rollSize: nat, l: Logger, today: string, b: Buf)
    requires l.pc.AtDateRoll? && today != l.curDate && |b.text| < rollSize <= l.writtenBytes + |b.text|
    ensures var swapped := RollByDate(l, today, true).(toWrite := [b], pc := Writing);
            var q := RollBySize(WriteOne(swapped), rollSize, true);
            q.rolled == l.rolled + [l.openFile, LogFile(b.text, b.records)]
  {
    hide Hand;
    assert "" + b.text == b.text && [] + b.records == b.records;
  }

  // ---------- files that cannot be opened ----------

  lemma {:induction false} KeptIsAll(hs: seq<Handed>)
    ensures |Kept(hs)| <= |hs| == |Passed(hs)|
    ensures (Kept(hs) == Passed(hs) <==> AllKept(hs)) && (|Kept(hs)| == |hs| <==> AllKept(hs))
    decreases |hs|
  {
    if hs != [] {
      var n := |hs| - 1;
      KeptIsAll(hs[..n]);
      assert hs == hs[..n] + [hs[n]];
      assert Passed(hs) == Passed(hs[..n]) + [hs[n].record];
    }
  }

  /** Exactly when every record is in the files or still in the buffers: no record was written while its
      file was not open. */
  lemma NothingIsSwallowedIff(rollSize: nat, l: Logger)
    requires Inv(rollSize, l)
    ensures Written(l) + Unwritten(l) == l.appended <==> AllKept(l.handed)
  {
    hide Kept, AllKept, Written, Unwritten;
    KeptIsAll(l.handed);
    if Written(l) + Unwritten(l) == l.appended {
      assert |Written(l)| == |l.handed|;
    }
  }

  /** The step opens no file, or the file can be opened. */
  predicate OpensWell(a: Action) {
    match a
    case DoRollBySize(opens) => opens
    case DoRollByDate(_, opens) => opens
    case _ => true
  }

  /** So nothing is ever swallowed in a run whose files can all be opened. */
  lemma {:induction false} OpenRunKeepsAll(rollSize: nat, date: string, ls: seq<Logger>, steps: seq<Action>, i: nat)
    requires IsRun(rollSize, ls, steps) && ls[0] == Start(date, true) && i < |ls|
    requires forall a | a in steps :: OpensWell(a)
    ensures ls[i].isOpen && AllKept(ls[i].handed)
    ensures ls[i].current.Some? && Written(ls[i]) + Unwritten(ls[i]) == ls[i].appended
  {
    hide Inv, Written, Unwritten, Next, Enabled, AllKept;
    RunKeepsInv(rollSize, date, true, ls, steps, i);
    if i > 0 {
      OpenRunKeepsAll(rollSize, date, ls, steps, i - 1);
      assert OpensWell(steps[i - 1]);
      StepKeepsAll(rollSize, ls[i - 1], steps[i - 1]);
    } else {
      NothingIsHandedAtStart(date);
    }
    ReadyToSwap(rollSize, ls[i]);
    NothingIsSwallowedIff(rollSize, ls[i]);
  }

  lemma NothingIsHandedAtStart(date: string)
    ensures AllKept(Start(date, true).handed)
  {
  }

  lemma StepKeepsAll(rollSize: nat, l: Logger, a: Action)
    requires Enabled(l, a) && OpensWell(a) && l.isOpen && AllKept(l.handed)
    ensures var q := Next(rollSize, l, a); q.isOpen && AllKept(q.handed)
  {
    hide Put, OrEmpty;
  }

  /** A file that could not be opened is not tried again before the date changes, whatever is written
      meanwhile: until then the files stay as they are and every record written is swallowed. */
  lemma {:induction false} ClosedUntilNextDate(rollSize: nat, ls: seq<Logger>, steps: seq<Action>, i: nat)
    requires IsRun(rollSize, ls, steps) && !ls[0].isOpen && i < |ls|
    requires forall a | a in steps && a.DoRollByDate? :: a.today == ls[0].curDate
    ensures !ls[i].isOpen && ls[i].curDate == ls[0].curDate
    ensures Written(ls[i]) == Written(ls[0]) && ls[i].rolled == ls[0].rolled
  {
    hide Next, Enabled, Written;
    if i > 0 {
      ClosedUntilNextDate(rollSize, ls, steps, i - 1);
      assert steps[i - 1] in steps;
      ClosedStaysClosed(rollSize, ls[i - 1], steps[i - 1]);
    }
  }

  lemma ClosedStaysClosed(rollSize: nat, l: Logger, a: Action)
    requires Enabled(l, a) && !l.isOpen && (a.DoRollByDate? ==> a.today == l.curDate)
    ensures var q := Next(rollSize, l, a);
            !q.isOpen && q.curDate == l.curDate && Written(q) == Written(l) && q.rolled == l.rolled
  {
    hide Put, OrEmpty, RecordsOfFiles, Hand;
  }

  /** One round with a file that cannot be opened: a record is gone. */
  lemma SwallowingHappens(rollSize: nat) returns (ls: seq<Logger>, steps: seq<Action>)
    ensures IsRun(rollSize, ls, steps) && ls[0] == Start("20250101", false)
    ensures var q := ls[|steps|];
            && q.pc.AtCheck? && q.current.Some?
            && q.appended == Passed(q.handed) == ["x"] && Written(q) == [] && Unwritten(q) == []
  {
    hide Inv, Passed, Kept, Written, Unwritten, Append, Check, Swap, WriteOne, RollBySize, RollByDate, Start;
    var date := "20250101";
    StartsWithOneRecord(date);
    var l0, l1 := Start(date, false), Append(Start(date, false), "x");
    OneRound(l1, rollSize, date);
    var l2, l3 := Check(l1), Swap(Check(l1));
    var l5 := WriteOne(WriteOne(l3));
    var l6 := RollBySize(l5, rollSize, true);
    ls := [l0, l1, l2, l3, WriteOne(l3), l5, l6, RollByDate(l6, date, true)];
    steps := [DoAppend("x"), DoCheck, DoSwap, DoWrite, DoWrite, DoRollBySize(true), DoRollByDate(date, true)];
    RunKeepsInv(rollSize, date, false, ls, steps, 7);
    OnlyNewIsUnwritten(rollSize, ls[7]);
    ClosedUntilNextDate(rollSize, ls, steps, 7);
    NothingIsWrittenAtStart(date, false);
  }

  lemma StartsWithOneRecord(date: string)
    ensures var l := Start(date, false);
            l.current.Some? && l.pc.AtCheck? && !l.isOpen && l.curDate == date
    ensures var l := Append(Start(date, false), "x");
            && l.current.Some? && l.current.value.text == "x" && l.buffers == [] && l.toWrite == []
            && l.running && l.pc.AtCheck? && l.appended == ["x"]
  {
  }

  lemma OneRound(l: Logger, rollSize: nat, date: string)
    requires l.current.Some? && l.current.value.text != "" && l.buffers == [] && l.toWrite == []
    requires l.running && l.pc.AtCheck?
    ensures Check(l).pc.AtSwap? && Check(l).current.Some? && Swap(Check(l)).pc.Writing?
    ensures var l4 := WriteOne(Swap(Check(l)));
            var l6 := RollBySize(WriteOne(l4), rollSize, true);
            var q := RollByDate(l6, date, true);
            && l4.pc.Writing? && WriteOne(l4).pc.AtSizeRoll? && l6.pc.AtDateRoll? && q.pc.AtCheck?
            && q.current.Some? && q.sinceSwap == [] && q.appended == l.appended
  {
    hide Hand;
  }

  lemma NothingIsWrittenAtStart(date: string, opens: bool)
    ensures Written(Start(date, opens)) == []
  {
  }

  // ---------- stopping ----------

  /** When the thread leaves, what has not been given to the stream is exactly the current buffer; every
      record is in the files exactly when none was appended since the last swap and none was swallowed. */
  lemma ExitRemainder(rollSize: nat, l: Logger)
    requires Inv(rollSize, l) && l.pc.AtCheck? && Check(l).pc.Exited?
    ensures Passed(l.handed) + l.current.value.records == l.appended
    ensures Written(l) == l.appended <==> l.sinceSwap == [] && AllKept(l.handed)
  {
    hide Text, RecordsOfFiles, Passed, Kept, AllKept, Written;
    assert [] + ([] + l.current.value.records) == l.current.value.records;
    KeptIsAll(l.handed);
    assert Passed(l.handed) + [] == Passed(l.handed);
  }

  /** So stopping can lose a record: one appended between the last swap and the loop condition. */
  lemma LateRecordIsLost(rollSize: nat, l: Logger, data: string)
    requires Inv(rollSize, l) && l.pc.AtCheck? && l.buffers == []
    requires data != "" && |l.current.value.text| + |data| < l.current.value.capacity
    ensures var q := Check(Append(l, data).(running := false));
            q.pc.Exited? && Written(q) != q.appended
  {
    var late := Append(l, data).(running := false);
    AppendKeepsInv(rollSize, l, data);
    ExitRemainder(rollSize, late);
  }

  /** The loop over the batch. */
  function WriteAll(l: Logger): Logger
    decreases |l.toWrite|
  {
    if l.toWrite == [] then WriteOne(l) else WriteAll(WriteOne(l))
  }

  lemma WriteAllStep(l: Logger)
    ensures WriteAll(l) == if l.toWrite == [] then l.(pc := AtSizeRoll) else WriteAll(WriteOne(l))
  {
  }
}
