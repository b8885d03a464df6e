/** The imperative logger of log/AsyncLogger.cpp, proved against `LoggerProtocol`. Each method is
    one step of a thread: a critical section, or a stretch that touches nothing shared. */
module AsyncLogger {
  import opened Wrappers
  import opened LoggerProtocol

  class AsyncLogger {
    const rollSize: nat
    var currentBuffer: Option<Buf>
    var nextBuffer: Option<Buf>
    var buffers: seq<Buf>
    var running: bool
    /** Locals of the logging thread. */
    var pc: Pc
    var newBuffer1: Option<Buf>
    var newBuffer2: Option<Buf>
    var buffersToWrite: seq<Buf>
    /** The log file, whether it is open, and those rolled away. */
    var ofs: LogFile
    var isOpen: bool
    var rolled: seq<LogFile>
    var writtenBytes: nat
    var curDate: string
    ghost var appended: seq<string>
    ghost var sinceSwap: seq<string>
    ghost var handed: seq<Handed>

    ghost function View(): Logger
      reads this
    {
      Logger(currentBuffer, nextBuffer, buffers, running, pc, newBuffer1, newBuffer2, buffersToWrite,
             ofs, isOpen, rolled, writtenBytes, curDate, appended, sinceSwap, handed)
    }

    /** A logger that has been started on `date`. Here and below, `opens` says whether a log file can be
        opened. */
    constructor (rollSize: nat, date: string, opens: bool)
      ensures this.rollSize == rollSize && View() == Start(date, opens)
    {
      this.rollSize := rollSize;
      currentBuffer, nextBuffer, buffers := Some(EMPTY), Some(EMPTY), [];
      running, pc := true, AtCheck;
      newBuffer1, newBuffer2, buffersToWrite := Some(EMPTY), Some(EMPTY), [];
      ofs, isOpen, rolled, writtenBytes, curDate := NEW_FILE, opens, [], 0, date;
      appended, sinceSwap, handed := [], [], [];
    }

    method Append(data: string)
      requires currentBuffer.Some?
      modifies this`currentBuffer, this`nextBuffer, this`buffers, this`appended, this`sinceSwap
      ensures View() == LoggerProtocol.Append(old(View()), data)
    {
      hide Put, Record;
      var cur := currentBuffer.value;
      if |cur.text| + |data| < cur.capacity {
        currentBuffer := Some(Put(cur, data));
      } else {
        buffers := buffers + [cur];
        if nextBuffer.Some? {
          currentBuffer := nextBuffer;
          nextBuffer := None;
        } else {
          currentBuffer := Some(EMPTY);
        }
        currentBuffer := Some(Put(currentBuffer.value, data));
      }
      appended := appended + Record(data);
      sinceSwap := sinceSwap + Record(data);
    }

    /** The loop condition of `threadFunc`. */
    method CheckLoop() returns (goOn: bool)
      modifies this`pc
      ensures View() == Check(old(View())) && goOn == pc.AtSwap?
    {
      goOn := running || buffers != [];
      pc := if goOn then AtSwap else Exited;
    }

    /** Replaces the buffers that have been given away. */
    method Refill()
      modifies this`currentBuffer, this`newBuffer1, this`newBuffer2, this`nextBuffer
      ensures currentBuffer == if old(currentBuffer).Some? then old(currentBuffer) else Some(OrEmpty(old(newBuffer1)))
      ensures newBuffer1 == Some(if old(currentBuffer).Some? then OrEmpty(old(newBuffer1)) else EMPTY)
      ensures old(nextBuffer).Some? ==> nextBuffer == old(nextBuffer) && newBuffer2 == Some(OrEmpty(old(newBuffer2)))
      ensures old(nextBuffer).None? ==> nextBuffer == Some(OrEmpty(old(newBuffer2))) && newBuffer2 == None
    {
      if currentBuffer.None? {
        if newBuffer1.Some? {
          currentBuffer := newBuffer1;
          newBuffer1 := None;
        } else {
          currentBuffer := Some(EMPTY);
        }
      }
      if newBuffer1.None? {
        newBuffer1 := Some(EMPTY);
      }
      if newBuffer2.None? {
        newBuffer2 := Some(EMPTY);
      }
      if nextBuffer.None? {
        nextBuffer := newBuffer2;
        newBuffer2 := None;
      }
    }

    /** The critical section of `threadFunc`. */
    method SwapBuffers()
      requires currentBuffer.Some? && buffersToWrite == []
      modifies this`currentBuffer, this`nextBuffer, this`buffers, this`buffersToWrite, this`newBuffer1,
               this`newBuffer2, this`sinceSwap, this`pc
      ensures View() == Swap(old(View()))
    {
      TakeBatch();
      Refill();
      sinceSwap := [];
      pc := Writing;
    }

    /** Moves the full buffers, and the current one unless it is empty, to the batch. */
    method TakeBatch()
      requires currentBuffer.Some? && buffersToWrite == []
      modifies this`buffers, this`buffersToWrite, this`currentBuffer
      ensures buffers == [] && buffersToWrite == Swap(old(View())).toWrite
      ensures currentBuffer == if old(currentBuffer).value.text != "" then None else old(currentBuffer)
    {
      if currentBuffer.value.text != "" {
        buffers := buffers + [currentBuffer.value];
        currentBuffer := None;
      } else {
        assert buffers + [] == buffers;
      }
      buffersToWrite, buffers := buffers, buffersToWrite;
    }

    /** The loop over the batch. */
    method WriteBatch()
      requires pc.Writing?
      modifies this`ofs, this`handed, this`writtenBytes, this`buffersToWrite, this`pc
      ensures View() == WriteAll(old(View()))
    {
      hide WriteAll, Hand;
      while buffersToWrite != []
        invariant pc.Writing? && WriteAll(View()) == WriteAll(old(View()))
        decreases |buffersToWrite|
      {
        ghost var before := View();
        var b := buffersToWrite[0];
        if isOpen {
          ofs := LogFile(ofs.text + b.text, ofs.records + b.records);
        }
        handed := handed + Hand(b.records, isOpen);
        writtenBytes := writtenBytes + |b.text|;
        buffersToWrite := buffersToWrite[1..];
        assert View() == WriteOne(before);
        WriteAllStep(before);
      }
      WriteAllStep(View());
      pc := AtSizeRoll;
    }

    method RollFileIfNeeded(opens: bool)
      requires pc.AtSizeRoll?
      modifies this`pc, this`rolled, this`ofs, this`isOpen, this`writtenBytes
      ensures View() == RollBySize(old(View()), rollSize, opens)
    {
      pc := AtDateRoll;
      if !isOpen { return; }
      if writtenBytes >= rollSize {
        rolled := rolled + [ofs];
        ofs, isOpen := NEW_FILE, opens;
        writtenBytes := 0;
      }
    }

    method RollFileByDate(today: string, opens: bool)
      requires pc.AtDateRoll?
      modifies this`pc, this`rolled, this`ofs, this`isOpen, this`curDate
      ensures View() == RollByDate(old(View()), today, opens)
    {
      if today != curDate {
        rolled := rolled + [ofs];
        ofs, isOpen := NEW_FILE, opens;
        curDate := today;
      }
      pc := AtCheck;
    }

    /** One round of `threadFunc` that no producer interrupts: everything appended so far is given to the
        stream, and is in the files if they could all be opened. */
    method Round(today: string, opensBySize: bool, opensByDate: bool)
      requires Inv(rollSize, View()) && pc.AtSwap?
      modifies this
      ensures Inv(rollSize, View()) && pc.AtCheck? && appended == old(appended)
      ensures Passed(handed) == appended && buffers == [] && running == old(running)
      ensures Written(View()) == appended <==> AllKept(handed)
    {
      hide Inv, Written, Passed, AllKept, Swap, WriteAll, RollBySize, RollByDate;
      RoundHandsAll(rollSize, View(), today, opensBySize, opensByDate);
      SwapBuffers();
      WriteBatch();
      RollFileIfNeeded(opensBySize);
      RollFileByDate(today, opensByDate);
    }

    /** The rest of `threadFunc`; its loop is entered at most once. */
    method FinishLoop(today: string, opensBySize: bool, opensByDate: bool)
      requires Inv(rollSize, View()) && pc.AtCheck? && !running
      modifies this
      ensures Inv(rollSize, View()) && pc.Exited? && !running && appended == old(appended)
      ensures currentBuffer.Some? && Passed(handed) + currentBuffer.value.records == appended
      ensures old(buffers) != [] ==> Passed(handed) == appended
    {
      hide Inv, Passed;
      ghost var l := View();
      StepKeepsInv(rollSize, l, DoCheck);
      var goOn := CheckLoop();
      ReadyToSwap(rollSize, l);
      if !goOn {
        ExitRemainder(rollSize, l);
      }
      while goOn
        invariant Inv(rollSize, View()) && !running && appended == old(appended) && (goOn ==> pc.AtSwap?)
        invariant !goOn ==> pc.Exited? && currentBuffer.Some?
        invariant !goOn ==> Passed(handed) + currentBuffer.value.records == appended
        invariant !goOn && old(buffers) != [] ==> Passed(handed) == appended
        decreases goOn
      {
        Round(today, opensBySize, opensByDate);
        l := View();
        StepKeepsInv(rollSize, l, DoCheck);
        ReadyToSwap(rollSize, l);
        ExitRemainder(rollSize, l);
        goOn := CheckLoop();
      }
    }

    /** `stop`, called while the thread is at its loop condition and nothing is appended any more: it returns
        when the thread has left. Everything is given to the stream but what the current buffer holds, and
        that too if the loop is entered once more. A second call does nothing. */
    method Stop(today: string, opensBySize: bool, opensByDate: bool)
      requires Inv(rollSize, View()) && (running ==> pc.AtCheck?)
      modifies this
      ensures Inv(rollSize, View()) && !running && appended == old(appended)
      ensures !old(running) ==> View() == old(View())
      ensures old(running) ==>
                && pc.Exited? && currentBuffer.Some? && Passed(handed) + currentBuffer.value.records == appended
                && (old(buffers) != [] ==> Passed(handed) == appended)
    {
      hide Inv, Passed;
      if running {
        StepKeepsInv(rollSize, View(), DoStop);
        running := false;
        FinishLoop(today, opensBySize, opensByDate);
      }
    }
  }

  lemma {:induction false} WriteAllKeepsInv(rollSize: nat, l: Logger)
    requires Inv(rollSize, l) && l.pc.Writing?
    ensures var q := WriteAll(l);
            && Inv(rollSize, q) && q.pc.AtSizeRoll? && q.current == l.current && q.buffers == l.buffers
            && q.sinceSwap == l.sinceSwap && q.appended == l.appended && q.running == l.running
    decreases |l.toWrite|
  {
    hide Inv;
    WriteKeepsInv(rollSize, l);
    if l.toWrite != [] {
      WriteAllKeepsInv(rollSize, WriteOne(l));
    }
  }

  lemma RoundHandsAll(rollSize: nat, l: Logger, today: string, opensBySize: bool, opensByDate: bool)
    requires Inv(rollSize, l) && l.pc.AtSwap?
    ensures l.current.Some? && l.toWrite == [] && Swap(l).pc.Writing? && WriteAll(Swap(l)).pc.AtSizeRoll?
    ensures RollBySize(WriteAll(Swap(l)), rollSize, opensBySize).pc.AtDateRoll?
    ensures var q := RollByDate(RollBySize(WriteAll(Swap(l)), rollSize, opensBySize), today, opensByDate);
            && Inv(rollSize, q) && q.pc.AtCheck? && q.appended == l.appended && q.running == l.running
            && q.buffers == [] && Passed(q.handed) == q.appended && (Written(q) == q.appended <==> AllKept(q.handed))
  {
    hide Inv, Written, Passed, AllKept, WriteAll;
    ReadyToSwap(rollSize, l);
    SwapKeepsInv(rollSize, l);
    WriteAllKeepsInv(rollSize, Swap(l));
    var written := WriteAll(Swap(l));
    RollBySizeKeepsInv(rollSize, written, opensBySize);
    RollByDateKeepsInv(rollSize, RollBySize(written, rollSize, opensBySize), today, opensByDate);
    AllIsWritten(rollSize, RollByDate(RollBySize(written, rollSize, opensBySize), today, opensByDate));
  }

  lemma AllIsWritten(rollSize: nat, l: Logger)
    requires Inv(rollSize, l) && !l.pc.Writing? && l.sinceSwap == []
    ensures Passed(l.handed) == l.appended
    ensures Written(l) == l.appended <==> AllKept(l.handed)
  {
    hide Text, RecordsOfFiles, Passed, Kept, AllKept, Written;
    assert Unwritten(l) == [] + l.sinceSwap;
    assert Passed(l.handed) + [] == Passed(l.handed);
    KeptIsAll(l.handed);
  }
}
