/** The imperative output path: Channel.cpp's interest bits and TcpConnection.cpp over Buffer.cpp,
    proved against `TcpOutput`. System calls are parameters that say how the kernel answers. */
module TcpConnection {
  import opened Wrappers
  import opened ByteBuffer
  import opened TcpOutput

  class Channel {
    var wantsRead: bool
    var wantsWrite: bool

    constructor ()
      ensures !wantsRead && !wantsWrite
    {
      wantsRead, wantsWrite := false, false;
    }

    method EnableReading()
      modifies this`wantsRead
      ensures wantsRead
    {
      wantsRead := true;
    }

    method DisableReading()
      modifies this`wantsRead
      ensures !wantsRead
    {
      wantsRead := false;
    }

    method EnableWriting()
      modifies this`wantsWrite
      ensures wantsWrite
    {
      wantsWrite := true;
    }

    method DisableWriting()
      modifies this`wantsWrite
      ensures !wantsWrite
    {
      wantsWrite := false;
    }

    method DisableAll()
      modifies this
      ensures !wantsRead && !wantsWrite
    {
      wantsRead, wantsWrite := false, false;
    }
  }

  class TcpConnection {
    const channel: Channel
    const outputBuffer: Buffer
    var state: State
    var sendingFileFd: int
    var sendingFileOffset: nat
    var sendingFileRemain: nat
    var readingPaused: bool
    /** Contents of the pending file, and the history of the socket. */
    ghost var sendingFile: string
    ghost var wire: string
    ghost var accepted: string
    ghost var shuts: nat

    ghost predicate Valid()
      reads this, outputBuffer
    {
      sendingFileFd >= -1 && outputBuffer.Valid()
    }

    ghost function View(): Tcp
      requires Valid()
      reads this, channel, outputBuffer, outputBuffer.storage
    {
      Tcp(state, channel.wantsRead, channel.wantsWrite, readingPaused, outputBuffer.Contents(),
          if sendingFileFd == -1 then None else Some(Source(sendingFile, sendingFileOffset, sendingFileRemain)),
          wire, accepted, shuts)
    }

    /** A connection after `connectEstablished`. */
    constructor ()
      ensures Valid() && fresh(channel) && fresh(outputBuffer) && fresh(outputBuffer.storage) && View() == START
    {
      channel := new Channel();
      outputBuffer := new Buffer(1024);
      state, readingPaused := Connected, false;
      sendingFileFd, sendingFileOffset, sendingFileRemain := -1, 0, 0;
      sendingFile, wire, accepted, shuts := "", "", "", 0;
      new;
      channel.EnableReading();
    }

    function PendingBytes(): (n: nat)
      requires Valid()
      reads this, channel, outputBuffer, outputBuffer.storage
      ensures n == View().PendingBytes()
    {
      outputBuffer.ReadableBytes() + if sendingFileFd != -1 then sendingFileRemain else 0
    }

    method SendInLoop(data: string, k: Io)
      requires Valid() && (k.Wrote? ==> k.n <= |data|)
      modifies this, channel, outputBuffer, outputBuffer.storage
      ensures Valid() && (outputBuffer.storage == old(outputBuffer.storage) || fresh(outputBuffer.storage))
      ensures View() == Send(old(View()), data, k)
    {
      if PendingBytes() + |data| > HIGH_WATER_MARK {
        if !readingPaused {
          channel.DisableReading();
          readingPaused := true;
        }
        return;
      }

      var nwrote := 0;
      if !channel.wantsWrite && outputBuffer.ReadableBytes() == 0 {
        match k {
          case Wrote(n) =>
            nwrote := n;
            wire := wire + data[..n];
            if n == |data| {
              assert data[..n] == data;
              accepted := accepted + data;
              return;
            }
          case Again =>
            assert wire + data[..0] == wire;
          case Broken =>
            return;
        }
      } else {
        assert wire + data[..0] == wire;
      }

      Keep(data, nwrote);
    }

    /** The second half of `sendInLoop`: what the kernel left goes to the buffer. */
    method Keep(data: string, nwrote: nat)
      requires Valid() && nwrote <= |data|
      modifies this`accepted, channel`wantsWrite, outputBuffer, outputBuffer.storage
      ensures Valid() && (outputBuffer.storage == old(outputBuffer.storage) || fresh(outputBuffer.storage))
      ensures var t := old(View());
              View() == t.(out := t.out + data[nwrote..], accepted := t.accepted + data, writing := true)
    {
      accepted := accepted + data;
      outputBuffer.Append(data[nwrote..]);
      if !channel.wantsWrite {
        channel.EnableWriting();
      }
    }

    /** `contents` is what `fd` refers to. */
    method SendFile(fd: nat, offset: nat, size: nat, ghost contents: string)
      requires Valid()
      modifies this, channel
      ensures Valid() && View() == TcpOutput.SendFile(old(View()), Source(contents, offset, size))
    {
      sendingFileFd := fd;
      sendingFileOffset := offset;
      sendingFileRemain := size;
      sendingFile := contents;
      accepted := accepted + Source(contents, offset, size).Rest();
      channel.EnableWriting();
    }

    method HandleClose()
      requires Valid()
      modifies this, channel
      ensures Valid() && View() == Close(old(View()))
    {
      if state.Disconnected? { return; }
      state := Disconnected;
      channel.DisableAll();
      if sendingFileFd != -1 {
        sendingFileFd := -1;
      }
    }

    method ShutdownInLoop()
      requires Valid()
      modifies this
      ensures Valid() && View() == Shutdown(old(View()))
    {
      if !channel.wantsWrite {
        shuts := shuts + 1;
      } else {
        state := Disconnecting;
      }
    }

    /** Everything sent: stop waiting, resume reading, carry out a pending shutdown. */
    method FinishWriting()
      requires Valid()
      modifies this, channel
      ensures Valid() && View() == Drained(old(View()))
    {
      if outputBuffer.ReadableBytes() == 0 && sendingFileFd == -1 {
        channel.DisableWriting();
        if readingPaused {
          channel.EnableReading();
          readingPaused := false;
        }
        if state.Disconnecting? {
          ShutdownInLoop();
        }
      }
    }

    /** The `sendfile` half of `handleWrite`. */
    method WritePendingFile(kf: Io)
      requires Valid() && (kf.Wrote? ==> kf.n <= |View().FileRest()|)
      modifies this, channel
      ensures Valid() && View() == WriteFile(old(View()), kf)
    {
      if sendingFileFd != -1 {
        if kf.Wrote? && kf.n > 0 {
          wire := wire + View().FileRest()[..kf.n];
          sendingFileOffset := sendingFileOffset + kf.n;
          sendingFileRemain := sendingFileRemain - kf.n;
          if sendingFileRemain == 0 {
            sendingFileFd := -1;
          }
          return;
        } else if !kf.Wrote? {
          if kf.Broken? {
            HandleClose();
          }
          return;
        }
      }
      FinishWriting();
    }

    /** `k` answers `write` and `kf` answers `sendfile`, where they are called. */
    method HandleWrite(k: Io, kf: Io)
      requires Valid() && Possible(View(), DoWrite(k, kf))
      modifies this, channel, outputBuffer
      ensures Valid() && View() == TcpOutput.HandleWrite(old(View()), k, kf)
    {
      hide WriteFile, Source.Rest;
      if outputBuffer.ReadableBytes() > 0 {
        if k.Wrote? && k.n > 0 {
          wire := wire + View().out[..k.n];
          outputBuffer.Retrieve(k.n);
          if outputBuffer.ReadableBytes() > 0 {
            return;
          }
        } else if k.Broken? {
          HandleClose();
          return;
        } else if k.Wrote? {
          assert wire + View().out[..0] == wire && View().out[0..] == View().out;
        }
      }
      WritePendingFile(kf);
    }
  }
}
