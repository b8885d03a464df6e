/** The input and output buffer of Buffer.cpp: a growing array with a read and a write index,
    proved to be a byte queue. */
module ByteBuffer {
  lemma SplitAt(all: string, before: string, data: string, n: nat)
    requires n <= |before| && |all| == |before| + |data| && all[..|before|] == before && all[|before|..] == data
    ensures all[n..] == before[n..] + data
  {
    assert all == before + data;
  }

  class Buffer {
    var storage: array<char>
    var readIndex: nat
    var writeIndex: nat

    ghost predicate Valid()
      reads this
    {
      readIndex <= writeIndex <= storage.Length
    }

    /** The bytes received and not yet consumed. */
    ghost function Contents(): string
      requires Valid()
      reads this, storage
    {
      storage[readIndex..writeIndex]
    }

    constructor (initialSize: nat)
      ensures Valid() && fresh(storage) && Contents() == ""
    {
      storage := new char[initialSize](_ => '\0');
      readIndex, writeIndex := 0, 0;
    }

    function ReadableBytes(): (n: nat)
      requires Valid()
      reads this, storage
      ensures n == |Contents()|
    {
      writeIndex - readIndex
    }

    function WritableBytes(): nat
      requires Valid()
      reads this
    {
      storage.Length - writeIndex
    }

    /** `peek()` together with the number of readable bytes. */
    method Peek() returns (bytes: string)
      requires Valid()
      ensures bytes == Contents()
    {
      bytes := storage[readIndex..writeIndex];
    }

    method RetrieveAll()
      modifies this`readIndex, this`writeIndex
      ensures Valid() && Contents() == ""
    {
      readIndex, writeIndex := 0, 0;
    }

    /** Consumes `len` bytes, or everything when fewer are readable. */
    method Retrieve(len: nat)
      requires Valid()
      modifies this`readIndex, this`writeIndex
      ensures Valid()
      ensures Contents() == if len <= |old(Contents())| then old(Contents())[len..] else ""
    {
      if len < ReadableBytes() {
        readIndex := readIndex + len;
      } else {
        RetrieveAll();
      }
    }

    /** Room for `len` more bytes; the readable bytes stay where they are. */
    method EnsureWritable(len: nat)
      requires Valid()
      modifies this`storage
      ensures Valid() && WritableBytes() >= len
      ensures storage == old(storage) || fresh(storage)
      ensures storage.Length == if old(WritableBytes()) < len then writeIndex + len else old(storage.Length)
      ensures storage[..writeIndex] == old(storage[..writeIndex])
    {
      if WritableBytes() < len {
        var previous := storage;
        storage := new char[writeIndex + len](
          i requires 0 <= i reads previous => if i < previous.Length then previous[i] else '\0');
      }
    }

    method Append(data: string)
      requires Valid()
      modifies this`storage, this`writeIndex, storage
      ensures Valid() && Contents() == old(Contents()) + data
      ensures storage == old(storage) || fresh(storage)
    {
      EnsureWritable(|data|);
      ghost var before := storage[..writeIndex];
      forall i | writeIndex <= i < writeIndex + |data| {
        storage[i] := data[i - writeIndex];
      }
      assert storage[..writeIndex] == before;
      assert storage[writeIndex..writeIndex + |data|] == data;
      SplitAt(storage[..writeIndex + |data|], before, data, readIndex);
      writeIndex := writeIndex + |data|;
    }
  }
}
