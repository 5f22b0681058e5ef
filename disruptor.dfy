/**
 * The single-writer, multi-reader ring buffer.
 *
 * Every public operation is one atomic step. The writer's and the readers' busy-wait loops are
 * the predicates `CanWrite` and `CanRead`, which their operations require.
 */
module Plumbing {
  import opened Wrappers
  import PowerOfTwo
  import opened ReaderCursors
  import RingIndex
  import opened Slots

  /** One more than the largest Java `int`: slot positions are computed as `(int) index % size`. */
  const INT_LIMIT: int := 0x8000_0000

  /** The capacity of a ring buffer built without a requested size. */
  const DEFAULT_BUFFER_SIZE: nat := 1024

  /** The checked exceptions of the setup protocol. `NoWriterAssigned` is declared but never thrown. */
  datatype Failure = AlreadyStarted | WriterAlreadyAssigned | NoWriterAssigned

  /** A reader handle: the position of its cursor among the ring buffer's readers. */
  datatype ReaderHandle = ReaderHandle(id: nat)

  /** The writer handle; a ring buffer hands out at most one. */
  datatype WriterHandle = WriterHandle

  class Disruptor<T> {
    /** The slots; `null` until `Initialise` fills them. */
    const ringBuffer: array<ObjectWrapper?<T>>
    const bufferSize: nat
    var numReaders: int
    /** The next index the writer publishes to; indices start at 1. */
    var writerIndex: int
    /** The gate: the writer may run at most `bufferSize` indices ahead of it. */
    var lastReader: int
    var writerAssigned: bool
    var alreadyStarted: bool
    /**
     * Each reader's `currentCount`: the next index that reader consumes. Java increments
     * `currentCount` on entry to `readNext`; the model increments it after the read.
     */
    var cursors: seq<int>

    /** Every value written so far; index `i` of the stream is `written[i - 1]`. */
    ghost var written: seq<T>
    ghost var Repr: set<object>

    /** The shape of the object: array, slots, reader count and the setup phase. */
    ghost predicate Wellformed()
      reads this, Repr
    {
      this in Repr && ringBuffer in Repr &&
      ringBuffer.Length == bufferSize &&
      numReaders == |cursors| &&
      |written| == writerIndex - 1 &&
      (!alreadyStarted ==> writerIndex == 1 && lastReader == 1) &&
      (alreadyStarted ==>
        (forall i :: 0 <= i < bufferSize ==> ringBuffer[i] != null && ringBuffer[i] in Repr) &&
        (forall i, k :: 0 <= i < k < bufferSize ==> ringBuffer[i] != ringBuffer[k]))
    }

    /** The gate bounds the writer, and every reader sits between the gate and the writer. */
    ghost predicate GateOk()
      reads this
    {
      1 <= lastReader <= writerIndex &&
      writerIndex - lastReader <= bufferSize &&
      forall r :: 0 <= r < |cursors| ==> lastReader <= cursors[r] <= writerIndex
    }

    /**
     * Index `j` of the last `bufferSize` indices is resident in slot `j % bufferSize`: if it was
     * written, the slot holds its value and counts the readers that have not consumed it yet;
     * otherwise the slot is still the empty one `Initialise` created.
     */
    ghost predicate Resident(j: int)
      reads this, Repr
      requires Wellformed() && alreadyStarted
      requires writerIndex - bufferSize <= j < writerIndex
    {
      var slot := ringBuffer[j % bufferSize];
      if j >= 1 then
        slot.content == Some(written[j - 1]) && slot.readBy == numReaders - CountPast(cursors, j)
      else
        slot.content == None && slot.readBy == 0
    }

    ghost predicate Consistent()
      reads this, Repr
      requires Wellformed() && alreadyStarted
    {
      forall j :: writerIndex - bufferSize <= j < writerIndex ==> Resident(j)
    }

    ghost predicate Valid()
      reads this, Repr
    {
      Wellformed() && GateOk() && (alreadyStarted ==> Consistent())
    }

    /** The writer's spin loop exits: the slot it publishes to is no longer guarded by the gate. */
    predicate CanWrite(): (r: bool)
      reads this
      ensures GateOk() && r ==> forall k :: 0 <= k < |cursors| ==> cursors[k] > writerIndex - bufferSize
    {
      writerIndex - lastReader < bufferSize
    }

    /** A reader's spin loop exits: the writer has published the index it reads next. */
    predicate CanRead(reader: ReaderHandle): (r: bool)
      reads this
      requires reader.id < |cursors|
      ensures |written| == writerIndex - 1 ==> (r <==> cursors[reader.id] <= |written|)
    {
      cursors[reader.id] < writerIndex
    }

    constructor Default()
      ensures Valid() && fresh(Repr) && fresh(ringBuffer)
      ensures bufferSize == DEFAULT_BUFFER_SIZE
      ensures writerIndex == 1 && lastReader == 1 && numReaders == 0 && cursors == [] && written == []
      ensures !writerAssigned && !alreadyStarted
      ensures forall i :: 0 <= i < bufferSize ==> ringBuffer[i] == null
    {
      bufferSize := DEFAULT_BUFFER_SIZE;
      ringBuffer := new ObjectWrapper?<T>[DEFAULT_BUFFER_SIZE](_ => null);
      numReaders := 0;
      writerIndex, lastReader := 1, 1;
      writerAssigned, alreadyStarted := false, false;
      cursors := [];
      written := [];
      new;
      Repr := {this, ringBuffer};
    }

    constructor (requestedSize: int)
      requires 0 <= requestedSize < INT_LIMIT
      ensures Valid() && fresh(Repr) && fresh(ringBuffer)
      ensures bufferSize == PowerOfTwo.HighestOneBit(requestedSize)
      ensures writerIndex == 1 && lastReader == 1 && numReaders == 0 && cursors == [] && written == []
      ensures !writerAssigned && !alreadyStarted
      ensures forall i :: 0 <= i < bufferSize ==> ringBuffer[i] == null
    {
      bufferSize := PowerOfTwo.HighestOneBit(requestedSize);
      ringBuffer := new ObjectWrapper?<T>[PowerOfTwo.HighestOneBit(requestedSize)](_ => null);
      numReaders := 0;
      writerIndex, lastReader := 1, 1;
      writerAssigned, alreadyStarted := false, false;
      cursors := [];
      written := [];
      new;
      Repr := {this, ringBuffer};
    }

    /** Registers a reader with cursor 1; refused once the ring buffer has started. */
    method GetReader() returns (res: Result<ReaderHandle, Failure>)
      requires Wellformed()
      modifies this
      ensures Wellformed() && (old(Valid()) ==> Valid()) && Repr == old(Repr)
      ensures old(alreadyStarted) ==>
        res == Failure(AlreadyStarted) && cursors == old(cursors) && numReaders == old(numReaders)
      ensures !old(alreadyStarted) ==>
        res == Success(ReaderHandle(|old(cursors)|)) &&
        cursors == old(cursors) + [1] && numReaders == old(numReaders) + 1
      ensures writerIndex == old(writerIndex) && lastReader == old(lastReader) && written == old(written)
      ensures writerAssigned == old(writerAssigned) && alreadyStarted == old(alreadyStarted)
    {
      if alreadyStarted {
        return Failure(AlreadyStarted);
      }
      numReaders := numReaders + 1;
      cursors := cursors + [1];
      res := Success(ReaderHandle(|cursors| - 1));
    }

    /** Hands out the one writer; refused once started, and to every caller after the first. */
    method GetWriter() returns (res: Result<WriterHandle, Failure>)
      requires Wellformed()
      modifies this
      ensures Wellformed() && (old(Valid()) ==> Valid()) && Repr == old(Repr)
      ensures old(alreadyStarted) ==> res == Failure(AlreadyStarted) && writerAssigned == old(writerAssigned)
      ensures !old(alreadyStarted) && old(writerAssigned) ==>
        res == Failure(WriterAlreadyAssigned) && writerAssigned
      ensures !old(alreadyStarted) && !old(writerAssigned) ==> res == Success(WriterHandle) && writerAssigned
      ensures writerIndex == old(writerIndex) && lastReader == old(lastReader) && written == old(written)
      ensures cursors == old(cursors) && numReaders == old(numReaders) && alreadyStarted == old(alreadyStarted)
    {
      if alreadyStarted {
        return Failure(AlreadyStarted);
      }
      var wasAssigned := writerAssigned;
      writerAssigned := true;
      if wasAssigned {
        return Failure(WriterAlreadyAssigned);
      }
      res := Success(WriterHandle);
    }

    /**
     * Starts the ring buffer and fills every slot with a fresh, empty one that no reader waits for.
     * Nothing is checked, so it may be called again; the ring buffer is consistent afterwards only
     * when nothing has been written yet.
     */
    method Initialise()
      requires Wellformed()
      modifies this, ringBuffer
      ensures Wellformed() && alreadyStarted && fresh(Repr - old(Repr))
      ensures forall i :: 0 <= i < bufferSize ==>
        fresh(ringBuffer[i]) && ringBuffer[i].readBy == 0 && ringBuffer[i].content == None
      ensures writerIndex == old(writerIndex) && lastReader == old(lastReader) && written == old(written)
      ensures cursors == old(cursors) && numReaders == old(numReaders) && writerAssigned == old(writerAssigned)
      ensures old(Valid()) && writerIndex == 1 ==> Valid()
    {
      alreadyStarted := true;
      ghost var slots: set<object> := {};
      for i := 0 to bufferSize
        invariant forall k :: 0 <= k < i ==>
          ringBuffer[k] != null && fresh(ringBuffer[k]) && ringBuffer[k] in slots &&
          ringBuffer[k].readBy == 0 && ringBuffer[k].content == None
        invariant forall k, l :: 0 <= k < l < i ==> ringBuffer[k] != ringBuffer[l]
        invariant forall o :: o in slots ==> fresh(o)
        modifies ringBuffer
      {
        var slot := new ObjectWrapper<T>(0);
        ringBuffer[i] := slot;
        slots := slots + {slot};
      }
      Repr := {this, ringBuffer} + slots;
      if old(Valid()) && writerIndex == 1 {
        forall j | writerIndex - bufferSize <= j < writerIndex
          ensures Resident(j)
        {
          assert 0 <= j % bufferSize < bufferSize;
        }
      }
    }

    /**
     * Every reader has consumed the index whose slot the writer publishes to next, so the slot it
     * overwrites has no reader pending.
     */
    lemma WriteSlotConsumed()
      requires Valid() && alreadyStarted && CanWrite()
      ensures forall r :: 0 <= r < |cursors| ==> cursors[r] > writerIndex - bufferSize
      ensures ringBuffer[writerIndex % bufferSize].readBy == 0
    {
      var lapped := writerIndex - bufferSize;
      assert Resident(lapped);
      RingIndex.SlotAfterLap(writerIndex, bufferSize);
      AllPast(cursors, lapped);
    }

    /** `writeNext` / `writeToBuffer`: publishes `t` for every registered reader. */
    method WriteNext(t: T)
      requires Valid() && alreadyStarted && writerAssigned
      requires CanWrite()
      requires writerIndex < INT_LIMIT
      modifies this, ringBuffer[writerIndex % bufferSize]
      ensures Valid() && Repr == old(Repr)
      ensures written == old(written) + [t]
      ensures writerIndex == old(writerIndex) + 1
      ensures ringBuffer[old(writerIndex) % bufferSize].content == Some(t)
      ensures ringBuffer[old(writerIndex) % bufferSize].readBy == numReaders
      ensures lastReader == old(lastReader) && cursors == old(cursors) && numReaders == old(numReaders)
      ensures writerAssigned && alreadyStarted
    {
      var position := writerIndex % bufferSize;
      ringBuffer[position].SetContent(t, numReaders);
      writerIndex := writerIndex + 1;
      written := written + [t];
      ghost var published := writerIndex - 1;
      NonePast(cursors, published);
      forall j | writerIndex - bufferSize <= j < writerIndex
        ensures Resident(j)
      {
        if j < published {
          assert old(Resident(j));
          RingIndex.SlotsDiffer(j, published, bufferSize);
        }
      }
    }

    /**
     * `incrementReaderCount`: a reader entering `readNext` with cursor `idx + 1` moves the gate up
     * to its cursor when the slot of the previous index has no reader pending, that is, exactly
     * when every reader has consumed index `idx`.
     */
    method IncrementReaderCount(idx: int)
      requires Valid() && alreadyStarted && bufferSize > 0
      requires idx + 1 in cursors
      modifies this`lastReader
      ensures Valid()
      ensures lastReader == if ringBuffer[idx % bufferSize].readBy < 1 then idx + 1 else old(lastReader)
      ensures lastReader ==
        if forall r :: 0 <= r < |cursors| ==> cursors[r] > idx then idx + 1 else old(lastReader)
    {
      var consumed := ringBuffer[idx % bufferSize].BeenRead();
      AllPast(cursors, idx);
      if idx + 1 > lastReader {
        assert Resident(idx);
      }
      if consumed {
        lastReader := idx + 1;
      }
      forall j | writerIndex - bufferSize <= j < writerIndex
        ensures Resident(j)
      {
        assert old(Resident(j));
      }
    }

    /** Once a reader may read, the slot its cursor names holds the value written at that index. */
    lemma ReadSlotPublished(reader: ReaderHandle)
      requires Valid() && alreadyStarted && reader.id < |cursors| && CanRead(reader)
      ensures ringBuffer[cursors[reader.id] % bufferSize].content == Some(written[cursors[reader.id] - 1])
    {
      assert Resident(cursors[reader.id]);
    }

    /**
     * The second half of `readValue`, after the gate step and the wait: the reader consumes the
     * index its cursor names, gets the value written at that index and moves its own cursor, and
     * only its own, by one. The gate is not touched again.
     */
    method ReadAfterWait(reader: ReaderHandle) returns (v: T)
      requires Valid() && alreadyStarted
      requires reader.id < |cursors|
      requires CanRead(reader)
      modifies this, ringBuffer[cursors[reader.id] % bufferSize]
      ensures Valid() && Repr == old(Repr)
      ensures writerIndex == old(writerIndex) && written == old(written) && numReaders == old(numReaders)
      ensures v == written[old(cursors[reader.id]) - 1]
      ensures cursors == old(cursors)[reader.id := old(cursors[reader.id]) + 1]
      ensures lastReader == old(lastReader)
      ensures ringBuffer[old(cursors[reader.id]) % bufferSize].readBy
              == old(ringBuffer[cursors[reader.id] % bufferSize].readBy) - 1
      ensures writerAssigned == old(writerAssigned) && alreadyStarted
    {
      var idx := cursors[reader.id];
      var position := idx % bufferSize;
      ReadSlotPublished(reader);
      var c := ringBuffer[position].GetContent();
      v := c.value;
      cursors := cursors[reader.id := idx + 1];
      forall j | writerIndex - bufferSize <= j < writerIndex
        ensures Resident(j)
      {
        assert old(Resident(j));
        AdvanceOne(old(cursors), reader.id, j);
        if j < idx {
          RingIndex.SlotsDiffer(j, idx, bufferSize);
        } else if j > idx {
          RingIndex.SlotsDiffer(idx, j, bufferSize);
        }
      }
    }

    /**
     * `readNext` / `readValue` when the reader does not have to wait: the gate step for the
     * previous index, then the read.
     */
    method ReadNext(reader: ReaderHandle) returns (v: T)
      requires Valid() && alreadyStarted
      requires reader.id < |cursors|
      requires CanRead(reader)
      modifies this, ringBuffer[cursors[reader.id] % bufferSize]
      ensures Valid() && Repr == old(Repr)
      ensures writerIndex == old(writerIndex) && written == old(written) && numReaders == old(numReaders)
      ensures v == written[old(cursors[reader.id]) - 1]
      ensures cursors == old(cursors)[reader.id := old(cursors[reader.id]) + 1]
      ensures lastReader ==
        if forall r :: 0 <= r < |cursors| ==> old(cursors)[r] >= old(cursors[reader.id])
        then old(cursors[reader.id]) else old(lastReader)
      ensures ringBuffer[old(cursors[reader.id]) % bufferSize].readBy
              == old(ringBuffer[cursors[reader.id] % bufferSize].readBy) - 1
      ensures writerAssigned == old(writerAssigned) && alreadyStarted
    {
      IncrementReaderCount(cursors[reader.id] - 1);
      v := ReadAfterWait(reader);
    }
  }
}
