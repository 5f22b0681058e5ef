/**
 * Clients of the ring buffer and of its slots, one atomic step at a time. The unit tests run the
 * writer and readers on threads; each client here fixes one schedule those tests allow
 * (write all then read all, writer runs ahead, lockstep) or, in the interleaving client, any
 * schedule in which each reader's `readNext` is a gate step followed, after its wait, by a read.
 * What each proves follows from the operations' contracts alone.
 */
module Scenarios {
  import opened Wrappers
  import PowerOfTwo
  import opened Slots
  import opened Plumbing

  /** The tests ask for 1024 slots, already a power of two. */
  lemma RequestedSizeKept()
    ensures PowerOfTwo.HighestOneBit(1024) == 1024
  {
    assert PowerOfTwo.IsPowerOfTwo(1024);
    PowerOfTwo.HighestOneBitUnique(1024, 1024);
  }

  /**
   * The tests' setup: a ring buffer asking for 1024 slots, `readers` readers, the writer, then
   * `initialise`.
   */
  method StartRing<T>(readers: nat) returns (d: Disruptor<T>, handles: seq<ReaderHandle>)
    ensures d.Valid() && d.alreadyStarted && d.writerAssigned && fresh(d.Repr)
    ensures d.bufferSize == 1024 && d.writerIndex == 1 && d.lastReader == 1 && d.written == []
    ensures |d.cursors| == readers && forall r :: 0 <= r < readers ==> d.cursors[r] == 1
    ensures |handles| == readers && forall r :: 0 <= r < readers ==> handles[r] == ReaderHandle(r)
  {
    d := new Disruptor<T>(1024);
    RequestedSizeKept();
    handles := [];
    for i := 0 to readers
      invariant d.Valid() && !d.alreadyStarted && !d.writerAssigned && fresh(d.Repr)
      invariant d.bufferSize == 1024 && d.writerIndex == 1 && d.lastReader == 1 && d.written == []
      invariant |d.cursors| == i && forall r :: 0 <= r < i ==> d.cursors[r] == 1
      invariant |handles| == i && forall r :: 0 <= r < i ==> handles[r] == ReaderHandle(r)
    {
      var reader := d.GetReader();
      handles := handles + [reader.value];
    }
    var writer := d.GetWriter();
    d.Initialise();
  }

  /** A slot built for `n` readers stays unread until the n-th reader has taken its value. */
  method ConsumedAfterEveryReader<T>(n: nat) returns (beforeEach: seq<bool>, afterAll: bool)
    ensures |beforeEach| == n && forall i :: 0 <= i < n ==> !beforeEach[i]
    ensures afterAll
  {
    var slot := new ObjectWrapper<T>(n);
    beforeEach := [];
    for i := 0 to n
      invariant slot.readBy == n - i
      invariant |beforeEach| == i && forall k :: 0 <= k < i ==> !beforeEach[k]
    {
      var consumed := slot.BeenRead();
      beforeEach := beforeEach + [consumed];
      var _ := slot.GetContent();
    }
    afterAll := slot.BeenRead();
  }

  /**
   * A slot as `Initialise` builds it is read already; republished for `n` readers it is unread for
   * the first n - 1 of them and read after the n-th, and every one of them gets the value.
   */
  method RepublishedSlotCycle<T>(t: T, n: nat) returns (emptyRead: bool, beforeEach: seq<bool>, got: seq<Option<T>>, afterAll: bool)
    requires n >= 1
    ensures emptyRead
    ensures |beforeEach| == n - 1 && forall i :: 0 <= i < n - 1 ==> !beforeEach[i]
    ensures |got| == n && forall i :: 0 <= i < n ==> got[i] == Some(t)
    ensures afterAll
  {
    var slot := new ObjectWrapper<T>(0);
    emptyRead := slot.BeenRead();
    slot.SetContent(t, n);
    beforeEach, got := [], [];
    for i := 0 to n
      invariant slot.readBy == n - i && slot.content == Some(t)
      invariant |got| == i && forall k :: 0 <= k < i ==> got[k] == Some(t)
      invariant |beforeEach| == if i < n then i else n - 1
      invariant forall k :: 0 <= k < |beforeEach| ==> !beforeEach[k]
    {
      var c := slot.GetContent();
      got := got + [c];
      if i < n - 1 {
        var consumed := slot.BeenRead();
        beforeEach := beforeEach + [consumed];
      }
    }
    afterAll := slot.BeenRead();
  }

  /** One reader of a 1024-slot ring buffer gets, in order, everything the writer wrote ahead of it. */
  method WriteAllThenReadAll<T>(values: seq<T>) returns (got: seq<T>)
    requires |values| <= 1024
    ensures got == values
  {
    var d, handles := StartRing<T>(1);
    var reader := handles[0];
    for i := 0 to |values|
      invariant d.Valid() && d.alreadyStarted && d.writerAssigned && fresh(d.Repr)
      invariant d.bufferSize == 1024 && d.cursors == [1] && d.lastReader == 1
      invariant d.writerIndex == i + 1 && d.written == values[..i]
    {
      d.WriteNext(values[i]);
    }
    assert values[..|values|] == values;
    got := [];
    for k := 0 to |values|
      invariant d.Valid() && d.alreadyStarted && fresh(d.Repr)
      invariant d.writerIndex == |values| + 1 && d.written == values && d.cursors == [k + 1]
      invariant got == values[..k]
    {
      var v := d.ReadNext(reader);
      got := got + [v];
    }
  }

  /**
   * The writer runs as far ahead as the gate lets it and the reader catches up only while the
   * writer waits. The reader still gets every value exactly as written, and the writer must have
   * waited once there are more values than slots.
   */
  method WriterRunsAhead<T>(values: seq<T>) returns (got: seq<T>, writerWaited: bool)
    requires |values| < INT_LIMIT - 1
    ensures got == values
    ensures |values| > 1024 ==> writerWaited
  {
    var d, handles := StartRing<T>(1);
    var reader := handles[0];
    var sent := 0;
    got, writerWaited := [], false;
    while |got| < |values|
      invariant d.Valid() && d.alreadyStarted && d.writerAssigned && fresh(d.Repr)
      invariant d.bufferSize == 1024 && |d.cursors| == 1
      invariant |got| <= sent <= |values|
      invariant d.writerIndex == sent + 1 && d.written == values[..sent]
      invariant d.cursors[0] == |got| + 1 && got == values[..|got|]
      invariant |got| <= d.lastReader
      invariant got == [] ==> d.lastReader == 1
      invariant !writerWaited ==> sent <= 1024
      invariant !writerWaited && sent < |values| ==> got == []
      decreases (|values| - sent) + (|values| - |got|)
    {
      if sent < |values| && d.CanWrite() {
        d.WriteNext(values[sent]);
        sent := sent + 1;
      } else {
        if sent < |values| {
          writerWaited := true;
        }
        var v := d.ReadNext(reader);
        got := got + [v];
      }
    }
  }

  /** Two readers of one writer each observe the whole written sequence, in order. */
  method TwoReadersSeeSameSequence<T>(values: seq<T>) returns (first: seq<T>, second: seq<T>)
    requires |values| < INT_LIMIT - 1
    ensures first == values && second == values
  {
    var d, handles := StartRing<T>(2);
    var firstReader, secondReader := handles[0], handles[1];
    first, second := [], [];
    for k := 0 to |values|
      invariant d.Valid() && d.alreadyStarted && d.writerAssigned && fresh(d.Repr)
      invariant d.bufferSize == 1024 && d.cursors == [k + 1, k + 1]
      invariant d.writerIndex == k + 1 && d.written == values[..k]
      invariant d.writerIndex - d.lastReader <= 1
      invariant first == values[..k] && second == values[..k]
    {
      d.WriteNext(values[k]);
      var a := d.ReadNext(firstReader);
      var b := d.ReadNext(secondReader);
      first, second := first + [a], second + [b];
    }
    assert values[..|values|] == values;
  }

  /**
   * Any interleaving of the writer and two readers: at each step `schedule` picks the writer or
   * one of the readers. The writer writes when its spin loop would exit. A reader outside
   * `readNext` enters it and makes its gate step; a reader inside reads once its spin loop would
   * exit. Whatever the interleaving, each reader has received a prefix of the values, in order.
   */
  method InterleavedReadersSeePrefixes<T>(values: seq<T>, schedule: seq<nat>) returns (first: seq<T>, second: seq<T>)
    requires |values| < INT_LIMIT - 1
    ensures |first| <= |values| && first == values[..|first|]
    ensures |second| <= |values| && second == values[..|second|]
  {
    var d, handles := StartRing<T>(2);
    var firstReader, secondReader := handles[0], handles[1];
    var firstWaiting, secondWaiting := false, false;
    var sent := 0;
    first, second := [], [];
    for s := 0 to |schedule|
      invariant d.Valid() && d.alreadyStarted && d.writerAssigned && fresh(d.Repr)
      invariant d.bufferSize == 1024 && |d.cursors| == 2
      invariant sent <= |values| && d.writerIndex == sent + 1 && d.written == values[..sent]
      invariant d.cursors[0] == |first| + 1 && first == values[..|first|]
      invariant d.cursors[1] == |second| + 1 && second == values[..|second|]
    {
      var step := schedule[s] % 3;
      if step == 0 {
        if sent < |values| && d.CanWrite() {
          d.WriteNext(values[sent]);
          sent := sent + 1;
        }
      } else if step == 1 {
        if !firstWaiting {
          d.IncrementReaderCount(d.cursors[0] - 1);
          firstWaiting := true;
        } else if d.CanRead(firstReader) {
          var v := d.ReadAfterWait(firstReader);
          first := first + [v];
          firstWaiting := false;
        }
      } else {
        if !secondWaiting {
          d.IncrementReaderCount(d.cursors[1] - 1);
          secondWaiting := true;
        } else if d.CanRead(secondReader) {
          var v := d.ReadAfterWait(secondReader);
          second := second + [v];
          secondWaiting := false;
        }
      }
    }
  }

  /**
   * `Initialise` checks nothing: called again after a write that no reader has consumed yet, it
   * replaces the slot holding that value with an empty one.
   */
  method ReinitialiseDiscardsUnread<T>(t: T) returns (before: Option<T>, after: Option<T>, pending: bool)
    ensures before == Some(t) && after == None
    ensures pending
  {
    var d, handles := StartRing<T>(1);
    var reader := handles[0];
    d.WriteNext(t);
    before := d.ringBuffer[1].content;
    d.Initialise();
    after := d.ringBuffer[1].content;
    pending := d.CanRead(reader);
  }
}
