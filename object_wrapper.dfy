/**
 * One reusable slot of the ring: the value last published into it and the number of readers that
 * still have to consume that value.
 */
module Slots {
  import opened Wrappers

  class ObjectWrapper<T> {
    /** The published value; `None` until the first `SetContent` (a Java `null`). */
    var content: Option<T>
    /** Readers still to consume `content`; decremented without a floor, so it may go negative. */
    var readBy: int

    constructor (readBy: int)
      ensures this.readBy == readBy && content == None
    {
      content := None;
      this.readBy := readBy;
    }

    /** Publishes `t` for `numReaders` readers. */
    method SetContent(t: T, numReaders: int)
      modifies this
      ensures content == Some(t) && readBy == numReaders
    {
      content := Some(t);
      readBy := numReaders;
    }

    /** One reader consumes the slot: it gets the value and leaves one reader fewer pending. */
    method GetContent() returns (c: Option<T>)
      modifies this
      ensures c == old(content) && content == old(content)
      ensures readBy == old(readBy) - 1
    {
      readBy := readBy - 1;
      c := content;
    }

    /** The slot's value has been consumed by every reader it was published for. */
    method BeenRead() returns (b: bool)
      ensures b <==> readBy < 1
    {
      b := readBy < 1;
    }
  }
}
