# Disruptor: a verified model of a single-writer, multi-reader ring buffer

This project models `Disruptor<T>`, a lock-free ring buffer that hands a stream of values from one
writer to any number of readers, and `ObjectWrapper<T>`, the reusable slot it is built from. The
model is written in Dafny and proved with Dafny's verifier.

- **Slots** (`object_wrapper.dfy`, class `Slots.ObjectWrapper`) hold the last published value and
  `readBy`, the number of readers still to consume it. A reader decrements `readBy` with no floor.
  A slot counts as read once `readBy` drops below 1.
- **The ring buffer** (`disruptor.dfy`, class `Plumbing.Disruptor`) keeps the Java fields:
  - a fixed array of slots whose capacity is set at construction;
  - `numReaders`, `writerIndex` and the gate `lastReader`, with both indices starting at 1;
  - the flags `writerAssigned` and `alreadyStarted`.

  The inner `DisruptorReader` objects become `cursors`, one `currentCount` per reader. A
  `ReaderHandle` names a reader by its position in `cursors`. The ghost sequence `written` holds
  every value written so far, with index `i` of the stream stored at `written[i - 1]`.
- **Capacity rounding** (`power_of_two.dfy`) is Java's `Integer.highestOneBit` on non-negative
  sizes.
- **Helpers.** `cursors.dfy` holds the counting facts that tie a slot's `readBy` to the readers'
  cursors. `ring_index.dfy` holds the modular arithmetic for slot positions.
- **Client methods** (`scenarios.dfy`) take one atomic step at a time. The unit tests run on
  threads and fix no schedule. Each client picks one schedule the tests allow: write all then read
  all, writer runs ahead, or lockstep. One more client takes an arbitrary interleaving of the writer
  and two readers, in which each reader's `readNext` is a gate step and, after its wait, a read. What each proves follows from the operations' contracts alone.

Each public operation is treated as one atomic step. Each busy-wait loop becomes a predicate that
the operation requires:
- `CanWrite()`: `writerIndex - lastReader < bufferSize`;
- `CanRead(reader)`: the reader's cursor is below `writerIndex`.

The object invariant `Valid()` has three parts:
- The gate is at most `bufferSize` below the writer.
- Every reader's cursor lies between the gate and the writer.
- For each of the last `bufferSize` indices `j`, slot `j % bufferSize` holds `written[j - 1]`.
  Its `readBy` equals the number of readers whose cursor has not yet passed `j`.

Three results follow. Each reader receives the written sequence in order. All readers receive the
same sequence. The writer only ever overwrites a slot whose `readBy` is 0.

The model follows these details of the code:
- `initialise` checks nothing. It never reports a missing writer or a second call, and it can be
  called again, which replaces every slot with an empty one.
- There is no batch read.
- `NoWriterAssigned` is declared but never thrown.
- A reader moves the gate for the *previous* index at the start of `readNext`, before it waits.

## Model

| member | source | states |
|---|---|---|
| `PowerOfTwo.HighestOneBit` | src/main/java/fx/infra/plumbing/Disruptor.java:76-78 | 0 for 0. Otherwise a power of two `r` with `r <= n < 2 * r`. |
| `PowerOfTwo.HighestOneBitIsLargest` | src/main/java/fx/infra/plumbing/Disruptor.java:76-78 | No power of two that is at most `n` exceeds the rounded size: the result is the largest such power. |
| `PowerOfTwo.HighestOneBitUnique` | src/main/java/fx/infra/plumbing/Disruptor.java:76-78 | Any power of two `p` with `p <= n < 2 * p` is the rounded size, so the bounds determine it. |
| `PowerOfTwo.HighestOneBitExamples` | src/test/java/fx/infra/plumbing/DisruptorTest.java:143-150 | 1533 rounds to 1024, 0 to 0, 3 to 2 and 2048 to 2048. |
| `Slots.ObjectWrapper.constructor` | src/main/java/fx/infra/plumbing/ObjectWrapper.java:16-18 | A new slot has pending count `n` and no content. |
| `Slots.ObjectWrapper.SetContent` | src/main/java/fx/infra/plumbing/ObjectWrapper.java:20-23 | The content is replaced by `t` and the pending count by `numReaders`. |
| `Slots.ObjectWrapper.GetContent` | src/main/java/fx/infra/plumbing/ObjectWrapper.java:25-28 | Returns the current content and leaves it unchanged. The pending count drops by exactly one, with no floor. |
| `Slots.ObjectWrapper.BeenRead` | src/main/java/fx/infra/plumbing/ObjectWrapper.java:30-32 | True exactly when no reader is pending (count below 1). Changes nothing. |
| `Plumbing.Disruptor.Default` | src/main/java/fx/infra/plumbing/Disruptor.java:27-30 | Capacity 1024, an array of exactly that many `null` slots, both indices at 1, no readers, no writer, not started. |
| `Plumbing.Disruptor.constructor` | src/main/java/fx/infra/plumbing/Disruptor.java:32-35 | Capacity is the requested size rounded down to a power of two. Otherwise the object starts as the default one does. |
| `Plumbing.Disruptor.GetReader` | src/main/java/fx/infra/plumbing/Disruptor.java:43-49 | After start: fails with `AlreadyStarted` and leaves the readers alone. Before start: adds exactly one reader, with cursor 1, and returns its handle. Nothing else changes. |
| `Plumbing.Disruptor.GetWriter` | src/main/java/fx/infra/plumbing/Disruptor.java:57-66 | After start: fails with `AlreadyStarted` and leaves `writerAssigned` untouched. Before start: the first call succeeds and sets `writerAssigned`; every later call fails with `WriterAlreadyAssigned`. |
| `Plumbing.Disruptor.CanWrite` | src/main/java/fx/infra/plumbing/Disruptor.java:81-83 | The writer's spin loop exits, `writerIndex - lastReader < bufferSize`. When it holds, every reader's cursor is past the index whose slot the write overwrites. |
| `Plumbing.Disruptor.CanRead` | src/main/java/fx/infra/plumbing/Disruptor.java:90-92 | The reader's spin loop exits, its cursor below `writerIndex`. That is exactly when the value the reader takes next has been written. |
| `Plumbing.Disruptor.Initialise` | src/main/java/fx/infra/plumbing/Disruptor.java:68-73 | Marks the buffer started and fills every slot with a fresh empty one, pending count 0, with no checks. Indices, readers and the writer flag are unchanged. The invariant holds afterwards when nothing had been written. |
| `Plumbing.Disruptor.WriteSlotConsumed` | src/main/java/fx/infra/plumbing/Disruptor.java:80-86 | Whenever the writer may proceed, every reader has consumed the index whose slot it overwrites, and that slot's pending count is 0. |
| `Plumbing.Disruptor.WriteNext` | src/main/java/fx/infra/plumbing/Disruptor.java:80-86 | Requires the gate to admit the write. Stores `t` with pending count `numReaders` in slot `writerIndex % bufferSize` and advances `writerIndex` by one. Appends `t` to the written stream. The gate and cursors are unchanged, no other slot is touched, and the invariant is kept. |
| `Plumbing.Disruptor.IncrementReaderCount` | src/main/java/fx/infra/plumbing/Disruptor.java:104-108 | Moves the gate to `idx + 1` exactly when slot `idx % bufferSize` has pending count below 1. That is the same as every reader having consumed index `idx`. Otherwise the gate stays. The invariant is kept. |
| `Plumbing.Disruptor.ReadSlotPublished` | src/main/java/fx/infra/plumbing/Disruptor.java:90-94 | Once the reader's spin loop would exit, the slot its cursor names holds the value written at that index. |
| `Plumbing.Disruptor.ReadAfterWait` | src/main/java/fx/infra/plumbing/Disruptor.java:90-94 | The part of `readValue` after the gate step and the wait. With cursor `idx` below `writerIndex`, returns `written[idx - 1]`. That slot's count drops by one and only this reader's cursor advances by one. The gate does not move. The invariant is kept. |
| `Plumbing.Disruptor.ReadNext` | src/main/java/fx/infra/plumbing/Disruptor.java:88-116 | A `readNext` whose spin loop does not run: the gate step, then the read. With cursor `idx` below `writerIndex`, returns `written[idx - 1]`: the idx-th value written (FIFO). That slot's count drops by one and only this reader's cursor advances by one. The gate moves to `idx` exactly when every reader has reached `idx`. The invariant is kept. |
| `Scenarios.ConsumedAfterEveryReader` | src/test/java/fx/infra/plumbing/ObjectWrapperTest.java:25-48 | A slot built for `n` readers is unread before each of the `n` reads and read after the last one. |
| `Scenarios.RepublishedSlotCycle` | src/main/java/fx/infra/plumbing/ObjectWrapper.java:16-32 | A slot built with count 0 is read at once. Republished for `n` readers, it stays unread through the first `n - 1` reads, is read after the n-th, and every read returns the published value. |
| `Scenarios.WriteAllThenReadAll` | src/test/java/fx/infra/plumbing/DisruptorTest.java:13-34 | With 1024 slots and one reader, up to 1024 values written ahead of the reader are read back equal to the written sequence. |
| `Scenarios.WriterRunsAhead` | src/test/java/fx/infra/plumbing/DisruptorTest.java:37-79 | The writer runs as far ahead as the gate allows, and the reader reads only while the writer waits. The reader still receives exactly the written sequence. When there are more values than slots, the writer has to wait at least once. |
| `Scenarios.TwoReadersSeeSameSequence` | src/test/java/fx/infra/plumbing/DisruptorTest.java:81-140 | Under lockstep scheduling, two readers of one writer each receive the whole written sequence in order, whatever its length relative to the buffer. |
| `Scenarios.InterleavedReadersSeePrefixes` | src/test/java/fx/infra/plumbing/DisruptorTest.java:81-140 | For every interleaving of writes, gate steps and reads by two readers, with each reader's `readNext` split into its gate step and, once its spin loop would exit, its read, each reader has received a prefix of the written values, in order. |
| `Scenarios.ReinitialiseDiscardsUnread` | src/main/java/fx/infra/plumbing/Disruptor.java:68-73 | A second `initialise` after a write that no reader has consumed replaces the value's slot with an empty one, while the reader still has that index to read. |

## Left out

- Concurrency is not modelled. That covers `volatile`, the atomic counters and flags, release/acquire visibility, and the unsynchronised write of `lastReader`. Each public operation is one atomic step.
- The busy-wait loops are not modelled as loops. `WriteNext` requires `CanWrite()`, and `ReadNext` and `ReadAfterWait` require `CanRead(reader)`. Liveness and blocking are not modelled.
- A reader blocked inside `readNext` has already made its gate step and does not repeat it. A client represents that with `IncrementReaderCount` for the gate step and, once `CanRead` holds, `ReadAfterWait` for the read. `ReadNext` is the two steps back to back.
- 32-bit arithmetic is not modelled:
  - `WriteNext` requires `writerIndex < 2^31`, so the `(int)` cast of an index never wraps.
  - Overflow of `numReaders` and of a slot's count is not modelled.
  - A negative requested size, and `highestOneBit` applied to it, is excluded by the constructor's precondition.
- IncrementReaderCount: it requires `idx + 1` to be some reader's cursor, because its only caller, `readValue`, passes the calling reader's cursor minus one.
- Capacity 0 is not modelled. Java divides by zero in `incrementReaderCount`, so `IncrementReaderCount` requires `bufferSize > 0`. No write can ever proceed in that case, which `CanWrite()` already captures.
- Using the buffer before `initialise`, when the slots are still `null` and Java throws `NullPointerException`, is not modelled. Reads and writes require `alreadyStarted`.
- Initialise: after a second call once values have been written, the model states the reset and stops there. From that state, later reads and writes (which Java would allow) are not modelled. `GetReader` and `GetWriter` can still be called there and answer `AlreadyStarted`, but no invariant is promised afterwards.
- `DisruptorPerformanceTest.java` is not modelled: it covers threads, timing, logging and percentile arithmetic.
- The exception classes are the variants of `Plumbing.Failure`.
- The one-method interfaces `FXReader` and `FXWriter` are represented by `ReadNext` and `WriteNext`.
- The code has no batch read, no writer check in `initialise` and no error on a second `initialise`; none is modelled.
