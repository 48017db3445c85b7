# Packet queue of joy4's pubsub package, in Dafny

This project models the live-packet fan-out core of the joy4 media toolkit:
`Queue`, the single-publisher buffer of timestamped media packets, and
`QueueCursor`, the per-subscriber read position into it
(`av/pubsub/queue.go`). The writer records the stream descriptors
(`WriteHeader`), appends packets (`WritePacket`), and closes the queue. Every
video key frame empties the buffer first. A sequence header is decoded and
replaces or adds its stream's descriptor. Each reader makes a cursor
(`Latest`, `Oldest`, `DelayedTime`, `DelayedGopCount`). On its first read the
cursor picks a start position by walking backwards over logical positions.
Each `ReadPacket` then clamps the position into `[head, tail]` and either
returns the packet there, reports EOF on a closed queue, or waits.

Files:

- `av.dfy` (module `Av`): packets, codec descriptors, and Go's `int8` and
  `int64` arithmetic. It also holds the two foreign configuration parsers,
  passed in as function values.
- `pktque.dfy` (module `PktQue`): the buffer. Its value is a head position
  plus a sequence of packets, so `Tail = head + |items|`, and `Pop` advances
  `head`. The `Buf` class holds that value in place.
- `queue_spec.dfy` (module `QueueSpec`): the write path as functions on
  `QueueState`, with lemmas about them.
- `cursor_spec.dfy` (module `CursorSpec`): the start policies, one
  non-blocking step of `ReadPacket` and of `Streams`, repeated reads, and
  lemmas about them.
- `pubsub.dfy` (module `PubSub`): the `Queue` and `QueueCursor` classes.
  Their methods update fields in place, with loops where the source has
  loops. Each method is proved to produce exactly what the functions above
  describe.
- `scenarios.dfy` (module `Scenarios`): concrete runs with a video stream and
  an audio stream.

Each public call is one atomic step. A blocking call (`ReadPacket`,
`Streams`) is modelled as a step that returns `WouldBlock` where the source
waits on its condition variable. The caller repeats the step. `ReadPacket`'s
local `jumped` flag is an input and an output of the step, because in the
source it survives waits within one call. In a run of steps (`CursorSpec.Reads`) the flag
carries over only after `WouldBlock`. A packet or EOF ends the call, and the
next call starts with the flag cleared, as `var jumped bool` does at
`av/pubsub/queue.go:254`.

The code behaves in some ways a reader of its comments and names would not
expect. The model follows the code:

- `WriteHeader` leaves `videoidx` and `audioidx` at the last stream of each
  type, not the first, because the loop keeps overwriting them.
- `DelayedGopCount(n)` starts one position below the n-th most recent key
  frame. So the first read returns the packet before that key frame. It
  returns the key frame only when the key frame sits at the head, because
  then the position is clamped up to it (`CursorSpec.DelayedGopCountFirstRead`).
- Every video key frame empties the buffer, so in a well-formed stream the
  buffer never holds two video key frames. In practice the cursor therefore
  starts at the head and counts as having crossed a gap.
- With no known video stream, `DelayedGopCount` starts at `Tail-1`, the
  newest packet. It does not start at the oldest packet.
- A clamped read stamps the discontinuity marker only when the queue's own
  `jumped` flag is set. That flag is set only when a drain drops a sequence
  header. A reader snapped forward over plain media packets gets no marker
  (`Scenarios.KeyFrameSnapsStaleCursor`).
- Readers take the condition variable's lock, which is the read half of the
  queue's read-write lock. Yet they write the cursor and the queue's `jumped`
  flag.
- The error returns for an invalid sequence header leave the lock held.

## Model

| member | source | states |
|---|---|---|
| `Av.ToInt8` | av/pubsub/queue.go:222 | `int8(videoidx)` agrees with `videoidx` modulo 256 and is unchanged for values already in int8 range |
| `Av.Sub64` | av/pubsub/queue.go:203 | `end.Time - Get(i).Time` agrees with the true difference modulo 2^64 and equals it when no overflow occurs |
| `QueueSpec.LastOfKindIsLast` | av/pubsub/queue.go:64-70 | the index picked for a kind is the last descriptor of that kind, and the previous index is kept when the list has none of that kind |
| `QueueSpec.WriteHeaderPicksLastStreams` | av/pubsub/queue.go:60-76 | WriteHeader records the list as given and moves `videoidx`/`audioidx` to the last video/audio stream, leaving an index unchanged when no stream of its type is present; buffer, `closed` and `jumped` untouched |
| `QueueSpec.UpdateDescriptorInPlaceOrAppend` | av/pubsub/queue.go:116-132 | a decoded descriptor replaces the entry at the stream's index when that index is >= 0, otherwise is appended with the index set to the old length; the list never shrinks, other entries and the other index are unchanged |
| `QueueSpec.UpdateDescriptorFailsOnStaleIndex` | av/pubsub/queue.go:116-132 | the descriptor update fails (`IndexOutOfRange`, standing for Go's index-out-of-range panic) exactly when the stream's index is >= 0 but past the end of the list |
| `QueueSpec.KeyFrameLeavesOnlyItself` | av/pubsub/queue.go:97-136 | after a successful video key frame the buffer is exactly `[pkt]`, head equals the old tail, and `jumped` is true iff it was or a drained packet was a sequence header; a key frame that is not a sequence header leaves the stream list and both indices unchanged |
| `QueueSpec.OtherPacketOnlyAppends` | av/pubsub/queue.go:97-136 | a packet that is not a video key frame leaves head, all buffered packets and `jumped` unchanged, and is appended at the tail exactly when the write succeeds; a packet that is not a sequence header leaves the stream list and both indices unchanged |
| `QueueSpec.FailedWriteKeepsDescriptors` | av/pubsub/queue.go:97-126 | a write fails only for a video or audio sequence header; the queue afterwards is exactly the old queue, or the drained one for a video key frame (buffer and `jumped` flag both), so nothing is appended and streams and both indices are unchanged; the H.264 (AAC) error is returned iff the video (audio) parser rejects the payload, and `IndexOutOfRange` iff the payload decodes but the descriptor update on that queue fails |
| `QueueSpec.SeqHdrUpdatesDescriptor` | av/pubsub/queue.go:110-136 | a successful sequence header write applies the descriptor update to the (possibly drained) queue and then appends the header packet; the stream list does not shrink and holds the decoded descriptor at the stream's index |
| `QueueSpec.WritePacketAdvancesTail` | av/pubsub/queue.go:94-162 | a write never moves head back, moves the tail forward by one on success and not at all on failure, and never changes `closed` |
| `QueueSpec.WithoutKeyFramesNothingIsDropped` | av/pubsub/queue.go:97-136 | over any run of writes without video key frames, head stays put, the old buffer contents remain a prefix, occupancy never decreases, and `jumped`/`closed` are unchanged |
| `CursorSpec.TimeWalkStopsOutsideWindow` | av/pubsub/queue.go:202-207 | the backward time walk stops at the first position (from the top) more than `dur` older than the newest packet, or just below head, and every position above it is within `dur` |
| `CursorSpec.DelayedTimeStartIsFirstOutsideWindow` | av/pubsub/queue.go:198-210 | the DelayedTime start `p` satisfies `head-1 <= p < Tail`; every packet in `(p, Tail)` is within `dur` of the newest; and `p < head` or packet `p` is more than `dur` older; empty buffer gives `head-1` |
| `CursorSpec.GopWalkStopsBelowNthKeyFrame` | av/pubsub/queue.go:220-225 | the counting walk ends just below the n-th most recent counted key frame, or at `head-1` when fewer than n are buffered |
| `CursorSpec.DelayedGopCountStartBelowNthKeyFrame` | av/pubsub/queue.go:217-228 | DelayedGopCount(n) returns `Tail-1` when `videoidx == -1` or `n <= 0`, `head-1` when fewer than n key frames of stream `int8(videoidx)` are buffered, and otherwise one position below the n-th most recent such key frame |
| `CursorSpec.ReadStepDeliversOrWaits` | av/pubsub/queue.go:250-280 | one read step reads at a position clamped into `[head, Tail]` (its held position when already inside); it returns the buffered packet there and advances exactly one past it iff that position is below Tail; otherwise EOF iff closed, else WouldBlock, with the queue flag unchanged |
| `CursorSpec.ReadStepMarksOnlyAcrossGap` | av/pubsub/queue.go:254-271 | the local `jumped` becomes true iff it was or the position had to be clamped; a returned packet's marker is the buffered one's or (local `jumped` and queue `jumped`); the queue flag is cleared exactly when such a marked packet is returned |
| `CursorSpec.LatestSkipsBacklog` | av/pubsub/queue.go:178-184 | a Latest cursor's first read returns no buffered packet and leaves the cursor at the tail |
| `CursorSpec.ReadStepNeverMovesBack` | av/pubsub/queue.go:256-272 | once placed at or below the tail, a cursor never moves or reads behind its own position |
| `CursorSpec.DelayedGopCountFirstRead` | av/pubsub/queue.go:215-230 | with n key frames buffered, a fresh DelayedGopCount(n) cursor's first read returns the packet just before the n-th most recent key frame, or that key frame itself (after clamping, as a gap crossing) when it is at the head |
| `CursorSpec.ReadsWalkTheWindow` | av/pubsub/queue.go:256-273 | successive reads from a position inside the buffer return the buffered packets one after another, unmarked |
| `CursorSpec.ReadsStopAtTail` | av/pubsub/queue.go:266-279 | after delivering the remaining packets the next read reports EOF if the queue is closed and WouldBlock otherwise |
| `CursorSpec.OldestDeliversBacklogInOrder` | av/pubsub/queue.go:187-193 | a fresh Oldest cursor returns every buffered packet in enqueue order, unmarked, then EOF or WouldBlock |
| `CursorSpec.ClosedQueueEndsInEof` | av/pubsub/queue.go:275-278 | on a closed queue no read waits (`NeverWaits`), and any cursor reports EOF after at most Count()+1 reads |
| `CursorSpec.StreamsWaitsOnlyForHeader` | av/pubsub/queue.go:232-244 | Streams waits iff the list is nil and the queue open, returns EOF iff the list is nil and the queue closed, and otherwise returns the list |
| `CursorSpec.StreamsAnswerWithoutHeader` | av/pubsub/queue.go:110-121 | on a new queue a valid video sequence header alone makes Streams return a one-element list, with `videoidx` 0 |
| `Scenarios.ThreePacketsBuffered` | av/pubsub/queue.go:60-136 | header `[video, audio]` then V0 (key), A0, V1 leaves the buffer `[V0, A0, V1]` from position 0 with `videoidx` 0 and `audioidx` 1 |
| `Scenarios.OldestReadsThreePackets` | av/pubsub/queue.go:187-193 | an Oldest cursor then reads V0, A0, V1 and then waits |
| `Scenarios.KeyFrameSnapsStaleCursor` | av/pubsub/queue.go:256-271 | after key frame V2 the buffer is `[V2]` at position 3; a cursor held at V0 is snapped to V2 and receives it unmarked, since no sequence header was dropped |
| `Scenarios.GopCursorStartsAtHeadKeyFrame` | av/pubsub/queue.go:217-228 | DelayedGopCount(1) on that buffer starts below V0, is clamped, and returns V0 as a gap crossing |
| `Scenarios.MalformedSeqHdrKeepsStreams` | av/pubsub/queue.go:110-115 | a video sequence header the parser rejects fails with the H.264 error and leaves the buffer and the stream list `[video, audio]` as they were |
| `PktQue.Buf.constructor` | av/pubsub/queue.go:44 | `pktque.NewBuf()`: an empty buffer whose head is at logical position 0 |
| `PktQue.Buf.Push` | av/pubsub/queue.go:136 | the packet is appended at the tail, head and all buffered packets unchanged |
| `PktQue.Buf.Pop` | av/pubsub/queue.go:103 | on a non-empty buffer, returns the oldest packet and advances head by one, the rest unchanged |
| `PubSub.Queue.constructor` | av/pubsub/queue.go:42-51 | NewQueue: empty buffer at position 0, nil stream list, both indices -1, not closed, no discontinuity, `maxgopcount` 2 |
| `PubSub.Queue.SetMaxGopCount` | av/pubsub/queue.go:53-58 | only `maxgopcount` changes |
| `PubSub.Queue.WriteHeader` | av/pubsub/queue.go:60-76 | returns no error and leaves the queue as `QueueSpec.WriteHeader` says, by a loop over the list |
| `PubSub.Queue.WriteTrailer` | av/pubsub/queue.go:78-80 | returns no error and changes nothing |
| `PubSub.Queue.Close` | av/pubsub/queue.go:83-91 | only `closed` changes, to true |
| `PubSub.Queue.DrainBuffer` | av/pubsub/queue.go:102-107 | the pop loop empties the buffer, head reaches the old tail, and `jumped` is set iff a popped packet was a sequence header (or it was already set) |
| `PubSub.Queue.WritePacket` | av/pubsub/queue.go:94-162 | new state and error are exactly `QueueSpec.WritePacket` of the old state |
| `PubSub.Queue.Latest` | av/pubsub/queue.go:178-184 | a fresh cursor on this queue with the Latest policy and no position yet |
| `PubSub.Queue.Oldest` | av/pubsub/queue.go:187-193 | a fresh cursor on this queue with the Oldest policy and no position yet |
| `PubSub.Queue.DelayedTime` | av/pubsub/queue.go:196-212 | a fresh cursor on this queue with the DelayedTime policy and no position yet |
| `PubSub.Queue.DelayedGopCount` | av/pubsub/queue.go:215-230 | a fresh cursor on this queue with the DelayedGopCount policy and no position yet |
| `PubSub.DelayedTimePos` | av/pubsub/queue.go:198-210 | the loop's result is the DelayedTime start characterised by `CursorSpec.DelayedTimeStartIsFirstOutsideWindow` |
| `PubSub.DelayedGopCountPos` | av/pubsub/queue.go:217-228 | the loop's result is the DelayedGopCount start characterised by `CursorSpec.DelayedGopCountStartBelowNthKeyFrame` |
| `PubSub.StartPosition` | av/pubsub/queue.go:250-253 | the start position a cursor's policy picks against the buffer at its first read |
| `PubSub.QueueCursor.constructor` | av/pubsub/queue.go:171-175 | a cursor bound to its queue and policy, with no position chosen |
| `PubSub.QueueCursor.Streams` | av/pubsub/queue.go:232-244 | one pass of Streams answers as `CursorSpec.StreamsStep` of the queue and changes nothing |
| `PubSub.QueueCursor.ReadPacket` | av/pubsub/queue.go:247-283 | one pass of ReadPacket leaves cursor, result, local flag and the queue's `jumped` flag exactly as `CursorSpec.ReadStep` says; nothing else in the queue, including the buffered packets, changes |

## Left out

- Locking is not modelled: the `sync.RWMutex`, the `sync.Cond`, `Broadcast` and `Wait`. Each call is atomic, and waiting is a `WouldBlock` result that the caller repeats. So the model cannot express the lock left held on the two invalid-header returns, or the race between readers that share the read lock and write `jumped`.
- After an invalid sequence header, every later call that takes the queue's lock blocks forever in the source. `WritePacket` returns at `av/pubsub/queue.go:113-114` and `:124-125` with the write lock still held. The calls that take the lock are `SetMaxGopCount`, `WriteHeader`, `Close`, `WritePacket`, `Streams` and `ReadPacket`. `WriteTrailer` and the cursor factories `Latest`, `Oldest`, `DelayedTime` and `DelayedGopCount` take no lock, and still return. The model's later steps describe only the state the queue was left in. This covers `StreamsStep` after the error, and `WriteAll` runs with failing writes (`QueueSpec.WithoutKeyFramesNothingIsDropped`). The source never reaches those calls.
- QueueSpec.UpdateDescriptor / PubSub.Queue.WritePacket: a stale `videoidx` or `audioidx` (>= 0 but past the end of the stream list) makes `av/pubsub/queue.go:117` and `:128` panic with index out of range, with the lock held. The model returns the error value `IndexOutOfRange` instead. Any key-frame drain already done stays, and nothing is pushed. This state is reachable: `WriteHeader([video, audio])`, then `WriteHeader([video])`, then an audio sequence header.
- The ring buffer behind `pktque.Buf` is not part of this model. It is an abstract head position plus a sequence.
- The H.264 and AAC configuration parsers are not part of this model. They are the function values in `Av.Decoders`, and `None` stands for a decode error.
- `av.CodecType` is not part of this model. A descriptor's type is one of video, audio or other.
- A nil `av.CodecData` element in the header list is not modelled. In Go, calling `Type()` on it would panic.
- The commented-out multi-GOP retention and `curgopcount` are dead code and are not modelled. `maxgopcount` is stored and never read.
- The queue's own `head` and `tail` fields are never used, and are not modelled.
- `log.Println` is not modelled. It is output only.
- The model works on values, so aliasing is not captured. In Go, the stream slice is shared with the caller of `WriteHeader` and with every caller of `Streams`, so an in-place descriptor update is visible through those slices. Packet payloads are also shared between the buffer and the packets handed to readers.
- Packet fields that the queue never reads are left out, such as the composition time.
- PubSub.QueueCursor.ReadPacket: does not model 64-bit overflow of logical positions, because positions are unbounded integers.
- The metrics registration in `av/avutil/metrics.go` is not modelled, nor the format registration in `format/format.go`, nor the stream struct in `format/ts/stream.go`. None of them takes part in the queue.
