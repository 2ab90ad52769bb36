# vperfetto, verified

A Dafny model of the parts of vperfetto that decide whether a trace can be believed: the protozero
encoder and decoder it writes packets with, the per-thread recorder of the non-SDK build, the merger
of guest and host traces, and two ring structures of the base library. `dafny verify dfyconfig.toml`
checks all of it.

The model follows the form of the code. What the code computes by expressions is a function
(parsing one field, tags, zigzag); what it does by changing things is a class or a method with loops
(the writers, decoders, iterators, the arena, the recorder's context and storage, the passes over a
trace, the queue), proved against those functions. Protocols between threads are state machines over
atomic steps, and the theorems about them hold for every run.

## How the files fit together

- `WireFormat`, `ProtoFields`: varints, four-byte lengths, zigzag, fixed words; one field; decoding
  of a byte string and of a concatenation; re-serialisation.
- `ProtoDecoder`, `TypedDecoder`, `PackedFields`: the simple reader, the table decoder with its
  last-value-in-place layout, packed payloads. Each is tied to `Decode` or to a round trip.
- `ScatteredStream`, `MessageArena`: the chunked stream as an append-only log with stable
  reservations; the block arena as a stack.
- `MessageTree`, `OpenMessages`, `MessageWriter`, `WriterRuns`: what a message is asked to hold, the
  stack of open messages with its size accounting, the writer with all its pointers, and whole runs.
  `WriterRuns.Replay` is the end of that chain: calls in, bytes out, the same tree read back.
- `RecorderPackets`, `Recorder`, `SharedCounters`: the recorder's packets and their sizes; one
  thread's session as a state machine with a reader of its packets; the counters all threads share.
- `TraceConfig`, `TraceContext`, `RecordingSession`: the recorder as objects. Every access to a
  shared counter is preceded by arbitrary accesses of other threads. Each call refines the state
  machine and each buffer is a concatenation of whole packets.
- `RecorderSetters`: the field-by-field setter calls, on the message writer, build the same bytes in
  one range of memory; this is how the recorder's context writes a packet.
- `RecorderFile`, `PacketReader`, `FileReader`, `TrackNames`, `RecorderRuns`: from buffers to the
  saved file, and from its bytes back to the calls. `RecorderRuns.FileSaysWhatWasAsked` is the end of
  that chain: one run of the counters and the buffers, each thread in program order, any
  interleaving, any saving order.
- `SharedIdSessions`, `SharedIdRun`: the runs in which the file is read wrongly.
- `TraceModel`, `TraceMerge`, `TimeAlignment`: a trace as the fields the merger visits, the rewriting
  of ids, uuids and timestamps, the choice of the time difference.
- `CircularQueue`, `Metatrace`: the growing ring as a sequence; the lossy trace ring as atomic steps.

## What turned out to be conditional

- Two threads can draw the same interning id, because the id is read in one step and incremented in
  another, and all threads share packet sequence 1 (`SharedCounters.ThreadsCanShareAnId`). It happens
  exactly when no increment falls between the two reads (`SharedCounters.SameIdExactly`). Each thread
  alone is still read correctly. A reader of the whole file is right about a thread if and only if,
  whenever the thread uses an event name, the last definition of that id before the use has the
  thread's own text (`RecorderRuns.FileSaysWhatWasAsked`). A shared category id is harmless, since
  every thread defines the same category. For every buffer size there is a run in which the condition
  fails (`SharedIdRun.SharedIdMisleads`): one of the two threads goes on recording until its buffer
  is full, and the other one's definition comes between its two buffers in the file. With the same
  calls and draws, but for the last one, the file is right (`SharedIdRun.RightUntilFull`).
- The buffer size is a 32-bit product and is 0 when the configured megabytes are a multiple of 4096,
  4096 itself for one. Then `beginPacket` never finds the 208 bytes it asks for, and the writes that
  follow ask for one empty buffer after the other. A buffer holds a packet if and only if the number
  is no such multiple (`TraceConfiguration.StorageHoldsAPacket`); recording requires that.
- `AppendRawProtoBytes` casts the length to 32 bits, so data of 2^32 bytes or more is cut. All of it
  is written if and only if it is shorter (`MessageWriter.KeptIsAll`).
- A packet fits whole in the space that is checked for as long as event names have at most 180 bytes
  and counter names at most 157; one byte more can need more room than that.
- At depth 16 both begin and end do nothing, so the thread is silent until a full reset. The output
  is exactly the calls minus unmatched ends if and only if no call is made at that depth.
- `traceCounter` writes the category slot of the current depth, so it requires a depth below 16.
- `AppendScatteredBytes` and `AppendRawProtoBytes` do not close an open nested message; they require
  that none is open.
- A writer of the metatrace ring that is overtaken by the reader between its increment and its read
  of the reader's index takes the overrun branch although the ring is empty, since the unsigned
  difference wraps. Overruns do no harm while each decrement gives back the writer's own index
  (`Metatrace.OverrunsAreHarmless`); when another writer has come in between, an index can be granted
  twice.
- Offsetting an id past the main trace's maximum works if and only if the 32-bit sum does not wrap; a
  negative pid is compared as an unsigned value.
- The difference of two start times can be applied exactly if and only if they are at most INT64_MAX
  apart; negating a configured difference overflows only for INT64_MIN.
- The four-byte length holds values below 2^28. The writer's debug check asks for a size below
  0x0FFFFFFF, the decoder accepts a payload of exactly that size.

## Model

| member | source | states |
|---|---|---|
| WireFormat.VarIntRoundTrip | perfetto-min/include/perfetto/protozero/proto_utils.h:171-244 | for every 64-bit value and whatever follows, parsing the written varint gives the value back and stops right after it |
| WireFormat.VarIntSize | perfetto-min/include/perfetto/protozero/proto_utils.h:171-198 | a varint has at most n bytes if and only if the value is below 128^n |
| WireFormat.VarIntBytes | perfetto-min/include/perfetto/protozero/proto_utils.h:171-198 | byte k of a varint holds seven bits of the value from bit 7k on, with the high bit set on every byte but the last |
| WireFormat.VarIntBounds | perfetto-min/include/perfetto/protozero/proto_utils.h:171-198 | the byte counts the size constants rest on: 1 below 2^7, up to 10 for 64 bits |
| WireFormat.ParseVarIntPrefix | perfetto-min/include/perfetto/protozero/proto_utils.h:226-244 | a varint that parses is not affected by the bytes after it |
| WireFormat.WriteVarInt | perfetto-min/include/perfetto/protozero/proto_utils.h:171-198 | the loop writes exactly the varint at the target and nothing else |
| WireFormat.ParseVarIntLoop | perfetto-min/include/perfetto/protozero/proto_utils.h:226-244 | the loop that ors each seven-bit group, shifted and cut to 64 bits, into the value computes the base-128 value of the bytes up to the first one without a continuation bit, modulo 2^64; failure is value 0 at the start position |
| WireFormat.RedundantVarIntRoundTrip | perfetto-min/include/perfetto/protozero/proto_utils.h:206-244 | the four-byte form parses back to the value if and only if the value is below 2^28 |
| WireFormat.WriteRedundantVarInt | perfetto-min/include/perfetto/protozero/proto_utils.h:206-216 | the loop fills exactly four bytes with the redundant form |
| WireFormat.ZigZagInverse | perfetto-min/include/perfetto/protozero/proto_utils.h:141-168 | zigzag encoding is 2v or -2v-1, stays in the word, and both directions are inverse on all 32-bit and 64-bit values |
| WireFormat.FixedRoundTrip | perfetto-min/include/perfetto/protozero/message.h:128-141 | little-endian fixed-width values read back |
| WireFormat.FixedBytes | perfetto-min/include/perfetto/protozero/message.h:128-141 | byte k of a fixed-width value holds its bits from 8k on |
| ProtoFields.ParseOneField | perfetto-min/src/protozero/proto_decoder.cc:46-153 | a field that is returned is well formed, and the cursor moves by at least two bytes and never past the end |
| ProtoFields.PreambleFastPath | perfetto-min/src/protozero/proto_decoder.cc:61-69 | the one-byte shortcut for the preamble agrees with the general varint parser |
| ProtoFields.ParseOneFieldPrefix | perfetto-min/src/protozero/proto_decoder.cc:46-153 | a field that parses, or is skipped, does so whatever bytes follow |
| ProtoFields.DecodeConcat | perfetto-min/src/protozero/proto_decoder.cc:46-179 | decoding is a homomorphism: if all of a is consumed, the fields of a followed by b are those of a and then those of b |
| ProtoFields.SkippedLeavesNothing | perfetto-min/src/protozero/proto_decoder.cc:128-150 | a complete field with an id above 0xFFFF or a payload of more than 2^28 - 1 bytes yields nothing, and the fields behind it are read |
| ProtoFields.SerializeRoundTrip | perfetto-min/src/protozero/field.cc:30-70 | every well-formed field, serialised and parsed, is the same id, type, value and payload |
| ProtoFields.WireIsStandard | perfetto-min/src/protozero/field.cc:30-70 | a field is the varint of its number times eight plus 0, 1, 2 or 5, and then the body of that kind |
| ProtoFields.SerializedSize | perfetto-min/src/protozero/field.cc:30-70 | the bytes never exceed the reserved 15 plus payload |
| ProtoFields.ReserializeStable | perfetto-min/src/protozero/field.cc:30-70 | any list of well-formed fields survives serialising and decoding |
| ProtoFields.ReserializeDecoded | perfetto-min/src/protozero/field.cc:30-70 | for every byte string: decode, serialise and decode again gives the same fields |
| ProtoFields.SerializeAndAppendTo | perfetto-min/src/protozero/field.cc:30-70 | resizing, writing through a moving pointer and trimming appends exactly the serialised field |
| ProtoDecoder.Decoder.ReadField | perfetto-min/src/protozero/proto_decoder.cc:172-179 | one call returns the first field of the rest and leaves the others; after the last field it returns one with id, value and payload all zero, for ever |
| ProtoDecoder.Decoder.ReadAll | perfetto-min/src/protozero/proto_decoder.cc:172-179 | reading until the invalid field terminates and yields the fields of the rest, with the cursor at what was consumed |
| ProtoDecoder.Decoder.FindField | perfetto-min/src/protozero/proto_decoder.cc:157-170 | searched from the start, with the read position restored: the field with the id that no other one with it precedes, or all zero when there is none |
| TypedDecoder.StoreFirst | perfetto-min/src/protozero/proto_decoder.cc:199-202 | a first occurrence goes into its slot and keeps the layout |
| TypedDecoder.StoreAgain | perfetto-min/src/protozero/proto_decoder.cc:203-221 | a repeated occurrence moves the old value to the tail and keeps the layout |
| TypedDecoder.StoreIgnored | perfetto-min/src/protozero/proto_decoder.cc:195-197 | ids beyond the table leave the layout alone |
| TypedDecoder.WithIdIsFilter | perfetto-min/src/protozero/proto_decoder.cc:181-224 | what a repeated field is compared with: the fields with the id, as often as they occur and in that order |
| TypedDecoder.Typed.ParseAllFields | perfetto-min/src/protozero/proto_decoder.cc:181-224 | for every byte string: after parsing, each slot holds the last occurrence and the tail all earlier ones in wire order, across any number of expansions; expansion can only fail at 2^31 entries |
| TypedDecoder.Typed.Push | perfetto-min/src/protozero/proto_decoder.cc:203-221 | one repeated value is stored, expanding when full |
| TypedDecoder.Typed.ExpandHeapStorage | perfetto-min/src/protozero/proto_decoder.cc:226-238 | the capacity doubles and the contents stay; it fails exactly when the doubled 32-bit capacity wraps to no more than the size |
| TypedDecoder.Typed.Get | perfetto-min/include/perfetto/protozero/proto_decoder.h:284-286 | the field with the id that no other one with it follows, or all zero when there is none; ids out of range read slot 0, which is all zero |
| TypedDecoder.Typed.GetRepeated | perfetto-min/include/perfetto/protozero/proto_decoder.h:291-295 | enumerates all occurrences of the id in wire order |
| TypedDecoder.RepeatedFieldIterator.constructor | perfetto-min/include/perfetto/protozero/proto_decoder.h:103-109 | starts at the earlier occurrences in the tail and ends with the value in the slot |
| TypedDecoder.RepeatedFieldIterator.FindNextMatchingId | perfetto-min/include/perfetto/protozero/proto_decoder.h:144-151 | skips to the next entry with the id, jumping to the slot after the tail |
| TypedDecoder.RepeatedFieldIterator.Next | perfetto-min/include/perfetto/protozero/proto_decoder.h:125-134 | each step yields the head of what remained |
| PackedFields.PackRoundTrip | perfetto-min/include/perfetto/protozero/proto_decoder.h:173-268 | for varint, 32-bit and 64-bit elements: iterating the packed payload gives back the same values with no parse error |
| PackedFields.ParseErrorExactly | perfetto-min/include/perfetto/protozero/proto_decoder.h:200-250 | the error flag is set if and only if the length is no multiple of the element's width, or, for varints, the last byte continues or ten bytes in a row do |
| PackedFields.NextElementRoundTrip | perfetto-min/include/perfetto/protozero/proto_decoder.h:221-241 | one element reads back whatever follows it |
| PackedFields.PackedBuffer.GrowSlowpath | perfetto-min/src/protozero/packed_repeated_fields.cc:26-37 | reallocation keeps the contents and adds at least half the size |
| PackedFields.PackedBuffer.GrowIfNeeded | perfetto-min/include/perfetto/protozero/packed_repeated_fields.h:67-72 | every append finds at least 10 free bytes |
| PackedFields.PackedBuffer.Append | perfetto-min/include/perfetto/protozero/packed_repeated_fields.h:89-111 | appends exactly the bytes of the element |
| PackedFields.PackedBuffer.Reset | perfetto-min/src/protozero/packed_repeated_fields.cc:39-44 | back to the empty on-stack buffer |
| PackedFields.PackedIterator.Advance | perfetto-min/include/perfetto/protozero/proto_decoder.h:210-244 | moves to the next element; the error and end cases stay put |
| PackedFields.ReadPacked | perfetto-min/include/perfetto/protozero/proto_decoder.h:173-268 | the loop over the iterator computes the elements and the parse-error flag of any payload |
| PackedFields.PackThenRead | perfetto-min/include/perfetto/protozero/packed_repeated_fields.h:67-111 | end to end through the growing buffer and the iterator: the same values, no error |
| ScatteredStream.FlattenPatch | perfetto-min/src/protozero/scattered_heap_buffer.cc:72-80 | changing bytes inside one slice changes exactly those bytes of the joined log |
| ScatteredStream.SlotIsStable | perfetto-min/src/protozero/scattered_stream_writer.cc:60-73 | a reserved slot keeps its slice, offset and log position through every later write |
| ScatteredStream.ScatteredHeapBuffer.GetNewBuffer | perfetto-min/src/protozero/scattered_heap_buffer.cc:58-70 | the current slice's used size is fixed, and one more slice of at least four bytes is pushed, cached or new; the next size doubles up to the maximum |
| ScatteredStream.ScatteredHeapBuffer.AdjustUsedSizeOfCurrentSlice | perfetto-min/src/protozero/scattered_heap_buffer.cc:90-93 | only the last slice's unused count changes |
| ScatteredStream.ScatteredHeapBuffer.Reset | perfetto-min/src/protozero/scattered_heap_buffer.cc:103-109 | all slices go, the first one becomes the cached one |
| ScatteredStream.JoinSlices | perfetto-min/src/protozero/scattered_heap_buffer.cc:72-80 | the loop concatenates the used part of every slice |
| ScatteredStream.ScatteredStreamWriter.Extend | perfetto-min/src/protozero/scattered_stream_writer.cc:34-43 | switching slices leaves the log unchanged |
| ScatteredStream.ScatteredStreamWriter.WriteByte | perfetto-min/include/perfetto/protozero/scattered_stream_writer.h:55-64 | appends one byte to the log |
| ScatteredStream.ScatteredStreamWriter.WriteBytes | perfetto-min/include/perfetto/protozero/scattered_stream_writer.h:66-80 | appends the bytes to the log, whatever slices they fall in |
| ScatteredStream.ScatteredStreamWriter.WriteBytesUnsafe | perfetto-min/include/perfetto/protozero/scattered_stream_writer.h:66-71 | appends within the current slice |
| ScatteredStream.ScatteredStreamWriter.WriteBytesSlowPath | perfetto-min/src/protozero/scattered_stream_writer.cc:45-58 | the burst loop appends exactly the bytes, in order |
| ScatteredStream.ScatteredStreamWriter.ReserveBytes | perfetto-min/src/protozero/scattered_stream_writer.cc:60-73 | for any size that the current or the next slice holds: the reservation is contiguous in one slice, at the end of the log, and the abandoned tail leaves no gap |
| ScatteredStream.ScatteredStreamWriter.SlicesNeeded | perfetto-min/src/protozero/scattered_stream_writer.cc:34-58 | in every state, a second slice has been taken only if the log is longer than the first one |
| ScatteredStream.ScatteredStreamWriter.Backfill | perfetto-min/src/protozero/message.cc:121-130 | writing a length into a reserved slot changes only its own four bytes of the log |
| ScatteredStream.ScatteredStreamWriter.Written | perfetto-min/include/perfetto/protozero/scattered_stream_writer.h:109-112 | the length of the log plus the bytes of logs abandoned by earlier resets |
| ScatteredStream.ScatteredStreamWriter.StitchSlices | perfetto-min/src/protozero/scattered_heap_buffer.cc:72-93 | returns exactly the log |
| ScatteredStream.ScatteredStreamWriter.Reset | perfetto-min/src/protozero/scattered_heap_buffer.cc:103-109 | an empty log; the written count goes on from where it was |
| Arena.MessageArena.NewMessage | perfetto-min/src/protozero/message_arena.cc:37-49 | pushes one cell on the live stack, distinct from every live message, adding a block only when the last is full |
| Arena.MessageArena.DeleteLastMessage | perfetto-min/src/protozero/message_arena.cc:51-69 | pops the message it names; the block goes when it becomes empty and is not the only one |
| Arena.MessageArena.Reset | perfetto-min/include/perfetto/protozero/message_arena.h:67-73 | back to one empty block |
| Arena.MessageArena.LiveIsPrefix | perfetto-min/src/protozero/message_arena.cc:37-69 | in every valid arena all blocks but the last are full, so the live messages are a prefix of the cells, without repetition |
| MessageTree.DecodeEncode | perfetto-min/src/protozero/proto_decoder.cc:46-179 | one level of a message decodes to exactly the fields appended, in order, and all bytes are consumed |
| MessageTree.DecodeNested | perfetto-min/src/protozero/message.cc:141-162 | a nested message with its four-byte length reads as one ordinary length-delimited field |
| MessageTree.TreeRoundTrip | perfetto-min/src/protozero/message.cc:68-168 | the whole tree reads back, recursively in nested payloads |
| MessageWriter.HeapBuffered.SizesAddUp | perfetto-min/src/protozero/message.cc:114-168 | in every reachable state, for each open message: the bytes of the log after its length slot equal its size field plus those of its open descendants, modulo 2^32, and exactly below 2^32; the slot is where its pointer says |
| OpenMessages.AppendTopFacts | perfetto-min/include/perfetto/protozero/message.h:194-200 | appending to the innermost message extends the stream by exactly the field |
| OpenMessages.SealFacts | perfetto-min/src/protozero/message.cc:114-139 | sealing a message changes the stream only in its length slot |
| OpenMessages.CollapseFacts | perfetto-min/src/protozero/message.cc:164-168 | folding a sealed message into its parent changes no byte of the stream |
| OpenMessages.BeginFacts | perfetto-min/src/protozero/message.cc:141-162 | a new nested message adds its tag and an empty slot |
| OpenMessages.FinishedFacts | perfetto-min/src/protozero/message.cc:114-139 | finalizing a message closes exactly those nested in it and leaves the ones below alone |
| OpenMessages.CloseAboveFacts | perfetto-min/src/protozero/message.cc:164-168 | closing what is nested in a message keeps the stream length and gives it the size of everything written since |
| MessageWriter.HeapBuffered.PointersFormTheChain | perfetto-min/src/protozero/message.cc:141-168 | in every reachable state the nested pointers lead from the root through exactly the arena's live messages, in order, and end there |
| MessageWriter.HeapBuffered.ChainIsDistinct | perfetto-min/src/protozero/message_arena.cc:37-69 | no message occurs twice among the root and the arena's live messages |
| MessageWriter.HeapBuffered.constructor | perfetto-min/include/perfetto/protozero/scattered_heap_buffer.h:125-130 | an empty root message |
| MessageWriter.HeapBuffered.Reset | perfetto-min/include/perfetto/protozero/scattered_heap_buffer.h:159-164 | starts over with an empty root message, an empty arena and an empty log on the same memory |
| MessageWriter.HeapBuffered.Finalize | perfetto-min/src/protozero/message.cc:114-139 | the open descendants are closed first and the message is sealed; on a message already finalized nothing changes: log, slots, links and sizes |
| MessageWriter.HeapBuffered.EndNestedMessage | perfetto-min/src/protozero/message.cc:164-168 | the nested message is finalized, its size added, and the arena pops exactly it |
| MessageWriter.HeapBuffered.BeginNestedMessage | perfetto-min/src/protozero/message.cc:141-162 | what was nested is closed and a new message is open on top |
| MessageWriter.HeapBuffered.AppendVarInt | perfetto-min/include/perfetto/protozero/message.h:92-104 | closes what is nested and appends one varint field, negative values sign-extended to 64 bits |
| MessageWriter.HeapBuffered.AppendSignedVarInt | perfetto-min/include/perfetto/protozero/message.h:107-110 | closes what is nested and appends the zigzag form, which decodes to the value |
| MessageWriter.HeapBuffered.AppendTinyVarInt | perfetto-min/include/perfetto/protozero/message.h:112-125 | the two-byte shortcut appends the same field as the general call |
| MessageWriter.HeapBuffered.AppendFixed | perfetto-min/include/perfetto/protozero/message.h:128-141 | closes what is nested and appends one fixed-width field |
| MessageWriter.HeapBuffered.AppendBytes | perfetto-min/src/protozero/message.cc:72-87 | closes what is nested and appends one length-delimited field |
| MessageWriter.HeapBuffered.AppendScatteredBytes | perfetto-min/src/protozero/message.cc:89-112 | appends one length-delimited field joined from the ranges; requires that no nested message is open |
| MessageWriter.HeapBuffered.AppendRawProtoBytes | perfetto-min/include/perfetto/protozero/message.h:180-183 | appends pre-encoded fields, cut to their length modulo 2^32; requires that no nested message is open |
| MessageWriter.KeptIsAll | perfetto-min/include/perfetto/protozero/message.h:194-200 | what is written of a piece is a prefix of it, its length modulo 2^32, since that is cast to 32 bits; it is all if and only if there are fewer than 2^32 bytes |
| MessageWriter.WriteToStream | perfetto-min/include/perfetto/protozero/message.h:194-200 | the pieces, each cut to its length modulo 2^32, are appended in order, and their lengths added to the 32-bit size |
| MessageWriter.HeapBuffered.SerializeAsArray | perfetto-min/include/perfetto/protozero/scattered_heap_buffer.h:144-147 | the stitched bytes are the encoding of everything appended, and read back as it |
| MessageWriter.SealMessage | perfetto-min/src/protozero/message.cc:121-132 | the length goes into the slot, the slot is forgotten, the message is marked finalized |
| MessageWriter.ReleaseChild | perfetto-min/src/protozero/message.cc:164-168 | the child's size is added with 32-bit wrap-around and the arena pops it |
| MessageWriter.WritePreamble | perfetto-min/src/protozero/message.cc:145-158 | the tag and the reserved slot are at the end of the log and counted in the size |
| MessageWriter.LinkChild | perfetto-min/src/protozero/message.cc:151-161 | the child comes fresh from the arena and only the parent's link changes |
| WriterRuns.RunTokens | perfetto-min/src/protozero/message.cc:68-168 | for every legal sequence of appends of every kind (plain, signed, tiny, fixed, bytes, scattered, raw), begin-nested and finalize calls on any open messages, the tree built is what the calls alone spell out |
| WriterRuns.PerformTokens | perfetto-min/src/protozero/message.cc:68-168 | one call leaves the messages nested above its own, then does its part |
| WriterRuns.Step | perfetto-min/src/protozero/message.cc:68-168 | a call on the writer with all its pointers is the call on the stack of open messages |
| WriterRuns.EveryKindIsLegal | perfetto-min/src/protozero/message.cc:68-168 | every kind of call can be made on a fresh message for every value the source takes, and the message be finalized |
| WriterRuns.BuiltTokens | perfetto-min/src/protozero/message.cc:68-168 | the tree left when everything is closed, read in writing order, is exactly the fields and brackets the calls spell out, without building any tree |
| WriterRuns.Replay | perfetto-min/src/protozero/message.cc:68-168 | for every legal call sequence and every slice size of at least 4: the stitched bytes are the encoding of the tree the calls built and decode, recursively in nested payloads, to exactly its fields, in order; a second slice is used only for bytes beyond the first one's size |
| CircularQueue.MaskIsMod | perfetto-min/include/perfetto/ext/base/circular_queue.h:284-289 | masking with capacity minus one is the remainder, for every power of two |
| CircularQueue.SlotsDiffer | perfetto-min/include/perfetto/ext/base/circular_queue.h:284-289 | positions less than a capacity apart use different slots |
| CircularQueue.Queue.constructor | perfetto-min/include/perfetto/ext/base/circular_queue.h:177 | an empty queue of the given power-of-two capacity |
| CircularQueue.Queue.Grow | perfetto-min/include/perfetto/ext/base/circular_queue.h:254-282 | growth doubles the capacity and rebases the indices without changing the contents |
| CircularQueue.Queue.EmplaceBack | perfetto-min/include/perfetto/ext/base/circular_queue.h:203-209 | appends one element, growing exactly when full |
| CircularQueue.Queue.EraseFront | perfetto-min/include/perfetto/ext/base/circular_queue.h:211-221 | drops the first n elements, or all of them |
| CircularQueue.Queue.At | perfetto-min/include/perfetto/ext/base/circular_queue.h:223-226 | the element at the index of the abstract sequence |
| CircularQueue.Queue.Size | perfetto-min/include/perfetto/ext/base/circular_queue.h:235-237 | the length of the abstract sequence |
| CircularQueue.Drive | perfetto-min/include/perfetto/ext/base/circular_queue.h:203-289 | under every run of pushes and erasures the ring holds what a plain sequence would |
| Metatrace.RingIsSafe | perfetto-min/src/base/metatrace.cc:97-136 | over all interleavings of writers and the reader without an overrun: granted indices are pairwise distinct, those not yet released use distinct slots, and the reader visits 0, 1, 2, ... in order, each once |
| Metatrace.StepKeepsSafe | perfetto-min/include/perfetto/ext/base/metatrace.h:162-230 | every atomic step but an overrun keeps the invariant |
| Metatrace.OverrunExactly | perfetto-min/src/base/metatrace.cc:98-128 | the overrun branch is taken and the flag raised if and only if the reader is 4096 behind, or has already passed the writer's index; the read task is queued from 2048 on; otherwise the writer gets its index |
| Metatrace.FlagTellsOverruns | perfetto-min/src/base/metatrace.cc:98-128 | at the end of any run the flag tells whether some append took the overrun branch |
| Metatrace.OverrunWhenOvertaken | perfetto-min/src/base/metatrace.cc:98-128 | a run in which the ring is empty and a writer overtaken by the reader still reports an overrun |
| Metatrace.OverrunsAreHarmless | perfetto-min/src/base/metatrace.cc:98-128 | runs with overruns keep granted indices distinct, unreleased ones on distinct slots and the reader in order, as long as each decrement gives back the writer's own index |
| Metatrace.OvertakenIsHarmless | perfetto-min/src/base/metatrace.cc:98-128 | a run with an overrun that gives back its own index |
| Metatrace.OverrunReissuesIndex | perfetto-min/src/base/metatrace.cc:127-128 | a run in which a decrement gives back another writer's index, and the same index is granted twice |
| TraceMerge.CalcMaxIds | vperfetto-sdk.cpp:431-498 | in each of the five spaces no field of the trace holds more than the maximum found, and some field holds it unless it is 0; all are 0 when the trace does not parse |
| TraceMerge.IdentityChangesNothing | vperfetto-sdk.cpp:431-498 | the max-finding pass leaves its trace unchanged |
| TraceMerge.AboveExactlyWhenFits | vperfetto-sdk.cpp:548-565 | an offset id lies above the main trace's maximum if and only if the 32-bit addition does not wrap |
| TraceMerge.OffsetInjective | vperfetto-sdk.cpp:548-565 | each offset is injective on the ids that fit |
| TraceMerge.MergedIdsDisjoint | vperfetto-sdk.cpp:501-580 | when nothing wraps: no moved id of the rewritten addon is an id of the main trace, equal ids stay equal and different ones different, pid and tid 0 stay 0, and uid or sequence id 0 lands on the main trace's maximum |
| TraceMerge.MergedFieldsDisjoint | vperfetto-sdk.cpp:501-580 | field by field, when nothing wraps: an id in a packet of the rewritten addon stood in the same packet before and was moved by the maximum, and unless it was 0 no field of the main trace holds it |
| TraceMerge.AddonIds | vperfetto-sdk.cpp:235-416 | the whole rewriting maps the visited ids of each space one by one by that space's offset |
| TraceMerge.WrappingCollides | vperfetto-sdk.cpp:548-565 | a concrete pair of traces whose pids collide after a wrap |
| TraceMerge.NotedExactly | vperfetto-sdk.cpp:243-254 | a uuid is in the rename map if and only if rewriting changes some descriptor with that uuid; a descriptor without one counts as 0 |
| TraceMerge.MapIsInjective | vperfetto-sdk.cpp:243-254 | when as many generated uuids as there are packets are distinct and non-zero, the rename map is injective |
| TraceMerge.RenameSeparates | vperfetto-sdk.cpp:418-428 | under the same condition a mapped uuid is renamed to something non-zero that no other uuid is renamed to |
| TraceMerge.OneSubstitution | vperfetto-sdk.cpp:193-230 | one simultaneous substitution: every uuid in descriptors, parents, events and defaults of every packet goes through the final map, regardless of packet order; a uuid without an entry goes to 0 |
| TraceMerge.AddonUuids | vperfetto-sdk.cpp:501-580 | the substitution of the merge is the one computed from the addon's own descriptors; clearing and shifting touch no uuid |
| TraceMerge.AddonFields | vperfetto-sdk.cpp:528-574 | field by field: each uuid of the addon becomes its image and each timestamp, of packets and of ftrace events, the shifted one; no field comes or goes |
| TraceMerge.NoMoveNoRename | vperfetto-sdk.cpp:376-428 | the map is empty if and only if rewriting changes no descriptor, and then no uuid of any packet changes |
| TraceMerge.RenamedKeysIgnoreOrder | vperfetto-sdk.cpp:376-395 | which uuids are renamed does not depend on the order of the packets |
| TraceMerge.RenameUuids | vperfetto-sdk.cpp:193-230 | the second pass substitutes in place; looking a missing uuid up adds a zero entry that changes no later result |
| TraceMerge.LookUp | vperfetto-sdk.cpp:418-428 | reading through the map's index operator gives 0 for a missing uuid and leaves every other answer alone |
| TraceMerge.IterateTraceIds | vperfetto-sdk.cpp:235-428 | the in-place passes compute the specified rewriting |
| TraceMerge.IterateTraceTimestamps | vperfetto-sdk.cpp:171-191 | every packet and ftrace timestamp is mapped, in place |
| TraceMerge.ClearClocks | vperfetto-sdk.cpp:528-541 | clock snapshots and service events of the addon are cleared in place |
| TraceMerge.AddonIsCleared | vperfetto-sdk.cpp:528-541 | no packet of the rewritten addon has a clock snapshot or a service event |
| TraceMerge.ConstructCombinedTrace | vperfetto-sdk.cpp:501-580 | the result is the main bytes followed by the serialised rewritten addon, or nothing when the addon does not parse |
| TraceMerge.CombinedFields | vperfetto-sdk.cpp:515-579 | decoding the merge's own result: when the main trace is fully readable and the addon parses, exactly the main fields and then those of the rewritten addon; nothing when the addon does not parse |
| TraceModel.TraceIdsMapped | vperfetto-sdk.cpp:256-416 | visiting and rewriting agree: rewriting a trace maps the list of visited ids |
| TraceModel.VisitedExactly | vperfetto-sdk.cpp:256-416 | the ids a pass visits are exactly those that stand in the uid, sequence, pid, tid and cpu fields of the packet, one field after the other |
| TraceModel.OnlyVisitedMatter | vperfetto-sdk.cpp:256-416 | two passes that agree on the ids standing in a packet rewrite it alike |
| TraceModel.MovesExactly | vperfetto-sdk.cpp:243-254 | a descriptor's uuid is noted if and only if a pid of its process or its thread is not mapped to itself, that is, if and only if rewriting changes the descriptor |
| TraceModel.UuidsExactly | vperfetto-sdk.cpp:193-230 | the uuids of a packet are those in its defaults, its event, its descriptor and the descriptor's parent |
| TimeAlignment.ShiftLands | vperfetto-util.h:17-21 | adding the difference, or subtracting it the other way, lands exactly on target if and only if the times are at most INT64_MAX apart |
| TimeAlignment.GetTraceStartTime | vperfetto-sdk.cpp:748-766 | the timestamp of the packet that has one while none before it has; 0 when there is none or the trace does not parse |
| TimeAlignment.StartTimesAlign | vperfetto-sdk.cpp:871-913 | with start-time derivation, in both merge directions: the addon's first packet with a timestamp stays the first, and its timestamp lands on that of the main trace's first if and only if the two are at most INT64_MAX apart; the difference can be negated |
| TimeAlignment.AbsoluteTimeAligns | vperfetto-sdk.cpp:819-831 | with an absolute guest time, a host merged into the guest starts at that time, and in the other direction what the guest recorded at that time lands where the host starts, if and only if the two are at most INT64_MAX apart |
| TimeAlignment.CombineTraces | vperfetto-sdk.cpp:900-913 | the merge in the configured direction, with the difference negated when the guest is the addon |
| TimeAlignment.NegationOverflows | vperfetto-sdk.cpp:900-913 | negating the difference overflows if and only if the caller configured INT64_MIN |
| TimeAlignment.AddonTimestamps | vperfetto-sdk.cpp:543-546 | every timestamp of the addon, packet or ftrace, is shifted once |
| TimeAlignment.ShiftKeepsDifferences | vperfetto-sdk.cpp:543-546 | differences are preserved modulo 2^64, and order too when nothing wraps |
| RecorderPackets.PacketFits | vperfetto.cpp:384-413 | with event and category names of at most 180 bytes and counter names of at most 157, each bound on its own kind of packet, every packet fits in the 203 bytes left after tag and header, and in the 208 that are checked for |
| RecorderPackets.DefinitionSize | vperfetto.cpp:165-269 | the exact size of the packets that carry a name |
| RecorderPackets.LongerNamesMayNotFit | vperfetto.cpp:389-395 | those limits are the largest: one byte more and the packet with the largest ids needs 204 bytes |
| RecorderPackets.TextsSpelled | vperfetto.cpp:441-451 | the category and the track names, letter by letter |
| RecorderPackets.StreamReadsBack | vperfetto.cpp:384-413 | a buffer decodes to one field per packet, whole and in order, and each payload to the packet's own fields |
| PacketReader.SequenceOfPacket | vperfetto.cpp:165-276 | every packet says sequence 1, the start with the flag that clears the sequence's state and the others with the flag that needs it; only the definition of a counter track says neither |
| PacketReader.CounterTracksAreMarked | vperfetto.cpp:261-266 | the counter field is set in the descriptors of counter tracks alone |
| Recorder.FullReset | vperfetto.cpp:316-333 | a full reset makes the context fresh, whatever is left in the arrays |
| Recorder.RunIsFaithful | vperfetto.cpp:159-280 | for every session in which the drawn ids ascend: the reader sees what the calls asked for, definitions precede uses and come once, ends repeat their begins, tables agree |
| Recorder.DefinedBeforeUse | vperfetto.cpp:165-229 | each category iid, name iid and track uuid an event uses is defined by an earlier packet of the thread, whatever buffers they land in |
| Recorder.IdsAreDistinct | vperfetto.cpp:415-470 | distinct names get distinct ids, none shares the category's, distinct counters get distinct tracks, none the thread's |
| Recorder.TracksAreDistinct | vperfetto.cpp:453-470 | threads with different ids never define the same track |
| Recorder.SlicesNest | vperfetto.cpp:159-250 | emitted events are a prefix of a well-bracketed word: each end carries the track, category and name of the begin it closes, and the open slices are the stack |
| Recorder.FullDepthAbsorbs | vperfetto.cpp:159-250 | once sixteen slices are open no call changes anything |
| Recorder.ExactWhenNeverFull | vperfetto.cpp:159-250 | the output is exactly the call sequence minus unmatched ends if and only if no call is made with sixteen slices open |
| Recorder.StartExactlyWhenFirst | vperfetto.cpp:192-201 | a call emits the sequence start exactly when it finds itself first, and before everything else |
| Recorder.TablesAreDefinitions | vperfetto.cpp:165-229 | the reader's tables hold exactly the ids some packet defined |
| SharedCounters.RunKeepsInv | vperfetto.cpp:415-439 | under every interleaving without a wrap: each thread draws ascending ids, none of them the invalid id 0, no thread id is granted twice, at most one call is first |
| SharedCounters.EveryThreadIsFaithful | vperfetto.cpp:159-280 | each thread's packets mean what its calls asked for, however the threads interleave on the counters |
| SharedCounters.TracksOfThreadsDiffer | vperfetto.cpp:217-229 | no track of one thread is a track of another |
| SharedCounters.SameIdExactly | vperfetto.cpp:421-423 | two reads take the same interning id if and only if no increment falls between them |
| SharedCounters.ThreadsCanShareAnId | vperfetto.cpp:421-423 | a run in which two threads draw the same id |
| TraceConfiguration.TraceConfig.EnableTracing | vperfetto.cpp:626-666 | enabling resets the counters unless there is no host file, tracing is on, or a trace is being saved; each of the three file names in the environment replaces the configured one unless it is empty |
| TraceConfiguration.TraceConfig.NextInterningId | vperfetto.cpp:421-423 | one read, then one increment by this thread, with other threads at work before and in between; the id read is the one drawn |
| TraceConfiguration.TraceConfig.NextThreadId | vperfetto.cpp:217-218 | an atomic increment grants the thread its id |
| TraceConfiguration.TraceConfig.CountPacket | vperfetto.cpp:194 | one atomic increment by this thread; the result is 1 exactly when it makes the caller the first |
| TraceConfiguration.StorageHoldsAPacket | vperfetto.cpp:342-347 | a buffer, whose size is a 32-bit product, has room for a packet if and only if the configured megabytes are no multiple of 4096; at a multiple its size is 0 |
| TraceRecording.TraceContext.constructor | vperfetto.cpp:115-118 | a fresh context without a buffer |
| TraceRecording.TraceContext.AllocTraceBuffer | vperfetto.cpp:342-347 | a new empty buffer of the configured size as a 32-bit product; it has room for a packet if and only if the megabytes are no multiple of 4096 |
| TraceRecording.TraceContext.SaveLocked | vperfetto.cpp:302-314 | the buffer changes hands with its flag; a partial reset keeps tables, thread id and stack, a full one forgets them |
| TraceRecording.TraceContext.ResetLocked | vperfetto.cpp:316-333 | partial and full reset |
| TraceRecording.TraceContext.FinishAndRefresh | vperfetto.cpp:335-340 | the full buffer is handed over as it is and a new one takes its place |
| TraceRecording.TraceContext.MakeRoom | vperfetto.cpp:384-395 | a buffer is handed over if and only if there is one with fewer than 208 bytes free; afterwards 208 bytes are free if and only if the buffer size is not 0 |
| TraceRecording.TraceContext.WritePacket | vperfetto.cpp:384-413 | the packet is added whole to one buffer; the buffer is switched before it, exactly when the packets in it leave fewer than 208 bytes; seen from the saved file this is one emission step |
| TraceRecording.TraceContext.PutPacket | vperfetto.cpp:398-413 | the packet, built by its setter calls on a range of the free size without asking for a second range, goes behind the others; the buffer stays a concatenation of whole packets with correct sizes |
| TraceRecording.TraceContext.StartSequence | vperfetto.cpp:192-201 | one count; the caller it makes the first raises the flag and writes the start packet, any other changes nothing: a count step and an emission step of the saved file's machine |
| TraceRecording.TraceContext.InternCategory | vperfetto.cpp:202-215 | refines the interning step, with its definition packet on first use |
| TraceRecording.TraceContext.TakeThreadId | vperfetto.cpp:216-229 | refines the step that takes the thread id and defines its track |
| TraceRecording.TraceContext.InternEvent | vperfetto.cpp:428-439 | refines the interning of an event name |
| TraceRecording.TraceContext.GetOrCreateCounterTrackUuid | vperfetto.cpp:453-472 | refines the lookup or creation of a counter track, with 32-bit wrap-around of the counter id, and returns its uuid |
| TraceRecording.TraceContext.EnsureThreadInfo | vperfetto.cpp:192-230 | the three steps in order |
| TraceRecording.TraceContext.BeginTrace | vperfetto.cpp:159-190 | refines the begin of the state machine; nothing when disabled or at full depth |
| TraceRecording.TraceContext.EndTrace | vperfetto.cpp:231-250 | refines the end of the state machine; nothing when disabled, at full depth or without an open slice |
| TraceRecording.TraceContext.TraceCounter | vperfetto.cpp:252-280 | refines the counter call; requires a depth below 16, where the call would use a slot past the stack |
| TraceRecording.TraceContext.Save | vperfetto.cpp:120-123 | the buffer with its packets goes to the caller and the context is as new; a hand-over step of the saved file's machine |
| TraceRecording.TraceStorage.SaveTrace | vperfetto.cpp:93-102 | a buffer is kept once, a missing one is ignored |
| TraceRecording.TraceStorage.WriteFile | vperfetto.cpp:569-588 | the file is the flagged buffers and then the others; every buffer is written once and freed once, and none is left |
| TraceRecording.TraceStorage.WriteFirst | vperfetto.cpp:573-577 | the first loop writes the flagged buffers in order |
| TraceRecording.TraceStorage.WriteOthersAndFree | vperfetto.cpp:579-584 | the second loop writes the other buffers in order and frees every one |
| RecordingSession.Record | vperfetto.cpp:159-280 | for every sequence of calls on a context, with other threads on the counters throughout: the packets are those of the state machine, the ids are those the counters gave this thread, and while no 32-bit counter wraps the reader sees what the calls asked for; what left the buffer is exactly what was handed over; on the counters it takes exactly the steps of its calls in program order, and it writes the start exactly as often as a count told it that it is the first |
| RecordingSession.AccessesAreSteps | vperfetto.cpp:192-230 | what a call does to the shared counters is what its steps in program order do: one count, and a read and an increment, or an atomic increment, just before each definition |
| RecordingSession.RunBeforeThread | vperfetto.cpp:216-229 | until a thread takes its id, nothing it does depends on which one it will be |
| RecorderFile.StepsAreLocal | vperfetto.cpp:192-200 | a step changes its own thread and appends to the storage only, so a context that moves as its contract says takes a step of the machine in any company |
| RecorderFile.SavedFile | vperfetto.cpp:555-588 | after every interleaving and in every order of saving: a non-empty file starts with the single sequence start, every thread's packets are all there in recorded order, every handed-over buffer is written once |
| RecorderFile.RunKeeps | vperfetto.cpp:192-200 | nothing recorded is lost, duplicated or reordered on the way to the storage, and the start packet is in the flagged buffer, the first of its thread |
| RecorderFile.FileOrderPermutes | vperfetto.cpp:573-584 | the two loops together write every buffer exactly once |
| RecorderFile.FileOrderKeepsThreads | vperfetto.cpp:573-584 | moving the flagged buffer to the front reorders no thread's packets |
| RecorderFile.FileLeads | vperfetto.cpp:573-577 | the file starts with the one sequence start |
| PacketReader.PacketIsRead | vperfetto.cpp:159-280 | from the bytes of a packet and the schema's field numbers alone, a reader that keeps a state for each sequence, clears it when told and drops packets that need one it does not have, learns exactly what the packet says |
| PacketReader.PacketIsDropped | perfetto-min/protos/perfetto/trace/trace_packet.proto:209-235 | without a start before it, such a packet teaches the reader nothing but the track it may define for a counter |
| PacketReader.BytesAreRead | vperfetto.cpp:384-413 | reading the bytes of packets that begin with the one start is reading the packets |
| PacketReader.NothingWithoutStart | perfetto-min/protos/perfetto/trace/trace_packet.proto:209-235 | without a start no event is read from any number of packets |
| PacketReader.BytesSayWhatWasAsked | vperfetto.cpp:159-280 | the bytes of a thread's session behind the start, its own or another thread's, read with the schema alone, give exactly the slices and counters the calls asked for, on named tracks and under their names |
| FileReader.LastDefinitionCounts | perfetto-min/protos/perfetto/trace/trace_packet.proto:202-207 | an id means what its last definition says, and nothing without one |
| FileReader.ThreadsReadAlone | perfetto-min/protos/perfetto/trace/trace_packet.proto:194-207 | a reader with one table for the whole sequence sees a thread as if it were alone if and only if, at each use, the last definition of the id in that table, by whichever thread, has the thread's own text |
| RecorderSetters.SettersBuildThePacket | vperfetto.cpp:397-413 | setting the packet's fields one by one, on a message opened as field 1 with an empty size field, is legal on the message writer and builds exactly the packet's bytes |
| RecorderSetters.WriteWithSetters | vperfetto.cpp:397-413 | the same on real message objects, for every slice size of at least 4; with a first slice of at least 208 bytes it is the only one |
| RecorderRuns.OneCounter | vperfetto.cpp:194 | in a joint run the buffers and the counters count the same packets |
| RecorderRuns.ScriptEmits | vperfetto.cpp:192-230 | the steps of a session in program order (count, start packet, and each id read and incremented just before the packet that defines it) emit exactly the session's packets |
| RecorderRuns.ProgramIsRecorded | vperfetto.cpp:384-413 | in any run, what a thread has recorded is what its own steps have emitted |
| RecorderRuns.FileHolds | vperfetto.cpp:555-588 | the saved file holds for each thread exactly what its calls make of the ids it drew in the run |
| TrackNames.NamesApart | vperfetto.cpp:217-229 | no track name, of a thread or of one of its counters, is named after two thread ids |
| RecorderRuns.SortedByTrack | vperfetto.cpp:453-470 | sorting the events of the file by the names of their tracks sorts them by the thread that recorded them |
| RecorderRuns.FileSaysWhatWasAsked | vperfetto.cpp:555-588 | for every run of any threads on the counters and the buffers, each in program order, with buffers switched when fewer than 208 bytes are free, and every saving order: the events that the bytes of the file, read with sequence ids, flags and interned entries as the schema has them, put on a thread's tracks, told by their names, are exactly the slices and counters its calls asked for if and only if at each use of an event name the last definition of its id, by whichever thread, has the thread's own text |
| RecorderRuns.DistinctDrawsAreRead | vperfetto.cpp:415-439 | the file is right about every thread that drew no interning id in common with another |
| SharedIdRun.RightUntilFull | vperfetto.cpp:384-423 | two threads that draw the same ids in program order, one of which goes on recording: for every number of calls up to its second buffer, the run exists, everyone records what they are asked, and the file is read wrongly if and only if the bytes recorded before the last call leave fewer than 208 of the buffer |
| SharedIdRun.SharedIdMisleads | vperfetto.cpp:384-423 | for every configured buffer size that is not 0 there is such a run whose file does not say what the first thread asked for |

## Left out

- File reading and writing, environment variables, logging, sleeping and clocks: times and bytes are inputs, the file is the returned byte sequence.
- The perfetto SDK tracing session, data sources and track-event macros, subprocesses, sockets, task runners and IPC: wrappers or operating-system plumbing.
- The guest-file polling loop, and of the session flags all but the enabling of tracing; the disable path sets the saving flag to false where its comment says on.
- Deadlock freedom of the recorder: its two locks are taken in both orders; each call of a thread is taken under its own lock, and buffers reach the storage one at a time.
- The spin of a caller that is not first until the first one has raised its flag (vperfetto.cpp:201-203): it orders nothing in the file, because the flag is raised before the start packet is written.
- Recording that overlaps the disabling of tracing, and names so long that the buffer is switched inside a packet.
- The loop that asks every context for its buffer is a run of hand-over steps in any order, not a loop over a set of objects.
- CPU-cycle time synchronisation: floating point.
- Parsing and serialising a whole trace in the merger: the protobuf library's, taken as parameters; of a packet only the fields the merger visits are modelled. Generated uuids are a parameter too.
- Pids, tids and cpus are kept as 32-bit patterns, so a negative value is one of at least 2^31, as the merger's unsigned comparisons see it.
- Payload pointers are represented by the bytes they denote, so a payload cannot outlive or alias its buffer in the model.
- `size_already_written_`, which only a message split over several buffers of a shared-memory arbiter uses.
- Names are interned by address, and the text behind an address is taken not to change during a session.
- Debug-only generation counters, memory poisoning, destructors, moves and iterators of the queue, and 64-bit wrap-around of its positions.
- The code generator plugin, string utilities, hashes, small containers and legacy macros.
- WireFormat.ParseVarIntLoop: reads from a sequence of bytes, not through a pointer pair.
- Metatrace.RingIsSafe: holds only for runs without an overrun; `Metatrace.OverrunsAreHarmless` has those with one.
- TraceRecording.TraceContext.PutPacket: the setters fill a range of memory as large as what is free in the buffer, and its bytes are then put there; in the code the range is the buffer itself.
- The context's answer to a request for a buffer inside a packet (vperfetto.cpp:335-340): with 208 bytes free and names within the limits it is never asked, as `RecorderSetters.WriteWithSetters` states.
- Packet defaults, marks of dropped packets and merged interned data: the recorder writes none, and the reader of its files knows none.
- RecordingSession.Record: while one context records, no other hands buffers to the same storage; `RecorderFile` has the interleavings.
- TimeAlignment.NegationOverflows: the difference derived from CPU time stamps, a floating-point computation, is not among the choices.
