# Verified models of the network tables, WebSocket, HTTP and data log code

This project models the parts of ntcore, wpinet and wpiutil that carry the most protocol,
arithmetic and state, and proves what they promise. `dafny verify dfyconfig.toml` checks
all of it.

Each imperative part of the source is a class or a set of methods that works as the source
does: in place, in bulk, with its own fields. Beside it stands a simpler definition on
values, and the methods are proved to refine it. The promises are then lemmas about the
simpler definition, or invariants that every operation keeps, closed by a method that runs
any sequence of operations (`RunSchedule`, `ScanPieces`, `ParsePieces`, `HashPieces`,
`ReceiveWritten`, `Connected`).

| modules | part of the source |
|---|---|
| `WebSocketSpec`, `WebSocketReceive`, `WebSocketConnection` | the frame parser: a machine that takes one byte at a time, and the handler that copies stretches |
| `WebSocketChunking`, `WebSocketTail`, `WebSocketFrames`, `WebSocketRoundTrip`, `WebSocketClosing`, `WebSocketWriter`, `WebSocketExchange` | cutting a stream, what follows its end, what any frame does, round trips, the closing handshake, writing frames, from the writer to the handler |
| `Sha1Spec`, `Sha1Transform`, `Sha1Stream`, `Sha1KnownAnswer` | the digest as FIPS 180-4 defines it, the unrolled transform, streaming, the digest of "abc" |
| `DataLogFormat`, `DataLogControl`, `DataLogBlocks`, `DataLogWriter`, `DataLogReader`, `DataLogRuns`, `DataLogExamples` | log records, start and finish records, 16 KiB blocks, the callback writer thread, reading, what the calls of a run log, the examples of the format |
| `ClientProtocol`, `ClientClock`, `ClientPeriod`, `ClientEngine` | the client engine: publishing, coalescing values, clock synchronisation, the timer period |
| `LocalStorageTypes`, `LocalStorageState`, `LocalStorageTopic`, `LocalStorage` | topics, publishers, entries, values and multi-subscribers: the store as a value, and the objects that are proved to follow it |
| `LocalStorageCalls`, `LocalStorageTurns`, `LocalStorageValues`, `LocalStorageToClient` | what each call does, which publishes and which values the store tells its network over whole runs, and what the client engine makes of it |
| `ChunkedBodySpec`, `ChunkedBodyCoding`, `ChunkedBody` | the chunked-body states of the HTTP parser |
| `MultipartMatcher`, `MultipartScanner` | the multipart boundary scanner |
| `Bytes`, `BitVectors`, `Endian`, `Wrappers` | bytes and bitwise operations on integers, the same on bit vectors, byte order, optional values |

Integers are unbounded in the models. Where the source depends on a width, the width is
written out: 64-bit sums in the WebSocket size check, 64-bit bit counts in SHA-1, 32-bit
words, the 64-bit chunk size, the unsigned 64-bit form of a time stamp. Clocks, random mask
keys and the answers of the network are parameters.

## Findings

Some promises do not hold for all inputs of the code as it stands. Each has an input that
shows it and the exact condition, or the exact effect.

- Cutting a WebSocket stream is visible after a close frame: the handler goes on with the
  chunk it is in and drops later ones (`PingAfterClose`). It is not visible iff the bytes
  behind the close frame are quiet (`CutsAgreeIff`), and never after a failure
  (`FailureHidesCuts`).
- A control frame between the fragments of a combined message is not signalled as sent: its
  signal carries the bytes held so far as well, and the message loses them
  (`PingInsideMessage`, `RoundTripIff`).
- Records can be logged and never handed to the callback: those logged during the last flush
  (`ShutdownRace`), or before the thread first takes the lock (`ShutdownEarly`). All are
  handed over iff the thread was waiting when told to stop, or had nothing left
  (`StopAndJoin`, `CloseAndRead`, `RunAndRead`).
- If the local store publishes twice before an unpublish, one publish still goes out
  (`PublishTwice`); the engine is right whenever the store takes turns (`FairStore`), and
  stays so over one more message iff that message is fair (`HandleOne`).
- The local store does not always take turns: it publishes a publisher again whose type the
  network had overridden (`PublishedAgain`, `PublishedTwice`), and it unpublishes one it never
  published, because one that becomes active beside another is not published
  (`LeftUntold`, `NeverPublished`, `UnpublishedUntold`). A call keeps the turns iff it is fair (`FairIffInTurn`,
  `RunInTurnIff`).
- A network that starts is told a topic's last value, but the store goes on comparing new values
  with the last one told before. The next value is not told if it is like that one, although
  this network was told another (`StaleRun`, `StaleShows`); if the two agree when the network
  starts, it always has what was last heard (`HeardIsKnown`).
- The name of the float array type is that of the float type (`TypeComesBackIff`).
- `SendInitialValues` sends nothing, because the rate limit refuses time zero
  (`SendInitialValues`).
- The multipart matcher can miss a boundary that spans lines (`LineFeedMissed`); it is exact
  for a pattern iff the pattern is regular (`MatcherExactIff`).
- A byte of 128 or more counts as the digit zero in a chunk size, since the table of digits
  ends before it (`SizeDigitIff`, `HighByteIsZero`, `HighByteSize`).
- Behind the last chunk a line feed alone ends the message (`TrailerStart`).
- A chunk extension with a folded line ends the size line early (`ExtensionIff`).
- Body data is dropped when a chunk's data ends inside a buffer and something other than a
  carriage return follows, and only then (`Execute`, `OverrunIff`); cutting the input there
  shows it (`SplitShows`, `DataDropped`).
- The records of a log whose extra header is within 12 bytes of 4 GiB are not found where they
  begin; they are iff the 32-bit sum does not wrap (`HeaderReads`).
- The start record in the format's description spells the type `int64` with two wrong bytes;
  the code writes it right (`StartRecord`).
- A value with a negative time moves a topic's time backwards when the last time is zero
  (`BackwardsIff`).

## Model

| member | source | states |
|---|---|---|
| `WebSocketConnection.WebSocket.HandleIncoming` | wpinet/src/main/native/cpp/WebSocket.cpp:352-599 | the handler, which copies whole stretches of a chunk, leaves the connection exactly where the machine that takes one byte at a time leaves it, events included |
| `WebSocketConnection.WebSocket.TakeStart` | wpinet/src/main/native/cpp/WebSocket.cpp:385-420 | the first two header bytes: what is left of the chunk, resumed in the byte machine, gives the run over the whole chunk; a reserved bit or a wrong mask stops with code 1002 |
| `WebSocketConnection.WebSocket.SizeHeader` | wpinet/src/main/native/cpp/WebSocket.cpp:400-420 | the size of the header from its second byte, and the masking rule of each end |
| `WebSocketConnection.WebSocket.TakeHeader` | wpinet/src/main/native/cpp/WebSocket.cpp:383-456 | a header completed from a chunk in one copy or over many agrees with the byte machine |
| `WebSocketConnection.WebSocket.SizeFrame` | wpinet/src/main/native/cpp/WebSocket.cpp:432-455 | the payload length is the big-endian length field, and a message over the limit fails with 1009 |
| `WebSocketConnection.WebSocket.TakePayload` | wpinet/src/main/native/cpp/WebSocket.cpp:458-464 | payload bytes taken in bulk agree with the byte machine, and the rest of the chunk continues from there |
| `WebSocketConnection.WebSocket.HandleFrame` | wpinet/src/main/native/cpp/WebSocket.cpp:464-596 | a complete frame is unmasked and has the effect the machine gives it |
| `WebSocketConnection.WebSocket.Unmask` | wpinet/src/main/native/cpp/WebSocket.cpp:467-478 | only the bytes of the current frame change, and they become the payload masked with the key |
| `WebSocketConnection.WebSocket.DeliverFrame` | wpinet/src/main/native/cpp/WebSocket.cpp:481-596 | the effect of every opcode, which `OneFrame` says without it: combining, fragment order errors, ping and pong signals, unknown opcodes |
| `WebSocketConnection.WebSocket.HandleClose` | wpinet/src/main/native/cpp/WebSocket.cpp:546-571 | a close frame: code and reason read, echoed once when open, the signal raised, the server shuts down |
| `WebSocketConnection.WebSocket.SendFrames` | wpinet/src/main/native/cpp/WebSocket.cpp:699-724 | frames are written, in order, only while the connection is open |
| `WebSocketConnection.WebSocket.SendCloseFrame` | wpinet/src/main/native/cpp/WebSocket.cpp:324-338 | the body of a close frame, empty for code 1005 |
| `WebSocketConnection.WebSocket.SetClosedState` | wpinet/src/main/native/cpp/WebSocket.cpp:340-346 | the closed signal is raised on the way to closed or failed, and not again |
| `WebSocketConnection.WebSocket.CloseConnection` | wpinet/src/main/native/cpp/WebSocket.cpp:128-133 | a close frame and the closing state |
| `WebSocketConnection.WebSocket.FailConnection` | wpinet/src/main/native/cpp/WebSocket.cpp:135-142 | a failure sends a close frame while that is allowed, raises the signal once and shuts the stream down |
| `WebSocketConnection.WebSocket.TerminateConnection` | wpinet/src/main/native/cpp/WebSocket.cpp:144-150 | the connection ends without a close frame |
| `WebSocketReceive.RunValid` | wpinet/src/main/native/cpp/WebSocket.cpp:352-599 | every byte stream leaves the parser in a valid state |
| `WebSocketReceive.TopBitClearFits` | wpinet/src/main/native/cpp/WebSocket.cpp:451-454 | with the top bit of every 64-bit length clear, the sum compared with the limit never wraps |
| `WebSocketClosing.RunGrows` | wpinet/src/main/native/cpp/WebSocket.cpp:352-599 | received bytes only move the state forward and only add events |
| `WebSocketClosing.ClosingProtocol` | wpinet/src/main/native/cpp/WebSocket.cpp:128-150 | over every run of closes, failures, terminations, writes and received bytes: the state moves forward, `closed` is raised once if the connection is over and never otherwise, at most one close frame is written and no frame after it (section 5.5.1 of RFC 6455) |
| `WebSocketFrames.OneFrame` | wpinet/src/main/native/cpp/WebSocket.cpp:352-599 | for every connection that is not over and every whole frame, whatever its bytes: the frame is refused by the first of eight rules it breaks, with exactly the close frame, the signal and the shutdown of that rule, or else raises exactly these events and leaves exactly this state |
| `WebSocketFrames.FailsIff` | wpinet/src/main/native/cpp/WebSocket.cpp:352-599 | a connection fails at a frame iff a reserved bit is set, the mask is wrong for this end, the message is over the limit, the opcode is unknown, a fragment is out of order or a ping or pong is fragmented |
| `WebSocketFrames.ReservedBit` | wpinet/src/main/native/cpp/WebSocket.cpp:385-396 | what an open client writes for a reserved bit, byte by byte |
| `WebSocketFrames.EndingCalls` | wpinet/src/main/native/cpp/WebSocket.cpp:128-150 | the exact events and the state of closing, failing and terminating, in every state |
| `WebSocketFrames.StreamGoes` | wpinet/src/main/native/cpp/WebSocket.cpp:90-93 | a stream that goes away ends the connection with 1006 and no frame |
| `WebSocketFrames.SentFrames` | wpinet/src/main/native/cpp/WebSocket.cpp:699-722 | frames are written in order while the connection is open, and none otherwise |
| `WebSocketChunking.ChunksAreAPrefix` | wpinet/src/main/native/cpp/WebSocket.cpp:352-599 | however a stream is cut, the chunks act like one chunk holding a prefix that is the whole stream unless the connection ends inside it |
| `WebSocketChunking.ChunkingIsInvisible` | wpinet/src/main/native/cpp/WebSocket.cpp:352-599 | up to the end of the connection, every way of cutting the stream gives the same events and the same parser state |
| `WebSocketChunking.CutBetween` | wpinet/src/main/native/cpp/WebSocket.cpp:352-382 | any cut gives at least the events up to the close frame and at most those of one big chunk |
| `WebSocketTail.CutsAgreeIff` | wpinet/src/main/native/cpp/WebSocket.cpp:352-382 | after a close frame all ways of cutting agree on the events iff the bytes behind it are quiet: read frame by frame, up to the first frame the handler refuses, they hold no complete frame that raises a signal or sends anything |
| `WebSocketTail.QuietIff` | wpinet/src/main/native/cpp/WebSocket.cpp:352-599 | behind the end of a connection no event is raised iff the bytes are quiet, which is a test on the bytes, the open fragment and the number of bytes held |
| `WebSocketTail.HowItEnds` | wpinet/src/main/native/cpp/WebSocket.cpp:352-599 | a connection that data ends is failed or closed; after a failure the rest of the chunk is not looked at, after a close it is read on from a header boundary |
| `WebSocketTail.FailureHidesCuts` | wpinet/src/main/native/cpp/WebSocket.cpp:352-599 | when data fails the connection, all ways of cutting agree whatever follows |
| `WebSocketChunking.PingAfterClose` | wpinet/src/main/native/cpp/WebSocket.cpp:352-382 | the input that shows it: a ping after a close frame is signalled in the same chunk and dropped in the next |
| `WebSocketRoundTrip.HeaderDecodes` | wpinet/src/main/native/cpp/WebSocket.cpp:623-651 | a written header is complete and decodes to its own opcode, length, mask bit and key |
| `WebSocketRoundTrip.ShortestForm` | wpinet/src/main/native/cpp/WebSocket.cpp:623-651 | a header is the shortest of the three forms that holds the size, byte by byte (section 5.2 of RFC 6455) |
| `WebSocketRoundTrip.MaskTwice` | wpinet/src/main/native/cpp/WebSocket.cpp:467-478 | masking twice with one key gives the data back |
| `BitVectors.XorIsVectors` | wpinet/src/main/native/cpp/WebSocket.cpp:467-478 | the exclusive or of two bytes, bit by bit on integers, is the machine's |
| `WebSocketRoundTrip.ReceiveFrame` | wpinet/src/main/native/cpp/WebSocket.cpp:383-478 | the bytes of one frame, whatever follows, bring the receiver to the unmasked frame |
| `WebSocketRoundTrip.MessagesArrive` | wpinet/src/main/native/cpp/WebSocket.cpp:481-596 | any legal sequence of fragments and control frames within the limit is signalled as the messages it stands for |
| `WebSocketRoundTrip.MessagesGarbled` | wpinet/src/main/native/cpp/WebSocket.cpp:481-596 | if a control frame comes while bytes of a combined message are held, the signals differ from what was sent |
| `WebSocketRoundTrip.RoundTripIff` | wpinet/src/main/native/cpp/WebSocket.cpp:352-599 | for all masks, all cuts and all legal frame sequences (sections 5.2 to 5.4 of RFC 6455): the signals are exactly the messages sent iff no control frame comes while bytes of a combined message are held |
| `WebSocketRoundTrip.PingInsideMessage` | wpinet/src/main/native/cpp/WebSocket.cpp:481-545 | the input that shows it: a ping between two fragments |
| `WebSocketRoundTrip.CloseArrives` | wpinet/src/main/native/cpp/WebSocket.cpp:546-571 | the code and reason of a close frame arrive as sent, and an open receiver echoes them once |
| `WebSocketWriter.WriteReq.WriteFrame` | wpinet/src/main/native/cpp/WebSocket.cpp:601-697 | the buffers queued for a frame read as its bytes on the wire and nothing queued before changes, though headers share 4096-byte blocks |
| `WebSocketWriter.WriteReq.AddHeader` | wpinet/src/main/native/cpp/WebSocket.cpp:682-692 | a header goes behind the last one in the same block, or into a new block when it does not fit, and no queued slice changes |
| `WebSocketWriter.WriteReq.PackHeader` | wpinet/src/main/native/cpp/WebSocket.cpp:688-692 | a header copied into the free part of a block leaves every slice already queued from that block unchanged |
| `WebSocketWriter.MakeHeader` | wpinet/src/main/native/cpp/WebSocket.cpp:623-651 | the three forms of the length field, in the shortest one that fits |
| `WebSocketWriter.MaskAll` | wpinet/src/main/native/cpp/WebSocket.cpp:668-677 | the mask runs on across buffer edges |
| `WebSocketWriter.WriteFrames` | wpinet/src/main/native/cpp/WebSocket.cpp:699-724 | one request carries all its frames in order |
| `WebSocketWriter.WrittenIsWire` | wpinet/src/main/native/cpp/WebSocket.cpp:601-697 | what the writer queues is the wire form of the frames, however their data is split into buffers |
| `WebSocketWriter.WrittenIsReceived` | wpinet/src/main/native/cpp/WebSocket.cpp:352-697 | from writer to receiver, for all buffers, masks and cuts: the signals are the messages sent iff no control frame comes inside a combined message |
| `WebSocketExchange.WireFits` | wpinet/src/main/native/cpp/WebSocket.cpp:430-456 | frames within a limit below 2^63 never make the size check wrap, whatever the receiver has made of the frames before |
| `WebSocketExchange.FitsSplit` | wpinet/src/main/native/cpp/WebSocket.cpp:352-456 | a stream whose lengths do not wrap the size check can be cut anywhere |
| `WebSocketExchange.ReceiveWritten` | wpinet/src/main/native/cpp/WebSocket.cpp:352-599 | what the writer put together, cut in any way and given chunk by chunk to the handler of the other end, raises exactly the signals the frames stand for iff no control frame comes while bytes of a combined message are held |
| `Sha1Spec.PaddingFills` | wpiutil/src/main/native/cpp/sha1.cpp:246-266 | the padding is the shortest that fills whole blocks (section 5.1.1 of FIPS 180-4) |
| `Sha1Spec.RotationsAreShifts` | wpiutil/src/main/native/cpp/sha1.cpp:46-48 | the rotations, written as sums, are the unions of the two shifts |
| `Sha1Transform.BlkIsNext` | wpiutil/src/main/native/cpp/sha1.cpp:50-54 | the word computed in the 16-word block is the next word of the 80-word schedule |
| `Sha1Transform.ChForm` | wpiutil/src/main/native/cpp/sha1.cpp:60-65 | the shortened selection is the standard's `Ch` |
| `Sha1Transform.MajForm` | wpiutil/src/main/native/cpp/sha1.cpp:83-89 | the shortened form is the standard's `Maj` |
| `Sha1Transform.R0` | wpiutil/src/main/native/cpp/sha1.cpp:60-65 | one step of the first 16 rounds: registers and schedule as after that step of the 80-step loop |
| `Sha1Transform.R1` | wpiutil/src/main/native/cpp/sha1.cpp:67-73 | one step of rounds 16 to 19 |
| `Sha1Transform.R2` | wpiutil/src/main/native/cpp/sha1.cpp:75-81 | one step of rounds 20 to 39 |
| `Sha1Transform.R3` | wpiutil/src/main/native/cpp/sha1.cpp:83-89 | one step of rounds 40 to 59 |
| `Sha1Transform.R4` | wpiutil/src/main/native/cpp/sha1.cpp:91-97 | one step of rounds 60 to 79 |
| `Sha1Transform.Rounds0` | wpiutil/src/main/native/cpp/sha1.cpp:113-132 | twenty calls with rotating register arguments are the first twenty steps of the loop |
| `Sha1Transform.Rounds20` | wpiutil/src/main/native/cpp/sha1.cpp:133-152 | the next twenty steps |
| `Sha1Transform.Rounds40` | wpiutil/src/main/native/cpp/sha1.cpp:153-172 | the next twenty steps |
| `Sha1Transform.Rounds60` | wpiutil/src/main/native/cpp/sha1.cpp:173-192 | the last twenty steps |
| `Sha1Transform.DoTransform` | wpiutil/src/main/native/cpp/sha1.cpp:103-203 | the unrolled transform on the in-place circular schedule computes the digest of the 80-word, 80-step definition (section 6.1.3 refining section 6.1.2 of FIPS 180-4) |
| `Sha1Stream.BufferToBlock` | wpiutil/src/main/native/cpp/sha1.cpp:205-213 | sixteen big-endian words |
| `Sha1Stream.PaddedMessage` | wpiutil/src/main/native/cpp/sha1.cpp:246-266 | the one-block and the two-block case together are the padded message |
| `Sha1Stream.SHA1.Reset` | wpiutil/src/main/native/cpp/sha1.cpp:33-44 | the initial hash value and no message |
| `Sha1Stream.SHA1.Update` | wpiutil/src/main/native/cpp/sha1.cpp:219-235 | the message grows by exactly the bytes given, full blocks hashed as they fill |
| `Sha1Stream.SHA1.Finalize` | wpiutil/src/main/native/cpp/sha1.cpp:241-310 | the 20 bytes of the digest of the whole message, and an object ready for the next one |
| `Sha1Stream.SHA1.HashPadded` | wpiutil/src/main/native/cpp/sha1.cpp:252-266 | with the length in the last 8 bytes, one block or two, the digest is that of the message |
| `Sha1Stream.HashPieces` | wpiutil/src/main/native/cpp/sha1.cpp:215-310 | for every message and every way of splitting it across updates, the digest is that of the message padded as in section 5.1.1 of FIPS 180-4 |
| `Sha1KnownAnswer.RoundConstants` | wpiutil/src/main/native/cpp/sha1.cpp:60-97 | the four round constants are the integer parts of 2^30 times the square roots of 2, 3, 5 and 10 |
| `Sha1KnownAnswer.AbcDigest` | wpiutil/src/test/native/cpp/sha1Test.cpp:35-36 | the digest of "abc" byte by byte, worked out through all 80 rounds |
| `Sha1KnownAnswer.HashAbc` | wpiutil/src/test/native/cpp/sha1Test.cpp:82-86 | the object gives that digest for "abc" in two pieces |
| `BitVectors.BitsAreVectors` | wpiutil/src/main/native/cpp/sha1.cpp:46-97 | the bitwise operations on integers are those on bit vectors |
| `DataLogFormat.ReadWritten` | wpiutil/src/main/native/cpp/DataLogReader.cpp:254-283 | reading undoes writing for every record, whatever follows it |
| `DataLogFormat.ReadAllWritten` | wpiutil/src/main/native/cpp/DataLogReader.cpp:254-307 | all records come back in order and reading stops exactly at the end of the data |
| `DataLogControl.StartWritten` | wpiutil/src/main/native/cpp/DataLogReader.cpp:28-59 | a written start record reads back with its id, name, type and metadata, and as nothing else |
| `DataLogControl.FinishWritten` | wpiutil/src/main/native/cpp/DataLogReader.cpp:33-67 | a written finish record reads back with its id, and as nothing else |
| `DataLogControl.MetadataWritten` | wpiutil/src/main/native/cpp/DataLogReader.cpp:38-76 | a written metadata record reads back, and as nothing else |
| `DataLogControl.AlternatingTurns` | wpiutil/src/main/native/cpp/DataLog.cpp:429-476 | two consecutive control records of one id are a start and a finish, one way or the other |
| `DataLogControl.FirstIsStart` | wpiutil/src/main/native/cpp/DataLog.cpp:429-476 | the first control record of an id is a start |
| `DataLogControl.IdKnown` | wpiutil/src/main/native/cpp/DataLog.cpp:429-447 | an id with a positive count has an open start record with its own name and type |
| `DataLogControl.StartOpens` | wpiutil/src/main/native/cpp/DataLog.cpp:448-456 | starting an id whose count is zero keeps the log alternating, ids distinct per name |
| `DataLogControl.FinishCloses` | wpiutil/src/main/native/cpp/DataLog.cpp:459-475 | finishing an id whose count is one closes exactly that id |
| `DataLogBlocks.WriteVarInt` | wpiutil/src/main/native/cpp/DataLog.cpp:41-50 | the shortest little-endian form, and no byte outside it touched |
| `DataLogBlocks.WriteRecordHeader` | wpiutil/src/main/native/cpp/DataLog.cpp:52-68 | length bits and three minimal fields |
| `DataLogBlocks.BlockQueue.Reserve` | wpiutil/src/main/native/cpp/DataLog.cpp:490-501 | the outgoing bytes keep their order; a block without room is followed by a free or a new one; blocks in flight stay as they are |
| `DataLogBlocks.BlockQueue.StartRecord` | wpiutil/src/main/native/cpp/DataLog.cpp:503-510 | the header follows the bytes so far, and unused reserved space is given back |
| `DataLogBlocks.BlockQueue.AppendImpl` | wpiutil/src/main/native/cpp/DataLog.cpp:512-520 | data over many blocks is appended byte for byte |
| `DataLogBlocks.BlockQueue.AppendPieces` | wpiutil/src/main/native/cpp/DataLog.cpp:541-559 | all the pieces, in order |
| `DataLogBlocks.BlockQueue.AppendStringImpl` | wpiutil/src/main/native/cpp/DataLog.cpp:522-526 | a string behind its length |
| `DataLogBlocks.BlockQueue.PutRaw` | wpiutil/src/main/native/cpp/DataLog.cpp:528-539 | the outgoing bytes grow by exactly the encoding of one record |
| `DataLogBlocks.BlockQueue.PutStart` | wpiutil/src/main/native/cpp/DataLog.cpp:448-456 | the outgoing bytes grow by exactly the encoding of the start record |
| `DataLogBlocks.BlockQueue.Swap` | wpiutil/src/main/native/cpp/DataLog.cpp:396-402 | the blocks taken hold the outgoing bytes, and the outgoing list is empty |
| `DataLogBlocks.BlockQueue.Release` | wpiutil/src/main/native/cpp/DataLog.cpp:412-417 | the written blocks are cleared onto the free list; outgoing bytes unchanged |
| `DataLogWriter.DataLog.AppendRaw` | wpiutil/src/main/native/cpp/DataLog.cpp:528-539 | one record more, stamped, unless paused or without an entry |
| `DataLogWriter.DataLog.AppendRaw2` | wpiutil/src/main/native/cpp/DataLog.cpp:541-559 | one record holding all the pieces |
| `DataLogWriter.DataLog.AppendInteger` | wpiutil/src/main/native/cpp/DataLog.cpp:573-583 | one record with the eight bytes of the number |
| `DataLogWriter.DataLog.Start` | wpiutil/src/main/native/cpp/DataLog.cpp:429-457 | a nonzero result means the open start record carries the requested name and type; the count goes up even when the type is refused |
| `DataLogWriter.DataLog.Finish` | wpiutil/src/main/native/cpp/DataLog.cpp:459-476 | a finish record is written exactly when the count drops from one |
| `DataLogWriter.DataLog.SetMetadata` | wpiutil/src/main/native/cpp/DataLog.cpp:478-488 | one metadata record more |
| `DataLogWriter.DataLog.StepThread` | wpiutil/src/main/native/cpp/DataLog.cpp:367-422 | one step of the writer thread, what it does under one hold of the lock: from where to where it goes, what it hands over, and when it takes the flush request |
| `DataLogWriter.DataLog.LoopTest` | wpiutil/src/main/native/cpp/DataLog.cpp:387-422 | back at the loop test the thread waits again, or writes the empty span and stops |
| `DataLogWriter.DataLog.TakeOutgoing` | wpiutil/src/main/native/cpp/DataLog.cpp:394-403 | the flush carries whole records, all those logged so far |
| `DataLogWriter.DataLog.WriteBlock` | wpiutil/src/main/native/cpp/DataLog.cpp:403-410 | one block to the callback, conservation kept |
| `DataLogWriter.DataLog.ReleaseBlocks` | wpiutil/src/main/native/cpp/DataLog.cpp:410-417 | written blocks become free, conservation kept |
| `DataLogWriter.DataLog.Accounting` | wpiutil/src/main/native/cpp/DataLog.cpp:367-422 | bytes written after the header, blocks in flight and outgoing blocks are the encodings of all records in order; each flush ends between records; free blocks are empty; the empty span is written once, last |
| `DataLogWriter.RunSchedule` | wpiutil/src/main/native/cpp/DataLog.cpp:367-583 | under every interleaving of calls with the thread's steps the log is valid, its records, entries and counts are exactly what the calls say, and the thread has come to where it is by steps it may take, one call at a time: a flush hands over all that was logged before it and no other step hands over anything |
| `DataLogWriter.ShutdownRace` | wpiutil/src/main/native/cpp/DataLog.cpp:367-422 | a schedule in which a record logged during a flush is never handed over |
| `DataLogWriter.ShutdownEarly` | wpiutil/src/main/native/cpp/DataLog.cpp:159-167 | a schedule in which a record logged before the thread first takes the lock is never handed over |
| `DataLogWriter.StopAndJoin` | wpiutil/src/main/native/cpp/DataLog.cpp:159-167 | the end of a log hands over every record iff the thread was waiting when told to stop, or had nothing left; if it was not waiting, nothing more is handed over |
| `DataLogReader.ReadVarInt` | wpiutil/src/main/native/cpp/DataLogReader.cpp:244-252 | the little-endian value |
| `DataLogReader.GetRecord` | wpiutil/src/main/native/cpp/DataLogReader.cpp:254-283 | the record at a position, refused exactly when it is cut short |
| `DataLogReader.GetNextRecord` | wpiutil/src/main/native/cpp/DataLogReader.cpp:285-307 | advances to the same position as reading the record does, exactly when at least one byte follows it |
| `DataLogReader.GetRecords` | wpiutil/src/main/native/cpp/DataLogReader.cpp:254-307 | reading on until nothing is left |
| `DataLogReader.HeaderReads` | wpiutil/src/main/native/cpp/DataLogReader.cpp:193-242 | a written file header is valid and holds the extra header; the records begin behind it iff the 32-bit sum that locates them does not wrap |
| `DataLogReader.LogReads` | wpiutil/src/main/native/cpp/DataLogReader.cpp:193-307 | the bytes given to the callback between two flushes are a valid file from which exactly the records handed over come back |
| `DataLogReader.CloseAndRead` | wpiutil/src/main/native/cpp/DataLogReader.cpp:193-307 | ending a log and reading its file gives all that was logged if the thread was waiting when told to stop, and otherwise exactly the records handed over before |
| `DataLogReader.RunAndRead` | wpiutil/src/main/native/cpp/DataLogReader.cpp:193-307 | for every schedule, which start of what the calls logged is read back: all of it iff the thread's way through the schedule ends in the wait or with nothing left to hand over, and otherwise exactly what its last flush had taken; and what the calls logged is what each of them says (`EveryCall`) |
| `DataLogRuns.EveryCall` | wpiutil/src/main/native/cpp/DataLog.cpp:429-583 | over every run: each append adds one record with the given data, the given time or else the current one, unless the log is paused or the entry invalid; only the first start and the last finish of an entry add records, which read back as such; a name keeps its id and no two names share one |
| `DataLogExamples.EmptyHeader` | wpiutil/doc/datalog.adoc:69 | the file header of the format description, byte by byte |
| `DataLogExamples.IntegerRecord` | wpiutil/doc/datalog.adoc:89-95 | its integer record |
| `DataLogExamples.StartRecord` | wpiutil/doc/datalog.adoc:116-128 | its start record, with the type string it names |
| `DataLogExamples.FinishRecord` | wpiutil/doc/datalog.adoc:138-145 | its finish record |
| `DataLogExamples.MetadataRecord` | wpiutil/doc/datalog.adoc:157-166 | its metadata record |
| `ClientEngine.Client.HandleLocal` | ntcore/src/main/native/cpp/net/ClientImpl.cpp:182-201 | every batch of local messages keeps the per-publisher invariant |
| `ClientEngine.Client.HandleOne` | ntcore/src/main/native/cpp/net/ClientImpl.cpp:182-201 | one message leaves exactly this queue and these publishers live; what is sent and queued for a publisher, if in turn before, is in turn after iff the message is fair: a publish of one that is not live, an unpublish of one that is or of an index past the list, or no turn |
| `ClientEngine.OneMoreTurn` | ntcore/src/main/native/cpp/net/ClientImpl.cpp:336-401 | from turns that are kept, one more message keeps them iff it is fair, and not even the plain alternation is kept otherwise |
| `ClientEngine.Client.NarrowPeriod` | ntcore/src/main/native/cpp/net/ClientImpl.cpp:353-361 | the timer period divides the period of every live publisher and the ping interval, and is the greatest common divisor of its old value and the new period |
| `ClientEngine.Client.WidenPeriod` | ntcore/src/main/native/cpp/net/ClientImpl.cpp:388-398 | after a publisher has gone the timer period is the greatest common divisor of the ping interval and of the periods left |
| `ClientPeriod.GcdGreatest` | ntcore/src/main/native/cpp/net/ClientImpl.cpp:353-361 | the common divisor divides both and is a multiple of every other common divisor |
| `ClientPeriod.GcdAllDivides` | ntcore/src/main/native/cpp/net/ClientImpl.cpp:388-398 | the divisor taken over the whole list divides every period in it |
| `ClientPeriod.GcdAllGreatest` | ntcore/src/main/native/cpp/net/ClientImpl.cpp:388-398 | every divisor common to the start and to all periods divides it |
| `ClientEngine.Client.AddPublisher` | ntcore/src/main/native/cpp/net/ClientImpl.cpp:336-352 | a publish is queued, the publisher is live with these options and a period rounded to 10 ms, and no other publisher changes |
| `ClientEngine.NearestPeriod` | ntcore/src/main/native/cpp/net/ClientImpl.cpp:349-352 | the period is the nearest multiple of ten, halves up, and five below that |
| `ClientEngine.Client.RemovePublisher` | ntcore/src/main/native/cpp/net/ClientImpl.cpp:363-401 | an unpublish takes the first queued publish back if there is one, and is queued otherwise; never-published handles send nothing |
| `ClientEngine.Client.CancelPublish` | ntcore/src/main/native/cpp/net/ClientImpl.cpp:369-386 | cancelling an unsent publish keeps sent plus queued messages in turn |
| `ClientEngine.Client.SetPending` | ntcore/src/main/native/cpp/net/ClientImpl.cpp:403-416 | a value is queued behind the others with `sendAll`, and otherwise replaces the pending one; no other publisher changes |
| `ClientEngine.Client.SendControl` | ntcore/src/main/native/cpp/net/ClientImpl.cpp:203-247 | exactly what goes on the wire: a ping iff one is due, the last was answered and the network takes it, then all queued messages iff the period has passed, a due ping went out and the network takes them; the ping timer restarts iff a ping went out; and exactly when the client gives the connection up |
| `ClientEngine.Client.SendValues` | ntcore/src/main/native/cpp/net/ClientImpl.cpp:249-292 | exactly what goes on the wire: nothing without a time offset, else the control messages and then, if these are out and the network is ready, the pending values of every due publisher, publisher by publisher; those publishers are empty until their period has passed, the others unchanged |
| `ClientEngine.Client.SendPending` | ntcore/src/main/native/cpp/net/ClientImpl.cpp:265-290 | all pending values of one publisher, oldest first, their times moved to the server's clock with zero kept apart, and no other publisher's |
| `ClientEngine.StampedTimes` | ntcore/src/main/native/cpp/net/ClientImpl.cpp:275-287 | values go out oldest first, each time shifted by the offset; zero stays zero and nothing else becomes zero |
| `ClientEngine.SentInServerTime` | ntcore/src/main/native/cpp/net/ClientImpl.cpp:275-287 | with honest stamps and no drift, the time a value carries is the server's, off by no more than the smallest half round trip and two microseconds |
| `ClientEngine.SendRate` | ntcore/src/main/native/cpp/net/ClientImpl.cpp:263-290 | after a publisher's values have gone out the next ones go iff its period has passed or there is a flush |
| `ClientEngine.Client.SendInitialValues` | ntcore/src/main/native/cpp/net/ClientImpl.cpp:294-322 | as written it asks to send at time zero and so never sends anything |
| `ClientEngine.Client.CheckNetworkReady` | ntcore/src/main/native/cpp/net/ClientImpl.cpp:324-334 | the answer of the network, and a disconnect when it has not been ready for too long |
| `ClientEngine.Client.HandlePong` | ntcore/src/main/native/cpp/net/ClientImpl.cpp:129-166 | the stored offset is that of the samples so far |
| `ClientEngine.CancelOk` | ntcore/src/main/native/cpp/net/ClientImpl.cpp:363-401 | taking back the queued publish takes back the last turn, and the publisher is not live |
| `ClientEngine.Client.ValuesFollowPublish` | ntcore/src/main/native/cpp/net/ClientImpl.cpp:182-292 | when a value is on the wire, the last publish or unpublish before it for its publisher is a publish |
| `ClientEngine.Client.FairStore` | ntcore/src/main/native/cpp/net/ClientImpl.cpp:182-416 | if the local store takes turns for a publisher, sent plus queued messages alternate from a publish and end with one iff it is live; of the values set since its last turn, those on the wire since and those pending are all with `sendAll`, in order, and otherwise at most one is pending and the newest is pending or was sent last |
| `ClientEngine.RunSchedule` | ntcore/src/main/native/cpp/net/ClientImpl.cpp:182-416 | the invariant behind both holds after every sequence of calls, whatever the network answers; the engine has taken in exactly the messages and clock samples the calls gave it; and pings are three seconds apart or more |
| `ClientEngine.PublishTwice` | ntcore/src/main/native/cpp/net/ClientImpl.cpp:363-401 | without taking turns it fails: after two publishes and an unpublish one publish still goes out |
| `ClientClock.BestSoFar` | ntcore/src/main/native/cpp/net/ClientImpl.cpp:129-166 | the state after any samples comes from the sample with the smallest half round trip |
| `ClientClock.ClockError` | ntcore/src/main/native/cpp/net/ClientImpl.cpp:129-166 | with honest stamps and no drift the stored offset differs from the true one by at most the smallest half round trip plus one microsecond |
| `LocalStorageTypes.MatchesAny` | ntcore/src/main/native/cpp/LocalStorage.cpp:37-44 | the loop finds a matching prefix iff there is one, with the empty prefix not matching special topics |
| `LocalStorageTypes.MatchesIff` | ntcore/src/main/native/cpp/LocalStorage.cpp:37-44 | a topic matches iff a listed prefix begins its name, which has to be non-empty if the name begins with a dollar sign |
| `LocalStorageTypes.TypeComesBackIff` | ntcore/src/main/native/cpp/Types_internal.cpp:7-62 | the name of a type stands for that type again iff it is not the float array |
| `LocalStorageTypes.NamedTypes` | ntcore/src/main/native/cpp/Types_internal.cpp:36-62 | names other than those, "json" and "float[]" are raw data |
| `LocalStorageTypes.NewestPush` | ntcore/src/main/native/cpp/LocalStorage.cpp:496-518 | the comparison of times keeps the latest-arriving among the values with the largest time |
| `LocalStorageTypes.TimeForward` | ntcore/src/main/native/cpp/LocalStorage.cpp:496-518 | accepting more values never moves the time of the last one backwards |
| `LocalStorageTypes.BackwardsIff` | ntcore/src/main/native/cpp/LocalStorage.cpp:504-505 | one value moves the time backwards iff its time is negative and the last time is zero |
| `LocalStorageTopic.Publisher.UpdateActive` | ntcore/src/main/native/cpp/LocalStorage.cpp:418-420 | active iff type and type string are the topic's |
| `LocalStorageTopic.Topic.RefreshPubSubActive` | ntcore/src/main/native/cpp/LocalStorage.cpp:653-667 | afterwards every listed publisher is active iff it fits |
| `LocalStorageTopic.Topic.CheckReset` | ntcore/src/main/native/cpp/LocalStorage.cpp:482-494 | a topic that does not exist loses its type and both its values; an existing one keeps everything |
| `LocalStorageTopic.Topic.NetworkAnnounce` | ntcore/src/main/native/cpp/LocalStorage.cpp:669-721 | the network always sets the type; an ack changes nothing; the topic's invariant is kept |
| `LocalStorageTopic.Topic.RemoveNetworkPublisher` | ntcore/src/main/native/cpp/LocalStorage.cpp:723-751 | the first local publisher sets the type, or the topic is reset; the first publisher is to be published iff its type was another; the invariant is kept |
| `LocalStorageTopic.Topic.AddLocalPublisher` | ntcore/src/main/native/cpp/LocalStorage.cpp:762-809 | the first publisher of a topic sets its type, later ones do not; the invariant is kept |
| `LocalStorageTopic.Topic.RemoveLocalPublisher` | ntcore/src/main/native/cpp/LocalStorage.cpp:811-845 | when an active publisher leaves, the first remaining one sets the type; the invariant is kept |
| `LocalStorageTopic.Topic.SetValue` | ntcore/src/main/native/cpp/LocalStorage.cpp:496-518 | accepted iff the type agrees; the last value stays the newest accepted |
| `LocalStorageTopic.Topic.NetworkValue` | ntcore/src/main/native/cpp/LocalStorage.cpp:1391-1400 | a value from the network, remembered as the network's if accepted |
| `LocalStorageTopic.Topic.PublishLocalValue` | ntcore/src/main/native/cpp/LocalStorage.cpp:1248-1279 | heard only from an active publisher, converted between numeric types; the network is told unless it was last told the same |
| `LocalStorageTopic.Topic.StoreDefault` | ntcore/src/main/native/cpp/LocalStorage.cpp:1316-1328 | the first value, converted if need be, at time zero |
| `LocalStorage.LSImpl.AddLocalPublisher` | ntcore/src/main/native/cpp/LocalStorage.cpp:762-809 | the publisher is registered and listed, the network is told iff it is active, and everything else stays as it was |
| `LocalStorage.LSImpl.RemoveLocalPublisher` | ntcore/src/main/native/cpp/LocalStorage.cpp:811-845 | the publisher is neither registered nor listed any more, the network is told of it if it was active and of the next one if its type takes over, and everything else stays as it was |
| `LocalStorage.LSImpl.GetOrCreateTopic` | ntcore/src/main/native/cpp/LocalStorage.cpp:1158-1171 | one topic per name; a new one is listed with exactly the matching multi-subscribers |
| `LocalStorage.LSImpl.Attach` | ntcore/src/main/native/cpp/LocalStorage.cpp:1163-1168 | exactly the live multi-subscribers that match are attached, each once |
| `LocalStorage.LSImpl.AddMultiSubscriber` | ntcore/src/main/native/cpp/LocalStorage.cpp:911-930 | the new multi-subscriber is listed with every topic it matches, once |
| `LocalStorage.LSImpl.RemoveMultiSubscriber` | ntcore/src/main/native/cpp/LocalStorage.cpp:932-949 | afterwards it is listed nowhere, and the others as before |
| `LocalStorage.LSImpl.PublishEntry` | ntcore/src/main/native/cpp/LocalStorage.cpp:1213-1238 | the publisher of an entry, made once, refused iff the type may not change; everything else stays as it was |
| `LocalStorage.LSImpl.SetEntryValue` | ntcore/src/main/native/cpp/LocalStorage.cpp:1281-1295 | a value is accepted iff the handle has an active publisher, made on demand for an entry, and the type suits; the whole new state of the store and what the network is told follow the definition on values |
| `LocalStorage.LSImpl.SetDefaultEntryValue` | ntcore/src/main/native/cpp/LocalStorage.cpp:1297-1336 | stored, at time zero, iff there is no value yet and the type suits, after publishing on demand; the whole new state follows the definition on values |
| `LocalStorage.LSImpl.NetworkAnnounce` | ntcore/src/main/native/cpp/LocalStorage.cpp:1366-1374 | the topic of that name has the announced type, and everything else is as it was |
| `LocalStorage.LSImpl.NetworkUnannounce` | ntcore/src/main/native/cpp/LocalStorage.cpp:1376-1380 | the topic of that name is off the network with its first publisher's type, which is published again if it is another; everything else is as it was |
| `LocalStorage.LSImpl.NetworkSetValue` | ntcore/src/main/native/cpp/LocalStorage.cpp:1391-1400 | accepted iff the type agrees, and everything else is as it was |
| `LocalStorage.LSImpl.StartNetwork` | ntcore/src/main/native/cpp/LocalStorage.cpp:1402-1429 | a network that starts is told the active publishers of every topic in order, and the last value of a topic once |
| `LocalStorage.LSImpl.StartTopic` | ntcore/src/main/native/cpp/LocalStorage.cpp:1409-1420 | the active publishers of one topic, and its last value by the last of them |
| `LocalStorage.LSImpl.ClearNetwork` | ntcore/src/main/native/cpp/LocalStorage.cpp:1431-1439 | every topic is off the network, with its first publisher's type, and no one is told |
| `LocalStorage.LSImpl.Publish` | ntcore/src/main/native/cpp/LocalStorage.cpp:1709-1742 | refused exactly for an unknown topic, a missing type or type string, or too many publishers; everything else is as it was |
| `LocalStorage.LSImpl.Unpublish` | ntcore/src/main/native/cpp/LocalStorage.cpp:1744-1758 | exactly the publisher named, by its own handle or by its entry, is taken out, and the network told accordingly |
| `LocalStorage.LSImpl.GetEntry` | ntcore/src/main/native/cpp/LocalStorage.cpp:1760-1785 | a new entry on a known topic |
| `LocalStorage.LSImpl.ReleaseEntry` | ntcore/src/main/native/cpp/LocalStorage.cpp:1338-1352 | an entry goes, and with it exactly the publisher it holds |
| `LocalStorage.LSImpl.SubscribeMultiple` | ntcore/src/main/native/cpp/LocalStorage.cpp:1691-1702 | refused exactly when there are too many |
| `LocalStorage.LSImpl.UnsubscribeMultiple` | ntcore/src/main/native/cpp/LocalStorage.cpp:1704-1707 | exactly the multi-subscriber named goes |
| `LocalStorage.LSImpl.PublishersFollowType` | ntcore/src/main/native/cpp/LocalStorage.cpp:418-420 | in a valid store a listed publisher is active iff its type and type string are the topic's, an existing topic has a type, and a topic with local but no network publishers has an active one |
| `LocalStorage.LSImpl.LastValueNewest` | ntcore/src/main/native/cpp/LocalStorage.cpp:496-518 | in a valid store the last value is the latest-arriving among the largest-timestamp values accepted since the reset, a default counting as time zero |
| `LocalStorage.LSImpl.TimesForward` | ntcore/src/main/native/cpp/LocalStorage.cpp:482-518 | between resets the time of a topic's last value never goes backwards |
| `LocalStorage.LSImpl.ListedOnce` | ntcore/src/main/native/cpp/LocalStorage.cpp:206-213 | in a valid store a live multi-subscriber is in a topic's list exactly once if a prefix matches, and not at all otherwise |
| `LocalStorage.RunSchedule` | ntcore/src/main/native/cpp/LocalStorage.cpp:482-1439 | under every sequence of calls the store stays valid, values stay in order, and the store is exactly what the calls make of it, one after the other, on values |
| `LocalStorageTurns.TurnPush` | ntcore/src/main/native/cpp/LocalStorage.cpp:735-840 | one more message keeps the turns iff it publishes what is not published or unpublishes what is |
| `LocalStorageTurns.AddedTurns` | ntcore/src/main/native/cpp/LocalStorage.cpp:762-809 | adding a publisher never breaks the turns |
| `LocalStorageTurns.RemovedTurns` | ntcore/src/main/native/cpp/LocalStorage.cpp:811-845 | taking out a publisher keeps the turns iff, when it was active, it was published, and the one whose type takes over was not |
| `LocalStorageTurns.UnannouncedTurns` | ntcore/src/main/native/cpp/LocalStorage.cpp:723-751 | losing the network's publishers keeps the turns iff the publisher whose type takes over was not published |
| `LocalStorageTurns.StartTurns` | ntcore/src/main/native/cpp/LocalStorage.cpp:1402-1429 | every publisher that is active when a network starts is published to it once, and no other |
| `LocalStorageTurns.FairIffInTurn` | ntcore/src/main/native/cpp/LocalStorage.cpp:723-1439 | a call tells the network in turn iff it is fair, a condition on the store before the call; a network that starts is told in turn whatever went before |
| `LocalStorageTurns.RunInTurnIff` | ntcore/src/main/native/cpp/LocalStorage.cpp:723-1439 | while a network stays, it is told in turn over a whole run iff every call of the run is fair |
| `LocalStorageTurns.PublishedAgain` | ntcore/src/main/native/cpp/LocalStorage.cpp:723-751 | whenever a published publisher loses its type to the network and gets it back, it is published a second time |
| `LocalStorageTurns.PublishedTwice` | ntcore/src/main/native/cpp/LocalStorage.cpp:723-751 | five calls on an empty store after which a publisher has been published twice |
| `LocalStorageTurns.LeftUntold` | ntcore/src/main/native/cpp/LocalStorage.cpp:828-842 | when the first publisher left takes over with its type, every other one of that type becomes active with it and is not published |
| `LocalStorageTurns.NeverPublished` | ntcore/src/main/native/cpp/LocalStorage.cpp:828-842 | a publisher that came along this way is unpublished when it leaves, though it was never published: out of turn |
| `LocalStorageTurns.ValueUnpublished` | ntcore/src/main/native/cpp/LocalStorage.cpp:1248-1279 | until then a value it sets is sent, unless the network was last told the same, though it is not published |
| `LocalStorageTurns.UnpublishedUntold` | ntcore/src/main/native/cpp/LocalStorage.cpp:811-845 | seven calls on an empty store after which a publisher has been unpublished and never published |
| `LocalStorageValues.ValueTold` | ntcore/src/main/native/cpp/LocalStorage.cpp:1248-1279 | a value of the topic's type is told iff there is a network and its type or data is not what the store takes the network to have, or duplicates are kept; it is stored unless the one there is newer |
| `LocalStorageValues.ValueConverted` | ntcore/src/main/native/cpp/LocalStorage.cpp:1253-1259 | a number of another type is treated as one of the topic's type with the same times |
| `LocalStorageValues.ValueUnheard` | ntcore/src/main/native/cpp/LocalStorage.cpp:1253-1278 | a publisher that is not of the topic's type changes nothing, nor does a value of another kind |
| `LocalStorageValues.CallKept` | ntcore/src/main/native/cpp/LocalStorage.cpp:482-1439 | whatever is called while a network stays, it still has what the store takes it to have |
| `LocalStorageValues.RunKept` | ntcore/src/main/native/cpp/LocalStorage.cpp:482-1439 | so over every run, from any point where it has |
| `LocalStorageValues.StartTells` | ntcore/src/main/native/cpp/LocalStorage.cpp:1402-1429 | a network that starts has the last value of every topic with a publisher of the topic's type, and no other value |
| `LocalStorageValues.OneHeard` | ntcore/src/main/native/cpp/LocalStorage.cpp:1262-1274 | after a value is heard the network has its type and data iff it was news to the store or the network had it |
| `LocalStorageValues.HeardIsKnown` | ntcore/src/main/native/cpp/LocalStorage.cpp:1248-1429 | if a topic was not stale when the network started, then after any run and one more heard value the network has that value |
| `LocalStorageValues.StaleShows` | ntcore/src/main/native/cpp/LocalStorage.cpp:1248-1429 | if it was stale, setting the value the network is taken to have leaves the network without it |
| `LocalStorageValues.StaleRun` | ntcore/src/main/native/cpp/LocalStorage.cpp:1248-1429 | eight calls after which the network was told 2.0 and the topic has 1.0 |
| `LocalStorageCalls.Announcing` | ntcore/src/main/native/cpp/LocalStorage.cpp:669-721 | an announcement gives the topic the network's type and tells nothing; an ack changes nothing |
| `LocalStorageCalls.Unannouncing` | ntcore/src/main/native/cpp/LocalStorage.cpp:723-751 | without the network the first publisher gives the type, and is published if that is another; a topic without one is blank again |
| `LocalStorageCalls.Clearing` | ntcore/src/main/native/cpp/LocalStorage.cpp:1431-1439 | a network that goes does this to every topic and is told nothing |
| `LocalStorageCalls.NetworkGives` | ntcore/src/main/native/cpp/LocalStorage.cpp:1391-1400 | a value from the network counts iff it is of the topic's type, and is stored unless the one there is newer |
| `LocalStorageCalls.StartingTopic` | ntcore/src/main/native/cpp/LocalStorage.cpp:1402-1421 | a starting network is told of the publishers of a topic's type in order, then the last value by the last of them |
| `LocalStorageCalls.Publishing` | ntcore/src/main/native/cpp/LocalStorage.cpp:1709-1742 | the first publisher gives the topic its type; a publisher is published, under its own type, iff that is the topic's; none without a type or beyond 512 |
| `LocalStorageCalls.Leaving` | ntcore/src/main/native/cpp/LocalStorage.cpp:811-845 | what is told and which type follows when a publisher leaves, in every case |
| `LocalStorageCalls.GettingTopic` | ntcore/src/main/native/cpp/LocalStorage.cpp:1158-1171 | a topic is made once per name, blank |
| `LocalStorageCalls.GettingEntry` | ntcore/src/main/native/cpp/LocalStorage.cpp:1760-1785 | an entry begins without a publisher |
| `LocalStorageCalls.EntryMakes` | ntcore/src/main/native/cpp/LocalStorage.cpp:1213-1238 | the first value an entry can publish makes its publisher, of its own type or else the value's; one it cannot publish changes nothing |
| `LocalStorageCalls.Releasing` | ntcore/src/main/native/cpp/LocalStorage.cpp:1338-1352 | a released entry takes its publisher along |
| `LocalStorageCalls.Subscribing` | ntcore/src/main/native/cpp/LocalStorage.cpp:1691-1702 | up to 512 multi-subscribers |
| `LocalStorageCalls.Defaulting` | ntcore/src/main/native/cpp/LocalStorage.cpp:1297-1336 | a default is ignored by a topic that has a value, and stored at time zero by one that has not |
| `LocalStorageCalls.DefaultTold` | ntcore/src/main/native/cpp/LocalStorage.cpp:1297-1336 | through a publisher it is told even if the network has the same |
| `LocalStorageToClient.StartedInTurn` | ntcore/src/main/native/cpp/LocalStorage.cpp:1402-1429 | since its start a network is told in turn iff every call since is fair |
| `LocalStorageToClient.Connected` | ntcore/src/main/native/cpp/net/ClientImpl.cpp:182-416 | a store that is called fairly and a client engine that takes in what the store says, in any pieces and at any time: what the engine sends and queues takes turns for every publisher, it holds exactly the publishers the store has published, and of the values the store has given since it published one, those on the wire and those pending are all, in order, or else end with the newest |
| `ChunkedBodySpec.StepSane` | wpinet/src/main/native/cpp/http_parser.cpp:1905-2025 | no byte in any state makes `content_length` wrap or reach its sentinel, and `nread` stays within its limit |
| `ChunkedBodySpec.RunSplit` | wpinet/src/main/native/cpp/http_parser.cpp:711-716 | a run over a stream is a run over any start of it and then over the rest |
| `ChunkedBodyCoding.DigitsRun` | wpinet/src/main/native/cpp/http_parser.cpp:1921-1956 | a size is accepted iff it is at most 2^64 - 17, and then held exactly, whichever bytes taken as digits spell it |
| `ChunkedBodyCoding.SizeDigitIff` | wpinet/src/main/native/cpp/http_parser.cpp:1905-1957 | the bytes a size takes are exactly the hexadecimal digits and the bytes from 128 on |
| `ChunkedBodyCoding.HighByteIsZero` | wpinet/src/main/native/cpp/http_parser.cpp:228-237 | a byte from 128 on counts as the digit zero, wherever it stands in a size |
| `ChunkedBodyCoding.HighByteSize` | wpinet/src/main/native/cpp/http_parser.cpp:1905-1957 | the bytes 49 and 128 are a size of 16 |
| `ChunkedBodyCoding.ErrorIff` | wpinet/src/main/native/cpp/http_parser.cpp:1905-2025 | which byte is an error in which state, and which error |
| `ChunkedBodyCoding.TrailerStart` | wpinet/src/main/native/cpp/http_parser.cpp:1905-2025 | behind the last chunk a line feed alone ends the message too, and other bytes begin a trailer field |
| `ChunkedBodyCoding.SizeLineRun` | wpinet/src/main/native/cpp/http_parser.cpp:1905-1985 | a size line in any spelling, with any extensions that hold no carriage return, is reported with its exact size |
| `ChunkedBodyCoding.ExtensionIff` | wpinet/src/main/native/cpp/http_parser.cpp:1958-1967 | a size line with extensions is read as meant iff they hold no carriage return |
| `ChunkedBodyCoding.DataRun` | wpinet/src/main/native/cpp/http_parser.cpp:1987-2008 | chunk data is reported as it is |
| `ChunkedBodyCoding.MessageRun` | wpinet/src/main/native/cpp/http_parser.cpp:1896-2025 | a whole chunked body gives its chunks and one end of message, and is consumed to its last byte |
| `ChunkedBody.HttpParser.SizeByte` | wpinet/src/main/native/cpp/http_parser.cpp:1921-1956 | one digit in 64-bit arithmetic agrees with the machine, which does not wrap |
| `ChunkedBody.HttpParser.SizeEndByte` | wpinet/src/main/native/cpp/http_parser.cpp:1969-1985 | the end of a size line, chunk data or the trailer next |
| `ChunkedBody.HttpParser.HeadersEndByte` | wpinet/src/main/native/cpp/http_parser.cpp:1737-1746 | the end of the trailer completes the last chunk and the message |
| `ChunkedBody.HttpParser.HeaderFieldStartByte` | wpinet/src/main/native/cpp/http_parser.cpp:1189-1201 | an empty line ends the trailer, also as a lone line feed |
| `ChunkedBody.HttpParser.TakeData` | wpinet/src/main/native/cpp/http_parser.cpp:1987-2008 | as much as chunk and buffer allow is taken at once, and the mark is kept |
| `ChunkedBody.HttpParser.TakeByte` | wpinet/src/main/native/cpp/http_parser.cpp:711-716 | one turn of the loop agrees with one step of the machine |
| `ChunkedBody.HttpParser.Execute` | wpinet/src/main/native/cpp/http_parser.cpp:640-716 | a buffer, with body data taken in bulk and passed on at marks, tells what the byte machine tells, except body data that ends the part consumed: it goes untold iff the data of a chunk ends inside this buffer and something other than a carriage return follows |
| `ChunkedBody.HttpParser.Scan` | wpinet/src/main/native/cpp/http_parser.cpp:711-716 | the loop agrees with the machine, and body data stays marked exactly at the end of the buffer or in front of that error |
| `ChunkedBody.OverrunIff` | wpinet/src/main/native/cpp/http_parser.cpp:1987-2016 | the bytes overrun a chunk iff the parser ends with the strict error behind chunk data it has read |
| `ChunkedBody.SplitShows` | wpinet/src/main/native/cpp/http_parser.cpp:2010-2016 | for every chunk followed by a wrong byte, two buffers tell the chunk's data in full and one buffer tells none of it |
| `ChunkedBody.DataDropped` | wpinet/src/main/native/cpp/http_parser.cpp:2010-2016 | one byte of data that is told from two buffers and not from one |
| `ChunkedBody.ParsePieces` | wpinet/src/main/native/cpp/http_parser.cpp:1896-2056 | for every list of non-empty chunks and every split into non-empty buffers, the body data passed on is the chunk data in order and exactly one end of message follows (section 3.6.1 of RFC 2616) |
| `MultipartMatcher.TrackSound` | wpinet/src/main/native/cpp/HttpUtil.cpp:440-470 | what the matcher claims to have matched is there |
| `MultipartMatcher.TrackLongest` | wpinet/src/main/native/cpp/HttpUtil.cpp:440-470 | for a regular pattern the matcher holds the longest start of the pattern the text ends with |
| `MultipartMatcher.IrregularMissed` | wpinet/src/main/native/cpp/HttpUtil.cpp:440-470 | an irregular pattern occurs in some text in which the matcher never finds it |
| `MultipartMatcher.MatcherExactIff` | wpinet/src/main/native/cpp/HttpUtil.cpp:440-470 | falling back to one or none finds a pattern in exactly the texts that contain it iff, wherever a start of the pattern ends with a shorter start, both continue alike |
| `MultipartScanner.OneLineIsPlain` | wpinet/src/main/native/cpp/HttpUtil.cpp:414-420 | the delimiters of a boundary without line feeds are regular, whichever kinds are accepted |
| `MultipartScanner.KindsApart` | wpinet/src/main/native/cpp/HttpUtil.cpp:440-470 | the two kinds of delimiter never end at the same place |
| `MultipartScanner.SameKindAgain` | wpinet/src/main/native/cpp/HttpUtil.cpp:440-470 | once a delimiter has been seen, exactly that one is looked for |
| `MultipartScanner.PreambleSkipped` | wpinet/src/main/native/cpp/HttpUtil.cpp:430-492 | a text and what is skipped of it |
| `MultipartScanner.HttpMultipartScanner.SetBoundary` | wpinet/src/main/native/cpp/HttpUtil.cpp:414-420 | a new boundary accepts both kinds again and changes nothing else |
| `MultipartScanner.HttpMultipartScanner.Reset` | wpinet/src/main/native/cpp/HttpUtil.cpp:422-428 | nothing consumed, the kind seen before still binding |
| `MultipartScanner.HttpMultipartScanner.Match` | wpinet/src/main/native/cpp/HttpUtil.cpp:440-470 | one character keeps both matchers in step with the text, and stops at the first full match of an accepted kind |
| `MultipartScanner.HttpMultipartScanner.Execute` | wpinet/src/main/native/cpp/HttpUtil.cpp:430-492 | consumed and returned input are the whole input in order, the saved buffer is what was consumed, and a finished scanner starts over |
| `MultipartScanner.HttpMultipartScanner.Finds` | wpinet/src/main/native/cpp/HttpUtil.cpp:430-492 | the state says whether a delimiter of an accepted kind has ended, where the first one did, and whether its line has |
| `MultipartScanner.ScanPieces` | wpinet/src/main/native/cpp/HttpUtil.cpp:430-492 | for every boundary whose delimiters of the accepted kinds are regular, so for every one-line boundary, and every way of cutting a text, the scanner is done iff the text holds an accepted delimiter with a line end after it, has then consumed exactly to the end of the first one's line, and saved exactly that (section 5.1.1 of RFC 2046) |
| `MultipartScanner.LineFeedMissed` | wpinet/src/main/native/cpp/HttpUtil.cpp:414-470 | a boundary that spans two lines, and a text in which it is missed |

## Left out

- WebSocket handshake: connections start open; the HTTP upgrade, key generation and `CONNECTING` are not modelled.
- WebSocket streams: libuv, write completion, timers and the ping interval; a write always succeeds.
- WebSocketConnection.WebSocket.HandleIncoming: requires that the 64-bit sum compared with the size limit does not wrap, which holds when the top bit of 64-bit lengths is clear, as RFC 6455 demands, and for everything the writer writes (`WireFits`).
- WebSocketConnection.WebSocket.TakeStart: requires the same of the rest of the stream.
- WebSocketConnection.WebSocket.TakeHeader: requires the same of the rest of the stream.
- WebSocketConnection.WebSocket.SizeFrame: requires that the one sum it forms does not wrap.
- WebSocketConnection.WebSocket.TakePayload: requires the same of the rest of the stream.
- WebSocketExchange.ReceiveWritten: requires a size limit below 2^63, so that no two lengths within it add up past 2^64.
- WebSocket signal handlers that call back into the connection: handlers do not re-enter.
- SHA-1 hexadecimal output, and the stream-reading form of `Update` beyond its bytes.
- Data log file-based writer thread: file names, renaming and disk errors; only the callback form is modelled.
- Data log appends other than raw bytes, pieces and integers: they write the same header in front of fixed-width data; array readers likewise.
- DataLogBlocks.BlockQueue.AppendStringImpl: requires a string under 4 GiB, since its length is written in 32 bits.
- DataLogWriter.DataLog.AppendRaw: requires a payload under 4 GiB, since its size is written in at most 32 bits.
- DataLogWriter.DataLog.AppendRaw2: requires pieces under 4 GiB in all, for the same reason.
- DataLogWriter.DataLog.Start: requires fewer than 2^31 - 1 ids ever given out and a payload under 4 GiB; the wrap of the id and of the count of starts is not modelled.
- DataLogWriter.DataLog.SetMetadata: requires a payload under 4 GiB.
- DataLogReader.CloseAndRead: requires an extra header for which the begin of the records is found (`HeaderReads`); so does `RunAndRead`.
- DataLogReader.HeaderReads: requires an extra header under 4 GiB, whose length is written in 32 bits; so does `LogReads`.
- DataLogWriter.RunSchedule: the lock is modelled by making what happens under one hold of it one step.
- Client announcements and property updates from the server: they only pass through to the local store.
- ClientClock.ClockError: times are unbounded, so overflow of a 64-bit microsecond clock is not modelled.
- Local store subscribers, their `active` flags, polling queues and listeners: the code keeps no one invariant over them.
- Local store notifications to listeners, subscribe and unsubscribe messages to the network, properties, flags, the cached entry of a topic, data loggers.
- LocalStorageTopic.Topic.RefreshPubSubActive: publishers only, since subscribers are not modelled.
- LocalStorageTopic.Topic.CheckReset: type and values; flags and properties are not modelled.
- LocalStorageTopic.Topic.NetworkAnnounce: type and presence; the comparison of properties is not modelled.
- LocalStorageTopic.Topic.AddLocalPublisher: type and list; properties are not modelled.
- LocalStorage.LSImpl.NetworkAnnounce: likewise without properties.
- LocalStorage.LSImpl.AddLocalPublisher: likewise without properties; handles grow without end, while the source gives free ones out again.
- LocalStorage.LSImpl.GetEntry: does not model the refusal at 512 subscribers of a topic (LocalStorage.cpp lines 1771 to 1777), since subscribers are not counted.
- LocalStorage.LSImpl.StartNetwork: publishes and values; the subscriptions it also sends are not modelled.
- LocalStorage.LSImpl.Unpublish: requires that the handle of a publisher made for an entry is not used directly; the source never gives it out.
- LocalStorageTopic.Topic.RemoveLocalPublisher: requires that listed publishers have handles of their own, as the source's handle map sees to.
- Numeric conversion between value types: the type and the times of the result are modelled, not the rounding.
- HTTP parser states outside the chunked body: a trailer field, like the next message, ends the modelled run; callbacks always return 0.
- ChunkedBody.HttpParser.Execute: stops at the end of the message, where the source goes on with the next message in the same buffer.
- ChunkedBody.ParsePieces: bodies without trailer fields, cut into non-empty buffers; an empty buffer is an error in the source, as `Execute` states.
- MultipartScanner.HttpMultipartScanner.SetBoundary: requires a scanner that is done or has read nothing, as the header asks of callers (`HttpUtil.h` lines 383 to 384).
- MultipartScanner.ScanPieces: requires a boundary whose accepted delimiters are regular; for the others the matcher can miss one (`LineFeedMissed`, `MatcherExactIff`).
- `FindMultipartBoundary`, URL parsing, header matching, base64, LEB128, JSON and MessagePack: no part of these properties.
