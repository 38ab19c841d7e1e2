# A verified model of the buffers, the message stream, the routing table, the timers and the codecs

These modules model the parts of a game-server framework whose correctness rests on
arithmetic over pointers, on updates in place, or on the interleaving of threads. What is
proved about each is what its callers rely on.

- **LZ4** (`Lz4Format`, `Lz4Greedy`, `Lz4Copy`, `Lz4MatchCopy`, `Lz4MatchFinder`, `Lz4Encoder`,
  `Lz4Decoder`, `Lz4Accepted`, `Lz4RoundTrip`). `Lz4Format` defines what a block means, byte by byte, and how it is laid
  out (LZ4 Block Format Description, sections "Compressed block format" and "End of block
  conditions"). The encoder and both decoders are imperative programs over arrays, with
  their wild copies and tables, proved against that meaning. `Lz4Greedy` says which
  block the encoder chooses: no match that its table knows is passed over, and every match
  is as long as it can be on either side. `Lz4Accepted` says what the checked decoder makes of
  input that no encoder wrote.
- **Block stream** (`BlockStream`). The zero-copy streams that pass bytes on in LZ4 blocks.
- **Message transport** (`TranBufPool`, `ReadBuffers`, `WriteBuffers`, `Framing`, `Session`,
  `Receiver`, `SendProtocol`, `SendProgress`, `SendLiveness`, `SendThrottled`,
  `SendClosed`, `Transport`). Memory is a map from addresses to counted
  blocks, so that sharing and freeing are visible. `Framing` defines the wire format by a
  parser that is fed one byte at a time; `Receiver` works on chunks in pool blocks and is
  proved to agree with it. `SendProtocol` is a state machine whose steps are those of any
  number of threads; `SendProgress` follows each message from the call to the wire,
  `SendLiveness` bounds what is left to do, `SendThrottled` has the senders under a limit, and
  `SendClosed` those of a stream that has been closed. The pool counts how often memory has run out, and
  nothing else fails for want of memory. `Transport` puts the pieces together.
- **Routing table** (`RouteTable`, `RouteReclamation`). The list of intervals, its snapshots
  and their reclamation, against a plain map from ids to workers. In `RouteReclamation` the
  writer fills, publishes and deletes tables in a memory whose places are used again, while
  lookups halve their way through it one access at a time.
- **Quota and timers** (`FlowController`, `DueTimers`, `TimerBook`, `TimerManager`). `DueTimers`
  tells an update without queues: turn by turn, which timers are due; `TimerBook`, what
  becomes of all of them, deadlines included. The manager is proved to do exactly that.
- **Codecs and hash** (`Md5Mixing`, `Md5`, `MsgPack`, `QueryString`).
- `Bytes` and `Options` hold what the others share.

Classes have the fields of the original. Threads appear as state machines over atomic
steps. Clocks, memory exhaustion, the sizes of reads and writes, and the callbacks of timers
are parameters or arbitrary choices.

## What turned out not to hold

Each of these is stated with its exact condition, except that one half of the condition on
MessagePack has a gap, which is named.

- The decoder that is told the compressed size is documented to be protected against
  malicious packets (`src/buffer/lz4.h:46-60`). It adds up lengths in an int
  (`src/buffer/lz4.cpp:772-797`). Up to 8421505 bytes of input no length can wrap, and on every
  such input the decoder stays inside both buffers; for every larger size there is an input
  whose first length comes out negative and passes both tests, so that it goes on reading
  before the beginning of the input (`Lz4Decoder.UncompressUnknown`, `SafeSizes`, `LongRun`).
- `LZ4_compressBound` returns its bound if and only if the input has at most 2139095024
  bytes; beyond, the sum wraps (`Lz4Format.BoundFits`).
- A string of more than 255 bytes, or an array or map of more than 15 elements, does not
  survive packing and unpacking: its size, two or four bytes on the wire, is read into a
  variable of eight bytes (`src/msgpack/msgpack.hpp:1023-1050`, `1110-1140`, `1580-1588`).
  `MsgPack.RoundTrip` holds if no such value occurs. It holds only if none occurs for every
  value that is `Telling`: no map of more than 15 entries has maps for keys and values and,
  among its entries, an empty map under an empty map. Where the size of a string is so large
  that the end of it wraps around, the test at line 1605 passes and an exception ends the
  unpacking.
- The padding of MD5 is that of RFC 1321 if and only if the message is shorter than 2^29
  bytes; beyond, `n * 8` wraps (`Md5.PaddingAgrees`).
- The largest 64-bit id is never bound, because `id + 1` wraps
  (`RouteTable.LockFreeRouteTable.BindSingle`).
- Under a limit a queued message can be forgotten. A thread that is refused quota sets the
  quota token before it gives the send token back; a `trigger_send` in between finds the send
  token taken and leaves, and afterwards the quota token is 1, so that the next recharge
  passes the session over (`src/message_stream/message_stream.cpp:106-110`, `336-387`,
  `src/network/io/server.cpp:438-460`). For every message there is such a run
  (`SendThrottled.WakeupLost`); if no `trigger_send` falls into such an interval, a message is
  left behind only while the quota token is not positive, for the next recharge to find
  (`WokenInTime`).
- A lookup may read its snapshot until the second later `Freeze` deletes it, and no longer
  (`RouteReclamation.SnapshotLiveUntilSecondFreeze`, `TwoFreezesReclaim`).
- Sorting refused sessions by token restores their order if and only if nothing is added to
  the quota between any two refusals in a row. Of any two refusals the later one has the
  smaller token if and only if less was recharged between them than was granted, thrown away
  by a recharge and refused; so a recharge between two refusals in a row, with nothing else in
  between, keeps their order if and only if it is a recharge of zero
  (`FlowController.FallsExactly`, `RefusedInOrder`, `OrderLostAcrossRecharge`).
- `Update` does not always end. It ends if and only if the turns of the due timers do
  (`DueTimers.UpdateEnds`): then `TimerManager.TimerManager.Update` ends, and otherwise it is
  still going on after n rounds, for every n (`UpdateRounds`). Two exact conditions say when
  that is. If callbacks cancel nothing, some number of turns must make up for all timers due
  at the start and for all that so many callbacks have registered due at once, none of which
  may be one that loops and is due again as soon as it is reset (`DueTimers.EndsExactly`,
  `UpdateEndsExactly`). If callbacks may cancel but stop registering timers that are due at
  once, and none of these loops, then every due timer that loops and is due again as soon as
  it is reset must be cancelled by some callback (`DueTimers.SettlingEndsExactly`,
  `SettlingUpdateExactly`). So there is no end with a looping system timer of duration zero
  that nobody cancels (`ZeroLoopNeverEnds`), and none without any looping timer if the
  callback of a system timer of duration zero registers another such timer
  (`ZeroChainNeverEnds`, `ChainKeepsUpdate`); a looping timer that its callback cancels in time
  does no harm (`ZeroLoopCancelled`). Nor does a steady timer of duration zero: the two kinds
  compare the clock differently (`ResetRests`).
- `QueryString::parse` undoes `create` if and only if the names are not empty and hold no
  ampersand; an equals sign in a name does no harm (`QueryString.RoundTrip`).
- `identify_message_header` does not look for negative sizes. The loop over a chunk goes on
  behind such a header if and only if it announces more than -24 bytes; at -24 it stands
  still and gives out a message each time, for ever, though the sizes of the header add up
  (`Framing.GetsOn`, `StandsStill`). Of all other properties of the receiver none is claimed
  once a negative size has occurred (`Framing.Undefined`).

## Model

| member | source | states |
|---|---|---|
| Lz4Format.SerializedSize | src/buffer/lz4.cpp:347-350 | every block, whichever matches were chosen, takes at most n + n/255 + 16 bytes for n bytes of content |
| Lz4Format.BoundFits | src/buffer/lz4.cpp:347-350 | that bound comes out of the int arithmetic exactly for inputs of up to 2139095024 bytes |
| Lz4Format.PeriodicIsCopyMatch | src/buffer/lz4.cpp:800-828 | a text whose bytes repeat at the offset is the result of copying one byte at a time |
| Lz4Copy.WildCopy | src/buffer/lz4.cpp:270-271 | copying whole words fills exactly the target and disturbs at most eight bytes behind it |
| Lz4MatchCopy.TableDistances | src/buffer/lz4.cpp:683-726 | after four bytes and the tables dec and dec2 the distance is a multiple of the offset, at least 4 and then at least 8 |
| Lz4MatchCopy.TablePeriods | src/buffer/lz4.cpp:712-727 | the adjusted references still show the same periodic text |
| Lz4MatchCopy.CopyHead | src/buffer/lz4.cpp:801-816 | the first eight bytes are those of the byte-by-byte copy for every offset, and whole words may follow |
| Lz4MatchCopy.CopyTail | src/buffer/lz4.cpp:817-828 | the words and single bytes that follow complete that copy; false exactly if the output is too short |
| Lz4MatchCopy.CopyRepeated | src/buffer/lz4.cpp:711-739 | for every offset and length the match copy equals copying byte by byte |
| Lz4MatchFinder.FindMatch | src/buffer/lz4.cpp:411-424 | the search finds the first match, at steps that grow every 64 attempts, that the table knows, and none only if there is none; all positions looked at are in the table |
| Lz4MatchFinder.CatchUp | src/buffer/lz4.cpp:426-427 | the match extended backwards keeps its offset and begins at the anchor, at the start of the input or behind a difference |
| Lz4MatchFinder.CountMatch | src/buffer/lz4.cpp:442-455 | the count goes to the first difference or to the last five bytes, whichever is first |
| Lz4Encoder.WriteLiteralRun | src/buffer/lz4.cpp:432-433 | a literal length takes bytes of 255 and a remainder |
| Lz4Encoder.WriteMatchRun | src/buffer/lz4.cpp:458-460 | a match length is written the same way by the loop that takes two bytes at a time |
| Lz4Encoder.EmitMatch | src/buffer/lz4.cpp:438-463 | the output goes on to stand for the input up to the end of the match, and room remains for a wild copy |
| Lz4Encoder.TestNext | src/buffer/lz4.cpp:453-459 | two positions go into the table, and a match right behind the last one is taken exactly if the table knows one |
| Lz4Encoder.EmitMatches | src/buffer/lz4.cpp:425-464 | match follows match until none follows directly or the input is nearly used up |
| Lz4Encoder.EmitSequences | src/buffer/lz4.cpp:403-476 | the main loop keeps that, and leaves five literals |
| Lz4Encoder.CompressCtx | src/buffer/lz4.cpp:358-491 | what is written is the block of `Lz4Greedy.Greedy`: it stands for the input, obeys the end conditions and fits the bound; its size comes back in an int |
| Lz4Encoder.Compress | src/buffer/lz4.cpp:637-653 | the same through the variant for the size; and n equal bytes, from 14 on, take 10 bytes and from the 25th on one more for every 255 begun |
| Lz4Greedy.EqualBlock | src/buffer/lz4.cpp:393-447 | of equal bytes the second is where the match is found, and it goes to the last five |
| Lz4Greedy.EqualSize | src/buffer/lz4.cpp:393-484 | so many bytes that block takes, in both variants |
| Lz4Decoder.Uncompress | src/buffer/lz4.cpp:668-748 | every such block decodes to what it stands for, and exactly its bytes are read |
| Lz4Decoder.UncompressUnknown | src/buffer/lz4.cpp:751-837 | the same without the original size; and on every input of up to 8421505 bytes no byte outside the buffers is touched, and the result is that of a plain parse: the size, or the position at which it gave up |
| Lz4Accepted.AcceptedIsBlock | src/buffer/lz4.cpp:766-836 | soundness: if any input at all is accepted and ended in a run of literals, without an offset of zero, then it is a block, and the output is what that block stands for |
| Lz4Accepted.BlockIsAccepted | src/buffer/lz4.cpp:766-836 | every block that obeys the end conditions is accepted so, whatever room there is beyond it |
| Lz4Decoder.SafeSizes | src/buffer/lz4.cpp:772-798 | the sizes for which no input makes the first length wrap past both tests are exactly those up to 8421505 |
| Lz4Decoder.LongRun | src/buffer/lz4.cpp:772-790 | an input of any larger size that does |
| Lz4RoundTrip.RestoreKnownSize | src/buffer/lz4.cpp:501-748 | both encoders, then LZ4_uncompress: exactly the input comes back, and exactly what was written is consumed |
| Lz4RoundTrip.RestoreUnknownSize | src/buffer/lz4.cpp:501-837 | both encoders, then the other decoder with any capacity that suffices: the input comes back, and it does exactly if the compressed size fits an int |
| BlockStream.LZ4OutputStream.Next | src/buffer/block_wrappers.cpp:102-119 | hands out what was backed up or a new buffer; what was kept before stays |
| BlockStream.LZ4OutputStream.BackUp | src/buffer/block_wrappers.cpp:121-128 | exactly the last bytes are given back |
| BlockStream.LZ4OutputStream.Flush | src/buffer/block_wrappers.cpp:130-150 | what is kept of the buffer becomes one more block, the one the encoder chooses; what is kept is what the blocks written stand for, and every block passes the size check of the reader |
| BlockStream.LZ4InputStream.Next | src/buffer/block_wrappers.cpp:26-58 | yields the next stretch of the whole, and false exactly at its end |
| BlockStream.LZ4InputStream.BackUp | src/buffer/block_wrappers.cpp:60-67 | moves the position back within the block |
| BlockStream.JoinedJoins | src/buffer/block_wrappers.cpp:26-58 | every block is found in the whole where its predecessors end |
| BlockStream.Read | src/buffer/block_wrappers.cpp:26-67 | what a client has got and not given back is the beginning of the whole, call by call; false exactly at the end |
| BlockStream.RoundTrip | src/buffer/block_wrappers.cpp:26-150 | after any calls of Next, BackUp and Flush with any copies in between, and any calls on the reading side, what is read is what was kept and flushed |
| TranBufPool.TranBufPool.Malloc | src/buffer/tran_buf_pool.h:30-42 | a block of 64 << factor bytes with a count of one; or none, which is counted |
| TranBufPool.BlockSizes | src/buffer/tran_buf_pool.h:4-13 | a block is twice as large for each step of its factor, from 1 KB where a WriteBuffer begins up to 32 KB |
| TranBufPool.TranBufPool.Free | src/buffer/tran_buf_pool.h:63-69 | the block goes exactly with the last reference |
| TranBufPool.HandleAt | src/buffer/buffer.cpp:63-93 | a handle holds the stretch of the whole behind those of its predecessors |
| ReadBuffers.ReadBuffer.AppendHandle | src/buffer/buffer.cpp:23-31 | the contents grow by the bytes of the handle and its block gains a reference |
| ReadBuffers.ReadBuffer.ToString | src/buffer/buffer.cpp:63-73 | yields the contents |
| ReadBuffers.ReadBuffer.Next | src/buffer/buffer.cpp:75-93 | yields the next stretch in order, false exactly at the end |
| ReadBuffers.ReadBuffer.BackUp | src/buffer/buffer.cpp:95-107 | moves the cursor back by the count |
| ReadBuffers.ReadBuffer.Skip | src/buffer/buffer.cpp:109-125 | moves on by the count or to the end; true exactly if so many bytes remained |
| WriteBuffers.StoreSplice | src/buffer/buffer.cpp:229-251 | a copy into one block replaces exactly that stretch of the whole |
| WriteBuffers.WriteBuffer.Extend | src/buffer/buffer.cpp:317-327 | a further empty block, larger each time up to 32 KB, unless the pool refuses it; the contents and everyone else's blocks stay |
| WriteBuffers.WriteBuffer.Next | src/buffer/buffer.cpp:254-272 | room behind the contents, all blocks but the last being full; none exactly if the pool refuses a block |
| WriteBuffers.WriteBuffer.BackUp | src/buffer/buffer.cpp:274-282 | exactly the last bytes are cut off |
| WriteBuffers.WriteBuffer.Reserve | src/buffer/buffer.cpp:187-209 | exactly that many bytes of room behind the contents, across blocks, unless the pool refuses one |
| WriteBuffers.WriteBuffer.SetData | src/buffer/buffer.cpp:211-252 | replaces exactly the bytes from pos on, across block borders |
| WriteBuffers.WriteBuffer.Append | src/buffer/buffer.cpp:294-304 | the contents grow by exactly the data; it fails exactly if the pool refuses a block |
| WriteBuffers.WriteBuffer.SwapOut | src/buffer/buffer.cpp:168-185 | the reader gets exactly the contents, in the same blocks, and empty blocks are freed |
| Framing.HeaderRoundTrip | src/message_stream/message_header.h:10-27 | decoding the 24 bytes of a header undoes encoding it |
| Framing.FrameBytes | src/message_stream/message_header.h:10-21 | the bytes of a frame at each position: the magic number, the sizes lowest byte first, meta and data |
| Framing.FeedAppend | src/message_stream/message_stream.cpp:389-450 | how the bytes are cut into chunks does not matter to the parser |
| Framing.FeedFrames | src/message_stream/message_stream.cpp:389-479 | the frames of any messages are parsed into exactly those messages |
| Framing.FeedOnlyAdds | src/message_stream/message_stream.cpp:389-450 | what has been delivered is never taken back |
| Framing.GetsOn | src/message_stream/message_stream.cpp:391-440 | one turn of the loop over a header with a negative size goes on exactly if the size is greater than -24, and stands still exactly at -24 |
| Framing.GetsPast | src/message_stream/message_stream.cpp:391-440 | with any other size it gets past header and message exactly if both are there |
| Framing.StandsStill | src/message_stream/message_stream.cpp:389-443 | a chunk of one such header is read for ever, with one more message given out each time |
| Session.Send | src/network/io/session.cpp:63-90 | the buffer that is handed on holds exactly the frame of the message, in blocks no one else knows; it fails exactly if the pool refuses a block |
| Session.AppendMessage | src/network/io/session.cpp:235-278 | meta and data follow the room for the header, and the sizes computed from positions are theirs |
| Receiver.Receiver.IdentifyMessageHeader | src/message_stream/message_stream.cpp:452-479 | collects a header across chunks and judges it by its magic number |
| Receiver.Receiver.SplitAndProcessMessage | src/message_stream/message_stream.cpp:389-442 | splitting a chunk in pool memory ends where the parser fed the same bytes ends, with the same messages |
| Receiver.Receiver.OnReadSome | src/message_stream/message_stream.cpp:153-199 | the stream is where the byte-wise parser is, and gives out its messages; it is broken exactly if the parser is, and out of memory exactly if the pool has refused a block, which is asked for only if the last one is full; messages given out earlier keep their bytes |
| Receiver.Receiver.ResetTranBuf | src/message_stream/message_stream.cpp:497-516 | a full block is given up for a new one without touching a message; it fails exactly if the pool refuses one |
| Receiver.Receiver.OnConnected | src/message_stream/message_stream.cpp:141-151 | ready to receive from the beginning, unless the pool refuses a block |
| Receiver.Receiver.Destroy | src/buffer/buffer.cpp:14-21 | destroying a message leaves all others as they are |
| Receiver.Receiver.Dispose | src/message_stream/message_stream.cpp:42-49 | messages outlive the stream |
| Receiver.Receiver.CountIsOwners | src/buffer/tran_buf_pool.h:56-69 | a block of the stream is in memory exactly while it has an owner, and its count is the number of owners |
| Receiver.Receiver.FreePartIsFree | src/message_stream/message_stream.cpp:178-185 | no message, held or being received, reaches into the part that the next chunk is written to |
| Receiver.Receiver.NothingLeft | src/buffer/buffer.cpp:14-21 | once the stream and its messages are gone, none of its blocks is left |
| Receiver.StoreTake | src/message_stream/message_stream.cpp:422-437 | naming the next stretch of the current block keeps every message and every count right |
| Receiver.ReachedIs | src/message_stream/message_stream.cpp:389-442 | a position in a chunk is reached in exactly the state of the parser fed so far |
| SendProtocol.OneHolder | src/message_stream/message_stream.cpp:336-387 | in every run the send token has at most one holder, thread or write |
| SendProtocol.NoLostWakeup | src/message_stream/message_stream.cpp:51-61 | without a limit: connected, token free and a message queued imply that some thread has not yet left |
| SendProtocol.QuietMeansSent | src/message_stream/message_stream.cpp:202-302 | without a limit: when all threads have left and no write is under way, everything enqueued is sent |
| SendProtocol.SentInOrder | src/message_stream/message_stream.cpp:254-302 | what was dequeued is a prefix of what was enqueued, refusals included, and the wire carries its bytes in order |
| SendProtocol.CountersAddUp | src/message_stream/message_stream.cpp:78-91 | with nobody in the mutex the counters of the two queues add up to count, bytes and block bytes of what is queued |
| SendProtocol.AwakeStep | src/message_stream/message_stream.cpp:374-384 | every step of every thread keeps a queued message on someone's mind, the recheck after the release included |
| SendProtocol.OnWireStep | src/message_stream/message_stream.cpp:221-252 | partial writes put the bytes of the current message on the wire in order |
| SendProgress.AllEnqueued | src/message_stream/message_stream.cpp:51-91 | on a stream that is not closed and on which no write fails, every message passed to async_send_message is in the queue or on its way there, each once |
| SendProgress.NothingMadeUp | src/message_stream/message_stream.cpp:51-91 | on any stream, nothing gets into the queue that was not passed in, and nothing twice |
| SendProgress.ThreadInOrder | src/message_stream/message_stream.cpp:51-91 | the messages of each thread get into the queue in the order of its calls |
| SendProgress.OneSenderInOrder | src/message_stream/message_stream.cpp:51-91 | if one thread sends, the queue is in the order of its calls |
| SendLiveness.StepLighter | src/message_stream/message_stream.cpp:51-386 | every step of a thread and every completed write brings the senders nearer to the end |
| SendLiveness.ComesToRest | src/message_stream/message_stream.cpp:51-386 | once no more calls are made, a bounded number of steps remains; none remains exactly if all threads have left and no write is under way |
| SendLiveness.CarriedOn | src/message_stream/message_stream.cpp:51-386 | from every reachable state there is such an end |
| SendLiveness.EverythingSent | src/message_stream/message_stream.cpp:51-386 | at that end, on a connected stream without a limit, all messages passed in have been sent, also those from before the connection, each once, and are on the wire |
| SendThrottled.NoWriteWithoutQuota | src/message_stream/message_stream.cpp:336-387 | whatever recharges and triggers come when, no write begins before quota has been granted for it |
| SendThrottled.WaitsForTrigger | src/message_stream/message_stream.cpp:336-343 | a session that has been refused asks for no quota until it is triggered, however many messages are passed in; the token by which the server sorts stays as it was |
| SendThrottled.WokenInTime | src/message_stream/message_stream.cpp:336-387 | under a limit, if no trigger_send comes while a refused thread holds the send token, a message stays behind only as long as there is no quota |
| SendThrottled.WakeupLost | src/message_stream/message_stream.cpp:106-110 | if one does, every message can stay behind with quota there and everyone gone |
| SendClosed.ClosedTakesNothing | src/message_stream/message_stream.cpp:51-61 | a closed stream stays closed, and nothing gets into its queue but what threads past the check were bringing |
| SendClosed.OneLastWrite | src/message_stream/message_stream.cpp:202-252 | once the stream is closed at most one more write begins, and none if one was under way |
| Transport.PrefixDelivers | src/message_stream/message_stream.cpp:153-199 | however much of the frames has arrived, the first messages have been given out and nothing else |
| Transport.DeliveredInOrder | src/message_stream/message_stream.cpp:202-252 | in every run of the senders a prefix of the messages enqueued is delivered, and all of them once the stream is connected without a limit, all threads have left, no write is under way and the wire has arrived |
| Transport.Deliver | src/message_stream/message_stream.cpp:153-199 | a stretch of the wire in chunks of any sizes is delivered as the parser says |
| Transport.SendAll | src/network/io/session.cpp:63-90 | the buffers that Session::Send makes for any messages hold their frames, all at once, and are what the protocol enqueues |
| Transport.EndToEnd | src/message_stream/message_stream.cpp:153-495 | from Session::Send on one side, through any calls of the sending threads, any run of theirs and chunks of any sizes, to the application on the other: each message at most once, with its sizes and bytes, in the order of the queue; all of them once the senders are quiet, in the order of the calls if one thread sends; and it fails exactly if a pool refuses a block |
| RouteTable.LockFreeRouteTable.Bind | src/network/router/lock_free_route_table.h:65-121 | updates the map pointwise, the later binding winning; the restarted scan ends; intervals stay disjoint and non-empty |
| RouteTable.LockFreeRouteTable.BindSingle | src/network/router/lock_free_route_table.h:58-61 | binds one id, and does so exactly if it is not the largest |
| RouteTable.LockFreeRouteTable.Unbind | src/network/router/lock_free_route_table.h:124-155 | removes one id from the map, whatever part of an interval it is |
| RouteTable.LockFreeRouteTable.Freeze | src/network/router/lock_free_route_table.h:158-188 | publishes the map as it is |
| RouteTable.LockFreeRouteTable.Lookup | src/network/router/lock_free_route_table.h:194-212 | answers with the published map for every id |
| RouteTable.MergeOverlaps | src/network/router/lock_free_route_table.h:166-180 | any sorted list becomes one that can be searched by halving, with the same ids; one without overlaps stays as it is |
| RouteTable.LargestUnrouted | src/network/router/lock_free_route_table.h:30-35 | no half-open interval reaches the largest id |
| RouteTable.LookupAfter | src/network/router/lock_free_route_table.h:58-212 | after any operations a lookup answers with the map as of the last Freeze |
| RouteReclamation.SnapshotLiveUntilSecondFreeze | src/network/router/lock_free_route_table.h:182-187 | in every interleaving a published snapshot is in memory as published exactly until the second later Freeze has deleted it |
| RouteReclamation.LookupAnswersOneSnapshot | src/network/router/lock_free_route_table.h:158-212 | a lookup that overlaps at most one publication searches a table that stays in memory unchanged, and returns what the map as last published before its load says |
| RouteReclamation.ProbeGetsOn | src/network/router/lock_free_route_table.h:194-212 | it waits for nobody: every access leaves it fewer |
| RouteReclamation.SnapshotNeverChanges | src/network/router/lock_free_route_table.h:165-187 | a published table is never written again while it is in memory, though its writer goes on filling others |
| RouteReclamation.TwoFreezesReclaim | src/network/router/lock_free_route_table.h:182-187 | the bound is tight: a run in which a lookup is left to access a table that two Freezes have deleted |
| FlowController.Conserved | src/message_stream/flow_controller.cpp:27-104 | in any interleaving, quota, granted, thrown away and one per refusal add up to initial quota and recharges |
| FlowController.ThroughputBound | src/message_stream/flow_controller.cpp:27-41 | in any interleaving, granted is at most initial quota plus recharges plus one request less one, and nothing if there is nothing to grant from |
| FlowController.BoundAttained | src/message_stream/flow_controller.cpp:75-88 | that bound is attained for every initial quota, number and size of recharges and size of request, wherever there is anything to grant from |
| FlowController.GrantedSinceRefill | src/message_stream/flow_controller.cpp:50-88 | a recharge that finds something left replaces it: in every interleaving, what is granted from then on is at most this recharge, the later ones and one request less one, however much was left |
| FlowController.RefillAttained | src/message_stream/flow_controller.cpp:50-88 | that is attained whatever was left |
| FlowController.FallsExactly | src/message_stream/flow_controller.cpp:50-104 | of two refusals the later has the smaller token exactly if less was recharged between them than granted, thrown away and refused |
| FlowController.RefusalsFall | src/message_stream/flow_controller.cpp:90-104 | over a whole run tokens fall strictly exactly if nothing is gained between refusals in a row |
| FlowController.SortingRestoresOrder | src/network/io/session.h:66-78 | sorting strictly falling tokens restores the order of refusal |
| FlowController.RefusedInOrder | src/network/io/session.h:66-78 | sorting restores the order of refusal of a whole run, and no other order, exactly under that condition |
| FlowController.InOrderSinceRecharge | src/network/io/session.h:66-78 | so it always does for the refusals since the last recharge |
| FlowController.OrderLostAcrossRecharge | src/message_stream/flow_controller.cpp:50-63 | for every debt and every recharge within it that is not zero, a run in which the order is lost |
| FlowController.Quota.Run | src/message_stream/flow_controller.cpp:27-104 | each compare-and-swap loop takes effect once, on the value it returns, whatever others store meanwhile: a recharge fills up a debt or replaces what is left, a grant takes its size, a refusal one |
| TimerManager.TimerManager.RegisterTimer | src/timer/timer_manager.cpp:64-97 | a new id in its queue, or -1 and nothing changed after shutdown |
| TimerManager.TimerManager.UnRegisterTimer | src/timer/timer_manager.cpp:99-106 | marks exactly that timer and leaves the queues alone |
| TimerManager.TimerManager.EnterShutdownMode | src/timer/timer_manager.cpp:114-128 | exactly the timers that are not yet due are cancelled |
| TimerManager.TimerManager.RunCallback | src/timer/timer_manager.cpp:64-106 | command by command a callback adds to what is due what it registers due at once, and takes away what it cancels |
| TimerManager.TimerManager.Fire | src/timer/timer_manager.cpp:19-28 | pop, callback and re-arming of the top are one turn of the due timers, of which it is the first; in the table of all timers it is set to its duration from now if it loops, and gone if not |
| TimerManager.TimerManager.Serve | src/timer/timer_manager.cpp:10-32 | whenever the turns of a queue end, the loop ends after exactly as many, fires the same timers in the same order, and leaves nothing due in the queue; all other timers stay as the callbacks leave them, but for inactive ones |
| TimerManager.TimerManager.Update | src/timer/timer_manager.cpp:8-57 | ends whenever the turns of both queues end, whatever the callbacks register and cancel, firing turn by turn. A timer that no callback cancels fires exactly if its time has come, and is then set to its duration from now if it loops, and gone if not; otherwise it stays as it is. If no timer is due again at once and callbacks register none that is due, the timers due at the start fire in order, once, unless cancelled by then |
| TimerManager.TimerManager.UpdateRounds | src/timer/timer_manager.cpp:8-57 | stopped after n rounds it has taken those turns one by one, one in each round but those that give up an inactive timer and at most two that find nothing; it gets to the end only if they end, and if not, it is still going on after n rounds, for every n |
| TimerManager.TimerManager.Rounds | src/timer/timer_manager.cpp:8-57 | a due, looping, uncancelled timer that is due again at once is still in its queue after any number of rounds, whatever the callbacks register and however the clock goes on |
| TimerManager.FiresAgain | src/timer/timer_manager.cpp:8-57 | over any number of updates, a looping timer that has fired fires next in the first update at which its duration has gone by |
| TimerBook.RungTimer | src/timer/timer_manager.cpp:19-28 | what firing makes of a timer that no callback cancels |
| DueTimers.FiresExactly | src/timer/timer_manager.cpp:10-32 | once a queue has been served, a timer that nobody cancels has fired exactly if it was due |
| DueTimers.EndsExactly | src/timer/timer_manager.cpp:10-32 | if callbacks cancel nothing, serving a queue ends exactly if some number of turns makes up for the timers due at the start and those registered due by so many callbacks, none of them due again at once |
| DueTimers.UpdateEndsExactly | src/timer/timer_manager.cpp:8-57 | the same for both queues one after the other |
| DueTimers.SettlingEndsExactly | src/timer/timer_manager.cpp:10-32 | if callbacks cancel anything, but stop registering timers that are due at once, none of them looping: serving a queue ends exactly if some callback cancels each timer that is due again at once |
| DueTimers.SettlingUpdateExactly | src/timer/timer_manager.cpp:8-57 | the same for both queues one after the other |
| DueTimers.ChainKeepsUpdate | src/timer/timer_manager.cpp:8-57 | without looping timers there is no end either, if each callback registers a timer of the queue served that is due at once |
| DueTimers.ZeroLoopNeverEnds | src/timer/timer_manager.cpp:34-56 | one looping system timer of duration zero that nobody cancels: no end |
| DueTimers.ZeroChainNeverEnds | src/timer/timer_manager.cpp:34-56 | one system timer of duration zero that does not loop, and whose callback registers another: no end |
| DueTimers.ZeroLoopCancelled | src/timer/timer_manager.cpp:34-56 | one looping system timer of duration zero that its callback cancels: an end |
| DueTimers.RestingUpdate | src/timer/timer_manager.cpp:8-57 | if callbacks register nothing due, the turns are those of the sorted lists of due timers, each cancelled one skipped |
| DueTimers.FiringInOrder | src/timer/timer_manager.h:34-47 | what fires then is in (deadline, id) order, due, and not cancelled |
| DueTimers.UncancelledFires | src/timer/timer_manager.cpp:8-57 | a due timer that nobody cancels fires |
| DueTimers.DueIsFirst | src/timer/timer_manager.h:34-47 | the due timers are the front of the queue |
| DueTimers.ResetRests | src/timer/timer.cpp:51-89 | a reset timer is not due at once exactly if its duration is positive, or zero and the timer steady |
| Md5.PaddingAgrees | src/base/md5.hpp:49-80 | padding on the fly is that of RFC 1321, sections 3.1 and 3.2, exactly for messages shorter than 2^29 bytes |
| Md5.StepAgrees | src/base/md5.hpp:173-184 | one step of the rotating tuple is one operation of section 3.4 in place |
| Md5.TablesAgree | src/base/md5.hpp:147-165 | computed indices and shifts are those listed for the 64 operations |
| Md5Mixing.AuxiliaryAgrees | src/base/md5.hpp:126-141 | the rewritten mixing functions are F, G, H and I |
| Md5Mixing.RotationAgrees | src/base/md5.hpp:168-171 | two shifts and an or are a rotation, for every shift that occurs |
| Md5.Mix | src/base/md5.hpp:200-202 | 64 steps equal the 64 operations, the tuple back in place |
| Md5.ProcessMessage | src/base/md5.hpp:194-206 | the state after all blocks is that of RFC 1321 |
| Md5.Hash64 | src/base/md5.hpp:226-230 | the first eight bytes of the output of section 3.5 |
| Md5.InitialBytes | src/base/md5.hpp:36-37 | the registers at the start, byte by byte as in section 3.3 of RFC 1321 |
| Md5.WordBytes | src/base/md5.hpp:84-97 | in a word the low-order byte comes first |
| MsgPack.Packer.PackSigned | src/msgpack/msgpack.hpp:482-552 | the chain of narrowing overloads writes the shortest signed format |
| MsgPack.Packer.PackUnsigned | src/msgpack/msgpack.hpp:554-617 | the same for unsigned integers |
| MsgPack.Packer.Pack | src/msgpack/msgpack.hpp:295-711 | every value is written in the format of its type, containers element by element; an array of uint8_t is a std::list or std::set, as std::vector<uint8_t> is packed as binary data |
| MsgPack.UnsignedFormats | src/msgpack/msgpack.hpp:554-617 | the bytes of positive fixint and uint 8 to 64 |
| MsgPack.SignedFormats | src/msgpack/msgpack.hpp:482-552 | the first bytes and lengths of negative fixint and int 8 to 64 |
| MsgPack.HeaderFormats | src/msgpack/msgpack.hpp:111-117 | the headers of strings, arrays and maps byte by byte |
| MsgPack.IntShape | src/msgpack/msgpack.hpp:1386-1464 | the first byte tells the format, and casting undoes the narrowing |
| MsgPack.SizeTooLarge | src/msgpack/msgpack.hpp:1023-1050 | a size of two or four bytes read as one of eight exceeds any buffer |
| MsgPack.Unpacker.ReadBe | src/msgpack/msgpack.hpp:925-953 | big-endian assembly yields the number written, or sets the error |
| MsgPack.Unpacker.UnpackNumber | src/msgpack/msgpack.hpp:1386-1464 | restores every integer of the packed type and consumes exactly its bytes; any other data are read by their first byte, and an error is set exactly if it begins no number or the data end |
| MsgPack.Unpacker.UnpackString | src/msgpack/msgpack.hpp:1569-1612 | restores a string of up to 255 bytes; every longer one ends in an error, or in an exception where the end of the string wraps around; of any other data, so does each that has no header of a string or not so many bytes, and no other |
| MsgPack.Unpacker.Unpack | src/msgpack/msgpack.hpp:1004-1144 | restores a small value and consumes exactly its bytes; does not restore one that is not small, if it is Telling |
| MsgPack.RoundTrip | src/msgpack/msgpack.hpp:295-1612 | packing then unpacking restores a value if no string exceeds 255 bytes and no container 15 elements, and, of Telling values, no other |
| MsgPack.RoundTripInTurn | src/msgpack/msgpack.hpp:295-1612 | values packed one behind the other come back in turn |
| QueryString.PercentRoundTrip | src/network/http/utility.hpp:43-79 | decoding undoes encoding for every byte string |
| QueryString.EncodedClean | src/network/http/utility.hpp:43-57 | nothing but unreserved characters (RFC 3986, sections 2.1 and 2.3) and percent signs comes out |
| QueryString.UnreservedAre | src/network/http/utility.hpp:43-57 | exactly letters, digits, hyphen, period, underscore and tilde are left as they are |
| QueryString.EscapedAre | src/network/http/utility.hpp:43-57 | any other byte becomes a percent sign and two upper-case digits |
| QueryString.Decode | src/network/http/utility.hpp:60-79 | the loop decodes character by character, malformed escapes included |
| QueryString.DecodedSigns | src/network/http/utility.hpp:60-79 | a plus sign stands for a space, and escapes may be in either case |
| QueryString.EscapeValues | src/network/http/utility.hpp:60-79 | what a malformed escape stands for, signs and white space included |
| QueryString.HexValues | src/network/http/utility.hpp:60-79 | the values of hexadecimal digits in either case |
| QueryString.CreatedSigns | src/network/http/utility.hpp:86-97 | an equals sign behind each name, and an ampersand between fields |
| QueryString.Parse | src/network/http/utility.hpp:101-133 | the fields are those of the pieces between ampersands, split at the last equals sign |
| QueryString.PiecesUnique | src/network/http/utility.hpp:101-133 | a text has one decomposition into such pieces |
| QueryString.RoundTrip | src/network/http/utility.hpp:86-133 | parse undoes create exactly for names that are not empty and hold no ampersand |

## Left out

- Lz4Encoder.CompressCtx: the two encoders are one method with the differences as parameters; run lengths and positions in it are unbounded integers, which the sizes admitted do not exceed; LZ4_COMPRESSMIN is 0, the table is on the stack, and only the 64-bit little-endian configuration is modelled. The caller provides the room that the bound asks for, also where LZ4_compressBound does not return it.
- Lz4Decoder.UncompressUnknown: above 8421505 bytes of input it is modelled only on blocks an encoder may have written; what happens after a length has wrapped is not. Overflow of an int, undefined in C++, is taken as two's complement.
- Lz4MatchFinder.CountMatch: the bit scan is replaced by its meaning, the number of equal leading bytes.
- Lz4Decoder.Uncompress: claims nothing for input that no encoder wrote; the original reads beyond its input there.
- BlockStream.RoundTrip: room that is handed out and not written to has bytes of which nothing is claimed; calls that fail the checks of the original are not made; the coded streams are a list of raw byte strings; limits on total bytes and the recreation of the coded stream near them are not modelled, nor are a failing read of a size and blocks that no output stream wrote.
- Session.Send: if a block cannot be had, the original goes on with a header position of -1 (it checks header_size instead); here sending ends. The destructor of WriteBuffer, the compressed branches and the variants for protobuf messages and vectors of bytes are not modelled.
- ReadBuffers.ReadBuffer.AppendHandle: appending a whole ReadBuffer to another is not modelled.
- Receiver.Receiver.OnReadSome: messages are handed over at once; that another thread may get later messages before the callbacks of earlier ones are done is not modelled, nor are errors of the transport, the read quota and the back-pressure of servers. Messages are lists of handles instead of ReadBuffer objects, so that many of them can share blocks.
- SendProtocol.NoLostWakeup: is stated without a limit; under one, `SendThrottled.WokenInTime` takes its place. The three counters of a queue change in one step, on_sending accepts every message as Session does, connecting does not race with closing, and after an error of a write only order and bytes are followed.
- RouteTable.SortByBegin: stands for std::sort; only that the result is sorted and a permutation is used.
- TimerManager.TimerManager.Update: the clock stands still during one update (in Rounds it goes on); callbacks register and cancel timers and do nothing else to the manager. Where callbacks both cancel timers and never stop registering ones that are due at once, the condition for an end is the run of the due timers itself. The two register functions and the two queues are one text with the kind as a parameter.
- FlowController.ThroughputBound: quotas are unbounded integers; read and write quota are alike and appear once; the calls without a limit are not modelled.
- Md5.ProcessMessage: holds for any table of 64 words; that the table in use consists of sines is not proved. Hash32 and the variants that look for a terminating zero are not modelled.
- MsgPack.RoundTrip: where maps are keys and values of a map of more than 15 entries, one of which is an empty map under an empty map, loss is not claimed: unpacking makes just that entry of a byte that begins no map, and stays there. Floats, booleans, binary data (std::vector<uint8_t> is packed as such; an array of uint8_t here is a std::list or std::set), std::array, enumerations, time points, Lua values, and strings or containers of more than 4294967295 elements are not modelled; negating the least 32-bit or 64-bit number, undefined in C++, is taken as two's complement; an allocation that cannot succeed is not modelled; an error and an exception are not told apart.
- QueryString.RoundTrip: the container is the list of its entries in iteration order; equality of names regardless of case plays no part.
- Weak memory ordering: every atomic access is one step in one order.
- Integer overflow of long-lived counters and of lengths, except in the LZ4 decoder, in MessagePack, MD5 and the routing table.
- The rest of the repository: sockets, SSL and KCP, gzip streams, protobuf, the HTTP client and server, databases, scripting, RPC, start-up and shutdown.
