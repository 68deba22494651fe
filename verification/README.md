# libpagekite, modelled in Dafny

libpagekite is the C library behind the PageKite tunnelling reverse proxy. This project models the
parts of it where state, buffers and threads interact most, in the source's own form (arrays that
are changed in place, loops, state machines for the lock protocol), and proves what its comments,
run-time assertions and callers rely on. `dafny verify dfyconfig.toml` checks everything.

| file | what it models |
|---|---|
| Text | C strings, CRLF search, the number formats of `sscanf` and `sprintf`, copies between buffers |
| Wire | the tunnel's frame and chunk format: header lines, messages, well-formed frames |
| ParserSpec, SplitInvariance | the incremental parser as a state machine, and that cutting up its input changes nothing |
| Acceptance | the converse: that parser takes nothing but well-formed frames, and there is one way to read them |
| Fields | what each header line means, name by name |
| Offsets | how far into its chunk each callback of the parser is |
| Parser | the same parser over its one buffer, with in-place header strings, fragments and leftovers |
| Printers | the frame printers, and that the parser reads back what they print |
| Chunks | the printer of chunks with any of the fields, and that the parser reads all of them back |
| Conn | zero-copy, buffered and blocking writes against a kernel that answers as it likes |
| Items | the five kinds of frames that the front end writes, and their delivery |
| Torn | what the remote end makes of a frame whose rest was never written |
| EndToEnd | frames written on one side with the retries of the callbacks, pieces parsed on the other |
| Locks | the hand-over of the event loop between the main thread and any number of others |
| Streams | the life of a stream: EOF exchange, throttling, the sending window, freeing, eviction, losses |
| Callbacks | what the callbacks come to for one stream, said without the functions that compute it |
| Backends | a stream of the manager together with the connection it writes to |
| Dict | `pk_dict`, an open-addressed multimap with bounded windows, resizing and rollback |
| Heap, Pending, Timers | libev's 4-ary timer heap, its pending queues, and timer expiry through both |
| Sha1, Vectors | the streaming SHA-1 against FIPS 180-4, and the standard's first test vector |
| LogRing | the wrapping log buffer |
| Relays, Disconnect | which relays are wanted, and which tunnels are let go |
| Events, EventLife | the event slots shared with worker threads, and the life of an event bit by bit |

Where methods change state, a specification function or relation says what the new state is, and
lemmas say what that means, down to the names, letters, flags and numbers that the source has. Nondeterminism (what the kernel accepts, what callbacks and other
threads do, what clocks and allocators return) is a parameter, a finite script or an arbitrary value.

Facts about the code that came out of the proofs, each with a member that shows it unless it says
otherwise:

- A stream id that holds a CRLF is the only thing that breaks the reply round trip
  (`Printers.ReplyRoundTrip`); ids that came in through the parser never do (`Printers.SidIsOneLine`).
- `pkc_write` can fail without marking the connection closed (`Conn.PkConn.Write` says exactly
  when), and what was taken of the frame stays taken (`EndToEnd.TornUnmarked`).
  `pkm_be_conn_readable_cb` then keeps the data and writes it again behind a new header, and the
  remote end fills up the torn chunk with it and reports a chunk that nobody wrote
  (`EndToEnd.MadeUp`, `Torn.TornIsFilledUp`; `Torn.TornOrNot` says that nothing of a chunk must have
  gone out for the next frame to arrive).
- A frame that is cut inside its length line can be harmless: a ping of which three bytes went out
  lends its length to the next ping (`Torn.TornPingArrives`; exactly when, in
  `Torn.TornInLengthLine`).
- `pkm_chunk_cb` does not look at what `pkc_write` returns. When a backend takes nothing for a while,
  a chunk that does not fit the buffer is thrown away, the connection is not marked closed, and the
  stream goes on with a hole in it (`Backends.Hole`; `Backends.Backend.Chunk` says exactly when data
  is lost and how much).
- A read that fails counts as a read of some bytes, so that the callback writes what waits, or an
  empty chunk; one into a full buffer looks like the end of the data
  (`EndToEnd.Frontend.ReadMore`).
- A non-blocking flush that is interrupted by a signal marks the connection closed for writing,
  although a comment there speaks of non-EINTR errors (`Conn.PkConn.Flush`, pkconn.c:465-470).
- The check for room in `pkm_write_chunked` leaves no place for the NUL that `sprintf` puts behind
  the header: one byte behind the buffer is overwritten exactly when the header just fits
  (`Conn.PkConn.WriteChunked`, `Conn.HeaderOverruns`).
- `pk_format_chunk` writes three bytes more than its scratch space has when a chunk without fields
  and data just fits, and two bytes more when one with data does (`Chunks.ScratchIsShort`); and its
  checks for room allow for ten digits of a number, where an SKB can have more.
- The order of the two locks in `pkm_reconnect_all` matters as its comment says
  (`Locks.BackwardsDeadlocks`).
- An acknowledgement that goes back breaks the backlog bound (`Streams.AckGoingBackBreaksBound`);
  one that is ahead of what was read opens the window fully (`Streams.AckAheadOpensWindow`).
- Data that arrives for a stream that is closed for writing, such as after the peer's own EOF, is
  thrown away as far as the kernel does not take it at once (`Streams.ChunkLoses`).
- The fourth comparison on the slow path of `downheap` can never succeed (`Heap.TimerHeap.MinChild`).
- A shutdown event stays claimed after it is answered, so it is not served again, although a comment
  says that it keeps getting served (`Events.ClaimHolds`, pkhooks.c:318-319).
- A post that finds every slot blocking or claimed overwrites slot 1; when that is claimed the claim
  is lost (`Events.PostKeepsClaims`, and a run that gets there in `Events.ClaimCanBeLost`).
- An update of SHA-1 with 2^29 bytes or more at once finds a carry in its bit count whether there is
  one or not, where size_t has 64 bits (`Sha1.Context.CountBits`).
- Three log messages of a third of the ring are enough to make it look empty and send the third
  copy over its end (`LogRing.ThreeLinesOverrun`; `LogRing.BoundIsExact`).

## Model

| member | source | states |
|---|---|---|
| Text.ZeroFirstCrlf | libpagekite/pkutils.c:137-149 | finds and zeroes exactly the first CRLF, reports the index behind it, and leaves the buffer alone when there is none |
| Text.CrlfEndUnique | libpagekite/pkutils.c:137-149 | the first CRLF is the CRLF with none in front of it |
| Text.ScanHexOfHex | libpagekite/pkproto.c:140-152 | every length below 2^63 printed with %zx is read back by %lx, and its text holds no CR or NUL |
| Text.ScanDecOfDec | libpagekite/pkproto.c:174-184 | every signed 64-bit number printed in decimal is read back |
| Wire.HeaderEndPrefix | libpagekite/pkproto.c:157-242 | header lines and where they end do not depend on the bytes behind them |
| Wire.FrameHeadPrefix | libpagekite/pkproto.c:131-155 | the length line reads the same from any part of the frame that holds it, and is unknown from any that does not |
| ParserSpec.NewData | libpagekite/pkproto.c:244-343 | one parse step never holds more than the buffer and never finishes more of a chunk than it has |
| ParserSpec.Feed | libpagekite/pkproto.c:345-380 | nor does feeding any amount of data |
| ParserSpec.ReceiveAppend | libpagekite/pkproto.c:299-317 | joining the callbacks of two stretches is joining those of both |
| SplitInvariance.NewDataTracks | libpagekite/pkproto.c:244-343 | a parse step on any cut of a well-formed stream keeps parser and receiver exactly where the bytes put them, leftovers included |
| SplitInvariance.FeedTracks | libpagekite/pkproto.c:345-380 | so does every call, which never finds its buffer full |
| SplitInvariance.PrefixDelivery | libpagekite/pkproto.c:244-380 | after any prefix of a stream of well-formed frames, cut anyhow: no error, the completed messages are those of the first frames in order, EOF headers included, and of the next one an exact prefix of its data was reported under its headers |
| SplitInvariance.SplitInvariance | libpagekite/pkproto.c:244-380 | any way of cutting the whole stream into calls delivers every frame's headers, EOF included, and data in order and leaves the parser idle; fragments are joined only under the same headers, EOF aside, so that every callback carries those of its frame |
| SplitInvariance.FirstMessages | libpagekite/pkproto.c:244-380 | whatever follows a sequence of well-formed frames, errors included, their messages come first in what is reported |
| Acceptance.OnlyFrames | libpagekite/pkproto.c:244-380 | whatever bytes come, cut anyhow: if the parser is idle and raised no error they were well-formed frames, whose messages it reported |
| Acceptance.TakesExactlyFrames | libpagekite/pkproto.c:244-380 | the parser ends idle without an error if and only if the bytes are a sequence of well-formed frames |
| Acceptance.OneReading | libpagekite/pkproto.c:131-155 | two ways to cut a string into well-formed frames agree as far as they go |
| Fields.SidLine | libpagekite/pkproto.c:172-173 | a line `SID:` with any value without NUL sets that field and nothing else, whatever the case of the name |
| Fields.NoopLine | libpagekite/pkproto.c:188-189 | a line `NOOP:` with any value without NUL sets that field and nothing else, whatever the case of the name |
| Fields.PingLine | libpagekite/pkproto.c:191-192 | a line `PING:` with any value without NUL sets that field and nothing else, whatever the case of the name |
| Fields.ProtoLine | libpagekite/pkproto.c:193-194 | a line `Proto:` with any value without NUL sets that field and nothing else, whatever the case of the name |
| Fields.EofLine | libpagekite/pkproto.c:198-199 | a line `EOF:` with any value without NUL sets that field and nothing else, whatever the case of the name |
| Fields.RipLine | libpagekite/pkproto.c:201-202 | a line `RIP:` with any value without NUL sets that field and nothing else, whatever the case of the name |
| Fields.RtlsLine | libpagekite/pkproto.c:205-206 | a line `RTLS:` with any value without NUL sets that field and nothing else, whatever the case of the name |
| Fields.HostLine | libpagekite/pkproto.c:208-209 | a line `Host:` with any value without NUL sets that field and nothing else, whatever the case of the name |
| Fields.SkbLine | libpagekite/pkproto.c:174-184 | a line `SKB:` with any printed 64-bit number sets that field and nothing else, whatever the case of the name |
| Fields.SpdLine | libpagekite/pkproto.c:185-186 | a line `SPD:` with any printed 32-bit number sets that field and nothing else, whatever the case of the name |
| Fields.PortLine | libpagekite/pkproto.c:195-196 | a line `Port:` with any printed 32-bit number sets that field and nothing else, whatever the case of the name |
| Fields.RPortLine | libpagekite/pkproto.c:203-204 | a line `RPort:` with any printed 32-bit number sets that field and nothing else, whatever the case of the name |
| Fields.QDaysLine | libpagekite/pkproto.c:211-213 | a line `QDays:` with any printed 32-bit number sets that field and nothing else, whatever the case of the name |
| Fields.QConnsLine | libpagekite/pkproto.c:214-216 | a line `QConns:` with any printed 32-bit number sets that field and nothing else, whatever the case of the name |
| Fields.QuotaLine | libpagekite/pkproto.c:217-219 | a line `Quota:` with any printed 32-bit number sets that field and nothing else, whatever the case of the name |
| Fields.OtherLine | libpagekite/pkproto.c:165-225 | any other line is dropped if it starts with S, P, R or Q, and otherwise kept among the first 64 |
| Fields.HexReads | libpagekite/pkproto.c:140-152 | a length is read with blanks and a sign in front, digits in either case, and anything behind that is no digit |
| Fields.DecReads | libpagekite/pkproto.c:174-219 | and so is a number, in decimal |
| Fields.NamedIs | libpagekite/pkproto.c:171-219 | names are compared letter by letter, regardless of case |
| Offsets.AllCounted | libpagekite/pkproto.c:273-323 | whatever bytes come, cut anyhow: every callback's offset counts the data of its chunk that was reported up to there, never goes over its total, and all callbacks of a chunk give the same total |
| Offsets.EofIsKeptBack | libpagekite/pkproto.c:286-317 | when the buffer is full no callback but the last of a chunk brings its EOF header |
| Parser.HeadersStable | libpagekite/pkproto.c:165-225 | header strings that lie in the receive buffer survive whatever is written behind them |
| Parser.PointAtApplies | libpagekite/pkproto.c:171-225 | pointing into the buffer at a terminated line means what adding the line to the headers means |
| Parser.PkParser.Reset | libpagekite/pkproto.c:123-129 | all of the buffer is free again |
| Parser.PkParser.ParseFrameHeader | libpagekite/pkproto.c:131-155 | length and header length of the first line, a bad frame, or nothing yet; later bytes untouched |
| Parser.PkParser.ParseLine | libpagekite/pkproto.c:163-228 | one header line: terminated in place, pointed at, the rest of the buffer as it was |
| Parser.PkParser.ParseChunkHeader | libpagekite/pkproto.c:157-242 | the header loop refines reading all lines; data offset, fragment size and total follow |
| Parser.PkParser.Finish | libpagekite/pkproto.c:324-338 | leftovers are moved to the front and parsed as the next frame |
| Parser.PkParser.CompleteHeld | libpagekite/pkproto.c:281-338 | a frame that is complete in the buffer is reported once, whole, and what follows it is parsed |
| Parser.PkParser.FragmentHeld | libpagekite/pkproto.c:273-323 | a full buffer with an incomplete frame reports the fragment there is, without its EOF header, and frees its bytes |
| Parser.PkParser.ParsePassing | libpagekite/pkproto.c:291-338 | later data of a fragmented frame is reported as it comes, and the frame's end is found exactly |
| Parser.PkParser.ParseNewData | libpagekite/pkproto.c:244-343 | the in-place parser refines the state machine; on every input, malformed ones included, the two counters add up to the buffer and the recursion on leftovers ends |
| Parser.PkParser.Parse | libpagekite/pkproto.c:345-380 | the copy loop refines feeding the data, ends, takes all of the data unless there is an error, and keeps the accounting on every input; errors reset the parser; what was reported stays reported, and comes first even when a later error is ignored |
| Text.Sprintf | libpagekite/pkproto.c:391-392 | prints the text and a NUL behind it, and leaves every other byte alone |
| Printers.FormatFrame | libpagekite/pkproto.c:385-393 | prints the length line and the headers at the given place, reports how much, and writes one NUL more; every other byte stays |
| Printers.ReplyOverhead | libpagekite/pkproto.c:395-406 | is the length of the printed reply header for every size |
| Printers.RenderScans | libpagekite/pkproto.c:157-242 | the header scan finds exactly the lines that were printed, whatever data follows |
| Printers.FrameReads | libpagekite/pkproto.c:131-242 | a printed length line, header lines and data are a well-formed frame with that message |
| Printers.OneEvent | libpagekite/pkproto.c:244-380 | a frame that fits, fed to an idle parser, is one callback and leaves it idle |
| Printers.ReplyRoundTrip | libpagekite/pkproto.c:408-419 | a reply parses back to its stream id and data, for all data, if and only if the stream id holds no CRLF |
| Printers.ReplyOneCallback | libpagekite/pkproto.c:408-419 | a reply that fits the buffer is one callback with its stream id and data if and only if the stream id holds no CRLF |
| Printers.SidIsOneLine | libpagekite/pkproto.c:171-209 | no string that comes out of the parser holds a CRLF |
| Printers.EofRoundTrip | libpagekite/pkproto.c:472-479 | an EOF frame is one callback with its stream id, EOF text and no data |
| Printers.SkbRoundTrip | libpagekite/pkproto.c:481-486 | an SKB frame is one NOOP callback with its stream id and number |
| Printers.PongRoundTrip | libpagekite/pkproto.c:488-491 | a pong is one NOOP callback without a stream id |
| Printers.PingRoundTrip | libpagekite/pkproto.c:493-496 | a ping is one NOOP and PING callback |
| Chunks.ChunkRoundTrip | libpagekite/pkproto.c:421-470 | a chunk with any of the printed fields, and any data, that fits the buffer is one callback in which every field, by name, and the data are what they were, and no other field is set |
| Chunks.FormatChunk | libpagekite/pkproto.c:421-470 | prints that frame; it stays inside maxbytes if numbers have ten digits at most; with memory it fails only if fewer than ten bytes are to spare, or, without fields, if it does not fit; and how much scratch space it writes |
| Chunks.ScratchIsShort | libpagekite/pkproto.c:424-464 | a chunk without fields, in exactly its size, writes two bytes behind the scratch space, or three if it has no data |
| Chunks.AsTested | libpagekite/pkproto.c:1141-1193 | the printed frames are the very texts of the repository's tests |
| Chunks.AsParsed | libpagekite/pkproto.c:1195-1234 | the header lines of its parser test give the values that it asserts |
| Chunks.BadAsTested | libpagekite/pkproto.c:1239-1243 | and its two bad inputs give those errors and no callback |
| Conn.PkConn.RawWrite | libpagekite/pkconn.c:353-400 | one system call takes as much of the data as the kernel says, or fails with the error it gives; none is made for no data; and the byte counters account for it |
| Conn.PkConn.FlushBuffer | libpagekite/pkconn.c:438-464 | flushing moves bytes from the front of the buffer to the kernel and changes nothing of the stream; when a blocking flush does not fail the buffer is empty |
| Conn.PkConn.WriteThrough | libpagekite/pkconn.c:486-511 | the kernel gets a prefix of the new data; all of it exactly when no error is returned |
| Conn.PkConn.Flush | libpagekite/pkconn.c:417-513 | both together; how it ended and what the kernel said for that: a hard error, the end of its answers, or a thousand of them; what it returns; by name: OtherError and Eintr mark the connection closed and Eagain, NoError, no socket and too many turns leave the mark as it was; a blocking flush never ends in Eintr, and goes on after every answer but the last that took bytes or was interrupted |
| Conn.PkConn.Write | libpagekite/pkconn.c:515-554 | for every pattern of partial writes, EINTR and EAGAIN: what the kernel took is a prefix of the logical stream, which grew by a prefix of the data, all of it if and only if the length is returned; the connection is marked closed if the kernel's first answer, to what is buffered, is OtherError or Eintr or the blocking flush ends in OtherError, and otherwise not; when the first answer takes bytes, those are taken of the buffer, or of the data if nothing is buffered |
| Conn.PkConn.ReportProgress | libpagekite/pkconn.c:402-415 | the reported kilobytes never exceed what the kernel took and lag it by less than 16 |
| Conn.PkConn.WriteChunked | libpagekite/pkmanager.c:390-411 | header and data stay contiguous: the stream grows by a prefix of the whole frame, by nothing or by at least the header, and by all of it if and only if it succeeds; by name of the errors, exactly when a failure marks the connection closed; the byte behind the buffer is overwritten if and only if the header just fits |
| Conn.HeaderOverruns | libpagekite/pkmanager.c:401-408 | for every stream id and data, a buffer filled up to the length of the header has the byte behind it overwritten |
| EndToEnd.Frontend.Readable | libpagekite/pkmanager.c:724-754 | as much is read as there is place for, and everything that waits is written: if that succeeds nothing waits, otherwise all of it waits, for a reason that the kernel gave; the stream grows by the whole chunk, by nothing, or ends inside the chunk |
| EndToEnd.ReadSays | libpagekite/pkconn.c:280-305 | a read takes all that is there, up to what 16 kilobytes leave free; nothing at the end or after an error |
| EndToEnd.ReadTurnSays | libpagekite/pkmanager.c:724-746 | a turn that reads something writes it behind what waited; nothing waits when all of that frame was written, else all of it does |
| EndToEnd.NoReadTurnSays | libpagekite/pkmanager.c:724-746 | the end of the data writes nothing, and an error writes what waited |
| EndToEnd.Frontend.Run | libpagekite/pkmanager.c:724-754 | over any run of reads, other frames and flushes, until the connection is marked closed, torn frames or not: every turn does just that to what was read, written and waits, the stream is the written parts of all frames in order, and all data that was read was written whole or waits |
| EndToEnd.Reported | libpagekite/pkproto.c:244-380 | whatever part of such a stream arrives, in whatever pieces: what was written before the first torn frame is reported first and in order, and nothing else before that is complete |
| EndToEnd.MadeUp | libpagekite/pkmanager.c:739-746 | when the first torn frame of a run is a chunk and enough is written behind it, the remote end reports a chunk that nobody wrote: the part that went out, filled up with the bytes of later frames |
| Items.Delivery | libpagekite/pkproto.c:244-380 | whatever part of a stream of data, EOF, SKB, ping and pong frames arrives, in whatever pieces, the remote parser reports exactly what was written, in order, and all of it when all of it arrives |
| EndToEnd.Transfer | libpagekite/pkmanager.c:724-754 | the same from the writing callbacks, over any run of them, through any network to the parsing object |
| Torn.TornInLengthLine | libpagekite/pkproto.c:131-155 | any frame cut inside its length line, and then the next one: the remote end has exactly the frames written whole and is idle if and only if nothing of the torn one went out, or its digits and the CR did and the next body is of the same length and fits with them |
| Torn.TornPingArrives | libpagekite/pkproto.c:493-496 | a ping of which three bytes went out, and then a whole ping: just that one arrives |
| Torn.TornBehindLengthLine | libpagekite/pkproto.c:131-155 | a frame cut right behind its length line, and then the next one: that does not arrive as it was written |
| Torn.TornIsFilledUp | libpagekite/pkproto.c:281-323 | any frame cut anywhere, and enough of anything behind it: if the frame that is made up with that is well-formed, its message is reported behind those of the frames written whole |
| Torn.TornIsAnError | libpagekite/pkproto.c:281-323 | and if it is not, the remote end is not idle without an error |
| Torn.TornChunkIsFilledUp | libpagekite/pkmanager.c:739-746 | the missing data of a torn chunk is made up from whatever is written next, however it goes on |
| Torn.TornOrNot | libpagekite/pkmanager.c:739-746 | a chunk cut behind its header, as the front end cuts it, and then the next item: the remote end has exactly the items written whole and is idle if and only if nothing of the chunk went out |
| EndToEnd.TornUnmarked | libpagekite/pkconn.c:438-470 | a chunk that needs more than the buffer, and a kernel that would block: the write fails with the header taken and the connection unmarked |
| Locks.Always | libpagekite/pkmanager.c:86-151 | the lock ownership invariant holds in every state of every run, for any number of threads |
| Locks.LoopIsIdle | libpagekite/pkmanager.c:105-138 | while a thread is between pkm_block and pkm_unblock the event loop is idle and no other thread is there |
| Locks.WaiterIsExpected | libpagekite/pkmanager.c:118-126 | a thread waiting in pkm_interrupt has a wake-up on its way, or the main thread has let go of the loop and cannot pass the interrupt lock |
| Locks.HandOver | libpagekite/pkmanager.c:101-117 | the interrupt callback resumes only after the thread that held the interrupt lock has had the loop lock and given it back |
| Locks.SomeoneMoves | libpagekite/pkmanager.c:86-151 | deadlock freedom: in every reachable state some thread can move by itself unless all are home |
| Locks.ComesToRest | libpagekite/pkblocker.c:736-793 | from every reachable state there is a continuation without new work in which every thread gets its locks and comes home |
| Locks.BackwardsDeadlocks | libpagekite/pkmanager.c:905-908 | taking the loop lock before the config lock reaches a state in which nobody can ever move |
| Streams.UpdateSettles | libpagekite/pkmanager.c:448-577 | one update brings a stream to rest, a second one changes nothing, and the stream is freed exactly when both directions are gone |
| Streams.StepKeeps | libpagekite/pkmanager.c:166-784 | every callback leaves every stream at rest, and no slot goes back in time |
| Streams.OverOneAllocation | libpagekite/pkmanager.c:456-577 | in every run of the callbacks from an empty table, over one allocation of a slot: closed directions never reopen, one EOF of each kind at most, both directions closed means freed; every byte of its chunks was taken by the kernel, waits or was thrown away, and exactly as many were thrown away as its evictions, failures, closings and failed writes account for; and the backlog bound holds if acknowledgements do not go back |
| Streams.StepLoses | libpagekite/pkmanager.c:166-784 | how many bytes each callback throws away, for each kind of callback |
| Streams.ChunkLoses | libpagekite/pkmanager.c:215-223 | of a chunk's data that is lost which `pkc_write` does not take, whatever it returns, and, if the stream is closed for writing then, what it leaves in the buffer; nothing else |
| Backends.Backend.Chunk | libpagekite/pkmanager.c:215-218 | the chunk callback with the write itself: data is lost if and only if the write failed, for a reason that the kernel gave, or the connection is closed for writing with something left; as long as nothing was lost, what the kernel took and what waits are the data of all chunks in order |
| Backends.Backend.Writable | libpagekite/pkmanager.c:756-784 | flushing keeps that; what it cannot flush is lost if and only if that closes the connection |
| Backends.Hole | libpagekite/pkmanager.c:215-218 | three chunks for a backend that takes nothing, the first and third of which fit: the second is lost and the stream stays open with the other two |
| Streams.GoneClosesGracefully | libpagekite/pkmanager.c:532-545 | a tunnel that goes down closes its streams for reading and frees them, except those with output left, which keep it |
| Streams.BlockingStopsReading | libpagekite/pkmanager.c:579-617 | a blocked tunnel stops the reading of its streams, an unblocked one starts it for those within their window |
| Streams.ReadIsSound | libpagekite/pkconn.c:285-305 | a read of a watched connection keeps read_kb within sent_kb + 384 + 16 |
| Streams.FlushIsSound | libpagekite/pkmanager.c:756-784 | flushing keeps a stream in order |
| Streams.LoadIsSound | libpagekite/pkmanager.c:222-242 | so does whatever payload a chunk brings |
| Streams.AckIsSound | libpagekite/pkmanager.c:245-276 | and whatever it acknowledges; the window stays between 4 and 384 |
| Streams.ShrinkingIsSafe | libpagekite/pkmanager.c:250-253 | neither shrink step of the window wraps in size_t arithmetic |
| Streams.AckAheadOpensWindow | libpagekite/pkmanager.c:255-270 | an acknowledgement ahead of what was read makes a negative size_t and with it the largest window |
| Streams.AckGoingBackBreaksBound | libpagekite/pkmanager.c:255-256 | a concrete acknowledgement that goes back breaks the backlog bound |
| Streams.Manager.ParseEof | libpagekite/pkmanager.c:637-665 | the letters R and W, either case, or both directions if there is neither |
| Streams.Manager.Settle | libpagekite/pkmanager.c:448-577 | the two halves and the clean-up come to the specified new state, and one EOF frame is sent for what was closed and not known to be, with just those directions |
| Streams.Manager.UpdateIo | libpagekite/pkmanager.c:413-577 | started at depth 0 it never takes the branch for too much recursion, updates exactly one stream or does to every stream of the tunnel what its state calls for, sends no EOF but that of the one stream, and keeps the live stream count |
| Streams.Manager.UpdateTunnel | libpagekite/pkmanager.c:440-572 | a tunnel's own connection, flag by flag (one that cannot be read is not written either), with every other tunnel as it was; it is closed and reset exactly if it cannot be read |
| Callbacks.NoTunnel | libpagekite/pkmanager.c:445-446 | a tunnel that is not connected does nothing to streams |
| Streams.Manager.EndStreams | libpagekite/pkmanager.c:532-545 | every stream of the tunnel and no other is closed and updated |
| Streams.Manager.FlowControlTunnel | libpagekite/pkmanager.c:579-617 | every stream of the tunnel whose blocking changes, and no other, is throttled and updated |
| Streams.Manager.StreamReadable | libpagekite/pkmanager.c:724-754 | the read callback: counters and state, and an EOF for reading is sent at the end of the data, one for what was open after an error, and none else |
| Streams.Manager.StreamWritable | libpagekite/pkmanager.c:756-784 | the write callback: a failed flush sends an EOF for writing, unless the peer ended that, and nothing else does |
| Streams.Manager.Chunk | libpagekite/pkmanager.c:166-277 | the chunk callback for a stream that exists, whatever its write takes, leaves and fails to take; an EOF is not answered, and only a write that fails is reported, by an EOF for writing |
| Streams.Manager.TunnelEvent | libpagekite/pkmanager.c:667-722 | the tunnel's callbacks, which send no EOFs |
| Streams.Manager.FindSlot | libpagekite/pkmanager.c:1478-1500 | the first free slot from the hash of the stream id on, or else the slot with the least activity that is not being changed or listened on, and of equals the last one looked at |
| Streams.Manager.Connect | libpagekite/pkmanager.c:1460-1525 | a new stream gets that free slot, otherwise that of the idlest stream if eviction is on and it has been idle for longer than the limit, which is closed and freed first and says so in an EOF for each direction that was open, otherwise none; every other stream is untouched |
| Callbacks.UpdateSays | libpagekite/pkmanager.c:448-577 | what an update makes of a stream, flag by flag: freed if and only if both directions are gone, else watched for reading exactly if it may be read and for writing exactly if something waits |
| Callbacks.RestSays | libpagekite/pkmanager.c:448-527 | and so it is between any two callbacks |
| Callbacks.EofReadEndsWriting | libpagekite/pkmanager.c:657-664 | an EOF text with an R and no W: the backend is written no more, once what waits was written, and is still read as before |
| Callbacks.EofWriteEndsReading | libpagekite/pkmanager.c:657-659 | one with a W and no R: the backend is read no more; what waits is still written, and more may come |
| Callbacks.EofEndsBoth | libpagekite/pkmanager.c:653-664 | both letters or neither: both end, and the stream is kept only until what waits was written |
| Callbacks.DataEndsNothing | libpagekite/pkmanager.c:215-218 | a chunk of data leaves both directions as they were, unless its write fails for good; then the stream is closed for writing and is still read |
| Callbacks.ReadCounts | libpagekite/pkconn.c:285-305 | what is read of a backend is counted to the byte, and it is read on exactly while it is within its window |
| Callbacks.ReadEnds | libpagekite/pkmanager.c:724-754 | the end of the data ends reading and sends one EOF of that kind, an error ends both, a read that would block ends nothing |
| Callbacks.FlushSays | libpagekite/pkmanager.c:756-784 | what was flushed no longer waits; a stream that only waited for that is closed for writing |
| Callbacks.WindowSays | libpagekite/pkmanager.c:250-274 | an acknowledgement moves the window up by one to 384 at most, a request to slow down takes off a fifth and one, down to 4 at least, nothing leaves it alone; sent_kb is what was acknowledged |
| Callbacks.FirstAckSays | libpagekite/pkmanager.c:257-260 | the first acknowledgement sets the window to what is on its way and an eighth more, within 4 and 384 |
| Callbacks.BlockedTunnel | libpagekite/pkmanager.c:579-617 | a tunnel with output waiting: none of its streams is read, and those that were not blocked lose a third and one of their windows |
| Callbacks.FreeTunnel | libpagekite/pkmanager.c:579-617 | one without: they are read again within their windows |
| Callbacks.LostTunnel | libpagekite/pkmanager.c:532-545 | one that just ended: its streams are closed for reading and kept exactly while something is to be written to their backends |
| Callbacks.OtherTunnel | libpagekite/pkmanager.c:532-617 | the streams of other tunnels are left alone |
| Callbacks.NewSays | libpagekite/pkconn.c:38-60 | a new stream is read from the start, with a window of 128 |
| Callbacks.FirstFreeSays | libpagekite/pkmanager.c:1480-1491 | the slot taken is free, and those looked at before it, from the hash on and around the table, are not |
| Callbacks.IdlestSays | libpagekite/pkmanager.c:1492-1496 | the idlest stream is not pinned, no other such was idle longer, and none behind it as long |
| Callbacks.EvictionSays | libpagekite/pkmanager.c:1500-1519 | the idlest stream is evicted if there is a limit and it was idle for longer, and not otherwise |
| Dict.PkDict.FoundIsThere | libpagekite/pkutils.c:868-884 | a probe of the window finds a key if and only if it is in the table, and then a pair that is there |
| Dict.PkDict.FoundIsFirst | libpagekite/pkutils.c:874-883 | of several pairs with one key it is the first one in the key's window of slots, counted around the end of the table |
| Dict.PkDict.NotInWindow | libpagekite/pkutils.c:874-883 | a key absent from its window is absent from the table |
| Dict.PkDict.SetSize | libpagekite/pkutils.c:751-759 | an empty valid table of the size asked for |
| Dict.PkDict.AddTo | libpagekite/pkutils.c:886-900 | adds exactly one pair if and only if a slot of the window is free |
| Dict.PkDict.Rehash | libpagekite/pkutils.c:818-825 | every pair of the old table is in the new one, once |
| Dict.PkDict.Resize | libpagekite/pkutils.c:800-852 | the same multiset of pairs in another size, with the mark for shrinking at a fifth of the size or two thirds of the count, or the exact old table; within its size limits it fails only for want of memory or because a pair met a full window |
| Dict.PkDict.Find | libpagekite/pkutils.c:868-884 | NULL if and only if the key is absent |
| Dict.PkDict.Add | libpagekite/pkutils.c:902-922 | one pair more, or the same pairs as before. With the key copied it is added unless the window is full and the next larger table is not allowed, or not to be had, or could not take over some pair, or has the key's own window full; the size doubles if and only if the window was full |
| Dict.PkDict.Remove | libpagekite/pkutils.c:924-950 | takes out exactly the pair that a find would have returned, and halves a large table with fewer pairs than its mark unless no smaller one can be had, or else puts the mark down by a fifth |
| Dict.PkDict.Shrink | libpagekite/pkutils.c:939-943 | halves a mostly empty table or puts the next attempt off, with the same pairs |
| Dict.WalkIs | libpagekite/pkutils.c:874-883 | the window of a key is counted around the end of the table |
| Dict.TableSizes | libpagekite/pkutils.c:751-759 | a table of bits n has two to the n slots, 1024 for the default of ten |
| Heap.MoveHole | libpagekite/libev/ev.c:1979-1986 | moving an entry into the hole keeps back-indices and cached deadlines in agreement |
| Heap.HoleUp | libpagekite/libev/ev.c:2031-2041 | moving the hole to a later parent keeps the order |
| Heap.HoleDown | libpagekite/libev/ev.c:1976-1983 | moving it to its earliest child, if that is earlier, keeps the order |
| Heap.TimerHeap.UpHeap | libpagekite/libev/ev.c:2025-2045 | restores the order of the first m entries and the back-indices; no timer is started, stopped or rescheduled |
| Heap.TimerHeap.MinChild | libpagekite/libev/ev.c:1958-1974 | the first of the earliest of up to four children, on both paths |
| Heap.TimerHeap.DownHeap | libpagekite/libev/ev.c:1945-1987 | restores heap order and back-indices |
| Heap.TimerHeap.AdjustHeap | libpagekite/libev/ev.c:2047-2055 | mends the heap around an entry with any deadline |
| Heap.TimerHeap.ReHeap | libpagekite/libev/ev.c:2057-2067 | makes a heap of entries in any order |
| Heap.TimerHeap.Start | libpagekite/libev/ev.c:3579-3601 | adds one timer with an absolute deadline and moves the others; verify_heap's conditions hold |
| Heap.TimerHeap.Stop | libpagekite/libev/ev.c:3604-3631 | removes one timer from any position, with the rest still a heap |
| Heap.TimerHeap.Again | libpagekite/libev/ev.c:3634-3658 | restarts a repeating timer, stops any other |
| Heap.TimerHeap.RootIsEarliest | libpagekite/libev/ev.c:2808-2821 | no running timer has an earlier deadline than the root |
| Pending.OnePlace | libpagekite/libev/ev.c:2800-2806 | a watcher is in one place of the queues at most, and in none when it is not pending |
| Pending.ChangedSays | libpagekite/libev/ev.c:1691-1708 | what a change to one watcher's events means in the queues: it waits with just those, and every other as before |
| Pending.PopDelivers | libpagekite/libev/ev.c:2989-2995 | taking the last event of a queue delivers the next callback |
| Pending.Pendings.Feed | libpagekite/libev/ev.c:1691-1708 | a watcher's events become the OR of all that was fed; no other watcher is affected |
| Pending.Pendings.Clear | libpagekite/libev/ev.c:3492-3506 | returns and forgets the events; the watcher is in no queue any more |
| Pending.Pendings.InvokeOne | libpagekite/libev/ev.c:2991-2994 | calls a watcher with all of its events while nothing of higher priority is pending |
| Pending.Pendings.InvokePending | libpagekite/libev/ev.c:2980-2998 | leaves nothing pending, never calls back while an event of higher priority waits even if callbacks feed more, and delivers each watcher that they neither feed nor clear once, by priority and last fed first |
| Timers.FireNext | libpagekite/libev/ev.c:3033-3057 | firing the earliest due timer keeps what fired in deadline order and complete up to there |
| Timers.FiringSays | libpagekite/libev/ev.c:3033-3057 | a timer that fired was running and its deadline was before now; it is stopped if it does not repeat, and else runs again one period later but not in the past; any other is as it was |
| Timers.TwoReversals | libpagekite/libev/ev.c:1710-1723 | feeding a list from its end and popping from the end calls back in list order |
| Timers.EvLoop.FireRoot | libpagekite/libev/ev.c:3035-3055 | the earliest timer is rescheduled to no earlier than now, or stopped |
| Timers.EvLoop.FireAll | libpagekite/libev/ev.c:3031-3057 | the loop ends when nothing is due |
| Timers.EvLoop.TimersReify | libpagekite/libev/ev.c:3026-3061 | exactly the timers whose deadline is before now fire, each once, in deadline order, and are queued for their priorities; the pending events of all other watchers stay |
| Timers.EvLoop.ExpireTimers | libpagekite/libev/ev.c:3378-3394 | whatever is pending already, the due timers that are not are called back once each, by priority and within one priority in deadline order, and before what was queued for that priority, which is unchanged for every watcher that did not fire; for any set of watchers that the callbacks neither feed nor clear, whatever they do to others |
| Timers.EvLoop.TimerStop | libpagekite/libev/ev.c:3604-3631 | stops the timer and forgets its pending event |
| Timers.EvLoop.TimerStart | libpagekite/libev/ev.c:3579-3601 | starts it |
| Timers.EvLoop.TimerAgain | libpagekite/libev/ev.c:3634-3658 | restarts or stops it and forgets its pending event |
| Sha1.ProcessAppend | libpagekite/pd_sha1.c:200-207 | hashing blocks in two stretches is hashing them in one |
| Sha1.SwapLoad | libpagekite/pd_sha1.c:89-90 | the byte swap turns a little-endian load into the big-endian word |
| Sha1.MacroFIsF | libpagekite/pd_sha1.c:96-100 | the macros' bit tricks are Ch, Parity and Maj |
| Sha1.LateStep | libpagekite/pd_sha1.c:92-93 | the 16-word circular schedule (section 6.1.3 of FIPS 180-4) gives the 80 words of section 6.1.2 |
| Sha1.AllRounds | libpagekite/pd_sha1.c:141-161 | the unrolled rounds with renamed registers are the 80 rounds of section 6.1.2 |
| Sha1.Transform | libpagekite/pd_sha1.c:117-172 | one block is compressed as the standard says, even though its bytes are overwritten |
| Sha1.Context.CountBits | libpagekite/pd_sha1.c:198-199 | after an update of any size the low half of the bit count is right, and the high half if and only if the update has less than 2^29 bytes or there is a carry between the halves |
| Sha1.Context.Update | libpagekite/pd_sha1.c:189-214 | the context stands for all bytes so far, for any update of less than 2^29 bytes |
| Sha1.Context.Pad | libpagekite/pd_sha1.c:223-231 | the padding loop ends with the padding of section 5.1.1 |
| Sha1.Context.Final | libpagekite/pd_sha1.c:218-242 | the digest is the SHA-1 of everything that was handed over, and the context is wiped |
| Sha1.Hash | libpagekite/sha1_test.c:117-120 | so it is the same for every way of cutting the message up |
| Vectors.Digest | libpagekite/sha1_test.c:71-90 | the digest of "abc" is the one that the standard and the test give |
| Vectors.HashAbc | libpagekite/sha1_test.c:117-120 | and the program computes it, whatever the pieces |
| LogRing.DataDrop | libpagekite/pkstate.c:76-86 | moving the start drops text from the front, around the end of the ring |
| LogRing.CopyAround | libpagekite/pkstate.c:96-103 | a copy in two pieces appends |
| LogRing.CopyStraight | libpagekite/pkstate.c:104-108 | a copy in one piece appends |
| LogRing.RoomIsMade | libpagekite/pkstate.c:70-87 | drops text up to the first line that starts behind the room needed, and never the last message |
| LogRing.GoodStep | libpagekite/pkstate.c:61-116 | a line shorter than a third of the ring: no copy leaves the ring, and the line is appended to what is kept, a suffix of the whole history from the start of a line on |
| LogRing.ThreeLinesOverrun | libpagekite/pkstate.c:70-108 | three lines of any one length of which two fit and three do not: after making room the ring looks empty in its middle, and the third copy leaves it or overwrites the NUL at its end |
| LogRing.BoundIsExact | libpagekite/pkstate.c:61-116 | runs over lines of n bytes at most all stay inside the ring if and only if n + 1 is less than a third of it |
| LogRing.Ring.LogCopy | libpagekite/pkstate.c:61-116 | for any text and any ring, refines the step function, and says if the copy leaves the ring; with good lines it appends as above |
| LogRing.Ring.CopyLog | libpagekite/pkstate.c:119-126 | the snapshot is exactly that text: the whole history, or what follows a newline of it |
| Relays.ShunnedAreAvoided | libpagekite/pkblocker.c:168-210 | a rejecting or lame relay is wanted only if all are and none is in DNS |
| Relays.FastSays | libpagekite/pkblocker.c:118-143 | a fast relay is settled, measured and not shunned, and no other such relay is cheaper, where each error costs 25 units of priority |
| Relays.FastCount | libpagekite/pkblocker.c:117-143 | there are as many as asked for, or all that could be |
| Relays.NormalSays | libpagekite/pkblocker.c:145-180 | normally a relay is wanted exactly if it is nailed up or fast and not shunned; that is so if there is such a one or one in DNS |
| Relays.NormalNeedsOne | libpagekite/pkblocker.c:177-180 | and only then |
| Relays.FallbackSays | libpagekite/pkblocker.c:182-211 | otherwise the first one not shunned, alone; if there is none, those that are connected |
| Relays.Chooser.Cheapest | libpagekite/pkblocker.c:118-143 | one round picks the first of the cheapest eligible relays that are not fast yet |
| Relays.Chooser.ChooseFastest | libpagekite/pkblocker.c:117-143 | spares + 1 relays are fast, or all eligible ones, and none left out costs less, or as much and comes first |
| Relays.Chooser.Choose | libpagekite/pkblocker.c:103-215 | that, and who is wanted at each level of fallback |
| Disconnect.LeftOver | libpagekite/pkmanager.c:1034-1038 | closing the unused tunnels leaves the other live ones |
| Disconnect.ClosedSays | libpagekite/pkmanager.c:984-1030 | a tunnel is closed if and only if it is up, not wanted, not in DNS, had only pings in the window, and no stream with a socket uses it |
| Disconnect.CountedIs | libpagekite/pkmanager.c:1034-1038 | the number recorded is that of the tunnels that are up |
| Disconnect.Disconnector.Pass | libpagekite/pkmanager.c:978-1032 | both passes agree on which tunnels are unused |
| Disconnect.Disconnector.DisconnectUnused | libpagekite/pkmanager.c:961-1041 | closes all unused tunnels if some live one is in use, else none; one that is wanted, in DNS, changing or carrying a stream stays as it is; a live tunnel remains if there was one, and the recorded count is the number left |
| Events.NumberFinds | libpagekite/pkhooks.c:80-81 | the index taken from a slot's code is the slot's |
| Events.RunKeepsNumbers | libpagekite/pkhooks.c:119-360 | in every run, through all the masking of codes, slot i keeps slot number i |
| Events.PostKeepsClaims | libpagekite/pkhooks.c:153-181 | a post leaves every claimed event as it was if and only if some slot is open or slot 1 is not claimed |
| Events.ClaimHolds | libpagekite/pkhooks.c:134-360 | in every run, until its claim is ended a claimed event stays as it is if and only if every post in between finds an open slot or the event is not in slot 1; then it is not given out again either |
| Events.ClaimCanBeLost | libpagekite/pkhooks.c:84-181 | for any number of threads, a run from the new table in which a post overwrites a claimed event |
| Events.EventTable.Oldest | libpagekite/pkhooks.c:134-151 | the first of the oldest slots that are not excluded |
| Events.EventTable.Place | libpagekite/pkhooks.c:153-181 | takes the first of the oldest open slots, or slot 1, and keeps its number |
| Events.EventTable.Post | libpagekite/pkhooks.c:198-219 | does that if and only if the mask is the one for all events or has a bit of the event's type |
| Events.EventTable.Await | libpagekite/pkhooks.c:267-288 | claims the oldest unclaimed event, if there is one |
| Events.EventTable.Respond | libpagekite/pkhooks.c:307-344 | the answer, for each kind of event |
| Events.EventTable.Free | libpagekite/pkhooks.c:119-132 | the slot is empty and keeps its number |
| Events.EventTable.CancelAll | libpagekite/pkhooks.c:346-360 | every waiting event is answered, and no other |
| EventLife.PostSays | libpagekite/pkhooks.c:153-181 | a post sets type, flag, time and contents, keeps the slot number and nothing else, and the event waits |
| EventLife.PostChooses | libpagekite/pkhooks.c:134-164 | in the first of the oldest slots that are neither blocking nor claimed, or slot 1 |
| EventLife.AwaitSays | libpagekite/pkhooks.c:267-288 | a claim is of the first of the oldest events that wait, sets that flag and nothing else, and the event waits no longer |
| EventLife.AnswerOpens | libpagekite/pkhooks.c:324-325 | an answered event that blocks nobody has nothing posted and its slot is open |
| EventLife.AnswerIsKept | libpagekite/pkhooks.c:329-343 | one that blocks its poster carries the answer, and stays claimed |
| EventLife.AnswerWaits | libpagekite/pkhooks.c:307-344 | in every run the answer is there until the event is freed, answered again, or overwritten in slot 1 |
| EventLife.ShutdownStays | libpagekite/pkhooks.c:316-323 | a shutdown event stays as it is |
| EventLife.FreeSays | libpagekite/pkhooks.c:119-132 | a freed slot is open, empty and keeps its number |
| EventLife.CancelSays | libpagekite/pkhooks.c:346-360 | a cancelled event is as if it had been claimed and answered; the others stay |
| EventLife.AnsweredOnce | libpagekite/pkhooks.c:267-344 | in every run an answered event is not given out again before something is posted in its slot |
| EventLife.CancelledOnce | libpagekite/pkhooks.c:267-360 | and after a cancellation nothing is given out that was not posted later |
| EventLife.NotAwaitedAgain | libpagekite/pkhooks.c:267-288 | nor is any event that does not wait |

## Left out

- Parser.PkParser.Parse: once an error among leftovers was ignored (pkproto.c:332) or a negative length was declared, only the accounting is stated, and that what was reported before comes first, not what is reported after it.
- Parser.PkParser.ParseNewData: a declared length that overflows an int with its header stops the model's parser with an outcome of its own.
- SplitInvariance.PrefixDelivery: of a frame whose data is still incomplete the EOF header is not compared, as the callbacks report it on some fragments only.
- Conn.PkConn.Write: connections with TLS, and the write of a non-empty buffer that takes nothing and fails with nothing, are not modelled; the kernel interrupts finitely often.
- Conn.PkConn.ReportProgress: the 256-byte scratch buffer and the int that %d prints are taken as large enough.
- Torn.TornIsFilledUp: what the remote end makes of the rest, behind a frame that was made up, is not stated.
- Streams.Manager.UpdateIo: a socket numbered 0 is not modelled, and other threads that run during a yield change tunnels at will but no streams.
- Streams.Manager.Settle: of what is written to a tunnel only the EOF frames are observed; progress reports are in Conn alone, and the data that a read brings in EndToEnd.
- Streams.Manager.Chunk: the int sum `window_kb + window_kb / 8` is taken without overflow; hooks are not modelled.
- Streams.Manager.FindSlot: the activity and status of the slots are parameters; the unsigned sum of slot and hash is taken without wrapping; `pkm_find_be_conn` is left out.
- Sha1.Context.Update: a single update of 2^29 bytes or more is not followed further than its bit count.
- Sha1.AllRounds: the eighty unrolled lines are sixteen turns of a loop over the five register names; the big-endian machine is left out, and so is what exactly the overwritten block holds.
- Timers.EvLoop.ExpireTimers: callbacks that start or stop timers, and the order of the watchers that callbacks feed or clear.
- Backends.Backend.Chunk: hooks that keep a chunk's data from being written; reads and tunnel events of the same stream are in Streams only.
- Heap.TimerHeap.Stop: the timer is unmarked before the heap is mended instead of after; times are integers, and timers and watchers are numbers in arrays instead of pointers.
- LogRing.Ring.LogCopy: what is kept is stated for messages without NUL, not only of newlines, and shorter than a third of the ring; a copy that leaves the ring ends the model.
- Events.EventTable.Await: condition variables and time-outs; each operation is one step, although answers and cancellation take no lock.
- Dict.PkDict.Remove: `pk_dict_rm_val`, which goes on over a table that a resize freed; the memory of the keys; a first allocation that fails.
- Relays.Chooser.Choose: the random jitter and the measurements behind the priorities.
- Locks: libev's own wake-up pipe, and the watchdog and job pile locks.
- Chunks.FormatChunk: the scratch space is not an array; what is written behind it is counted and otherwise ignored.
- Fields.SkbLine: on machines with a 32-bit size_t the number has 32 bits.
- Kite requests, signatures, DNS, HTTP forwarding headers, quotas in global state, the unfinished relay, language bindings.
- Idle, periodic, I/O, signal and child watchers of libev, and its back ends.
