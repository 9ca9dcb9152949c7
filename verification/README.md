# Verified model of the Exasol R package's data channel

The package moves bulk data between R and an Exasol database over a second connection: R asks the
database to export to, or import from, an HTTP endpoint that the package itself serves on a socket, while a
background thread executes the ODBC statement. This project models that channel in Dafny, together with
the calendar arithmetic of the date library it vendors and the cursor of its query results, and proves what
they promise. `dafny verify dfyconfig.toml` checks everything.

## What is modelled

**The data channel.** `Network` holds the socket: what the peer will still send, how much of each coming
send the network takes, what has been delivered, and which directions are open. Plain TCP reads hand over
what came before the end; TLS reads are all or nothing and are built, as in the source, from fragments whose
sizes the TLS layer picks freely. `ChunkDecoder` gives the HTTP chunk reader as functions on its whole state,
buffer included; `HttpChunkReader` is the imperative reader over the shared array and proves every method
equal to its function. On that rest the theorems about whole runs: `ChunkCoding` (the chunked coding of
section 7.1 of RFC 9112 with any numeral, leading zeros and chunk extensions), `ReaderRuns` (what any calls
deliver from a complete or a cut message), `ReaderEnd` (the end of the stream and what callers can tell),
`ReaderAnswers` (what the sender is told, for any input). `WriterModel`, `HttpChunkWriter` and `WriterRuns` do
the same for the writer, on networks where all sends succeed and on any network. `HttpHeader` is the header
scan (section 2.1 of RFC 9112), and `HttpAnswers` applies it to what the package itself sends.

**The transfer protocol.** `TransferProtocol` is a step machine of two threads and a peer: R's main thread,
which runs the calls of `exa.readData` and `exa.writeData` over the connection context and controller; the
query thread; and the database node, for which the main thread waits when it receives the header and in
every portion of the transfer, unless that direction of the connection is shut. A schedule is any list of
steps with the environment's choices: the transport is plain or TLS, foreign calls fail or succeed, the error
handler (R's `error`) returns or skips the rest of the call, a portion of the transfer hangs up or not, a query
may have to wait until the peer sees the connection closed and may fail before that, the peer may stay silent
for good. The two directions of the connection and what each shutdown does to them are those of `Network`;
`TransferLink` proves that a portion does to them what a call of the reader or writer does. `TransferSafety`
proves the invariant and what follows for all schedules, `TransferExamples` follows some to their end.

**The calendar.** `Calendar`, `CalendarArithmetic` and `IsoWeek` model day numbers, dates, weekdays, months,
dates named by weekday, and ISO 8601 weeks, with C's truncating division and unsigned wraparound written
out. The references they are compared with are the calendar successor, Euclidean remainders, and the count
of Thursdays.

**The result cursor.** `ResultCursor` models fetching in portions from a persisted result and clearing it, in
any order.

## Results worth knowing

Where the code does less than one would expect, the model keeps the code and states exactly when it does
meet the expectation:

- `fgetc` returns a signed char, so byte 0xFF looks like the end. A caller that stops at -1 gets the whole
  payload exactly when no byte of it is 0xFF (`ReaderEnd.FgetcLoop`, instance `ReaderEnd.FFExample`).
- After a `pipe_read` that met the end with some bytes but not all it asked for, the read position has not
  moved: a further `pipe_read` of m bytes delivers m bytes that the message does not hold exactly if that call
  had delivered at least m from the last chunk, and none exactly when it returned 0. They are that chunk again,
  with the last size line written over the head of the buffer (`ReaderEnd.ShortReadIsReplayed`, instance
  `ReaderEnd.ReplayExample`).
- `pipe_write` returns what it stored after its last flush; that is the size of the write exactly when the
  write fitted or followed a buffer that was just full (`WriterRuns.ReturnIsCountIff`, instance
  `WriterRuns.ResidueExample`).
- A plain TCP read that ends inside a chunk is accepted without its last two bytes if that leaves any; what is
  reported is still a prefix of the payload, and the end is never reported (`ReaderRuns.CutStreamIsSafe`, which
  says exactly what is delivered).
- `shutDown` is documented to say whether the transfer finished. It returns true also when the query failed
  and when there was nothing to stop, and false only if the query never started
  (`TransferSafety.ShutDownAfterExecute`, `TransferSafety.ShutDownResult`, instance
  `TransferExamples.TrueThoughFailed`).
- `onOdbcError` is there to release a main thread that waits for the peer. On TLS it does not once the reader
  has answered, with success or an error: that shut the write side, after which `closeSocket` does nothing,
  and R may read once more. With a silent peer a failed query releases the main thread if and only if the
  connection is plain or the reader's answer was not the first to shut it
  (`TransferSafety.FailedQueryUnblocks`, instance `TransferExamples.LostExample`).
- The main thread can be left waiting by a silent peer in two further ways: while the query waits for the
  connection to close, and after the query has succeeded (`TransferSafety.StuckOnlyOnPeer`, instance
  `TransferExamples.StuckExample`).

## Model

| member | source | states |
|---|---|---|
| ReaderRuns.DecodesPayload | src/r_exasol/connection/protocol/http/reader/http_chunk_reader.cpp:20-151 | decoding inverts encoding: for every message, transport, spelling of the size lines and sequence of `fgetc` and `pipe_read` calls, exactly the first bytes asked for are delivered, and the end is reported exactly when more was asked for than there is |
| ReaderRuns.DecodesBlocks | src/r_exasol/connection/protocol/http/reader/http_chunk_reader.cpp:20-151 | the same for a plain sender: any blocks of 1 to 524286 bytes, each written with its size in plain hexadecimal of either case, come back joined |
| ReaderRuns.CutStreamIsSafe | src/r_exasol/connection/protocol/http/reader/http_chunk_reader.cpp:33-94 | a message cut anywhere before its last size line is complete: what there is to read is exactly the chunks that arrived whole and, on plain TCP, all but the last two bytes of what came of the next; calls are served from that while it lasts, the first that asks for more fails, and the end is never reported |
| ReaderRuns.WithoutSocket | src/r_exasol/connection/protocol/http/reader/http_chunk_reader.cpp:28-31 | once the socket is gone, calls are served from the rest of the current chunk while it lasts and then fail; nothing is sent or received |
| ReaderRuns.EndMeansComplete | src/r_exasol/connection/protocol/http/reader/http_chunk_reader.cpp:96-151 | a caller that asks for everything is told the end if and only if the message arrived complete, and then has exactly the payload |
| ReaderRuns.PipeReadCounts | src/r_exasol/connection/protocol/http/reader/http_chunk_reader.cpp:129-142 | the return value is the number of whole items: all of them, fewer at the end of the stream, -1 on failure |
| ReaderEnd.FgetcForever | src/r_exasol/connection/protocol/http/reader/http_chunk_reader.cpp:144-151 | a client of `fgetc` alone gets each byte of the payload and then -1 on every later call, whatever follows the message on plain TCP, and with an empty or CRLF tail on TLS |
| ReaderEnd.FgetcLoop | src/r_exasol/connection/protocol/http/reader/http_chunk_reader.cpp:144-151 | reading until -1 yields the payload up to its first byte 0xFF, hence all of it if and only if it has none |
| ReaderEnd.FFExample | src/r_exasol/connection/protocol/http/reader/http_chunk_reader.cpp:150-150 | the message of the one byte 0xFF: the call that delivers it returns -1 |
| ReaderEnd.ShortReadIsReplayed | src/r_exasol/connection/protocol/http/reader/http_chunk_reader.cpp:96-119 | after the end, a further read of m bytes delivers m stale bytes if and only if the call that met the end had delivered at least m from the last chunk, and fails otherwise; they are the bytes of that chunk at the unmoved position, overwritten from the head of the buffer by the last size line; there are none exactly if that call returned 0 |
| ReaderEnd.ReplayExample | src/r_exasol/connection/protocol/http/reader/http_chunk_reader.cpp:110-119 | the message "A" read with a two-byte request and one more byte: the second call delivers the digit of the last size line |
| ReaderEnd.StartThenRead | src/r_exasol/connection/protocol/http/reader/http_chunk_reader.cpp:153-160 | header and body together: `start` skips exactly the request header, whatever follows it, and any calls then deliver exactly the payload |
| ReaderEnd.CompleteIsAcknowledged | src/r_exasol/connection/protocol/http/reader/http_chunk_reader.cpp:68-71 | reading a message tells the sender nothing until the end is met, then 200 OK once, and shuts the write side |
| ReaderAnswers.OneAnswer | src/r_exasol/connection/protocol/http/reader/http_chunk_reader.cpp:162-172 | for any input and any calls, also after the end, the peer gets at most one answer, and the input alone decides which: 200 OK if and only if the input, read as size lines and data from its start, comes to a size line of zero, which has then been consumed; the error answer otherwise; whole when sends succeed |
| ReaderAnswers.EncodedHasEnd | src/r_exasol/connection/protocol/http/reader/http_chunk_reader.cpp:33-86 | that reading of the input comes to its zero line exactly at the end of every encoded message |
| ChunkCoding.ScanHexOfLine | src/r_exasol/connection/protocol/http/reader/http_chunk_reader.cpp:63-66 | the size scan reads every numeral below 2^32, in either case and with leading zeros, and stops at a chunk extension |
| SizeLine.DigitValue | src/r_exasol/connection/protocol/http/reader/http_chunk_reader.cpp:63-66 | the value of a digit is its place in 0123456789abcdef or 0123456789ABCDEF |
| SizeLine.ScanHexForms | src/r_exasol/connection/protocol/http/reader/http_chunk_reader.cpp:63-66 | `sscanf` skips blanks, takes a sign, 0x or 0X and all the digits, and stops at the first other byte; the value is taken modulo 2^32, negated after a minus, and all ones beyond 64 bits |
| SizeLine.ScanHexRefuses | src/r_exasol/connection/protocol/http/reader/http_chunk_reader.cpp:63-66 | there is no number without a digit or a prefix |
| ChunkCoding.ReadsPiece | src/r_exasol/connection/protocol/http/reader/http_chunk_reader.cpp:77-86 | a complete chunk is loaded whole and the input behind it is untouched |
| ChunkCoding.ReadsCutPiece | src/r_exasol/connection/protocol/http/reader/http_chunk_reader.cpp:77-86 | a cut chunk is refused on TLS or with fewer than three bytes of its body; on plain TCP with more, exactly all but the last two of them are kept and the input is exhausted |
| ChunkCoding.OversizeRefused | src/r_exasol/connection/protocol/http/reader/http_chunk_reader.cpp:73-75 | a chunk of more than 524286 bytes is refused and its data left unread |
| ChunkCoding.LongSizeLineRefused | src/r_exasol/connection/protocol/http/reader/http_chunk_reader.cpp:33-54 | a size line without an end within 20 bytes is refused, and exactly these are consumed |
| ChunkDecoder.ReadNextChunk | src/r_exasol/connection/protocol/http/reader/http_chunk_reader.cpp:20-94 | for any input the buffer positions stay within 0 <= pos <= len <= MAX-2; a chunk is loaded at position 0 and consumes input; the end and errors leave the positions alone |
| ChunkDecoder.ChunkCounted | src/r_exasol/connection/protocol/http/reader/http_chunk_reader.cpp:82-86 | exactly a chunk that is loaded is counted, and a terminator follows its data |
| ChunkDecoder.WrappedSizeRefused | src/r_exasol/connection/protocol/http/reader/http_chunk_reader.cpp:73-80 | a size for which the 32-bit sum wraps around is refused |
| HttpChunkReader.HttpReader.constructor | src/r_exasol/connection/protocol/http/reader/http_chunk_reader.cpp:15-18 | a reader built on the shared buffer starts in the same state whatever earlier transfers left in it |
| HttpChunkReader.HttpReader.Start | src/r_exasol/connection/protocol/http/reader/http_chunk_reader.cpp:153-160 | succeeds exactly if the socket is there and the input starts with a header, and moves the input behind it |
| HttpChunkReader.HttpReader.ReadSizeLine | src/r_exasol/connection/protocol/http/reader/http_chunk_reader.cpp:33-54 | the byte-wise loop finds the size line within 20 bytes and leaves exactly its terminated text at the head of the buffer |
| HttpChunkReader.HttpReader.ReadNextChunk | src/r_exasol/connection/protocol/http/reader/http_chunk_reader.cpp:20-94 | the method changes buffer, positions, input and answers exactly as the function says, every array write in bounds |
| HttpChunkReader.HttpReader.ReadNext | src/r_exasol/connection/protocol/http/reader/http_chunk_reader.cpp:96-127 | the copy loop fills the caller's buffer with the bytes the recursive reading defines, across any number of chunks, and terminates |
| HttpChunkReader.HttpReader.PipeRead | src/r_exasol/connection/protocol/http/reader/http_chunk_reader.cpp:129-142 | refines the `pipe_read` function the run theorems are about |
| HttpChunkReader.HttpReader.Fgetc | src/r_exasol/connection/protocol/http/reader/http_chunk_reader.cpp:144-151 | refines the `fgetc` function the run theorems are about |
| HttpChunkReader.Chunk.Reset | src/r_exasol/connection/protocol/chunk.h:22-27 | all counters zero, every byte of the buffer zero |
| Network.Socket.RepeatingBufferFill | src/r_exasol/algorithm/repeating_buffer_fill.h:11-23 | for every fragmentation the loop ends, stores the next bytes of the stream in order, and succeeds exactly when there were enough for a non-empty buffer |
| Network.Socket.Receive | src/r_exasol/connection/socket/ssl_socket_impl.cpp:11-24 | a read over TLS equals one ideal all-or-nothing read, independent of record boundaries |
| Network.Socket.Transmit | src/r_exasol/connection/socket/socket_impl.cpp:25-32 | what the network takes is appended to what the peer received; nothing after the write side is shut |
| Network.RecvReturns | src/r_exasol/connection/socket/socket_impl.cpp:14-23 | a read from an open connection is short only at the end of the input; a plain one returns what came, one on TLS all or an error |
| Network.SendReturns | src/r_exasol/connection/socket/socket_impl.cpp:25-32 | a send returns how much of the data goes on the wire, and -1 if that is nothing |
| Network.Socket.CloseWr | src/r_exasol/connection/socket/socket_impl.cpp:34-38 | the write side is shut, and a plain socket also loses its handle for reading |
| Network.Socket.CloseRdWr | src/r_exasol/connection/socket/ssl_socket_impl.cpp:40-81 | both directions are shut, but on TLS only by the first shutdown of the socket |
| HttpHeader.ReadHttpHeader | src/r_exasol/connection/protocol/common.cpp:6-31 | consumes exactly the shortest prefix that is CRLF or ends in CRLF CRLF, with every line write in bounds; fails only at the end of the input or at a line without an end within 4095 bytes |
| HttpHeader.OneLineHeader | src/r_exasol/connection/protocol/common.cpp:6-31 | one line and an empty line are a header if and only if the line has at most 4095 bytes with its end |
| HttpAnswers.ReaderResponses | src/r_exasol/connection/protocol/http/reader/http_chunk_reader.cpp:22-25 | the two answers of the reader are each exactly one HTTP header, with status 200 and 404, that announces the end of the connection |
| HttpAnswers.WriterResponse | src/r_exasol/connection/protocol/http/writer/http_chunk_writer.cpp:16-21 | the text before the data is exactly one HTTP header with status 200 that announces the end of the connection |
| HttpAnswers.PeerReadsWritten | src/r_exasol/connection/protocol/http/writer/http_chunk_writer.cpp:15-96 | after any writes and a final flush, scanning the wire for a header finds that text and leaves exactly the bytes that were written |
| WriterRuns.WriterConserves | src/r_exasol/connection/protocol/http/writer/http_chunk_writer.cpp:15-96 | when sends succeed: after any writes and flushes the wire holds nothing or the header once and the flushed bytes, flushed and buffered bytes make up everything written, no call fails, and a final flush delivers all |
| WriterRuns.WriteBalanced | src/r_exasol/connection/protocol/http/writer/http_chunk_writer.cpp:61-87 | one write keeps the books; the number of full buffers it sends, the fill level it leaves and its return value follow a closed form in the start level and the length |
| WriterRuns.WriterOnAnyNetwork | src/r_exasol/connection/protocol/http/writer/http_chunk_writer.cpp:29-58 | whatever each send takes, either the books balance or the socket is shut and the wire holds a prefix of header and payload followed by the error answer, whole or cut at what the network takes of a send; if no call reported an error they balance, so no loss is silent |
| WriterRuns.EmptyBufferRefused | src/r_exasol/connection/protocol/http/writer/http_chunk_writer.cpp:35-37 | flushing an empty buffer is an error that the peer is told |
| WriterRuns.WriteWithoutSocket | src/r_exasol/connection/protocol/http/writer/http_chunk_writer.cpp:34-58 | once the socket is gone a write that fits is stored, every other call that has something to send fails, and nothing is sent |
| WriterRuns.ReturnIsCountIff | src/r_exasol/connection/protocol/http/writer/http_chunk_writer.cpp:67-79 | the return value is the size of the write if and only if it fitted the buffer or followed a buffer that was just full |
| WriterRuns.ResidueExample | src/r_exasol/connection/protocol/http/writer/http_chunk_writer.cpp:67-79 | a fresh writer handed one byte and then a full buffer's worth: both writes return 1, and all but one byte is on the wire |
| HttpChunkWriter.HttpWriter.constructor | src/r_exasol/connection/protocol/http/writer/http_chunk_writer.cpp:9-13 | a writer built on the shared buffer starts in the same state whatever earlier transfers left in it |
| HttpChunkWriter.HttpWriter.WriteNextChunk | src/r_exasol/connection/protocol/http/writer/http_chunk_writer.cpp:15-59 | refines the function: header before the first buffer only, error answer and shutdown on any short send |
| HttpChunkWriter.HttpWriter.PipeWrite | src/r_exasol/connection/protocol/http/writer/http_chunk_writer.cpp:61-87 | the loop refines the recursive function the run theorems are about, every array write in bounds, and terminates |
| HttpChunkWriter.HttpWriter.PipeFlush | src/r_exasol/connection/protocol/http/writer/http_chunk_writer.cpp:89-96 | refines the flush function the run theorems are about |
| TransferSafety.NeverBad | src/r_exasol/connection/connection_controller.cpp:14-99 | over all interleavings, failures and aborts of any number of transfers: no executor is replaced or dropped while its thread is joinable, no thread is started beside another, and the thread never uses an executor or controller that is gone |
| TransferSafety.ShutDownAfterExecute | src/r_exasol/connection/connection_controller.cpp:69-92 | from any successful `execute` to the next report of a shutdown, over every interleaving: the query has returned, `shutDown` returns true, and the error handler is called if and only if the query thread's own result was a failure |
| TransferSafety.ShutDownResult | src/r_exasol/connection/connection_controller.cpp:69-92 | when `shutDown` comes to report, socket, executor, reader and writer are released and no thread is left; without an executor it returns true and calls no handler, with one that never started it returns false |
| TransferSafety.AbortedShutDown | src/r_exasol/connection_context.cpp:52-68 | every reachable shutdown that a non-returning handler cuts off has released everything, and the R function goes on to no call that would set something up before the next shutdown |
| TransferSafety.SecondShutDownIsNoOp | src/r_exasol/connection/connection_controller.cpp:69-92 | from a shutdown that the handler cut off to the next report of one, over every interleaving and whichever R function comes next: it returns true, shuts and releases nothing, and calls no handler |
| TransferSafety.ConnectionIsBacked | src/r_exasol/connection_context.cpp:70-98 | R is handed a connection only while the socket, the executor and the matching reader or writer exist |
| TransferSafety.StartHandsOut | src/r_exasol/connection/connection_controller.cpp:24-31 | in every reachable state a start of the reader or the writer hands out a connection if and only if it succeeds, over a transfer fully set up, and changes nothing else; after a failure the R function goes on without one if the handler returns, and comes to its exit hook otherwise |
| TransferSafety.StartFails | src/r_exasol/connection/connection_controller.cpp:31-41 | a failure to connect, to find the socket or to prepare the query starts no thread, hands out nothing and changes nothing but the place in the R function |
| TransferSafety.TransferPortions | R/exa.readData.R:79-88 | each portion goes on to the next or ends the transfer, by the finishing call or, if the R function fails, by its exit hook; it may hang up and changes nothing else |
| TransferSafety.ReportGoesOn | src/r_exasol/connection/connection_controller.cpp:88-91 | the report leaves the call exactly if there is an error and the handler does not return |
| TransferSafety.DropEndsCall | src/r_exasol/connection_context.cpp:52-68 | at the end of every reachable shutdown connection and controller are dropped, and which call follows is fixed by the one that made it |
| TransferSafety.FailureShutsConnection | src/r_exasol/connection/connection_controller.cpp:94-99 | by the time the thread of a failed query is over, the peer sees the connection closed; the read side is shut too, except exactly on a TLS connection that the reader's answer was the first to shut |
| TransferSafety.NoThreadLeftBehind | R/exa.readData.R:56-88 | when the R function is over, normally or by an error at any point, no thread and no executor is left |
| TransferSafety.FailedQueryUnblocks | src/r_exasol/connection/connection_controller.cpp:94-99 | in every reachable wait for a silent peer after a failed query, and over every schedule with the query thread's last two steps in it, the main thread can go on if and only if the connection is plain or the reader's answer was not the first to shut it |
| TransferExamples.LostExample | src/r_exasol/connection/socket/ssl_socket_impl.cpp:73-81 | a run on TLS in which the reader answers, R reads once more and the query fails: the query thread is over and the main thread waits for good, whatever follows but the peer |
| TransferSafety.StuckOnlyOnPeer | src/r_exasol/connection/async_executor/async_executor_impl.h:31-77 | in a reachable state neither thread can move if and only if the main thread waits for a silent peer and the query waits for the open connection to close, or has succeeded with that direction open, or has failed after the reader on TLS was the first to hang up |
| TransferExamples.StuckExample | src/r_exasol/connection/connection_controller.cpp:14-29 | runs from the start, reading and writing, on either transport, to the wait for a request header that does not come, and to the wait for the first portion after it: neither thread can move |
| TransferExamples.SuccessExample | src/r_exasol/connection/connection_controller.cpp:14-92 | a whole read and a whole write in which everything succeeds, on either transport: the connection is handed out over an open link, the shutdown finds the query's success and returns true without an error, and in the end everything is released and the peer has seen the connection closed |
| TransferExamples.TrueThoughFailed | src/r_exasol/connection/connection_controller.cpp:69-92 | a run from the start to a shutdown that is about to return true for a transfer whose query failed |
| TransferLink.ReaderPortion | src/r_exasol/connection/protocol/http/reader/http_chunk_reader.cpp:68-94 | for any input, a call of the reader leaves the connection as the protocol's transfer step says, which hangs up exactly if the call does not get all it asked for |
| TransferLink.WriterPortion | src/r_exasol/connection/protocol/http/writer/http_chunk_writer.cpp:52-57 | on any network, so does a call of the writer, which hangs up exactly if it reports an error |
| TransferSafety.BlockedCanMove | src/r_exasol/connection/connection_controller.cpp:72-84 | a blocked join waits for a thread that can move, also if the query ends only once the socket is shut; so does any wait after a failed query that the query thread can end |
| TransferSafety.JoinCompletes | src/r_exasol/connection/async_executor/async_executor_impl.h:52-60 | from every reachable join, any schedule with three steps of the query thread in it has a point where the join can return, whatever the query returns |
| TransferSafety.JoinBeforeCloseHangs | src/r_exasol/connection/connection_controller.cpp:72-77 | joining before the socket is shut would wait forever for such a query, unless it fails |
| Calendar.ToDaysCounts | src/r_exasol/debug_print/date.h:2970-2987 | the closed form equals a count: 365 or 366 days for each earlier year by the leap rule, the tabulated days of each earlier month from March on, and the day |
| Calendar.YearOfEra | src/r_exasol/debug_print/date.h:3095-3098 | the four-division formula recovers the year from the day of the 400-year era |
| Calendar.DateRoundTrip | src/r_exasol/debug_print/date.h:3084-3103 | every valid date is recovered from its day number |
| Calendar.DayRoundTrip | src/r_exasol/debug_print/date.h:3084-3103 | every day number names a valid date with that day number |
| Calendar.SuccessorDay | src/r_exasol/debug_print/date.h:2734-2748 | day 0 is 1970-01-01 and day n+1 is the calendar successor of day n under month lengths and leap rule |
| Calendar.OrderPreserved | src/r_exasol/debug_print/date.h:3029-3039 | dates are ordered as their day numbers are |
| Calendar.InShortRange | src/r_exasol/debug_print/date.h:1701-1707 | exactly the day numbers from -12687428 to 11248737 give a year that the 16-bit field holds and accepts |
| Calendar.WeekdayIsEuclidean | src/r_exasol/debug_print/date.h:1820-1827 | the unsigned computation is (z + 4) mod 7 for every 32-bit z |
| CalendarArithmetic.WeekdayAction | src/r_exasol/debug_print/date.h:1912-1920 | adding days to weekdays composes and follows the day count |
| CalendarArithmetic.WeekdayDifference | src/r_exasol/debug_print/date.h:1902-1910 | the difference is the number of days, 0 to 6, from one weekday on to the other |
| CalendarArithmetic.MonthAction | src/r_exasol/debug_print/date.h:1614-1631 | adding months composes for negative counts too, stays in 1..12, and the wrapped difference inverts it |
| CalendarArithmetic.YearMonthAction | src/r_exasol/debug_print/date.h:2274-2311 | adding months to year-months composes and is inverted by the difference in both orders |
| CalendarArithmetic.IndexedOkMeaning | src/r_exasol/debug_print/date.h:3259-3271 | an indexed weekday is accepted if and only if that day lies in the named month |
| CalendarArithmetic.IndexedDayRoundTrip | src/r_exasol/debug_print/date.h:3273-3292 | day number to indexed weekday and back is the identity, and the result is accepted |
| CalendarArithmetic.IndexedDateRoundTrip | src/r_exasol/debug_print/date.h:3273-3292 | every accepted indexed weekday round-trips, fifth occurrences included |
| CalendarArithmetic.LastWeekdayIsLast | src/r_exasol/debug_print/date.h:3466-3473 | the result has the weekday, lies in the month, and a week later is past it |
| IsoWeek.IsoYearIsThursdaysYear | src/r_exasol/debug_print/date.h:5338-5353 | `%G` is the year of the Thursday of the date's Monday-based week, so the guess with one correction suffices |
| IsoWeek.IsoWeekIsThursdaysOrdinal | src/r_exasol/debug_print/date.h:5795-5822 | `%V` is that Thursday's ordinal among the Thursdays of its year, from 1 to 53 |
| IsoWeek.WeekIsUniform | src/r_exasol/debug_print/date.h:5795-5822 | Monday to Sunday share one ISO year and week |
| ResultCursor.CursorConserves | R/EXADBI-query.R:259-285 | after any fetches and clearings, failed ones included, the frames are the first `rows_fetched` rows in order, none skipped or repeated; the result is complete if and only if some fetch before the drop could be answered and `rows_fetched` has reached `rows_affected`; with a correct count all rows were delivered then |
| ResultCursor.FetchLoop | R/EXADBI-query.R:267-280 | k fetches of n rows deliver the first k*n rows, and the result is complete exactly when that is all of them |
| ResultCursor.FetchAnswers | R/EXADBI-query.R:259-285 | what each fetch from a table answers: the next rows up to the number asked for (-1 asks for as many as the query affected) and whether that was the last; an R error if the database does not answer; a warning after completion or without output |
| ResultCursor.FetchAllDelivers | R/EXADBI-query.R:267-280 | any requests that leave the table in place, followed by a fetch of everything, deliver exactly the rows and complete the result |
| ResultCursor.Result.Fetch | R/EXADBI-query.R:259-285 | the method refines the function the run theorems are about, with its error and warning branches |
| ResultCursor.Result.AddRowsFetched | R/EXADBI-result.R:54-57 | storing the returned total once more counts no row twice |
| ResultCursor.Result.Clear | R/EXADBI-query.R:305-345 | the drop is sent only for a named table, success marks the result cleared, a refused drop changes nothing; refines the function the run theorems are about |
| ResultCursor.ClearIsFinal | R/EXADBI-query.R:305-345 | for any result and any requests, after the first success of clearing every fetch stops and every further clearing succeeds without a drop |
| ResultCursor.DropsOnce | R/EXADBI-query.R:317-342 | over any requests the table is dropped at most once, and exactly if there is one and the database accepts some drop |
| ResultCursor.TablelessRun | R/EXADBI-query.R:260-266 | a result without a table answers each fetch with a warning until it is cleared, and with an error after that |

## Left out

- Real sockets, OpenSSL, ODBC, certificates, host lookup and the proxy's meta information: foreign calls, present only as the environment's choices.
- R's memory management, connection hooks and encodings: only the error handler that may not return is kept.
- Stream formatting and parsing of dates, locales and time of day: only the calendar functions behind them are modelled.
- SQL text, identifier quoting, transactions, metadata and viewer functions of the R code: table lookups and string assembly.
- Calendar.Ok: years are unbounded integers, so the 16-bit year and 32-bit overflow of day numbers appear only through `Calendar.InShortRange` and `Calendar.WeekdayIsEuclidean`; the year before the first ISO year of that range is not treated separately.
- The controller, executor and context are a step machine, not classes: two threads share their fields. `onOdbcError` is one step, so the interleaving of its null check with the reset of the socket in `shutDown` is not covered.
- A handler that does not return is modelled where the source calls it; other R errors and interrupts by the user are covered during the transfer and between the calls of the R functions, not inside the other calls.
- Waiting for the network while connecting: `Connect` is a step that always returns.
- `start` of the writer: the same header scan as the reader's.
- SizeLine.ScanHex: a numeral of 2^32 or more is undefined behaviour in C; it is read as the common C library does, saturating at 64 bits and cut to 32, and the buffer invariant does not depend on it.
- HttpChunkReader.HttpReader.PipeRead: the product of item size and count is not wrapped at 64 bits, since the caller's buffer must hold it.
- Network.Recv: the end of the input and a receive error are one case, as every caller treats them alike; a TLS session whose write side is shut still delivers what is pending. A plain read is short only at the end of the input; one that a signal interrupts while more is to come is not covered.
- Network.ShutRdWr: the TCP part of a shutdown. `SSL_shutdown` is taken to return; that a second one may itself wait for the peer is not covered.
- WriterRuns.WriterOnAnyNetwork: the socket pointer of the writer is taken to be lockable, as it is until `shutDown` drops socket and writer together.
- ResultCursor.Result.Clear: the temporary schema is not modelled; the source compares a quoted schema name with an unquoted table name.
