# A verified model of the jullop HTTP server

jullop is an HTTP/1.x server in C. IO worker threads accept connections, read and parse requests and write responses;
actor threads compute the responses. Workers hand requests to actors through one queue per (actor, worker) pair and an
eventfd; actors hand them back by registering the socket for output in the worker's epoll set. No request is ever
protected by a lock.

This project models that logic in Dafny and proves what it guarantees. `dafny verify dfyconfig.toml` checks all of it.

## How it is laid out

| files | what they model |
|---|---|
| `ChunkedSpec`, `ChunkedGrammar`, `ChunkedCharacters`, `ChunkedDecoder` | the resumable in-place decoder of the chunked transfer coding (section 4.1 of RFC 7230): a byte-at-a-time reference automaton, a declarative grammar, bodies as senders write them, and the array-rewriting decoder |
| `HeadSpec`, `HeadGrammar`, `HeadCharacters`, `HeadStability`, `HeadPartial`, `PreCheck`, `HeadParser` | the request, response and header parser: the per-byte reference, the grammar (sections 3.1.1, 3.1.2, 3.2, 3.2.4, 3.2.6 and 3.5 of RFC 7230), the same language in characters and string literals, how verdicts behave when bytes arrive, the pre-check, and the parser with its block-wise and unrolled scans |
| `InputBuffer`, `HeaderCapacity`, `OutputBuffer`, `HttpResponse`, `Exchange` | the growable buffers, the request record and what its header count does to later parses, the response printer, and what an actor answers |
| `BitTricks`, `SrswQueue` | the lock-free queue, step by step, with stale loads |
| `LockedQueue`, `Notification` | the mutex queue the server links, and the eventfd protocol around it |
| `RequestStats` | the per-request timers |
| `Lifecycle`, `LifecycleInv`, `LifecycleSteps`, `LifecycleRuns`, `LifecycleMoves` | the life of connections across all threads as one transition system: its steps, its invariant, one preservation proof per step, the theorems over runs, and which event leads where |
| `Bytes`, `Options` | octets, scanning, optional values |

Where code works in place, the model does too (classes, arrays, loops), and each method is proved equal to a reference
function; the theorems are about those functions. What the reference functions share with the code, byte classes,
constants, texts, transitions, is pinned down a second time: in characters and string literals for the parsers and the
printer, over the state before and after for the connections. Concurrency is modelled as transition systems in which every load,
store, kernel call or hand-over is a step of its own and steps of different threads interleave freely.

The main results are

- **Chunked decoding**: any cutting of the input into calls gives the payload, verdict and position of one call; the
  overlapping moves never lose or repeat a byte; a fresh decoder completes exactly on the texts of the grammar;
  -2 always means "some continuation completes".
- **Head parsing**: requests and responses are accepted exactly when the grammar says so, with the grammar's fields; definite
  verdicts survive every extension; -2 means "some continuation is accepted" exactly as long as the HTTP version (and,
  in a response, the status) is not off track; the pre-check never changes acceptance of a request or response.
- **Characters to characters**: `GET`, a path and headers, as a client writes them, are answered with the text of the
  echo, letter for letter, and kept alive exactly if a header says `Connection: Keep-Alive`.
- **Requests in pieces**: for every way of cutting a well-formed request into rounds of reading, whatever leftovers stand
  in the buffer, and for every sequence of such requests on one connection: once the rounds before the last have left the
  verdict open, exactly which requests the server's calls of the parser accept.
- **Lock-free queue**: under every interleaving and every choice of stale loads it is a bounded FIFO, without slot races.
- **Connections**: in every reachable state of any number of workers, actors and connections every step is safe (no
  dangling pointer, no double free, no wrong epoll call, no timer CHECK, no NULL popped), every open connection is in
  exactly one place, no thread touches what it handed over, and every step moves the requests it touches from one
  stage to the next and leaves all others alone: a complete request is queued, a kept connection is read again, any other
  one is closed.
- **Replies**: a client that parses the bytes sent gets back status, length, connection answer and path, the last byte
  of the path exactly unless the reply fills the buffer.

## Where code and intent differ

The model follows the code. Each difference below is stated as a lemma.

- Text that exactly fills the output buffer loses its last byte to the terminating NUL (`src/output_buffer.c:82`).
  `OutputBuffer.StreamIsTexts`, `HttpResponse.PrintedFaithfully` and `Exchange.ReplyReadsBack` say exactly when;
  `Exchange.LastByteIsLost` is a request whose reply meets it in a buffer of the server's size.
- `http_request_parse` hands the parser the capacity of the buffer, not the bytes received (`src/http_request.c:13`).
  `InputBuffer.DecidedExactlyWhenDefinite` says exactly when the leftover bytes cannot matter,
  `InputBuffer.ConsumesUnreceived` exactly when an accepted request has bytes in it that were never received, and
  `InputBuffer.LeftoversComplete` gives requests to which that happens.
- The header count doubles as the capacity and is set once per connection (`src/request_context.c:47`), so an open verdict
  or an earlier request lowers it. `HeaderCapacity.SplitRequestVerdict`, `HeaderCapacity.DeliveryExactly` and
  `HeaderCapacity.KeptAliveExactly` say exactly which requests are refused for that;
  `HeaderCapacity.SplitAfterRequestLineRefused` is one such input.
- The pre-check refuses an empty header block cut between CR and LF. `PreCheck.PreCheckOnHeaders` says exactly when.
- The header of the parser calls -2 "partial"; `HeadPartial.CompletableExactly`, `HeadPartial.ResponseCompletableExactly`
  and `HeadPartial.HeadersCompletableExactly` say exactly when that is so.
- `input_buffer_read_into` never returns the states for a finished read or a disconnect (`src/input_buffer.c:47-59`), and
  an ended stream is an error: `InputBuffer.Buffer.ReadInto` says exactly when. So a complete request followed by the end
  of the stream is closed without a reply: `InputBuffer.TryParse` with `InputBuffer.CompleteThenEnd`.
- `pow_2_size` lacks a shift by 32 (`src/srsw_queue.c:43-52`). `BitTricks.PowerOfTwoSize` says exactly for which sizes its
  result is the least power of two; `BitTricks.SizeIsLeastPower` names the first size that fails.

## Assumptions

- Lengths fit in `int` and `size_t`; allocation succeeds; `last_len <= len` for the parser.
- The lock-free queue has `max_size` slots; the call at `src/srsw_queue.c:65` asks for `size` bytes. Its size is one that
  `pow_2_size` rounds to a power of two.
- epoll delivers at most one event per descriptor and wait, only for registered descriptors and requested bits; `accept`
  returns a descriptor that is not open; `malloc` returns memory that is not allocated; an eventfd is a counter that a
  read takes and zeroes.
- `read`, `write`, the clock and the choice of actor (`src/client.c:54`) are arbitrary: parameters or free choices.

## Model

| member | source | states |
|---|---|---|
| `ChunkedSpec.HexDigitsExactly` | src/picohttpparser.c:489-500 | a byte decodes to d exactly if it is the hexadecimal digit d in either case |
| `ChunkedSpec.SixteenDigitsFit` | src/picohttpparser.c:521-526 | the accumulated size stays below 16 to the number of digits, so sixteen digits never overflow 64 bits |
| `ChunkedSpec.Step` | src/picohttpparser.c:508-605 | from every resumable state every byte leads to a resumable state |
| `ChunkedSpec.Run` | src/picohttpparser.c:507-614 | a run consumes at most its input, all of it if it asks for more, and emits at most what it consumed |
| `ChunkedSpec.RunSplit` | src/picohttpparser.c:502-615 | cutting the input once: the second piece goes on exactly where the first stopped, in state, payload, verdict and position |
| `ChunkedSpec.SplitInvariance` | src/picohttpparser.c:502-615 | for every resumable state and every cutting into pieces, calling piece by piece equals one call on everything |
| `ChunkedSpec.BytesLeftAfterCompletion` | src/picohttpparser.c:608-614 | if a piece completes with r bytes left, the uncut input completes with r plus the length of the rest and the same payload |
| `ChunkedSpec.RunData` | src/picohttpparser.c:550-566 | chunk data of any length comes out unchanged |
| `ChunkedGrammar.DecodesEveryBody` | src/picohttpparser.c:502-615 | decoding the text of any well-formed body, whatever follows, yields the concatenated chunks and stops right behind the trailer or the last-chunk line |
| `ChunkedGrammar.BodyOf` | src/picohttpparser.c:502-615 | every completed run has read the text of a well-formed body |
| `ChunkedGrammar.CompletesExactlyOnBodies` | src/picohttpparser.c:502-615 | a fresh decoder completes after n bytes with a payload if and only if those n bytes are the text of a well-formed body with that data |
| `ChunkedGrammar.CompletableExactly` | src/picohttpparser.h:71-80 | from every resumable state, some continuation completes the body if and only if the input so far is not refused |
| `ChunkedCharacters.HexReadsBack` | src/picohttpparser.c:509-529 | every number below 16 to the k, written in hexadecimal, has at most k digits and reads back |
| `ChunkedCharacters.SentIsDecoded` | src/picohttpparser.c:502-615 | chunks of any sizes below 2^64, each sent as its size in hexadecimal, CRLF, data, CRLF, come out as they were, and the decoder stops behind the last line or the empty trailer |
| `ChunkedCharacters.SeventeenDigitsRefused` | src/picohttpparser.c:521-524 | a size of seventeen digits is an error |
| `ChunkedDecoder.MoveBytes` | src/picohttpparser.c:553-561 | an overlapping move copies the old bytes and changes nothing else |
| `ChunkedDecoder.Decoder.constructor` | src/picohttpparser.h:63-69 | a zero-filled decoder is a resumable one |
| `ChunkedDecoder.Decoder.IsInData` | src/picohttpparser.c:617-620 | true exactly when the next byte would be emitted as it is |
| `ChunkedDecoder.Decoder.ReadSize` | src/picohttpparser.c:509-529 | reading a size agrees with the reference run, without wrap-around |
| `ChunkedDecoder.Decoder.ReadExt` | src/picohttpparser.c:531-548 | skipping an extension agrees with the reference run |
| `ChunkedDecoder.Decoder.CopyData` | src/picohttpparser.c:550-566 | data is moved down, bytes behind it stay, and the state is that of the reference run |
| `ChunkedDecoder.Decoder.ReadCrlf` | src/picohttpparser.c:568-581 | the line end after data agrees with the reference run |
| `ChunkedDecoder.Decoder.ReadTrailerHead` | src/picohttpparser.c:582-591 | the head of a trailer line agrees with the reference run |
| `ChunkedDecoder.Decoder.ReadTrailerMiddle` | src/picohttpparser.c:593-602 | the rest of a trailer line agrees with the reference run |
| `ChunkedDecoder.Decoder.Consume` | src/picohttpparser.c:504-606 | the loop ends in the state, with the payload, at the position and with the verdict of the reference run over the original bytes |
| `ChunkedDecoder.Decoder.Decode` | src/picohttpparser.c:502-615 | afterwards the payload stands in front, the unread tail right behind it, bytes past the given size are untouched, and the return value is -2, -1 or the bytes left |
| `ChunkedDecoder.DecodeStream` | src/picohttpparser.h:71-80 | the documented calling pattern gives, for every cutting, the payload and verdict of one run, and accounts for every byte not consumed |
| `HeadGrammar.HeadersAt` | src/picohttpparser.c:273-337 | the text of a header block within the capacity is parsed back into its lines |
| `HeadGrammar.HeadersOf` | src/picohttpparser.c:273-337 | every accepted header block is the text of well-formed lines within the capacity |
| `HeadGrammar.ParsesRequestText` | src/picohttpparser.c:339-371 | the text of a well-formed request head, whatever follows, is parsed into the head's fields |
| `HeadGrammar.RequestGrammar` | src/picohttpparser.c:273-371 | the parser returns n and given fields if and only if the first n bytes are the text of a well-formed head with those fields |
| `HeadGrammar.RequestSlices` | src/picohttpparser.c:339-371 | the slices of an accepted request hold method, path, names and values, in order, each inside its own line and inside [0, n) |
| `HeadGrammar.ParsesResponseText` | src/picohttpparser.c:401-431 | the text of a well-formed response head is parsed into its fields |
| `HeadGrammar.ResponseGrammar` | src/picohttpparser.c:401-431 | the same equivalence for responses |
| `HeadCharacters.ClassesExactly` | src/picohttpparser.c:102-109 | each byte class in letters, digits and literals: tokens, blanks, values, words, digits |
| `HeadCharacters.AcceptsExactlySpelled` | src/picohttpparser.c:273-371 | n bytes are accepted as a request if and only if they spell a well-formed one, with every class and every text a literal |
| `HeadCharacters.AcceptsResponseExactlySpelled` | src/picohttpparser.c:401-431 | the same for responses |
| `HeadCharacters.VersionExactly` | src/picohttpparser.c:254-271 | once nine bytes are there, the version is m if and only if they begin with the characters HTTP/1. and the digit m |
| `HeadCharacters.LineBytes` | src/picohttpparser.c:290-334 | an accepted line, byte by byte: continuation exactly on a space or tab behind another line; else a name of token characters, a colon, spaces and tabs, a value without control characters that begins with neither, and its line end |
| `HeadCharacters.PlainRequestAccepted` | src/picohttpparser.c:373-399 | a request as clients write it is accepted whole, with its method, path, minor version, names and values |
| `HeadStability.RequestVerdictStable` | src/picohttpparser.c:255-371 | a rejected or accepted request is rejected or accepted alike, with identical outputs, under every extension |
| `HeadStability.ResponseVerdictStable` | src/picohttpparser.c:401-431 | the same for responses |
| `HeadStability.AcceptedRequestIsLocal` | src/picohttpparser.c:373-399 | an accepted request depends only on the n bytes it consumed |
| `HeadStability.AcceptedResponseIsLocal` | src/picohttpparser.c:433-457 | the same for responses |
| `HeadPartial.CompletableExactly` | src/picohttpparser.h:51-54 | some continuation is accepted if and only if the request is accepted already, or the verdict is -2 and the version is not off track |
| `HeadPartial.OpenButHopeless` | src/picohttpparser.c:257-261 | the exception exists: -2 for bytes that no continuation completes |
| `HeadPartial.ResponseCompletableExactly` | src/picohttpparser.h:56-58 | the same for responses, where the status digits too may be off track before they are looked at |
| `HeadPartial.ResponseOpenButHopeless` | src/picohttpparser.c:401-419 | both exceptions exist |
| `HeadPartial.HeadersCompletableExactly` | src/picohttpparser.h:60-61 | some continuation of a header block is accepted if and only if it is not rejected |
| `PreCheck.TwoEolsExactly` | src/picohttpparser.c:207-233 | the scan succeeds if and only if an LF with another line end right behind it follows, and no CR without LF in front of that |
| `PreCheck.PreCheckExactly` | src/picohttpparser.c:207-212 | the pre-check passes if and only if a blank line begins not more than three bytes in front of the new bytes |
| `PreCheck.PreCheckStops` | src/picohttpparser.c:387-391 | with `last_len` and no blank line near the new bytes nothing is accepted and every out-parameter is empty, for requests, responses and header blocks |
| `PreCheck.PreCheckLets` | src/picohttpparser.c:387-398 | otherwise the answer and all out-parameters are those without the pre-check |
| `PreCheck.FindsTwoEols` | src/picohttpparser.c:207-233 | scanning from any index inside a text with paired CRs finds the two line ends it stops with |
| `PreCheck.PreCheckKeepsRequests` | src/picohttpparser.c:387-398 | if the first `last_len` bytes are not accepted, the request succeeds with `last_len` exactly when it does with 0, with identical outputs |
| `PreCheck.PreCheckKeepsResponses` | src/picohttpparser.c:446-456 | the same for responses |
| `PreCheck.PreCheckOnHeaders` | src/picohttpparser.c:459-478 | for header blocks it succeeds alike except exactly on an empty block cut after its CR with no blank line following |
| `PreCheck.PreCheckRefusesEmptyBlock` | src/picohttpparser.c:467-471 | CRLF with `last_len` 1 is such a block |
| `HeadParser.TokenRangesExact` | src/picohttpparser.c:80-82 | the search ranges for methods and paths are exactly the bytes that end one |
| `HeadParser.EolRangesExact` | src/picohttpparser.c:145-150 | the search ranges for values are exactly the controls other than HT |
| `HeadParser.NameRangesCover` | src/picohttpparser.c:294-301 | the search ranges for names are the bytes that end one, plus the token characters bar and tilde |
| `HeadParser.FindCharFast` | src/picohttpparser.c:111-138 | the block search skips no byte in the ranges and stops on one if it reports one |
| `HeadParser.AdvanceToken` | src/picohttpparser.c:77-100 | with or without SSE the token scan equals the per-byte scan |
| `HeadParser.FindEolSse` | src/picohttpparser.c:144-189 | block search and scalar loop stop where the per-byte scan stops |
| `HeadParser.FindEolUnrolled` | src/picohttpparser.c:157-189 | the eight-way unrolled loop stops where the per-byte scan stops |
| `HeadParser.GetTokenToEol` | src/picohttpparser.c:140-205 | the slice, the index behind the line end and the verdict are those of the reference |
| `HeadParser.CheckComplete` | src/picohttpparser.c:207-233 | the loop computes the reference pre-check |
| `HeadParser.ParseHttpVersion` | src/picohttpparser.c:254-271 | the version check computes the reference |
| `HeadParser.ParseStatus` | src/picohttpparser.c:235-252 | the three-digit status, including what is left in it on failure |
| `HeadParser.ParseName` | src/picohttpparser.c:293-321 | the name scan equals the per-byte scan although the block search stops early |
| `HeadParser.ParseLine` | src/picohttpparser.c:290-334 | one header or folded line as in the reference |
| `HeadParser.ParseHeaders` | src/picohttpparser.c:273-337 | verdict and headers counted, on success and on failure, as in the reference |
| `HeadParser.PhrRequest` | src/picohttpparser.c:373-399 | answer and all out-parameters, also on failure, as in the reference |
| `HeadParser.RequestTail` | src/picohttpparser.c:357-370 | the part from the version on |
| `HeadParser.PhrResponse` | src/picohttpparser.c:433-457 | answer and all out-parameters, also on failure, as in the reference |
| `HeadParser.PhrHeaders` | src/picohttpparser.c:459-478 | the same for a header block on its own |
| `OutputBuffer.StoredIsText` | src/output_buffer.c:77-87 | an append keeps its text exactly unless it fills the room to the last byte and does not end in NUL |
| `OutputBuffer.ResizeThenAppend` | src/output_buffer.c:14-25 | one resize always makes enough room, and appending after it is the same append |
| `OutputBuffer.StreamConserved` | src/output_buffer.c:48-90 | over any run of appends and partial sends, bytes sent followed by bytes pending are the bytes stored, in order |
| `OutputBuffer.StreamIsTexts` | src/output_buffer.c:48-90 | they are the texts themselves if and only if no append exactly fills the room with text that does not end in NUL |
| `OutputBuffer.Vsnprintf` | src/output_buffer.c:77-80 | the truncation contract of the formatter |
| `OutputBuffer.Buffer.constructor` | src/output_buffer.c:28-36 | an empty buffer of the given capacity |
| `OutputBuffer.Buffer.Reset` | src/output_buffer.c:43-46 | empties the buffer and keeps its capacity |
| `OutputBuffer.Buffer.Resize` | src/output_buffer.c:14-25 | contents kept, capacity the larger of double and minimum |
| `OutputBuffer.Buffer.Append` | src/output_buffer.c:71-90 | the new buffer is the old one with the stored text, after at most one resize |
| `OutputBuffer.Buffer.WriteTo` | src/output_buffer.c:48-69 | the socket took a prefix of what was pending, as long as its answers say, and the rest is pending; WRITE_FINISH is returned exactly when nothing is, WRITE_ERROR exactly when an answer in front of that is a failure or zero |
| `HttpResponse.ReasonListed` | src/http_response.c:15-62 | exactly the listed codes have a phrase of their own |
| `HttpResponse.ReasonReadsBack` | src/http_response.c:15-62 | the phrase of every listed code is the one that a table of phrases assigns to this code, and no other code has one |
| `HttpResponse.StatusReads` | src/picohttpparser.c:235-252 | the status is the number its digits spell, with zeros from the first wrong byte on, and good exactly if there are three digits |
| `HttpResponse.DecimalReadsBack` | src/actor.c:40-45 | the printed length reads back as the number |
| `HttpResponse.PrintedStops` | src/http_response.c:64-77 | text with a NUL is printed up to it |
| `HttpResponse.HttpResponseInit` | src/http_response.c:64-77 | appends status line, header lines and body, in this order |
| `HttpResponse.PrintedFaithfully` | src/http_response.c:64-77 | the buffer then holds the concatenation if and only if no append loses its last byte |
| `HttpResponse.ResponseIsHeadAndBody` | src/http_response.c:64-77 | the response is the text of a well-formed head followed by the body |
| `HttpResponse.RoundTrip` | src/http_response.c:64-77 | the response parser recovers status, reason, names and values and consumes everything in front of the body and nothing of it |
| `InputBuffer.Buffer.constructor` | src/input_buffer.c:21-28 | nothing received yet |
| `InputBuffer.Buffer.Reset` | src/input_buffer.c:30-32 | forgets what was received; the memory keeps its old bytes |
| `InputBuffer.Buffer.Resize` | src/input_buffer.c:13-19 | doubles exactly a full buffer and keeps what was received |
| `InputBuffer.Buffer.ReadInto` | src/input_buffer.c:39-61 | what was received is followed by what arrived in front of the first answer that is no data, across doublings; error is returned exactly if that answer is an end or a failure, busy otherwise, and nothing else |
| `InputBuffer.HttpRequest.constructor` | src/request_context.c:47 | the header capacity starts at 100 |
| `InputBuffer.HttpRequest.Parse` | src/http_request.c:11-28 | parses the whole capacity; the header capacity never grows; on a first parse a definite verdict on the received bytes decides |
| `InputBuffer.TryParse` | src/client.c:24-52 | a stream that ends or fails is an error and nothing is parsed; otherwise the parse of the whole capacity decides, with the last header count as capacity and the earlier length as `last_len` |
| `InputBuffer.CompleteThenEnd` | src/client.c:29-32 | a complete request and then the end of the stream is such a case, although the parser would accept it |
| `InputBuffer.NulTailRejects` | src/http_request.c:11-28 | bytes with an open verdict are rejected if NULs follow them in the buffer, enough for the version to be looked at |
| `InputBuffer.DecidedExactlyWhenDefinite` | src/http_request.c:13-18 | the verdict on the received bytes is independent of the n bytes behind them if and only if it is definite or they are too few for the version to be looked at |
| `InputBuffer.ConsumesUnreceived` | src/http_request.c:13-18 | a request accepted from the buffer ends behind the bytes received if and only if their own verdict is open |
| `InputBuffer.LeftoversComplete` | src/request_context.c:111-121 | the first bytes of a request are completed by what the last one left in the buffer whenever the two are alike from there on |
| `HeaderCapacity.HeadersOver` | src/picohttpparser.c:286-289 | a well-formed block with more lines than the capacity is rejected |
| `HeaderCapacity.CompleteTextVerdict` | src/picohttpparser.c:373-399 | a well-formed request that is all there is accepted if its lines fit the capacity and rejected otherwise |
| `HeaderCapacity.CutBlock` | src/picohttpparser.c:273-337 | of a block cut anywhere, with the verdict open, the lines that are all there are counted, and no others unless the bytes behind bring an LF |
| `HeaderCapacity.CutLine` | src/picohttpparser.c:339-371 | a request cut inside its request line counts no header |
| `HeaderCapacity.OpenCount` | src/picohttpparser.c:373-399 | the header count an open verdict leaves, for every cut |
| `HeaderCapacity.SplitRequestVerdict` | src/http_request.c:11-28 | for every cut and whatever stands in the buffer, the second call accepts exactly if the lines fit the first call's count; without a leftover LF exactly if there are no lines or all were there at first |
| `HeaderCapacity.LastCall` | src/http_request.c:11-28 | the call at which the request is all there passes the pre-check, and the capacity decides |
| `HeaderCapacity.NextRequestVerdict` | src/request_context.c:111-121 | the next request of a connection is accepted exactly if it has no more lines than the one before |
| `HeaderCapacity.RequestLineOpen` | src/picohttpparser.c:339-371 | a request line with token characters behind it leaves the verdict open and no header counted |
| `HeaderCapacity.SplitAfterRequestLineRefused` | src/http_request.c:13-18 | a request that is accepted in one piece is rejected if its request line arrived first |
| `HeaderCapacity.CutFailsPreCheck` | src/picohttpparser.c:207-233 | a request that is not all there never passes the pre-check over leftovers without LF |
| `HeaderCapacity.OpenBlockNoBlank` | src/picohttpparser.c:273-337 | an open header block has no line end with another one right behind it |
| `HeaderCapacity.LaterRoundLeavesNothing` | src/picohttpparser.c:373-399 | a call with `last_len` that leaves the verdict open leaves no header counted, over any leftovers |
| `HeaderCapacity.DeliveryExactly` | src/client.c:24-52 | over any number of rounds and any leftovers, if the rounds before the last leave the verdict open: accepted exactly if there are no lines, or one round and enough capacity, or two rounds of which the first counted as many lines |
| `HeaderCapacity.FitsByCut` | src/client.c:24-52 | with leftovers without LF that is: exactly if the first of the two pieces holds all lines |
| `HeaderCapacity.KeptAliveExactly` | src/request_context.c:111-121 | all requests of a connection, each in any number of rounds, are accepted if and only if each one's earlier rounds leave the verdict open and its lines fit, starting from the number of lines of the one before |
| `HeaderCapacity.KeptAliveInOnePiece` | src/request_context.c:111-121 | if each arrives in one piece: if and only if their numbers of lines never grow |
| `Exchange.ContextKeepAlive` | src/request_context.c:63-90 | true exactly when some header spells Connection: Keep-Alive |
| `Exchange.KeepAliveExactly` | src/request_context.c:63-90 | over the text of the request: keep-alive if and only if some line is the field Connection with the value Keep-Alive, in these characters |
| `Exchange.HandleRequest` | src/actor.c:30-60 | appends a 200 response with the path as body, its length and the connection answer |
| `Exchange.AcceptedSlices` | src/actor.c:30-60 | all slices of an accepted request lie in the buffer and the path has no NUL |
| `Exchange.ReplyTextReadsBack` | src/actor.c:30-60 | the intended text of a reply parses back into status, length, connection answer and path |
| `Exchange.ReplyIntactUnlessExactFill` | src/output_buffer.c:82-87 | the reply is in the buffer byte for byte if and only if its length is not the capacity; then only its last byte is NUL |
| `Exchange.ReplyReadsBack` | src/actor.c:30-60 | whatever request was accepted, parsing the bytes in the buffer gives 200, a Content-Length equal to the body's length and the connection answer; the body is the path if and only if the reply's length is not the capacity, and otherwise the path with NUL as last byte |
| `Exchange.StatusLineChars` | src/http_response.c:64-77 | the status line in characters |
| `Exchange.ReplyInCharacters` | src/actor.c:30-60 | the whole reply in characters |
| `Exchange.EchoInCharacters` | src/actor.c:30-60 | a request as a client writes it is answered by the reply in characters, with keep-alive exactly if a header asks for it |
| `Exchange.LastByteIsLost` | src/request_context.c:44-45 | the reply to a request with a path of 960 letters fills a new buffer of 1024 bytes exactly, and goes out with NUL in place of the last letter |
| `BitTricks.MaskWraps` | src/srsw_queue.c:103-108 | masking the successor of an offset wraps it around the ring |
| `BitTricks.SmearedLow` | src/srsw_queue.c:45-49 | after r rounds of shift and or the lowest bit is set exactly if one of the 2^r lowest was |
| `BitTricks.FiveRounds` | src/srsw_queue.c:45-49 | the five rounds set every bit below the top one if and only if there are no 32 zero bits in a row below it |
| `BitTricks.LeastPowerExactly` | src/srsw_queue.c:43-52 | without wrap-around the result is the least power of two not below the size if and only if size - 1 has no such gap |
| `BitTricks.SizeIsLeastPower` | src/srsw_queue.c:43-52 | every size from 1 to 2^32 is fine, and 2^32 + 1 is not |
| `BitTricks.PowerOfTwoSize` | src/srsw_queue.c:43-52 | on 64-bit words, for every size: the least power of two if and only if the size is from 1 to 2^63 and size - 1 has no such gap |
| `SrswQueue.QueueInit` | src/srsw_queue.c:54-72 | ring size and mask are those of an initial state |
| `SrswQueue.StepRefinesFifo` | src/srsw_queue.c:97-134 | every step of either thread keeps the invariant, stays inside the ring and is a step of a FIFO of capacity `max_size` - 1 |
| `SrswQueue.PushFailsWhenSeenFull` | src/srsw_queue.c:98-104 | a push fails exactly when the queue is full by the pops it can see: never on a fresh load unless full, always when full |
| `SrswQueue.PopNullWhenSeenEmpty` | src/srsw_queue.c:119-125 | a pop is NULL exactly when all pushes it can see are taken |
| `SrswQueue.NoSlotRace` | src/srsw_queue.c:106-128 | the producer is never about to write a slot that holds an unread value or that the consumer is about to read |
| `SrswQueue.LinearisesToBoundedFifo` | src/srsw_queue.c:97-134 | over all runs and stale loads: popped values are a prefix of pushed values, at most `max_size` - 1 apart, and each push notifies once |
| `SrswQueue.QueueSize` | src/srsw_queue.c:87-95 | below `max_size` on any two loads |
| `SrswQueue.SlotsAreHandedOver` | src/srsw_queue.c:97-134 | over all runs: a slot is written only after the pop that freed it was seen, and read only after the push that filled it was seen |
| `SrswQueue.QueueSizeBounded` | src/srsw_queue.c:87-95 | over all runs: below `max_size` for loads at any two moments, and exact if they are the same moment |
| `SrswQueue.QueueSizeExact` | src/srsw_queue.c:87-95 | exact on a consistent snapshot of every reachable state |
| `LockedQueue.Queue.constructor` | src/mrmw_queue.c:38-49 | empty, no notification |
| `LockedQueue.Queue.Size` | src/mrmw_queue.c:61-71 | the number of items |
| `LockedQueue.Queue.Push` | src/mrmw_queue.c:77-97 | fails exactly when full and then changes nothing; otherwise appends and notifies once |
| `LockedQueue.Queue.Pop` | src/mrmw_queue.c:99-116 | NULL exactly when empty, otherwise the oldest item |
| `Notification.StepKeepsInv` | src/mrmw_queue.c:77-116 | every step of any writer or of the actor, inside or outside the critical section, keeps the accounting |
| `Notification.NoLostWakeup` | src/actor.c:62-98 | over all runs: with the lock free, size is event counter plus remaining pops; no pop is NULL; a waiting actor with items has an event pending; items leave in lock order |
| `RequestStats.DeltaError` | src/request_stats.c:31-38 | one measurement is not negative and off by less than a microsecond |
| `RequestStats.DeltaRounding` | src/request_stats.c:34-36 | it rounds down, but up when the nanoseconds borrow |
| `RequestStats.TotalError` | src/request_stats.c:61-73 | after n measurements the total never decreased and is off by less than n microseconds |
| `RequestStats.BitsIndependent` | src/request_stats.c:54-66 | flags of different kinds do not disturb each other |
| `RequestStats.IndexInjective` | src/request_stats.h:8-14 | different kinds have different slots |
| `RequestStats.PerRequestStats.constructor` | src/request_context.c:48 | a new record has no timer running and no time |
| `RequestStats.PerRequestStats.ClearTime` | src/request_stats.c:40-44 | no timer runs and all totals are zero |
| `RequestStats.PerRequestStats.RecordStart` | src/request_stats.c:53-59 | passes its CHECK exactly on a timer that is not running, and starts only that one; all times and all other starts stay |
| `RequestStats.PerRequestStats.RecordEnd` | src/request_stats.c:61-73 | passes its CHECK exactly on a running timer, and adds the elapsed time to that kind and no other |
| `RequestStats.PerRequestStats.MeasureAll` | src/request_stats.c:53-73 | start/end pairs add up as the error bound assumes |
| `RequestStats.PerRequestStats.Replay` | src/request_stats.c:53-77 | starts and ends of all kinds in any order: the CHECKs pass exactly if no kind is started or ended twice in a row, and then each kind's time is the total of its own measurements |
| `LifecycleSteps.WaitKeeps` | src/io_worker.c:113-122 | delivered events speak of live contexts registered for just that |
| `LifecycleSteps.AcceptKeeps` | src/io_worker.c:37-82 | accepting keeps the invariant |
| `LifecycleSteps.AddKeeps` | src/io_worker.c:80-81 | ADD finds the descriptor unregistered, and keeps the invariant |
| `LifecycleSteps.HandleKeeps` | src/io_worker.c:121-154 | handling any event with any outcome dereferences live memory, passes the timer CHECKs and keeps the invariant |
| `LifecycleSteps.CloseKeeps` | src/client.c:165-176 | TOTAL is running when a close ends it |
| `LifecycleSteps.ResetKeeps` | src/client.c:141-160 | a reset keeps the invariant up to its MOD |
| `LifecycleSteps.RearmKeeps` | src/client.c:162-163 | MOD finds the descriptor registered here, and keeps the invariant |
| `LifecycleSteps.DeleteKeeps` | src/client.c:66-70 | DEL of a complete request finds it registered here |
| `LifecycleSteps.PushKeeps` | src/client.c:72-80 | the QUEUE timer is not running, and a push that does not halt keeps the invariant |
| `LifecycleSteps.FreeKeeps` | src/client.c:82-85 | the context freed is allocated, and no epoll entry, delivered event or other worker refers to it |
| `LifecycleSteps.UnlistKeeps` | src/client.c:177 | DEL of a closing connection finds it registered here |
| `LifecycleSteps.DestroyKeeps` | src/request_context.c:133-134 | the request is allocated, its descriptor open and no longer registered when it is closed |
| `LifecycleSteps.ReleaseKeeps` | src/request_context.c:136-138 | the request freed is allocated, and no queue, actor or open descriptor is its own, even if the number of its descriptor was given out again |
| `LifecycleSteps.ReadEventKeeps` | src/actor.c:62-69 | a round owes exactly the notifications it read |
| `LifecycleSteps.PopFinds` | src/actor.c:71-75 | an actor never pops NULL |
| `LifecycleSteps.PopKeeps` | src/actor.c:71-76 | taking the head of a queue keeps the invariant |
| `LifecycleSteps.WorkKeeps` | src/actor.c:76-85 | the request is live, QUEUE is running and ACTOR is not |
| `LifecycleSteps.ReplyKeeps` | src/actor.c:87-95 | ADD for output finds the descriptor unregistered |
| `LifecycleSteps.StepKeeps` | src/client.c:56-182 | every enabled step of every thread is safe and keeps the invariant |
| `LifecycleRuns.NothingEverGoesWrong` | src/client.c:56-182 | in every reachable state every possible step is safe and pops no NULL |
| `LifecycleRuns.ExactlyOnePlace` | src/client.c:56-98 | every connection not closed is registered, queued, held by an actor or carried by its worker: exactly one of these |
| `LifecycleRuns.PlaceIsUnique` | src/actor.c:71-96 | it is in one position of one queue, with one actor, or with one worker |
| `LifecycleRuns.TouchesOnlyItsOwn` | src/queue.h:51-53 | a thread touches only requests in its hands, and never one it handed over |
| `LifecycleRuns.TimersFollowPlaces` | src/request_stats.c:53-73 | TOTAL runs exactly while a connection is not closing, QUEUE exactly from the push until the actor begins, and no other timer runs between steps |
| `LifecycleRuns.CountersCount` | src/server_stats.c:58-72 | active is accepted minus closed and the number of live connections; total is resets plus closes |
| `LifecycleRuns.NoRequestForgotten` | src/actor.c:62-98 | every queue holds one request for each unread notification and each pop owed |
| `LifecycleRuns.NoContextLeaks` | src/client.c:82-85 | every socket context is used by its request or about to be freed |
| `LifecycleRuns.NoRequestLeaks` | src/request_context.c:123-139 | every request whose descriptor is closed is about to be freed by exactly one worker |
| `LifecycleMoves.HandledEvent` | src/client.c:56-182 | over the state before and after: error bit and failure close, a finished read hands over, a finished write resets with keep-alive and closes without, a busy socket changes nothing; with all counters and timers |
| `LifecycleMoves.AcceptStarts` | src/io_worker.c:66-80 | a new connection is open, timed, counted, not yet in epoll, and its context reads |
| `LifecycleMoves.StepsMoveJust` | src/client.c:56-182 | over all runs: every step takes the request it touches from one stage to the next, told from epoll, queues and actors, and leaves every other request as it was |
| `LifecycleMoves.StaysInHand` | src/client.c:56-182 | whatever other threads do, a worker in the middle of something finds its context and request as it left them |
| `LifecycleMoves.KeptIsReadAgain` | src/client.c:116-163 | over all runs: after a written reply with keep-alive the worker's next step makes the same connection wait for input |
| `LifecycleMoves.UnkeptIsClosed` | src/client.c:116-182 | over all runs: after a reply without keep-alive, a failure or an error bit its next two steps take the connection out of epoll and close it |
| `LifecycleMoves.ReadIsQueued` | src/client.c:66-80 | over all runs: after a complete read its next two steps take the request out of epoll and put it last into a queue, with one notification |
| `LifecycleMoves.StopsExactlyWhenFull` | src/main.c:67 | over all runs: a push stops the process exactly at 1024 waiting requests, and no queue holds more |

## Left out

- Sockets, epoll, eventfd, `read`, `write` and the clock themselves: they are the assumptions above.
- Start-up, thread creation, CPU affinity, barriers and socket options (`src/main.c`): plumbing.
- Logging, the reporting thread and the averages of `src/server_stats.c` beyond its counters.
- `src/message_passing.c`: not used by the running server.
- `src/mrmw_queue.h` and `src/queue_test.c`: they describe an interface that has no implementation.
- Weak memory beyond stale acquire loads: slot accesses are taken as sequentially consistent, which `SrswQueue.SlotsAreHandedOver` justifies: each is ordered by a load that saw the other thread's store.
- What a failed header parse leaves in the array slot behind the last header counted.
- `printf` formatting beyond `%d`, `%zu`, `%s` and `%.*s`.
- The process after a failed `queue_push`: it exits, so runs end there.
- ChunkedSpec.Step: its own contract is only that states stay resumable; what it computes is pinned down by `ChunkedGrammar.CompletesExactlyOnBodies`.
- The locked queue inside the connection model is one atomic step per push and pop; its critical sections are taken apart in `Notification`.
