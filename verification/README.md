# zyp_server: a verified model

zyp_server is a C++11 HTTP server: one thread accepts connections, several loop threads serve them,
and a further thread writes the log. This project models its incremental state machines and its
protocols between threads, and proves what they keep, however the bytes are cut into reads, however
the kernel answers, and however the threads interleave.

Each imperative component appears twice. A class with the fields of the original (`MultipartStreamParser`,
`HttpConnection`, `Buffer`, `TcpConnection`, `AsyncLogger`, `EventLoop`, `TimerQueue`, `TcpServer`) has methods
with the loops and branches of the original; every method's contract equates its new state, or its result,
with a specification function of the old state. Lemmas about the specification functions then state what
the component is for. System calls are parameters that say what the kernel answers, or steps of a machine
that may happen at any time.

| modules | what they model |
|---|---|
| `Bytes`, `Wrappers` | `std::string::find`, and what cutting a text does to it |
| `MultipartStream`, `MultipartStreamParser` | the streaming multipart parser |
| `MultipartCuts` | how it depends on where its input is cut |
| `MultipartRoundTrip` | an encoder for multipart bodies, and that the parser undoes it |
| `MultipartWhole` | the whole-body parser `parseAll`, and its agreement with the streaming one |
| `HttpRequest`, `HttpFramer`, `HttpConnection`, `ByteBuffer` | the HTTP/1.1 request framer over the growing byte buffer |
| `HttpCuts`, `HttpRoundTrip` | segmentation independence and pipelined round trips |
| `HttpBody`, `HttpUploads`, `HttpThrows`, `HttpRefusals` | which bytes an upload is given, uploads over HTTP and what is lost of them, the header line that throws, which requests are refused and with which error |
| `TcpOutput`, `TcpConnection` | the output path of a connection |
| `LoggerProtocol`, `AsyncLogger` | the double-buffered logger |
| `LoopProtocol`, `EventLoop` | the task queue with its eventfd wakeup |
| `TimerProtocol`, `TimerQueue` | the timer set and the idle timeout |
| `ServerLifecycle`, `TcpServer` | accept, establishment, close, removal and destruction across threads |

`dafny verify dfyconfig.toml` checks everything.

## Where the code does less than it seems to

The model follows the code. These are the places where a promise one would expect, or one that the
repository's README.md makes, holds only under a condition. For each, the lemmas named give the condition and an
input or a run that needs it.

- `MultipartStreamParser.cpp:20-23` erases a delimiter before its two trailer bytes have arrived. Exactly which reads
  may end there is `MultipartCuts.CutIsSafeIff`, for whole connections `HttpCuts.CutIsSafeIff`; in terms of the bytes
  of the stream, `MultipartCuts.ClearCutsAreAllowed` and `HttpUploads.ClearCutsAreAllowed`. `MultipartCuts.UnsafeCutHappens`
  is the input. In the delimiter in front of a part the price is exactly that part:
  `MultipartRoundTrip.UnsafeCutLosesThePart`, `HttpUploads.UnsafeDeliveryLosesThePart`, and for a form with one file
  `HttpUploads.AFileIsLost`. In the closing delimiter it is nothing when the epilogue is free of the delimiter
  (`MultipartRoundTrip.ClosingCutIsHarmless`, `HttpUploads.ClosingDeliveryIsHarmless`); when the epilogue reads as parts,
  these are received as well (`MultipartRoundTrip.EpilogueIsReadAsParts`, `HttpUploads.EpilogueIsUploaded`; `PhantomPart` is
  an input).
- `MultipartStreamParser.cpp:102-107`: the name is searched as `name="`, which also ends `filename="`; a file name that
  stands in front of the name is taken for it (`MultipartWhole.FilenameFirst`).
- `MultipartStreamParser.cpp:137-145`: a body that breaks off in a file leaves the file without its last bytes, and it
  counts as saved (`MultipartRoundTrip.BrokenBodyIsSaved`).
- `MultipartParser.cpp:57`: for data of fewer than two bytes in front of a delimiter the length wraps around, and the
  record takes the rest of the body (`MultipartWhole.TurnInPositions`), where the streaming parser takes the data to be
  empty (`ShortDataIsEmpty`).
- The constant memory of uploads (README.md:40) holds for part data and the scan for a delimiter
  (`MultipartStream.HeldBackIsBounded`). It does not hold for a header block that never ends
  (`MultipartCuts.HeadersAreKeptWhole`), for what follows the final delimiter (`EpilogueIsKept`), nor for the value of a
  form field (`FieldValuesAreKept`): all of these are kept whole.
- `HttpConnection.cpp:180-182`: a header line that ends at its colon makes `substr` throw, and nothing catches it.
  Exactly which lines do is `HttpFramer.LineThrowsIff`; two lines sent by a client are enough
  (`HttpThrows.TwoLinesThrow`), nothing is read afterwards (`HttpFramer.ThrownIsForever`), and a stream without a colon
  in front of a line end never gets there (`HttpThrows.NeverThrows`).
- `HttpConnection.cpp:180-182` also skips one character behind the colon, whatever it is: `Content-Length:5` announces
  nothing and is refused (`HttpRefusals.HeaderLineVerdict`, `ColonWithoutBlank`).
- `HttpConnection.cpp:118-133`: behind a length that is refused, the body is read as the next request
  (`HttpRefusals.BadLengthIsRefused`).
- `HttpRequest.cpp:84-92` keeps the list of saved files when the request is reset. A request that is not an upload
  reaches the handler with the saved files of the last upload before it
  (`HttpRoundTrip.EarlierFilesReachTheHandler`; `HttpUploads.AGetCarriesTheFile` is a form followed by a GET).
- `HttpConnection.cpp:33-42`: parsing goes on after an error response; what follows a refused request line is handled all
  the same (`HttpRefusals.ParsingGoesOn`).
- `TcpConnection.cpp:96-107`: exactly which messages pause reading with no write interest to resume it is
  `TcpOutput.PauseEndsIff`.
- `TcpConnection.cpp:119-123`: a message whose first write fails is dropped, and the connection goes on
  (`TcpOutput.SendIsAllOrNothing`).
- `TcpConnection.cpp:147-205`: exactly when output keeps its order is `TcpOutput.SendKeepsOrderIff` for messages,
  `SendFileKeepsOrderIff` for files, and `HandleWriteKeepsOrderIff` for a file that overtakes a refused write. Both
  happen (`SendingDuringAFileHappens`, `OvertakingHappens`). An empty file range, or one beyond the end of the file, is
  never finished (`IncompleteFileNeverDrains`).
- `TcpConnection.cpp:238-245`: `shutdown` turns a Disconnected connection with write interest into a Disconnecting one,
  so the close callback can run twice (`ServerLifecycle.CloseCallbackCanRunTwice`; how often, exactly, is
  `CloseCallbackCount`). The second removal is harmless (`TasksRunWhereTheyBelong`). If a timeout had closed it, it has no
  timer any more (`TimerProtocol.ReopenedIsForgotten`).
- `log/AsyncLogger.cpp:82` and `:219`: while the log file could not be opened, the stream swallows every record, and
  rolling by size does not try again before the date changes (`LoggerProtocol.ClosedUntilNextDate`). Exactly when nothing
  has been swallowed is `NothingIsSwallowedIff`; `SwallowingHappens` is a run.
- `log/AsyncLogger.cpp:131-136`: rolling by date does not reset the counter (`LoggerProtocol.DateChangeRolls`), so the
  next file can be rolled before it has reached the size (`NextFileIsShort`).
- `log/AsyncLogger.cpp:180`: a record appended between the last swap and the loop condition is lost on `stop`;
  `LoggerProtocol.ExitRemainder` says exactly when nothing is, `LateRecordIsLost` is such a record.

## Model

A cut of the input is *allowed* when no piece ends inside the two trailer bytes of a delimiter that the following
bytes complete to CRLF or `--`, and *clear* when none but the last ends right after a delimiter or one byte later;
clear cuts are allowed. A run of the
output path is *orderly* when nothing is sent while file bytes are outstanding and no file overtakes a blocked
buffer. A body is *clean* when it is a sequence of blocks, each text up to a delimiter, CRLF, headers, a blank line and data,
closed by the delimiter and `--`.

| member | source | states |
|---|---|---|
| MultipartStream.Step | MultipartStreamParser.cpp:8-87 | one block of the loop of `onData`; each that continues lowers (buffer length, reading data), so a call ends |
| MultipartStream.OnDataKeepsDiscipline | MultipartStreamParser.cpp:46-84 | whatever arrives, a descriptor is open only while the data of a file part is read, the saved names are those of the closed files, and none is open after `finish` |
| MultipartStream.HeldBackIsBounded | MultipartStreamParser.cpp:11-65 | whatever the size of the upload, a call holds back at most the delimiter's length plus 4 while data is read, and at most its length between parts |
| MultipartCuts.HeadersAreKeptWhole | MultipartStreamParser.cpp:36-38 | no such bound for headers: an unfinished block is kept whole, in however many pieces it comes |
| MultipartCuts.EpilogueIsKept | MultipartStreamParser.cpp:6-6 | no such bound after the final delimiter: everything is kept |
| MultipartCuts.FieldValuesAreKept | MultipartStreamParser.cpp:59-61 | no such bound for the value of a field: every byte of it is kept |
| MultipartCuts.FeedInTwo | MultipartStreamParser.cpp:5-88 | two calls and one call on the joined bytes leave the same state, held bytes, fields, files and written bytes, unless the first ends inside the trailer of a delimiter that the second completes to CRLF or `--` |
| MultipartCuts.FeedInChunks | MultipartStreamParser.cpp:5-88 | the same for any number of pieces |
| MultipartCuts.CutIsSafeIff | MultipartStreamParser.cpp:20-23 | exactly which first calls can be followed by anything without a difference: those that do not return at line 23 with a trailer that can still become CRLF or `--` |
| MultipartCuts.ClearCutsAreAllowed | MultipartStreamParser.cpp:20-23 | in terms of the stream alone: all cuts are allowed that fall neither right after a delimiter nor one byte later |
| MultipartCuts.UnsafeCutHappens | MultipartStreamParser.cpp:23-23 | the condition is needed: a first call that ends with the first delimiter, or one byte later, is not safe |
| MultipartCuts.ForgottenAtTheEnd | MultipartStreamParser.cpp:137-145 | losing a delimiter does no harm when the input ends with its two trailer bytes: after `finish` the results are the same |
| MultipartRoundTrip.RoundTrip | MultipartStreamParser.cpp:5-145 | any list of encodable field and file parts, with any further header lines before and behind their disposition, any preamble and epilogue, cut in any allowed way, is received in order and completely, and `finish` adds nothing |
| MultipartRoundTrip.EveryFileArrives | MultipartStreamParser.cpp:71-75 | the files received are exactly those encoded whose `open` succeeds, in order, names and contents intact |
| MultipartRoundTrip.AllFilesAreSaved | MultipartStreamParser.cpp:120-123 | these are all the files encoded when every `open` succeeds |
| MultipartRoundTrip.LastFieldWins | MultipartStreamParser.cpp:76-80 | a field has the value of the last part that became one under its name, a file that could not be opened included, and no other name appears |
| MultipartRoundTrip.ClearRoundTrip | MultipartStreamParser.cpp:5-145 | the round trip and its files under all clear cuts |
| MultipartRoundTrip.UnsafeCutLosesThePart | MultipartStreamParser.cpp:20-23 | what the other cuts cost: cut after the delimiter of part i, or one byte later, a body is received without that part and otherwise completely |
| MultipartRoundTrip.ClosingCutIsHarmless | MultipartStreamParser.cpp:20-29 | cut in the trailer of the closing delimiter, a body is still received completely, provided that `--` and the epilogue do not contain the delimiter |
| MultipartRoundTrip.EpilogueIsReadAsParts | MultipartStreamParser.cpp:20-29 | the proviso is needed: if they read as parts, these are received behind the real ones |
| MultipartRoundTrip.PhantomPart | MultipartStreamParser.cpp:20-29 | such a body: no field in one call, one field in two |
| MultipartRoundTrip.BrokenBodyIsSaved | MultipartStreamParser.cpp:137-145 | a body that breaks off in the data of a part: the parts before it are received, an open file is saved without the delimiter's length and four bytes of what arrived, a field is not received |
| MultipartStreamParser.MultipartStreamParser.ProcessHeader | MultipartStreamParser.cpp:90-118 | the header block is read as specified: name and file name up to the next quote, a file opened exactly when there is a file name |
| MultipartWhole.HeaderBlockIsProcessed | MultipartStreamParser.cpp:90-123 | any header block: the name is what runs from the first `name="` behind the disposition to the next quote, or empty; it is a file exactly if `filename="` stands there too, and exactly that file is opened |
| MultipartStreamParser.MultipartStreamParser.TakeData | MultipartStreamParser.cpp:46-84 | the data block of the loop is the specified step: what is written, held back, closed and saved |
| MultipartStreamParser.MultipartStreamParser.OnData | MultipartStreamParser.cpp:5-88 | the loop over the mutable buffer computes the specified function of the parser's whole state |
| MultipartStreamParser.MultipartStreamParser.Finish | MultipartStreamParser.cpp:137-145 | an unfinished file is closed and counts as saved |
| MultipartWhole.ParseAll | MultipartParser.cpp:3-65 | the loop of `parseAll` returns exactly the records that the recursive reading of the body gives, and its verdict |
| MultipartWhole.WholeReadsBlocks | MultipartParser.cpp:9-62 | on a clean body, `parseAll` returns exactly its blocks, and fails exactly when there is none |
| MultipartWhole.StreamReadsBlocks | MultipartStreamParser.cpp:46-84 | on the same body the streaming parser receives exactly the parts that the blocks stand for: fields, saved names, contents and the count of `open` calls |
| MultipartWhole.StreamRefinesWhole | MultipartParser.cpp:3-65 | streaming refines whole-body parsing on every clean body under every allowed cut, whichever files can be opened |
| MultipartWhole.LastBlockWins | MultipartStreamParser.cpp:76-80 | a field has the data of the last block of that name that did not become a file, and no other name appears |
| MultipartWhole.NamesOfBlock | MultipartStreamParser.cpp:97-112 | the names with which blocks are read, by either parser, in terms of where the keys and quotes stand |
| MultipartWhole.FilenameFirst | MultipartStreamParser.cpp:102-107 | a file name in front of the name is taken for the name |
| MultipartWhole.ClearStreamRefinesWhole | MultipartParser.cpp:3-65 | for a body of files that can be opened, the two parsers return the same names and contents under all clear cuts |
| MultipartWhole.SameFilesWhenAllAreFiles | MultipartParser.cpp:35-40 | when every part is a file the two lists of names and contents are equal |
| MultipartWhole.EncodedIsClean | MultipartParser.cpp:9-62 | every encoded body is clean and its blocks are its parts |
| MultipartWhole.WholeRoundTrip | MultipartParser.cpp:3-65 | `parseAll` undoes the encoder: a record for each part, in order, with file name, data, and everything behind the colon of its content type line |
| MultipartWhole.TurnInPositions | MultipartParser.cpp:11-61 | a turn of the loop on any body, in terms of where delimiters and blank lines stand, short data included |
| MultipartWhole.BrokenBodyFails | MultipartParser.cpp:24-55 | a part whose headers do not end, or behind which no delimiter follows, fails the parse |
| MultipartWhole.ShortDataIsEmpty | MultipartStreamParser.cpp:67-80 | where the delimiter follows the blank line within two bytes, the streaming parser takes the data to be empty |
| HttpRequest.StoulOfDecimal | HttpConnection.cpp:118-126 | `stoul` reads back the decimal form of every length below 2^64 |
| HttpRequest.StoulReads | HttpConnection.cpp:118-126 | `stoul` on any number: white space, sign, zeros, and what follows it; a minus sign modulo 2^64, an exception from 2^64 on |
| HttpRequest.StoulFails | HttpConnection.cpp:122-126 | and without a digit it is an exception |
| HttpRequest.RequestLineIsRead | HttpRequest.cpp:6-22 | a request line gives back its method, path and version |
| HttpRequest.WordsAreRead | HttpRequest.cpp:6-35 | however a request line is spaced, its first three words are method, path and version; GET, POST and HEAD are told apart; what is missing keeps its old value |
| HttpRequest.EveryLineIsSpread | HttpRequest.cpp:8-11 | and every line is words spaced in some way |
| HttpConnection.RequestObject.ParseRequestLine | HttpRequest.cpp:6-22 | extraction into the fields, which keep their old value at the end of the line, and the 414 rule |
| HttpConnection.RequestObject.Reset | HttpRequest.cpp:84-92 | everything is cleared except the list of saved files |
| HttpRequest.LowerIdentifies | HttpRequest.cpp:40-43 | exactly the names that differ at most in the case of ASCII letters, by character code, have one lower-cased form |
| HttpRequest.CaseIsIgnored | HttpRequest.cpp:52-73 | such names are the same name for every look-up, and no others are |
| HttpRequest.AddedHeaderIsFound | HttpRequest.cpp:37-73 | an added header is found under its name in any case, with its value from the first character on that is no blank or tab, and no other look-up changes |
| HttpFramer.Step | HttpConnection.cpp:51-216 | one round of the two nested loops; each that continues lowers (readable bytes, rank of the state), so parsing and pipelining end |
| HttpFramer.StepIsAccounted | HttpConnection.cpp:187-209 | body accounting is kept by every step: received at most announced at most 2^30, as many bytes given to the upload parser as counted, and a finished request with a parser has `uploadFinished_` |
| HttpBody.BlankLineStartsTheBody | HttpConnection.cpp:104-158 | an upload starts behind the blank line with a parser that was given nothing and the announced length |
| HttpBody.BodyIsDelivered | HttpConnection.cpp:187-209 | one delivery: the parser is given everything until the body is complete; then the request is handled with exactly the announced bytes and the rest is read as the next request |
| HttpBody.BodyIsExact | HttpConnection.cpp:187-209 | under every cut, the parser is given exactly the first `contentLength_` bytes behind the blank line, in order, and none of the next request |
| HttpFramer.LineThrowsIff | HttpConnection.cpp:166-182 | exactly which lines throw: in the headers, within the limits, those whose only colon is their last byte |
| HttpThrows.TwoLinesThrow | HttpConnection.cpp:180-182 | a request line and such a line reach the exception from a new connection |
| HttpFramer.ThrownIsForever | HttpConnection.cpp:180-182 | after the exception nothing is read or handled |
| HttpThrows.NeverThrows | HttpConnection.cpp:173-182 | a stream without a colon in front of a line end never reaches the exception, under every cut |
| HttpFramer.MessagesAreAccounted | HttpConnection.cpp:19-47 | so the guard at line 29 never fires: no call leaves a finished request unhandled |
| HttpCuts.DeliverInTwo | HttpConnection.cpp:19-217 | segmentation independence: the requests handled with their errors, the state, the upload and the unread bytes are the same after two deliveries and one, unless the cut loses a delimiter inside an upload |
| HttpCuts.CutIsSafeIff | HttpConnection.cpp:187-209 | exactly which deliveries can be followed by anything without a difference |
| HttpCuts.DeliverInChunks | HttpConnection.cpp:19-217 | the same for any number of pieces |
| HttpCuts.CutsWithoutUploads | HttpConnection.cpp:144-156 | a stream that never mentions multipart/form-data may be cut anywhere |
| HttpRoundTrip.PipelinedRoundTrip | HttpConnection.cpp:49-217 | any number of well-formed requests, pipelined and cut in any allowed way, are handled in order and once each, with their method, path, version and lower-cased last-wins headers, and no byte is left |
| HttpRoundTrip.PlainPipelinedRoundTrip | HttpConnection.cpp:49-217 | without uploads under every cut |
| HttpRoundTrip.EachIsHandled | HttpConnection.cpp:33-42 | the events of a pipeline hold one handling for each request, in order, with the saved files and the count of `open` calls that the requests before it left |
| HttpRefusals.RequestLineVerdict | HttpConnection.cpp:73-94 | exactly which request lines are refused: over 8192 bytes with 414, fewer than three words with 400, a path over 2048 bytes with 414; any other is accepted with its words |
| HttpRefusals.ParsingGoesOn | HttpConnection.cpp:73-84 | behind a refused request line any number of well-formed requests are handled all the same |
| HttpRefusals.HeaderLineVerdict | HttpConnection.cpp:96-183 | exactly what becomes of a header line: 431 over 8192 bytes or behind a hundred headers, 400 without a colon, else name and value, without the character behind the colon |
| HttpRefusals.BadHeaderIsRefused | HttpConnection.cpp:96-178 | behind good lines a bad one refuses the request as it stands, and the pipeline behind it is handled |
| HttpRefusals.BadLengthIsRefused | HttpConnection.cpp:118-133 | a length that is no number is refused with 400, one over 2^30 with 413: at once, without 100 Continue, the body read as the next request |
| HttpRefusals.ContinueIsAnsweredIff | HttpConnection.cpp:107-142 | exactly which requests are answered with 100 Continue |
| HttpRefusals.IsUploadIff | HttpConnection.cpp:144-156 | exactly which requests are uploads, and with which boundary |
| HttpRefusals.ColonWithoutBlank | HttpConnection.cpp:180-182 | `Content-Length:5` adds an empty header, which is no number |
| HttpRoundTrip.LastFieldWins | HttpRequest.cpp:37-50 | the request received has, under a name in any case, the value of the last header line of that name, without leading blanks, and no header that no line names |
| HttpRoundTrip.AnnouncedLengthMatches | HttpConnection.cpp:118-133 | announcing the length of the body in its last header line, the name in any case, frames any message |
| HttpRoundTrip.EarlierFilesReachTheHandler | HttpRequest.cpp:84-92 | a request that is not an upload reaches the handler with the saved files of the last upload before it, and with none if there is no upload before it |
| HttpUploads.ClearCutsAreAllowed | HttpConnection.cpp:187-209 | a stream whose requests are all handled in the end may be cut anywhere but right after a delimiter of one of its uploads, or one byte later |
| HttpUploads.ClearPipelinedRoundTrip | HttpConnection.cpp:49-217 | the pipelined round trip, uploads among the requests, under all clear cuts |
| HttpUploads.UploadRoundTrip | HttpConnection.cpp:219-228 | any form of a pipeline of well-formed requests, cut in any allowed way, reaches the handler with its whole body, the names of exactly the files that could be opened, after the `open` calls of the forms before it, and their contents byte for byte |
| HttpUploads.ClearUploadRoundTrip | HttpConnection.cpp:219-228 | the same under all clear cuts |
| HttpUploads.FormIsAnUpload | HttpConnection.cpp:118-158 | the usual form request, for every boundary without a return of at most 1000 bytes and every body within the limit, is such an upload |
| HttpUploads.UnsafeDeliveryLosesThePart | HttpConnection.cpp:187-209 | what the other cuts cost: delivered in two pieces, the first up to a delimiter or one byte further, an upload reaches the handler without the part behind it and otherwise complete |
| HttpUploads.ClosingDeliveryIsHarmless | HttpConnection.cpp:187-209 | a delivery that ends in the trailer of the closing delimiter costs nothing when `--` and the epilogue do not contain the delimiter |
| HttpUploads.EpilogueIsUploaded | HttpConnection.cpp:187-209 | and otherwise the parts that the epilogue reads as reach the handler behind the real ones |
| HttpUploads.AFileIsLost | HttpConnection.cpp:187-209 | a form with one file that is saved when delivered at once and lost when delivered in two pieces |
| HttpUploads.AGetCarriesTheFile | HttpRequest.cpp:84-92 | a form with one file that can be opened, then a GET: the GET reaches the handler with that file in its list |
| HttpConnection.HttpConnection.EndHeaders | HttpConnection.cpp:104-163 | the blank line: 100-continue, length errors, the size limit and the creation of the upload parser, as specified |
| HttpConnection.HttpConnection.TakeHeaderLine | HttpConnection.cpp:96-183 | limits, missing colon, the line that ends at its colon, and storing the header |
| HttpConnection.HttpConnection.TakeBody | HttpConnection.cpp:186-209 | the parser is given the smaller of what is needed and what is there, never a byte of the next request |
| HttpConnection.HttpConnection.ParseRequest | HttpConnection.cpp:49-217 | the inner loop stops at the specified connection, with a finished request exactly when it returns true |
| HttpConnection.HttpConnection.OnMessage | HttpConnection.cpp:19-47 | the outer loop handles every request that the buffer completes and leaves buffer and state as specified |
| ByteBuffer.Buffer.Retrieve | Buffer.cpp:32-38 | moving or resetting the indices drops the first bytes of the queue |
| ByteBuffer.Buffer.EnsureWritable | Buffer.cpp:62-67 | growing the array changes no readable byte and makes the room asked for |
| ByteBuffer.Buffer.Append | Buffer.cpp:74-81 | the array grown and written in place is the old queue with the data at its end |
| TcpOutput.RunKeepsInv | TcpConnection.cpp:93-221 | in every state of every orderly run of an open connection: wire, buffer and rest of the file are, joined, everything accepted; EPOLLOUT is wanted whenever something is pending; and the buffer is within the high-water mark |
| TcpOutput.EveryShutdownComesLast | TcpConnection.cpp:208-245 | in every such run SHUT_WR is issued only when everything accepted is on the wire |
| TcpOutput.EveryShutdownIsIssued | TcpConnection.cpp:217-245 | in every run of an open connection a shutdown that was asked for has been issued as soon as no write interest is left, at once if there was none |
| TcpOutput.NoShutdownUnasked | TcpConnection.cpp:217-245 | and none is issued that was not asked for |
| TcpOutput.SendIsAllOrNothing | TcpConnection.cpp:93-145 | exactly which messages are accepted, when they are offered to the kernel at once, what is then on the wire and in the buffer, and when reading pauses |
| TcpOutput.NothingWaitsNeedlessly | TcpConnection.cpp:112-118 | as long as the kernel takes every message whole, all that was sent is on the wire and nothing is buffered |
| TcpOutput.WriteMovesWhatIsTaken | TcpConnection.cpp:167-205 | a write event puts on the wire what the kernel takes of the buffer, then of the file if the buffer is empty or nothing of it was taken |
| TcpOutput.ClosesIff | TcpConnection.cpp:176-203 | exactly what closes an open connection: an error of `write` or `sendfile`, or `handleClose`; not an error of `send`; `handleClose` leaves a closed connection as it is |
| TcpOutput.AlwaysWaiting | TcpConnection.cpp:139-161 | pending output implies EPOLLOUT interest under every sequence of calls and answers, orderly or not |
| TcpOutput.DrainFinishes | TcpConnection.cpp:167-221 | however often the kernel refuses in between, once as many calls as a measure on the remaining bytes have moved something, everything is on the wire, the write interest and a pause have ended, and a pending shutdown has been carried out once |
| TcpOutput.IncompleteFileNeverDrains | TcpConnection.cpp:183-205 | a file range that is empty or too long keeps EPOLLOUT wanted for ever, without a shutdown |
| TcpOutput.PauseAlwaysEnds | TcpConnection.cpp:93-145 | backpressure: in every run of an open connection whose messages are each within the mark, the buffer never exceeds the mark, pending output and paused reading always have the EPOLLOUT interest whose drain ends both, and it reads unless it is paused |
| TcpOutput.PauseEndsIff | TcpConnection.cpp:96-107 | exactly which messages pause reading with no write interest to resume it: those above the mark that find none |
| TcpOutput.PauseStillEnds | TcpConnection.cpp:208-215 | every other operation keeps a paused connection waiting for the drain that resumes it |
| TcpOutput.SendKeepsOrderIff | TcpConnection.cpp:112-144 | exactly when every `send` keeps the order: no file bytes are outstanding, or no message would be accepted |
| TcpOutput.SendFileKeepsOrderIff | TcpConnection.cpp:155-159 | exactly when every `sendFile` does: no file bytes are outstanding |
| TcpOutput.OvertakingKeepsOrderIff | TcpConnection.cpp:176-197 | exactly when a `sendfile` behind a refused `write` in the same call keeps the order: the file bytes sent and the buffer read the same in either order |
| TcpOutput.HandleWriteKeepsOrderIff | TcpConnection.cpp:167-205 | exactly when `handleWrite` keeps the order whatever the kernel answers, errors aside: the buffer or the file is empty, or both are one and the same byte over and over |
| TcpOutput.OvertakingHappens | TcpConnection.cpp:176-197 | a run from a new connection, header and file, to a state in which one refused `write` and one byte of the file break the order |
| TcpOutput.SendingDuringAFileHappens | TcpConnection.cpp:112-159 | in that state a message overtakes the file, and a second file replaces it |
| TcpConnection.TcpConnection.PendingBytes | TcpConnection.h:90-96 | buffer plus rest of the file, if one is pending |
| TcpConnection.TcpConnection.SendInLoop | TcpConnection.cpp:93-145 | the high-water check, the direct write and the buffering over the mutable buffer and channel are the specified send |
| TcpConnection.TcpConnection.HandleWrite | TcpConnection.cpp:167-221 | the buffer first, then the file, then the end of writing, as specified for every pair of answers |
| TcpConnection.TcpConnection.HandleClose | TcpConnection.cpp:56-71 | once: interest ends and a pending file is dropped |
| TcpConnection.TcpConnection.ShutdownInLoop | TcpConnection.cpp:238-245 | at once or deferred, by the write interest |
| LoggerProtocol.RunKeepsInv | log/AsyncLogger.cpp:58-230 | under every interleaving of producers, logger thread, rolls, failing opens and stop: records given to the stream, in the batch, in full buffers and in the current one are, in this order, all appends; the files in roll order are the text of the records given to an open file, none split between files; at the loop condition the open file is below the roll size and only what was appended since the last swap has not been given to the stream |
| LoggerProtocol.SwappedIsWritten | log/AsyncLogger.cpp:180-223 | under every interleaving, everything appended before a swap has been given to the stream at the next loop condition, and is in the files if they could be opened |
| LoggerProtocol.NothingIsSwallowedIff | log/AsyncLogger.cpp:217-223 | exactly when every record is in the files or still in a buffer: none was written while its file was not open |
| LoggerProtocol.OpenRunKeepsAll | log/AsyncLogger.cpp:109-134 | so it is in every state of every run in which every file can be opened |
| LoggerProtocol.ClosedUntilNextDate | log/AsyncLogger.cpp:80-82 | a file that could not be opened is not tried again before the date changes, and until then the files stay as they are |
| LoggerProtocol.SwallowingHappens | log/AsyncLogger.cpp:166-229 | a run of one round in which a record is gone |
| LoggerProtocol.ExitRemainder | log/AsyncLogger.cpp:180-214 | when the thread leaves, what has not been given to the stream is exactly the current buffer; nothing is lost exactly when nothing was appended since the last swap and nothing was swallowed |
| LoggerProtocol.LateRecordIsLost | log/AsyncLogger.cpp:180-180 | an append just before the last loop condition is lost |
| LoggerProtocol.FullBufferIsHandedOver | log/AsyncLogger.cpp:62-75 | a record that leaves no room in the current buffer hands it to the logging thread and starts an empty one |
| LoggerProtocol.IdleRoundTakesNothing | log/AsyncLogger.cpp:187-214 | a round in which nothing was appended takes no buffer |
| LoggerProtocol.BuffersStayBounded | log/AsyncLogger.cpp:58-214 | in every state of every run no buffer exceeds 4096 bytes, if no record does; for longer records, 8192 bytes or the longest record |
| LoggerProtocol.StopLosesAtMost | log/AsyncLogger.cpp:180-214 | so when the thread leaves, at most that many bytes have not been given to the stream |
| LoggerProtocol.RolledFilesAreFull | log/AsyncLogger.cpp:80-119 | within one date a file is rolled exactly when it has reached the size |
| LoggerProtocol.NoFileSpansTwoDates | log/AsyncLogger.cpp:122-140 | whenever the date has changed a file has been rolled, and rolled files stay as they are |
| LoggerProtocol.DateChangeRolls | log/AsyncLogger.cpp:131-136 | a round on a new date starts a file, with the counter of the old one; only a roll decides anew whether a file is open |
| LoggerProtocol.NextFileIsShort | log/AsyncLogger.cpp:85-136 | so a file that was started on a new date is rolled with one batch that is shorter than the size |
| AsyncLogger.AsyncLogger.Append | log/AsyncLogger.cpp:58-77 | the append under the lock is the specified one: it fits, or the buffer is handed over and the spare or a new one is used |
| AsyncLogger.AsyncLogger.SwapBuffers | log/AsyncLogger.cpp:181-214 | the critical section of the logger thread is the specified swap and refill |
| AsyncLogger.AsyncLogger.WriteBatch | log/AsyncLogger.cpp:217-223 | the loop gives the whole batch to the stream in order, which keeps it if the file is open |
| AsyncLogger.AsyncLogger.RollFileIfNeeded | log/AsyncLogger.cpp:80-119 | rolling by size leaves a file that is not open alone; otherwise it moves the open file to the rolled ones and resets the counter |
| AsyncLogger.AsyncLogger.RollFileByDate | log/AsyncLogger.cpp:122-140 | rolling by date does not reset the counter |
| AsyncLogger.AsyncLogger.Round | log/AsyncLogger.cpp:180-229 | a round that nobody interrupts gives everything appended to the stream |
| AsyncLogger.AsyncLogger.Stop | log/AsyncLogger.cpp:50-56 | `stop` while the thread is at its loop condition, with no more appends: the thread leaves, and everything is given to the stream but what the current buffer holds, and that too if the loop is entered once more |
| LoopProtocol.RunKeepsInv | EventLoop.cpp:51-149 | in every state of every interleaving: a queue with tasks has a readable eventfd, a thread about to make it readable, or the loop thread between reading it and the swap, so `poll` cannot hang; tasks start at most once, in posting order |
| LoopProtocol.PostedBeforeSwapIsRun | EventLoop.cpp:136-149 | every task posted before a swap has been started at the next loop condition, whatever is posted meanwhile |
| LoopProtocol.TurnStartsAll | EventLoop.cpp:51-63 | a turn that nobody interrupts starts everything posted |
| LoopProtocol.TurnIsARun | EventLoop.cpp:51-63 | and such a turn is a run of the state machine |
| LoopProtocol.QuitIsHonoured | EventLoop.cpp:51-63 | after a quit request the loop is left at its next condition |
| EventLoop.EventLoop.RunFunctors | EventLoop.cpp:146-148 | the loop starts the batch in order |
| EventLoop.EventLoop.LoopOnce | EventLoop.cpp:51-63 | a turn of the loop: poll, wakeup, swap, tasks; everything posted has been started |
| TimerProtocol.InsertKeepsOrder | TimerQueue.h:28-38 | insertion by expiration and then address keeps the set ordered and adds exactly one timer |
| TimerProtocol.DueIsComplete | TimerQueue.cpp:56-63 | stopping at the first unexpired timer misses none |
| TimerProtocol.EveryRunIsInTime | TcpConnection.cpp:247-277 | in every state of every run, connections that a shutdown reopens included: a connection has at most one timer that can still fire, set a full 60 s after its last refresh; no callback has run twice; and no timeout has closed a connection less than 60 s after its last refresh |
| TimerProtocol.OnlyLiveTimersRun | Timer.h:16-21 | a callback runs neither early, nor twice, nor after its timer was cancelled, even while it waited among the expired ones |
| TimerProtocol.CancelStopsAll | TcpConnection.cpp:74-80 | after `connectDestroyed` or a refresh no earlier timer of the connection can fire |
| TimerProtocol.HandleReadRunsExactlyTheDue | TimerQueue.cpp:45-70 | a call runs exactly the expired timers that were not cancelled, once each, and leaves exactly the others |
| TimerProtocol.HandleReadClosesTheIdle | TcpConnection.cpp:257-277 | a call closes exactly the connections that still exist and have not been refreshed for 60 s, and touches no other |
| TimerProtocol.EveryIdleConnectionIsClosed | TcpConnection.cpp:247-277 | in every run, a connection that is neither destroyed nor reopened always has a live timer while it is open, so the first call that comes 60 s after its last refresh closes it |
| TimerProtocol.ActivityPostponesTheTimeout | TcpConnection.cpp:41-47 | in every run, no timeout that comes after a refresh comes less than 60 s after it |
| TimerProtocol.ReopenedIsForgotten | TcpConnection.cpp:238-277 | a run in which a connection that timed out is open again without a live timer |
| TimerProtocol.DestroyedNeverTimesOut | TcpConnection.cpp:74-80 | in every run, after `connectDestroyed` no timeout reaches the connection unless it is refreshed again |
| TimerQueue.TimerQueue.AddTimer | TimerQueue.cpp:24-42 | a new object in its place: the set stays ordered and gains exactly it |
| TimerQueue.TimerQueue.CollectExpired | TimerQueue.cpp:52-63 | the first loop moves exactly the expired timers, in order |
| TimerQueue.TimerQueue.RunExpired | TimerQueue.cpp:64-67 | the second loop runs them in order, skipping cancelled ones |
| TimerQueue.TimerQueue.HandleRead | TimerQueue.cpp:45-70 | both loops together: what is due has run once, and only that; exactly the idle connections have been closed |
| TimerQueue.TimerQueue.RefreshAlive | TcpConnection.cpp:247-266 | the old timer is cancelled and a new one armed; the set stays ordered and gains exactly the new one |
| ServerLifecycle.EveryRunIsSafe | TcpServer.cpp:49-147 | in every state of every interleaving of all loops: a connection is established at most once and only before it is destroyed; every destruction answers a removal and every removal a close; epoll, and the list of channels about to be handled, refer only to living connections of their own loop |
| ServerLifecycle.TasksRunWhereTheyBelong | TcpServer.cpp:137-147 | establishment and destruction run on the connection's own loop, in this order; `connections_.erase(fd)` removes the entry of that very connection or nothing, never one of a newer connection on the same descriptor |
| ServerLifecycle.AcceptOverwritesNothing | TcpServer.cpp:87-87 | entering a connection never replaces another one |
| ServerLifecycle.FreeIsSafe | TcpConnection.cpp:25-32 | when the last shared pointer goes, the connection has been established and destroyed, epoll does not know its channel, and no loop is about to use it |
| ServerLifecycle.NothingLeaks | TcpServer.cpp:137-147 | when no task is left, every connection is in the map and was never closed, or nobody refers to it any more |
| ServerLifecycle.EveryOpenConnectionListens | TcpConnection.cpp:34-39 | in every state of every interleaving, an established connection that was never closed is registered with epoll and reads unless it is paused; a timeout closes it; closing takes it out of epoll; when destroyed it wants no events |
| ServerLifecycle.StateIsLeftByShutdown | TcpConnection.cpp:238-245 | exactly which operation leaves the state Disconnected: a shutdown that finds write interest |
| ServerLifecycle.CloseCallbackCount | TcpConnection.cpp:56-71 | exactly how often the close callback has run: once if the connection is Disconnected, and once more for every shutdown that revived it; so at most once when none did |
| ServerLifecycle.CloseCallbackCanRunTwice | TcpConnection.cpp:268-277 | a run from the start of the server in which one connection's close callback runs twice |
| TcpServer.BacklogIsServed | TcpServer.cpp:49-94 | one call of `handleAccept` enters every pending connection under its descriptor, gives them to the loops in turn, posts one establishment each, and changes nothing that was there |
| TcpServer.InTurnIsRoundRobin | EventLoopThreadPool.cpp:27-37 | connection i of a backlog goes to the loop i places after the first one, round and round |
| TcpServer.RunAllEmptiesTheBatch | EventLoop.cpp:136-149 | running a batch runs every task of it and posts nothing to the loop itself |
| TcpServer.TcpServer.GetNextLoop | EventLoopThreadPool.cpp:27-37 | round robin over the thread pool |
| TcpServer.TcpServer.HandleAccept | TcpServer.cpp:49-94 | the accept loop over the map and the task queues is the specified one, and keeps every invariant of the server |
| TcpServer.TcpServer.RemoveInLoop | TcpServer.cpp:137-147 | the removal task: the entry is erased and the destruction posted to the connection's loop |
| TcpServer.TcpServer.DoPendingFunctors | EventLoop.cpp:136-149 | one loop's tasks on connections: afterwards its queue is empty, its references are dropped, and every invariant holds |

## Left out

- The system calls themselves: `accept`, `read`, `write`, `sendfile`, `epoll_wait`, `open`, `rename`, `timerfd_settime` appear as
  answers or as steps that may happen at any time; `Buffer::readFd` and `writeFd` are not modelled.
- Writes to an open file are complete: `MultipartStreamParser.cpp:57` and `:72` ignore short ones, and the model has none.
- What a saved file contains after another connection writes a file of the same name; the model records what each
  parser wrote.
- Timely firing: `TimerQueue.cpp:81-91` disarms the timer descriptor when the next timer is already due, so only safety
  of timers is stated. A new timer has an address of its own; reuse of the addresses of dead timers is not modelled.
- `TimerQueue.HandleRead` lets nothing but timeouts happen while it runs its batch; the state machine `TimerProtocol` lets every
  step happen between any two callbacks.
- `ServerLifecycle.Act` may put a channel back into epoll on every operation that can call `updateChannel`, also where
  the code does not; a timeout may fire whenever its loop dispatches. Both add runs, and the run of
  `CloseCallbackCanRunTwice` needs neither.
- `runInLoop` executes at once on the loop's own thread; in the server it is only called from other threads, and only
  posting is modelled. A thread pool without threads is not modelled: `start` creates four before anything is accepted.
- Responses: their text, the status lines of errors (`HttpConnection.cpp:236-251`; the rows above give their numbers),
  `Connection` handling, routes, `Range` (`HttpRequest.cpp:116-136`), files served, HTML, configuration.
  `HttpRequest::appendBody` and the unused `HttpConnection.cpp:325-371` are not modelled.
- `std::tolower` and white space are those of ASCII; `std::string` sizes do not overflow.
- `cleanOldFiles`, colliding names of rolled files, a `rename` that fails, what a log file held before, and formatting of
  log records. The capacity of a log buffer follows the growth rule of libstdc++ (the larger of twice the capacity and
  the size needed).
- `TcpOutput.RunKeepsInv`: states order and conservation for orderly runs of connections that have not been closed; what is pending
  when a connection breaks is dropped by the code.
- MultipartWhole.StreamRefinesWhole: is about bodies that both parsers accept; on malformed ones `parseAll` fails where the
  streaming parser keeps what it has read.
- `epoll_echo_server.cpp`, signal handling, and thread start-up.
