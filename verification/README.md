# Verified model of a small HTTP server

This project models an HTTP server written in Rust, which can run sequentially, with a thread pool, or as a
selector event loop, and proves what its parts promise each other. `dafny verify dfyconfig.toml` checks it all.

| file | models |
|---|---|
| `Text.dfy` | searching, splitting, trimming, number formats |
| `Requests.dfy`, `RequestGrammar.dfy` | the resumable request parser (`src/http.rs`) and the language it accepts |
| `Responses.dfy` | the response writer (`src/http.rs`) |
| `Rfc7230.dfy`, `Framing.dfy`, `ClientView.dfy` | a response reader written from RFC 7230 alone, the proof that it inverts the writer, and what a client reads in registered codes and names |
| `Sequential.dfy` | the blocking driver (`src/seq.rs`) |
| `Selector.dfy` | the event loop (`src/select.rs`): a class, and the functions that specify it |
| `SelectorInvariant.dfy`, `SelectorCommands.dfy`, `SelectorEvents.dfy`, `SelectorRuns.dfy` | the invariant of the loop, kept by every command, event, iteration and run |
| `SelectorEvolution.dfy`, `SelectorEndings.dfy`, `SelectorFailures.dfy` | how connections move on, and exactly when and why each one ends |
| `SelectorListener.dfy` | when the listener closes, and which connections it adds |
| `SelectorTheorems.dfy`, `SelectorProgress.dfy` | what follows for a user of the loop: safety, refinement, and that requests are answered |
| `Pool.dfy`, `PoolDispatch.dfy` | the thread pool as interleaved steps, and its dispatcher as loops (`src/pool.rs`, `src/main.rs`) |
| `Config.dfy`, `ConfigGrammar.dfy` | the configuration parser (`src/config.rs`, `src/parse.rs`) and the files it accepts |
| `Calendar.dfy`, `Dates.dfy`, `DateGrammar.dfy`, `Files.dfy`, `FileView.dfy` | calendar, RFC 1123 dates and the texts their parser accepts or panics on, file responses and cache validation (`src/time.rs`, `src/files.rs`) |

How the environment appears:

* Bytes are characters; the text is ASCII, on which the UTF-8 checks of the source never fail. Reads may be of any size.
* Each event of a poll carries the results of the system calls its handler will make (`input`, `output`, `accepts`,
  `line`); when a script runs out, the next call would block. A run is any sequence of polls, with the main thread's two
  start-up commands sent at any point between them.
* Assumed of a poll (`SelectorRuns.Reports`): it reports registered tokens, each at most once, and a write that is
  offered bytes takes at least one. Dropping a source deregisters it.
* `retired` and `Wire` record what the operating system sees of a source after it is dropped and of a socket; the code
  never reads them.
* The clock is any function; the timeout theorem does not even need it to be monotone.
* The request handler is any function of the request and the load flag. The order in which a header map is iterated is
  an argument (`Order`), about which nothing is known but that it lists the keys.
* A panic of the date parser is an outcome of its own (`Dates.Outcome.Panic`).

Where the code does not do what one would expect, the model follows the code and the exact condition is proved:

* An empty file is announced with a length of 2 and no bytes follow: `Files.ServedFileReadsBack` (an equivalence), on
  top of `Framing.SelfDelimitingOnlyIfFramed`, which says for every response exactly when its framing is right.
* A failed accept costs the pool one worker for good; when that has happened as often as there are workers the
  dispatcher hangs: `Pool.StuckOnlyWhenAllLost` (an equivalence), and `Pool.HangIsReachable` runs every pool into it.
* A file once served by one `Host` is never refreshed by it (a worker of the pool has one `Host`, as has the sequential
  server; the selector makes a new one for every connection), although `README.md` of the server says only unmodified files are withheld:
  `Files.ChangedFileIsServedStale`, and `Files.ServedIsCurrent` (an equivalence) says after which requests what is
  served is what is on disk.
* The date parser panics on a text that ends too early or gives a date or time that does not exist:
  `DateGrammar.PanicsExactly` (an equivalence over the characters of the text), with inputs in
  `DateGrammar.TextsThatPanic`.
* So does a conditional request with such a text, with a date before 1970, or for a file whose time on disk goes back
  below the date it sends: `Files.ConditionalPanics` (an equivalence), with inputs in `Files.RequestsThatPanic`;
  `Files.ValidatorRoundTrip` gives the outcome for every pair of times.
* A request without any header line is refused, because the line after the request line must be a header line:
  `RequestGrammar.NoHeadersRefused`, and `RequestGrammar.RefusesExactlyFaults` (an equivalence) says of every text
  whether it is refused.

## Model

| member | source | states |
|---|---|---|
| Text.DecimalRoundTrip | src/http.rs:13-16 | a length printed in decimal reads back as itself, or not at all if it exceeds the integer type |
| Text.UnsignedExactly | src/http.rs:117 | the texts an unsigned integer type accepts: a plus sign if there is one, and decimal digits, worth ten times as much one place to the left |
| Text.TrimExactly | src/http.rs:151 | trimming takes off all whitespace on either side and nothing else |
| Text.NumeralIs | src/http.rs:50 | lengths and sizes are printed in decimal or lower-case hexadecimal, most significant digit first, without leading zeros |
| Requests.DeclaredLengthExactly | src/http.rs:114-122 | the body length is what a Content-Length of at most 64 bits spells, or zero without one |
| Requests.ParserInvariant | src/http.rs:57-145 | whatever the parser returns is a full request of exactly the announced length or a state in which nothing more can be parsed; a body under way accounts for every announced byte; "already full" never arises |
| Requests.ResumeFrom | src/http.rs:57-145 | parsing two pieces one after the other is parsing their concatenation, from any state |
| Requests.FragmentationIndependence | src/http.rs:57-145 | for every way of cutting the bytes, folding the parser over the pieces ends in the same state, request or error as parsing them at once |
| Requests.ParsePrefix | src/seq.rs:26-31 | a completed request, or an error, does not change when more bytes follow |
| RequestGrammar.LastValueWins | src/http.rs:99-125 | of several header lines with the same key the last one's value is kept |
| RequestGrammar.UntouchedField | src/http.rs:99-125 | a key that no header line names is not in the map |
| RequestGrammar.GrammarAccepted | src/http.rs:57-180 | every text made of a request line, header lines, an empty line and the announced body is parsed to the request it denotes |
| RequestGrammar.AcceptedInGrammar | src/http.rs:57-180 | whatever is parsed to a full request is such a text |
| RequestGrammar.AcceptsExactlyTheGrammar | src/http.rs:57-180 | the parser accepts exactly the texts of requests |
| RequestGrammar.RequestLinesExactly | src/http.rs:157-180 | by its characters, a request line is accepted exactly when it is method, target and version between single spaces, with anything behind a further space |
| RequestGrammar.RequestLineErrors | src/http.rs:157-180 | which part of a request line is reported missing, by its characters |
| RequestGrammar.HeaderLinesExactly | src/http.rs:147-155 | by its characters, a header line is accepted exactly when it has a colon, and gives its key and the value without the whitespace around it |
| RequestGrammar.RefusesExactlyFaults | src/http.rs:57-145 | a text is refused exactly when it has a bad request line, a bad header line or a bad length; at any other the parser has its request or waits for more |
| RequestGrammar.NoHeadersRefused | src/http.rs:81-97 | a request line with no header line behind it is refused, whatever follows |
| RequestGrammar.LoneRequestLineRefused | src/http.rs:81-97 | so is every printed one |
| RequestGrammar.RequestLineRoundTrip | src/http.rs:157-180 | a printed request line parses back, its query cut at the first question mark |
| RequestGrammar.HeaderRoundTrip | src/http.rs:147-155 | a printed header line parses back to its key and trimmed value |
| RequestGrammar.RequestRoundTrip | src/http.rs:57-180 | a printed request, cut anywhere and followed by anything, parses back to itself |
| Responses.WriteResponse | src/http.rs:11-24 | the writer produces the plain or the chunked form of the response |
| Responses.PrintHeader | src/http.rs:232-244 | the header block is the status line and one line for each header in map order |
| Responses.WriteChunked | src/http.rs:26-47 | the header block without Content-Length and with chunked coding, then full chunks, remainder and last chunk |
| Responses.WriteChunk | src/http.rs:49-55 | one chunk: hexadecimal size, CRLF, data, CRLF |
| Framing.ChunkedRoundTrip | src/http.rs:26-55 | decoding the chunked body by section 4.1 of RFC 7230 gives the body and leaves exactly what follows |
| Framing.ReadPrintedFields | src/http.rs:236-241 | the printed header lines read back as the same names and trimmed values |
| Framing.LookUp | src/http.rs:236-241 | whatever the iteration order, looking a name up in what was printed finds its one value |
| Framing.SelfDelimiting | src/http.rs:11-47 | a well-framed response followed by anything is read back whole by section 3.3.3 of RFC 7230, and no byte more |
| Framing.SelfDelimitingOnlyIfFramed | src/http.rs:11-47 | and only a well-framed one is, for every response |
| ClientView.ClientReads | src/http.rs:11-47 | from what is written for a response a client reads its registered status code, its fields under their registered names and no other, and its body |
| ClientView.ChunkedUnlessShort | src/http.rs:13-18 | the body is chunked unless a Content-Length of at most 1024 is announced |
| ClientView.ChunksAreFull | src/http.rs:33-45 | the chunks have 1024 bytes each, and the last one what remains |
| ClientView.HeaderBytes | src/http.rs:232-310 | the header block byte for byte |
| Sequential.Process | src/seq.rs:7-42 | the driver answers exactly when the received bytes hold a full request, with the answer to it or as much as the peer takes, succeeds exactly when all of it was taken, and otherwise fails having sent nothing; cutting does not matter |
| Sequential.AnswerIgnoresSuffix | src/seq.rs:28-37 | bytes behind the request do not change the answer |
| Sequential.AnswerIs | src/seq.rs:34-38 | the answer to a full request is the handler's response to it under the load flag passed in |
| Sequential.ClientReadsAnswer | src/seq.rs:34-38 | and a client reads that response from it |
| Selector.EventLoop.constructor | src/select.rs:25-31 | the loop starts empty |
| Selector.EventLoop.Submit | src/select.rs:39-41 | a command goes to the end of the queue |
| Selector.EventLoop.Next | src/select.rs:43-89 | one iteration: the events in order, then the queue until empty, then what was asked to be queued again |
| Selector.EventLoop.ProcessEvent | src/select.rs:50-67 | the source is taken out, handles the event and is put back with its commands queued, or is dropped if its handler fails |
| Selector.EventLoop.ExecuteCommand | src/select.rs:91-126 | the effect of each command response on sources, registry and queue |
| Selector.EventLoop.Dispatch | src/select.rs:190-196 | the handler is chosen by the kind of source and the state of the connection |
| Selector.EventLoop.AcceptConnections | src/select.rs:320-352 | every waiting connection gets the next token and two commands; a failed accept drops the listener |
| Selector.EventLoop.ReadStream | src/select.rs:222-271 | reading until the socket blocks, ends, fails, or the request is complete or malformed |
| Selector.EventLoop.WriteStream | src/select.rs:273-309 | writing until the socket blocks or fails, or everything is sent |
| SelectorInvariant.ReadAllSound | src/select.rs:227-258 | the parse state stored with a stream is what parsing everything it received yields |
| SelectorInvariant.WriteAllSound | src/select.rs:276-296 | bytes sent followed by bytes remaining are the answer, after any partial writes |
| SelectorInvariant.WriteAllFinishes | src/select.rs:276-305 | writes of any positive sizes send everything, in at most one write more than there are bytes |
| SelectorInvariant.ReadEvent | src/select.rs:222-271 | a read event leaves the stream reading, dooms it after malformed bytes, or hands its one request to the handler |
| SelectorInvariant.WriteEvent | src/select.rs:273-309 | a write event keeps the answer whole and asks to be closed only when it is all sent |
| SelectorCommands.CheckOutcome | src/select.rs:355-380 | a check closes its stream exactly when that still reads and is 60 seconds old by now, is repeated exactly when it reads and is not, and lapses otherwise |
| SelectorCommands.NewcomerIsFresh | src/select.rs:94-98 | a source about to be added has a token no source has or had |
| SelectorCommands.CommandKeeps | src/select.rs:91-126 | every command keeps the invariant of the loop |
| SelectorCommands.DrainKeeps | src/select.rs:69-86 | the command phase keeps it, with the times of its checks |
| SelectorEvents.AcceptAllBirths | src/select.rs:320-351 | accepting gives out tokens above the counter, each once, the new source directly before its check |
| SelectorEvents.OldTokens | src/select.rs:325-326 | no token in use or retired exceeds the listener's counter |
| SelectorRuns.EventKeeps | src/select.rs:50-67 | every event keeps the invariant of the loop |
| SelectorRuns.IterationKeeps | src/select.rs:43-89 | an iteration never meets an unknown token, leaves everything settled, and no reading stream overdue |
| SelectorRuns.RunKeeps | src/select.rs:33-37 | so does every run |
| SelectorEndings.EventsDecide | src/select.rs:50-67 | the events of a poll act on each source as its own event alone, and what was queued stays in front |
| SelectorEndings.DroppedByFailure | src/select.rs:220-312 | a handler drops a connection only after a failed read while reading or a failed write while writing |
| SelectorEndings.CloseMeansDoomed | src/select.rs:246-305 | the closing of a stream is queued exactly when it has answered or received malformed bytes |
| SelectorEndings.DrainDecides | src/select.rs:69-126 | the command phase ends a stream exactly when that is so, or it still reads and is 60 seconds old at its own check |
| SelectorEndings.IterationDecides | src/select.rs:43-127 | an iteration is for each connection a step of its own: the exact state it goes on in, or exactly when it ends |
| SelectorFailures.DroppedExactly | src/select.rs:228-295 | a handler drops a connection exactly when a read fails before its request is complete or a write fails before its answer is sent |
| SelectorFailures.FailureEnds | src/select.rs:50-67 | and then the iteration retires it |
| SelectorListener.ListenerDecides | src/select.rs:320-395 | an iteration closes the listener exactly when an accept failed or someone typed "shutdown", and otherwise counts the connections it got; the console stays |
| SelectorListener.NewConnectionsExactly | src/select.rs:320-352 | the iteration's new connections are those the listener got, under the next tokens, and none if an accept failed |
| SelectorEndings.AcceptedIsRegistered | src/select.rs:320-352 | every accepted connection is registered reading under the next token, unless it is 60 seconds old by then |
| SelectorEndings.IterationEnds | src/select.rs:43-127 | in an iteration a connection, old or new, ends only with nothing left to do, on its own failed read or write, or late while reading |
| SelectorEndings.RunEnds | src/select.rs:33-37 | so in every run each connection that is over has such a cause in one of the polls |
| SelectorTheorems.EveryRunIsConsistent | src/select.rs:43-127 | in every run registered tokens are those of the sources, reading streams are registered readable with exactly one check waiting, writing ones writable, none is left closing |
| SelectorTheorems.TimeoutSafety | src/select.rs:354-380 | no stream survives reading an iteration whose commands run 60 seconds or more after it was accepted |
| SelectorTheorems.NoEarlyTimeout | src/select.rs:354-380 | nor is a stream closed that still reads and is younger than 60 seconds at every command, unless its bytes are malformed or its read failed |
| SelectorTheorems.FirstCheckFindsStream | src/select.rs:334-341 | the first timeout check of a stream finds it in the map |
| SelectorTheorems.SendsOnlyItsAnswer | src/select.rs:220-312 | a connection has its handler called exactly once after a full request, never before, and has sent a beginning of the answer to it |
| SelectorTheorems.SelectorRefinesSequential | src/select.rs:220-312 | in every run a connection that is over, met no I/O error and did not time out sent exactly what the sequential server sends for the same stream of bytes, which is nothing if they are malformed |
| SelectorTheorems.NeitherAnswersMalformed | src/select.rs:246-252 | after a parse error neither server sends anything or calls the handler |
| SelectorProgress.AnswerIsFinished | src/select.rs:273-305 | an answer under way is completed, and its connection closed, by one iteration in which the socket takes enough |
| SelectorProgress.RequestIsHandled | src/select.rs:222-263 | a connection whose event brings the rest of its request goes on to write the answer to it, even when it is due to time out |
| SelectorProgress.TwoPollsServe | src/select.rs:220-312 | a poll that brings the rest of a request and one that takes the answer serve a connection completely |
| SelectorProgress.AnswersAreFinished | src/select.rs:273-305 | over any run, a writing connection without a failed write ends closed with its whole answer sent once more writes took something than it had bytes left |
| SelectorProgress.RequestsAreHandled | src/select.rs:222-263 | over any run, a request that arrives in any portions, in time and without a failed read, is handed to the handler once |
| SelectorProgress.RunServes | src/select.rs:220-312 | so a run that delivers a request and then takes enough writes serves the connection completely, with the sequential answer |
| SelectorEvolution.HandlerMovesForward | src/select.rs:220-312 | a stream only moves from Read to Write to Close, and its history only grows |
| SelectorEvolution.IterationEvolves | src/select.rs:43-127 | an iteration never replaces a live source nor reuses a token |
| SelectorEvolution.RunEvolves | src/select.rs:33-37 | nor does any run |
| SelectorFailures.Started | src/main.rs:66-79 | once started, the console is registered under token 0 and the listener under token 1, its counter at 1 |
| SelectorTheorems.Serve | src/main.rs:60-82 | the event loop object, started and run as the server does, follows these runs and is consistent wherever they end |
| Pool.WorkerStepConserves | src/pool.rs:32-43 | a step of a worker keeps every number accounted for |
| Pool.DispatcherStepConserves | src/main.rs:90-107 | so does a step of the dispatcher |
| Pool.PoolConserves | src/main.rs:89-111 | in every interleaving a waiting worker is accounted for in exactly one place, any other in none, and failed accepts and lost numbers agree |
| Pool.DeliveryIsSafe | src/main.rs:104-105 | a connection goes to a waiting worker with an empty inbox; sent with the flag down, another worker waits announced |
| Pool.FlagIsFirstLook | src/main.rs:95-99 | the load flag goes up exactly when the drain's first look finds the channel empty |
| Pool.FlagsArrive | src/pool.rs:33-38 | in every run the load flags with which a worker serves its connections are those they were sent with, in order |
| Pool.ServesUnderOneFlag | src/pool.rs:35-37 | and a flag does not change while its connection is served |
| Pool.NumbersComeInOrder | src/main.rs:93-102 | in every run the dispatcher takes numbers from the ready channel in the order they were put there |
| Pool.DrainIsBounded | src/main.rs:95-98 | the drain collects fewer numbers than there are workers |
| Pool.StuckOnlyWhenAllLost | src/main.rs:90-111 | some step is always possible, except exactly when the dispatcher waits and every number is lost; fewer failed accepts than workers never suffice |
| Pool.HangIsReachable | src/main.rs:90-111 | a pool of any size comes to a halt after as many failed accepts as it has workers |
| Pool.WaitEnds | src/main.rs:93 | while the dispatcher waits, workers take at most three steps each, and then a number is there |
| PoolDispatch.ThreadPool.constructor | src/pool.rs:18-26 | the workers are spawned with empty channels |
| PoolDispatch.ThreadPool.WorkerMoves | src/pool.rs:32-43 | a worker's announcement, receipt and completion |
| PoolDispatch.ThreadPool.Drain | src/main.rs:95-99 | the drain loop ends although workers go on announcing themselves |
| PoolDispatch.ThreadPool.Refill | src/main.rs:100-102 | every number drained goes back |
| PoolDispatch.ThreadPool.DeliverTo | src/main.rs:104-105 | the connection reaches a waiting worker; the thread number is never out of bounds |
| PoolDispatch.ThreadPool.PassToWorker | src/main.rs:92-107 | the dispatcher's loops are a run of the interleaved steps, whatever the workers do between them |
| Config.ParseServerConfig | src/config.rs:43-60 | the loop over a file computes the parse and ends on every input |
| Config.ReadVirtualHost | src/config.rs:69-83 | the loop over a block computes its parse |
| ConfigGrammar.GrammarAccepted | src/config.rs:43-106 | every file made of empty lines, directive lines and blocks is accepted with what it means |
| ConfigGrammar.AcceptsExactlyTheGrammar | src/config.rs:43-106 | the parser accepts exactly those files |
| ConfigGrammar.SettingsExactly | src/config.rs:62-67 | by its characters, a line is a directive exactly when it is a known name, a space and a value, with whitespace around them |
| ConfigGrammar.OpenLinesExactly | src/config.rs:85-94 | the lines that open a block, by their characters |
| ConfigGrammar.CloseLinesExactly | src/config.rs:96-106 | the lines that close one |
| ConfigGrammar.ConfigRoundTrip | src/config.rs:43-106 | a printed configuration is read back in any order, indentation and spacing, virtual hosts in order |
| Calendar.SecondsOfDateTime | src/files.rs:70-76 | every number of seconds is that of its calendar fields, which are valid |
| Calendar.DateTimeOfSeconds | src/files.rs:70-76 | every valid date is that of its number of seconds |
| Calendar.MonthLengths | src/files.rs:70-76 | the lengths of the months, February by the Gregorian leap years |
| Calendar.NextDay | src/files.rs:70-76 | the day after each date |
| Dates.NamesInOrder | src/time.rs:29-69 | the names of days and months, in order |
| Dates.EpochIsThursday | src/time.rs:9-14 | 1 January 1970 was a Thursday |
| Dates.WeekdaysAdvance | src/time.rs:9-14 | and each day the next weekday comes |
| Dates.ExampleDate | src/time.rs:9-14 | the example date of section 7.1.1.1 of RFC 7231 is printed as it stands there |
| Dates.ReadDigits | src/time.rs:82-93 | the loop computes the number its digits denote |
| Dates.Shape1123 | src/time.rs:9-14 | cutting the offset off and writing GMT gives the format of section 7.1.1.1 of RFC 7231 |
| Dates.DateRoundTrip | src/time.rs:9-110 | a printed date parses back to itself, for all years of four digits |
| DateGrammar.AcceptsExactlyDates | src/time.rs:16-110 | a text is accepted exactly when it begins with a date as it is printed, under any weekday, and gives that date |
| DateGrammar.PanicsExactly | src/time.rs:16-110 | by its characters, a text makes the parser panic exactly when it keeps to the layout until it ends where a digit or a name is due, or gives a date or time that does not exist |
| DateGrammar.TextsThatPanic | src/time.rs:30-96 | texts that do: hardly any text, a date cut off, the 30th of February, a leap second |
| Calendar.EpochIs1970 | src/host.rs:78 | the dates a conversion to a time since the epoch can take are those from 1970 on |
| Files.ConditionalPanics | src/host.rs:76-79 | a conditional request panics exactly on the texts that make the parser panic, on dates before 1970, and on dates later than the file; it is a bad request exactly when the text is neither |
| Files.PrintedDateVerdict | src/host.rs:76-79 | the verdict on every date as it is printed, for every file |
| Files.RequestsThatPanic | src/host.rs:76-79 | a text of one character and every printed date before 1970 panic, whatever is on disk |
| Files.ValidatorRoundTrip | src/host.rs:76-79 | sending a Last-Modified date back means "not modified" exactly within the same second, for every modification time and time on disk |
| Files.FileServer.GetContent | src/files.rs:37-104 | the cached copy if there is one, otherwise what is on disk, which is then cached; 404 exactly for an uncached missing file and 500 exactly for an uncached unreadable one; the content type by extension |
| Files.FileFraming | src/files.rs:78-80 | the announced length is right exactly for files that are not empty |
| Files.ServedFileReadsBack | src/files.rs:68-103 | the response for a file, small or large, reads back whole exactly when the file is not empty |
| Files.EmptyResponseReadsBack | src/http.rs:182-200 | so does every response without content |
| FileView.ServedFileIsRead | src/files.rs:68-103 | a client that asks for a file reads status 200, the content, its type by extension, its length, and the dates and server name under their registered names |
| FileView.EmptyResponseIsRead | src/http.rs:182-200 | a response without content is read under the code it was made for |
| FileView.HeartbeatIsRead | src/host.rs:107-123 | a client that asks for the load reads 503 exactly when the load flag was up, and 200 otherwise |
| Files.CacheHoldsFirst | src/files.rs:38-57 | the cache holds for each path what its first successful read found |
| Files.ServedIsCurrent | src/files.rs:38-66 | after any requests, what is served is what is on disk exactly when no earlier read of the path succeeded or the first found the same |
| Files.ChangedFileIsServedStale | src/files.rs:38-57 | a client that validates its copy is sent the first copy again, under the old date, exactly when the file changed in a later second |

## Left out

- Selector.EventLoop.Next: says nothing about the fields after an event without a handler, because the source stops the loop there; no legal run gets there.
- Selector.EventLoop.ReadStream: does not model a failing `peer_addr`, and the handler does not see the peer's address.
- Selector.EventLoop.ExecuteCommand: does not model a failing register, reregister or deregister, which stops the loop.
- SelectorTheorems.SelectorRefinesSequential: takes the handler as a function and one order for each header map, so it does not say that two servers iterate equal maps alike.
- Files.FileServer.GetContent: does not model a file whose metadata cannot be read after its content, nor one modified before 1970, both of which panic, nor one modified after the year 9999, nor the reserved cache size, which bounds nothing.
- Requests outside ASCII: a cut inside a character is an error in the source, and a body length that ends inside one panics.
- The start-up commands are sent between iterations, not in the middle of one.
- A failed read of standard input, which drops the source but leaves its descriptor registered.
- Sockets, polling, clocks and the file system beyond their results; path resolution, virtual host lookup and CGI programs (`src/host.rs`, `src/cgi.rs`).
- The weekday of a parsed date is not checked against the date, as in the source.
- Worker panics, overflow of the token counter, the command line, reading the configuration file.
