# Verification of the ESB manager and its HTTP server

The repository is a manager for an OSGi container: a small asynchronous HTTP/1.0 server, and a
monitor that drives the container with console commands. This project models the three parts of
it that carry the behaviour and proves what they promise.

**The request parser and everything that prints or reads its syntax.** `request_parser::consume`
is a byte machine of twenty states that builds the request in place. It is modelled as an object
(`RequestParser.dfy`) proved equal, call by call, to a transition function (`ParserMachine.dfy`).
A grammar of requests with a meaning for each tree is written down independently of the machine
(`RequestGrammar.dfy`), and the machine is proved to decide exactly that language and to build
exactly that meaning, however the bytes are cut into reads (`ParserLanguage.dfy`). `WrittenOut.dfy`
says the same with nothing but literal alphabets and separators. Round trips
follow for requests (`RequestPrinter.dfy`) and replies (`Reply.dfy`), then for the URL decoder
(`UrlCodec.dfy`), the path checks (`RequestPath.dfy`) and the whole way from a path to the bytes
of a file (`RequestHandler.dfy`). `CharClass.dfy`, `Decimal.dfy`, `HttpMessage.dfy`, `Strings.dfy`
and `Options.dfy` hold what they share.

**The asynchronous server.** `ServerProtocol.dfy` is the server as a step system: operations are
outstanding, the network completes them, and their handlers run one at a time. The invariant is in
`ServerInvariants.dfy`, what holds over every run, shutdown included, in `ServerRuns.dfy`, and what
each step does and adds up to (connections started, bytes received, codes sent) in `ServerSteps.dfy`.
`Server.dfy` has the objects (connection, manager, server), each method of which is proved to take
exactly one step of that system.

**The manager.** The `%key%` replacement loop (`Substitution.dfy`, `Templates.dfy`,
`OrderOfKeys.dfy`, `Divergence.dfy`), the bundle map and the start string (`Bundles.dfy`), the
listings it can be read from (`Listings.dfy`), and the command cycle of the monitor (`Monitor.dfy`),
with what its start string has to do with the listing it has read (`Freshness.dfy`).

## Assumptions and readings

- The I/O service runs on one thread, so handlers are atomic steps. Closing a socket or an acceptor
  completes its unfinished operations as aborted. An operation that had completed keeps its result,
  and its handler still runs after the close. An operation started on a closed socket fails, with an
  error other than `operation_aborted`. The results that unfinished operations get from the network
  are arbitrary, except that a read brings at most the 8192 bytes of the buffer.
- A byte is a `char`. Every theorem is proved for all characters, of which the bytes 0 to 255 are a
  part; those from 128 up are neither HTTP characters nor control characters, as in the C++ code
  with either signedness of `char`.
- Numbers are unbounded. `Decimal.AccumulationFitsIff` says exactly when the 32-bit arithmetic of
  the parser is defined, and `Decimal.NineDigitsFit` that nine digits are always safe.
- Fields that the C++ constructors leave uninitialised (version numbers, reply status) may hold
  anything.
- A list parser is an arbitrary function from a line to six fields; where it matters, its fields are
  parts of the line that stand one behind the other (`Listings.Captures`).
- The file store is a map from path to bytes, handed to the handler at the time it runs.
  `c_str()` cuts the path at its first NUL, and so does the model.
- `src/ESBManager.cpp:356-357` calls counter methods that `include/Bundle.h` lacks: `Bundle` is
  given a restart counter and a log of attempt times. The comparison of the bundle map with `NULL`
  at `src/ESBManager.cpp:425` is read as a test for the initial empty map.

## Where the code surprises

- An empty URI is accepted (`RequestGrammar.MessageOk`), which section 5.1 of RFC 1945 does not
  allow.
- The text of a continuation line is appended without the space that folding stands for
  (section 2.2 of RFC 1945): `RequestGrammar.FoldsMeaning`.
- The parser is not reset after a good verdict. That it is never fed again is a property of the
  server, proved in `ServerRuns.NothingFedAfterVerdict`.
- `handle_request` appends to the reply's content, so a 200 reply carries the file only if the
  reply had no content before (`RequestHandler.OkCarriesFile`, an equivalence). Over all runs it
  never has (`ServerRuns.EveryOkReplyIsAFile`).
- The replacement loop need not end. A value that is lighter than its mark, by any weights for the
  characters, is always safe (`Substitution.LightValueStops`). As far as the characters of the value
  go, however they are arranged, this is exact (`Divergence.CharactersBoundIsExact`), and so are the
  bounds for the number of '%'s and for the length that follow from it. A value that holds its mark is
  never safe, and even one that does not hold it may not be (`Divergence.JoiningNeverStops`).
- Replacing the keys one after the other is one simultaneous substitution, for every order and all
  plain values, if and only if the marks of the text are kept apart
  (`OrderOfKeys.SimultaneousIsExact`). The order shows as soon as two marks share a '%'
  (`Divergence.SharedPercentOrderMatters`), or have a literal between them that is the second key; for
  two marks with a literal between them that is exactly when (`Divergence.TwoMarksOrderIsExact`, and
  for the text of batch commands `Divergence.OrderInCommandIsExact` and
  `Divergence.OrderInTwoCommandsIsExact`).
- The bundle snapshot is replaced only when the number of bundles changes
  (`src/ESBManager.cpp:429`), so a bundle that has started meanwhile may be started again
  (`Freshness.StaleRun`). When every listing of a size gets its own start string is settled by an
  equivalence over the listings that can be received (`Freshness.FreshnessIsExact`).
- A configured bundle name with a space in front or behind can never be listed, since the names of a
  listing are trimmed and those of the configuration are not (`Listings.ReadableIsExact`).

## Model

| member | source | states |
|---|---|---|
| RequestParser.Parser.constructor | src/request_parser.cpp:19-22 | a parser starts in its first state |
| RequestParser.Parser.Reset | src/request_parser.cpp:24-27 | the parser is back in its first state |
| RequestParser.Parser.Consume | src/request_parser.cpp:29-285 | the branching code with its in-place updates gives, for every state, request and byte, the state, request and verdict of the transition function |
| RequestParser.Parser.Parse | include/request_parser.h:40-51 | the driver loop gives the verdict, the position and the request of one run over the bytes of the range |
| ParserMachine.Step | src/request_parser.cpp:188-281 | every state that works on `headers.back()` is only ever entered with a header there: the step keeps that from any such configuration |
| ParserMachine.Run | include/request_parser.h:40-51 | no more is taken than there is; an undecided parse takes everything, a decided one at least a byte |
| ParserMachine.RunAppend | include/request_parser.h:40-51 | a parse of a concatenation is the parse of the first part, resumed on the second if the first was undecided |
| ParserMachine.RunIgnoresRest | include/request_parser.h:46-48 | the bytes behind a verdict have no influence on it |
| ParserMachine.FeedIsRun | src/connection.cpp:40-72 | for every way of cutting the input into reads: same verdict, at the same byte, with the same request, as one parse of the whole |
| ParserMachine.RunLoop | src/request_parser.cpp:44-69 | a run of characters of the class a state loops on is absorbed into the request, to any length |
| ParserLanguage.ReachesFolds | src/request_parser.cpp:194-229 | continuation lines extend the last value by their texts, each without its leading blanks |
| ParserLanguage.ReachesFields | src/request_parser.cpp:188-279 | header fields are appended in order, each with its continuation lines folded in |
| ParserLanguage.HeaderSectionAccepted | src/request_parser.cpp:188-281 | any header section of the grammar is good exactly at the line feed of its empty line, whatever follows |
| ParserLanguage.ReachesRequestLine | src/request_parser.cpp:33-187 | a request line of the grammar leads to the header lines with method, URI and the decimal values of both version numbers |
| ParserLanguage.TreeAccepted | src/request_parser.cpp:29-285 | the text of any grammar tree is good exactly at its end, with the tree's meaning as the request |
| ParserLanguage.AcceptedRequestLine | src/request_parser.cpp:33-187 | a good parse started with a request line of the grammar |
| ParserLanguage.AcceptedHeaderSection | src/request_parser.cpp:188-281 | what a good parse takes from a line start on is a header section of the grammar, continuation lines only where there is a header to continue |
| ParserLanguage.AcceptedRequest | src/request_parser.cpp:29-285 | the bytes a good parse takes are the text of a grammar tree |
| ParserLanguage.CompletionAccepted | src/request_parser.cpp:29-285 | from every state of the machine some continuation is good at its last byte: there are no dead ends |
| ParserLanguage.GoodMeansRequest | src/request_parser.cpp:29-285 | a prefix of the input is a request if and only if the verdict is good there |
| ParserLanguage.IndeterminateMeansProperPrefix | src/request_parser.cpp:29-285 | the verdict is indeterminate if and only if the input is a proper prefix of a request |
| ParserLanguage.VerdictMeansLanguage | src/request_parser.cpp:29-285 | each of the three verdicts, as an equivalence with the language alone |
| ParserLanguage.RequestsArePrefixFree | src/request_parser.cpp:280-281 | no request is a proper prefix of another |
| ParserLanguage.MeaningIsUnique | src/request_parser.cpp:29-285 | two trees with the same text denote the same request |
| ParserLanguage.GoodBuildsMeaning | src/request_parser.cpp:29-285 | the request built on a good verdict is the meaning of the bytes taken, for any tree of them |
| ParserLanguage.BadAtFirstHopelessByte | src/request_parser.cpp:29-285 | a bad verdict falls on the first byte after which no request is possible |
| WrittenOut.VerdictWrittenOut | src/request_parser.cpp:29-329 | the verdicts once more, for the language spelled with literal characters: token characters as a list, URI codes 33 to 126 and from 128, value codes 32 to 126 and from 128, blanks space and tab, lines ending in CR LF |
| WrittenOut.RequestWrittenOut | src/request_parser.cpp:29-281 | any request so spelled is good at its end, with its method, URI, decimal version numbers and headers, continuation texts joined on, as the request |
| WrittenOut.NumeralWrittenOut | src/request_handler.cpp:76 | the number printed consists of the characters 0 to 9, has that decimal value, and no leading zero |
| WrittenOut.BadInMethod | src/request_parser.cpp:33-58 | in the method, bad at the first byte that is no token character, but for the space behind it |
| WrittenOut.BadInUri | src/request_parser.cpp:59-73 | in the URI, bad at the first byte of code below 32 or 127 |
| WrittenOut.BadAtLineStart | src/request_parser.cpp:188-209 | at a line start, bad at a byte that starts neither a name nor the empty line nor, behind a header, a continuation |
| WrittenOut.BadInName | src/request_parser.cpp:230-244 | in a name, bad at the first byte that is neither a token character nor the colon |
| WrittenOut.BadInValue | src/request_parser.cpp:255-269 | in a value, bad at the first byte of code below 32 or 127, but for the carriage return |
| WrittenOut.BadBehindBlanks | src/request_parser.cpp:210-229 | behind the blanks of a continuation line, the same |
| RequestPrinter.MeaningIsPrintable | src/request_parser.cpp:29-285 | whatever the parser can build has token method and names, a URI without spaces and control characters, and values without control characters |
| RequestPrinter.PrintThenParse | src/request_parser.cpp:29-285 | parsing a printed request is good, takes all of it and rebuilds it, if and only if the request is printable |
| RequestPrinter.PrintFieldsMeaning | src/request_parser.cpp:188-281 | printing the headers read gives the bytes back without continuation lines, and fewer bytes with them |
| RequestPrinter.ParseThenPrint | src/request_parser.cpp:29-285 | printing the parse of an accepted text gives the bytes back if and only if it has no continuation line and no leading zero in a version |
| Decimal.NumeralRoundTrip | src/request_handler.cpp:76 | the number printed by `std::to_string` is read back by the digit loop, and has no leading zero |
| Decimal.PrintReadNumeral | src/request_parser.cpp:126-177 | a numeral read and printed is the same, or shorter if it had leading zeros |
| Decimal.AccumulationFitsIff | src/request_parser.cpp:129-171 | no intermediate of `x * 10 + input - '0'` leaves the 32-bit range if and only if the number is at most 2^31 - 49 |
| Decimal.NineDigitsFit | src/request_parser.cpp:129-171 | nine digits never overflow |
| Reply.Reply.constructor | include/reply.h:25-61 | a new reply has no headers and no content, and any status |
| Reply.Reply.ToBuffers | src/reply.cpp:102-117 | the buffers run together are status line, header lines in order, empty line and content |
| Reply.WireWrittenOut | src/reply.cpp:19-117 | the bytes sent are "HTTP/1.0 ", the three digits of the status, a phrase within its line, CR LF, the header lines, CR LF and the content |
| Reply.CodeIsNumber | include/reply.h:28-46 | the three digits are the decimal number of the status |
| Reply.Reply.AssignStock | src/reply.cpp:241-252 | assigning a stock reply replaces status, headers and content |
| Reply.ReadHeadersAreOk | src/request_parser.cpp:188-281 | any header list read from any bytes has token names and values without control characters |
| Reply.HeaderRoundTrip | src/reply.cpp:106-114 | printed headers are read back, good exactly at the first content byte, if and only if names are tokens and values free of control characters |
| Reply.ClientFindsContent | src/reply.cpp:102-117 | for a reply that announces its length, a reader that cuts the wire bytes at their first line end and parses on stops where the content starts, and Content-Length decodes to what is left |
| Reply.StockIsDelimited | src/reply.cpp:241-252 | every stock reply announces the length of its own content |
| Reply.StockWrittenOut | src/reply.cpp:241-252 | its headers are that length and the type of an HTML page |
| UrlCodec.UrlDecode | src/request_handler.cpp:81-118 | the index loop succeeds when decoding is defined and then yields the decoded text |
| UrlCodec.DecodeAppend | src/request_handler.cpp:81-118 | once a prefix decodes, the whole decodes to it and the decoding of the rest, or fails with it |
| UrlCodec.DecodedLength | src/request_handler.cpp:87-97 | the output is shorter than the input by two for each escape |
| UrlCodec.DecodeFailsAtBadEscape | src/request_handler.cpp:87-106 | decoding fails if and only if an unreadable escape stands behind a readable prefix |
| UrlCodec.TwoDigitEscape | src/request_handler.cpp:87-97 | two hexadecimal digits, either in either case, stand for the byte of their value |
| UrlCodec.OneDigitEscape | src/request_handler.cpp:91-97 | a digit in front of something else counts alone, but a 0 in front of an x is unreadable |
| UrlCodec.SignedEscape | src/request_handler.cpp:91-97 | a digit behind white space or a sign counts alone, behind a minus down from 256 |
| UrlCodec.UnreadableEscape | src/request_handler.cpp:87-106 | everything else, and an escape cut short, fails |
| UrlCodec.PlainCharacter | src/request_handler.cpp:107-115 | outside escapes a plus is a space and any other character itself |
| UrlCodec.DecodeEncode | src/request_handler.cpp:81-118 | decoding inverts the byte-wise encoder (section 2.1 of RFC 3986, with '+' for the space) on all byte strings, whatever bytes the encoder keeps |
| UrlCodec.EncodedIsUriText | src/request_parser.cpp:59-73 | what such an encoder produces is a URI the parser takes |
| RequestPath.CheckedPathLeadsDown | src/request_handler.cpp:37-49 | a path that passes the checks never steps above where it starts, after any number of its segments |
| RequestPath.OpenedFileBelowRoot | src/request_handler.cpp:37-62 | the file opened, NUL cut-off included, lies below the document root, in every working directory in which the root, cut off at its own first NUL, names a directory |
| RequestPath.ExtensionIsPlain | src/request_handler.cpp:51-58 | the extension has neither slash nor dot |
| RequestPath.ExtensionOfLastSegment | src/request_handler.cpp:51-58 | the extension is what follows the last dot of the last segment, or nothing if that has none |
| RequestPath.ExtensionWrittenOut | src/request_handler.cpp:51-58 | what has neither dot nor slash is the extension behind a dot, and there is none behind a slash |
| RequestHandler.FileStream.Read | src/request_handler.cpp:71-73 | a block read brings what is left up to its limit; a short one ends the stream |
| RequestHandler.Handler.constructor | src/request_handler.cpp:22-25 | the handler keeps its document root |
| RequestHandler.Handler.CheckPath | src/request_handler.cpp:29-58 | decode, check, complete and find the extension: succeeds exactly for decodable, absolute paths without ".." |
| RequestHandler.Handler.AppendFile | src/request_handler.cpp:71-73 | the loop over blocks of 512 bytes appends exactly the file, of any length |
| RequestHandler.Handler.FillHeaders | src/request_handler.cpp:74-78 | the headers become length and type, whatever they were |
| RequestHandler.Handler.HandleRequest | src/request_handler.cpp:27-79 | the in-place code gives the specified reply for every request, store and previous reply, errors included |
| RequestHandler.HandledIsDelimited | src/request_handler.cpp:27-79 | whatever the handler answers announces its own length |
| RequestHandler.StatusIsExact | src/request_handler.cpp:27-67 | 400 if and only if the URI does not decode or its path is not absolute or has two dots in a row; 404 if and only if the path is acceptable and the file, the index page for a directory, is missing; 200 if and only if it is there |
| RequestHandler.MimeTypeWrittenOut | src/mime_types.cpp:20-44 | the types of the five known extensions, and that of all others |
| RequestHandler.OkCarriesFile | src/request_handler.cpp:69-78 | a 200 reply carries exactly the file of the request if and only if the reply object had no content before |
| RequestHandler.TypeOfLastSegment | src/request_handler.cpp:51-58 | the type of a 200 reply is looked up by what follows the last dot of the last segment |
| RequestHandler.TargetOfEncoded | src/request_handler.cpp:29-62 | the encoding of a path is answered from the file of that path (the index page of a directory) if and only if the path is absolute, has no "..", and no NUL cuts the name short |
| RequestHandler.ClientFindsFile | src/request_handler.cpp:60-78 | a reader of a 200 reply finds the file's bytes behind the headers, and their number announced |
| RequestHandler.FileRoundTrip | src/connection.cpp:46-56 | encode a path, print a request for it, parse, handle, print the reply, read it: the bytes of the file come out |
| ServerInvariants.ReceivedHistory | src/connection.cpp:46-64 | reading on keeps parser, verdict count and reply in agreement with one parse of everything read |
| ServerInvariants.HandledOk | src/connection.cpp:43-92 | every completion handler keeps the invariant of its connection, and the socket stays open unless the manager stops it |
| ServerInvariants.OpChangesOne | src/connection.cpp:43-92 | a handler changes its own connection and its place in the manager, nothing else |
| ServerInvariants.SignalKeepsInv | src/server.cpp:81-92 | shutting down keeps the invariant for every connection |
| ServerRuns.StepKeepsInv | src/server.cpp:50-92 | every step of the server keeps the invariant |
| ServerRuns.RunKeepsInv | src/server.cpp:50-92 | so does every run |
| ServerRuns.StepsStayReachable | src/server.cpp:50-57 | the reachable states contain the initial one and are closed under steps |
| ServerRuns.ManagedMeansOneOperation | src/connection_manager.cpp:22-39 | a connection is in the manager if and only if its socket is open; it then has exactly one outstanding operation; an aborted operation belongs to no managed connection |
| ServerRuns.ReadsAreOneParse | src/connection.cpp:40-72 | in every reachable state parser, request and reply are those of one parse of all bytes read: the handler has run if and only if it is good |
| ServerRuns.CompletedMeansEnabled | src/server.cpp:50-57 | the handler of a completed operation can always run |
| ServerRuns.AnsweredByTheLanguage | src/connection.cpp:46-64 | a connection has been answered if and only if its bytes contain a request or can no longer become one; at most one verdict and one reply |
| ServerRuns.HandledTheMeaning | src/connection.cpp:50-53 | the request handled is the meaning of the bytes up to its end |
| ServerRuns.NothingFedAfterVerdict | src/connection.cpp:46-64 | a read handler only ever runs before the verdict, with a fresh reply |
| ServerRuns.EveryReplyIsDelimited | src/connection.cpp:74-93 | every reply ever given announces its own length |
| ServerRuns.EveryOkReplyIsAFile | src/request_handler.cpp:69-78 | every 200 reply ever given is exactly the file the request named, in the store kept with its connection |
| ServerRuns.OkReplyIsTheFile | src/connection.cpp:50-53 | on the step on which a 200 reply is given, its content is exactly the file the request named among the files of that step |
| ServerRuns.ReplyHasItsEvent | src/connection.cpp:46-64 | in every run an answered connection was answered by one of its own handlers, whose files are the store kept with it |
| ServerRuns.OkRepliesComeFromFiles | src/connection.cpp:46-64 | in every run from the start, each 200 reply is the file the request named among the files of one of the events |
| ServerRuns.HistoryOnlyGrows | src/connection.cpp:40-93 | no step takes back bytes, verdicts or replies, changes a request or reply that is complete, or reopens a socket |
| ServerRuns.RunOnlyGrows | src/connection.cpp:40-93 | nor does any run |
| ServerRuns.ListeningMeansOneAccept | src/server.cpp:59-79 | while the acceptor is open exactly one accept is outstanding, and the signal is awaited exactly as long |
| ServerRuns.StoppedStepsCountDown | src/server.cpp:64-69 | afterwards every possible step is a handler, starts no connection and lowers the measure, successes queued before the close included |
| ServerRuns.StoppedIsNeverStuck | src/server.cpp:86-90 | a stopped server with work outstanding can take a step |
| ServerRuns.StuckMeansIdle | src/server.cpp:86-90 | a stopped server has no step left if and only if nothing is outstanding |
| ServerRuns.ShutdownCountsDown | src/server.cpp:86-90 | after the signal no run is longer than the measure, and none starts a connection |
| ServerRuns.ShutdownTerminates | src/server.cpp:86-90 | every run after the signal ends within twice the number of connections and one steps, and ends with nothing outstanding |
| ServerRuns.SignalEndsServer | src/server.cpp:81-92 | from the signal itself on: every run keeps that bound, starts no connection, leaves the manager empty, and ends with nothing outstanding |
| ServerSteps.EnabledMeans | src/server.cpp:50-92 | in every reachable state: the network completes exactly what is unfinished, with at most 8192 bytes for a read; the handler of whatever has completed can run; the signal can come exactly while the server listens |
| ServerSteps.AcceptStarts | src/server.cpp:62-78 | a successful accept that finds the acceptor open starts one connection, held by the manager, fresh and with one unfinished read; any other starts none; the older connections stay as they are; a listening server accepts again |
| ServerSteps.ConnectionsAreAccepts | src/server.cpp:59-79 | over any run the connections started are as many as the successful accepts whose handlers ran while the server listened |
| ServerSteps.ReadGoesOn | src/connection.cpp:40-65 | a read handler with bytes adds just these to what was received, leaves the socket as it is, and starts one operation: a read while there is no verdict, then the write of the reply |
| ServerSteps.OthersEnd | src/connection.cpp:67-92 | every other handler starts nothing: after an abort the connection stays as it is, after a failed read and any write it is closed and leaves the manager |
| ServerSteps.FinishSettles | src/connection.cpp:43-44 | completing an operation gives it its result and changes nothing else |
| ServerSteps.AcceptSettles | src/server.cpp:61-62 | so does completing an accept |
| ServerSteps.ReceivedIsBrought | src/connection.cpp:40-64 | over any run a connection has received what its reads brought: every byte once, in order, and none of another connection |
| ServerSteps.SignalCloses | src/server.cpp:81-92 | the signal closes acceptor and connections: unfinished operations are aborted, completed ones keep their results, and nothing else changes |
| ServerSteps.StartsListening | src/server.cpp:20-48 | a server starts with the given root, its acceptor open, one accept waiting, and no connection |
| ServerSteps.ListensUntilSignal | src/server.cpp:59-92 | over any run the root stays the same, and the acceptor is open as long as there was no signal |
| ServerSteps.StatusInEveryState | src/connection.cpp:46-60 | in every reachable state an answered connection has status 400, 404 or 200 exactly as its bytes and its URI say, and an outstanding write carries that reply |
| ServerSteps.CodeOnTheWire | src/reply.cpp:19-117 | the bytes of the reply start with the status line of 400, 404 or 200 exactly then |
| Server.Connection.constructor | src/connection.cpp:22-28 | a new connection has an open socket and fresh buffer, request, parser and reply |
| Server.Connection.Start | src/connection.cpp:30-33 | starting is starting a read |
| Server.Connection.Stop | src/connection.cpp:35-38 | the socket is closed, its unfinished operations aborted, the completed ones kept |
| Server.Connection.DoRead | src/connection.cpp:40-44 | one more read is outstanding, failed at once if the socket is closed |
| Server.Connection.DoWrite | src/connection.cpp:74-78 | one more write is outstanding, carrying the reply as it is |
| Server.Connection.Received | src/connection.cpp:46-64 | parse, then handle, refuse or read on: the step of the model |
| Server.Connection.OnRead | src/connection.cpp:43-71 | the read handler for success, abort and failure |
| Server.Connection.OnWrite | src/connection.cpp:77-92 | the write handler: stopped unless aborted |
| Server.Connection.RunHandler | src/connection.cpp:43-92 | one handler run: the connection's new state, and the manager's set |
| Server.ConnectionManager.Start | src/connection_manager.cpp:22-26 | the connection is added and reads |
| Server.ConnectionManager.Stop | src/connection_manager.cpp:28-32 | the connection is removed and closed |
| Server.ConnectionManager.StopAll | src/connection_manager.cpp:34-39 | every connection held is closed, exactly once, and none is held any more |
| Server.Server.constructor | src/server.cpp:20-48 | the server starts in the initial state of the step system |
| Server.Server.DoAccept | src/server.cpp:59-62 | one more accept is outstanding |
| Server.Server.OnAccept | src/server.cpp:62-78 | the accept handler takes exactly the accept step |
| Server.Server.AddConnection | src/server.cpp:71-75 | an accepted socket becomes a new connection that shares no object with the others, in the manager and reading |
| Server.Server.OnSignal | src/server.cpp:81-92 | the signal handler takes exactly the signal step |
| Server.Server.CompleteAccept | src/server.cpp:61-62 | the completion of an accept takes exactly the accept-completion step |
| Server.Server.CompleteOp | src/connection.cpp:43-44 | the completion of a read or write takes exactly its step and leaves the other connections alone |
| Server.Server.DispatchOp | src/connection.cpp:43-92 | running a completion handler takes exactly the handler step and leaves the other connections alone |
| Substitution.Find | src/ESBManager.cpp:228-230 | `find` gives the first occurrence, and none if and only if there is none |
| Substitution.Replaced | src/ESBManager.cpp:228-232 | what the loop leaves behind does not depend on how long one looks, and holds no mark of the key |
| Substitution.ReplaceMarks | src/ESBManager.cpp:228-232 | the loop, where it ends, yields that text |
| Substitution.RoundWeight | src/ESBManager.cpp:231 | one round changes the weight of the text by the difference of value and mark, for any weights of the characters |
| Substitution.LightValueStops | src/ESBManager.cpp:228-232 | a value that is lighter than its mark by any weights lets the loop end on every text, in at most as many rounds as the text weighs |
| Substitution.RareCharacterStops | src/ESBManager.cpp:228-232 | so does a value in which some character is rarer than in its mark |
| Substitution.FewPercentsStop | src/ESBManager.cpp:228-232 | a value with fewer '%'s than its mark lets the loop end, in at most as many rounds as the text has '%'s; values without '%' are a case of this |
| Substitution.ShortValueStops | src/ESBManager.cpp:228-232 | so does a value shorter than its mark |
| Substitution.OwnMarkNeverStops | src/ESBManager.cpp:228-232 | for a value that holds its own mark the loop ends if and only if it never starts |
| Substitution.StartupCommand | src/ESBManager.cpp:201-237 | the command is the set assignments in order, then the batch commands with all keys replaced one after the other |
| Substitution.SetTextGrows | src/ESBManager.cpp:234 | each key adds "set key=value & " behind those before it |
| Substitution.BatchTextGrows | src/ESBManager.cpp:201-206 | each batch command adds a space and itself |
| Substitution.OneMarkIsReplaced | src/ESBManager.cpp:228-232 | in plain text a key between two '%'s is replaced by its value and nothing else is touched |
| Divergence.TwiceHoldsNoMark | src/ESBManager.cpp:228-232 | there is a value with just two '%'s more than the key that does not hold the mark |
| Divergence.JoiningNeverStops | src/ESBManager.cpp:228-232 | on some texts the loop runs forever for it: each replacement joins its neighbours into the next mark |
| Divergence.JoiningDiverges | src/ESBManager.cpp:228-232 | there the loop does not end, however many rounds are allowed |
| Divergence.CharactersBoundIsExact | src/ESBManager.cpp:228-232 | values made of given characters, however arranged, are safe on all texts if and only if some character of the mark is rarer among them |
| Divergence.PercentBoundIsExact | src/ESBManager.cpp:228-232 | values with so many '%'s are safe on all texts if and only if the mark has more |
| Divergence.LengthBoundIsExact | src/ESBManager.cpp:228-232 | values of a length are safe on all texts if and only if the mark is longer |
| Divergence.SharedPercentOrderMatters | src/ESBManager.cpp:222-235 | where two marks share a '%', between any plain texts, the key that comes first takes it: both orders end, in the texts given, and these always differ |
| Divergence.SharedPercentInCommand | src/ESBManager.cpp:201-235 | so in every batch command with two such marks the order of the keys shows |
| Divergence.TwoMarksOrderIsExact | src/ESBManager.cpp:222-235 | for two marks with plain literals in front, between and behind, both orders of their keys leave the same text for all plain values if and only if the literal between them is not the second key |
| Divergence.OrderInCommandIsExact | src/ESBManager.cpp:201-235 | the same for a batch command with two marks |
| Divergence.OrderInTwoCommandsIsExact | src/ESBManager.cpp:201-235 | for two batch commands with a mark each, the literal between the marks includes the space the commands are put together with |
| Divergence.TwoMarksSeparated | src/ESBManager.cpp:222-235 | for two such marks that is just what `Separated` says |
| Templates.FirstOccurrence | src/ESBManager.cpp:228-230 | the first occurrence of a mark in the text is the first such mark of the template, if no literal between two marks in front of it is the key |
| Templates.FindInTemplate | src/ESBManager.cpp:228-230 | `find` goes to the first mark of the template, or finds nothing if there is none, if and only if no literal between two marks in front of it is the key |
| Templates.RoundFillsFirst | src/ESBManager.cpp:230-231 | one round of the loop then replaces that mark and nothing else |
| Templates.SeparatedIsExact | src/ESBManager.cpp:228-232 | marks are separated if and only if `find` goes to the template's own marks for every key, whichever marks of the keys have been filled before and with whatever plain values |
| Templates.ForeignSeparates | src/ESBManager.cpp:228-232 | a character found in no key, in each literal between two marks, separates them |
| Templates.LoopFills | src/ESBManager.cpp:228-232 | the loop for one key ends after as many rounds as there are marks and leaves the template with all of them replaced |
| Templates.SequentialIsSimultaneous | src/ESBManager.cpp:222-235 | key by key equals one simultaneous substitution, for separated templates, distinct plain keys and plain values |
| Templates.OrderDoesNotMatter | src/ESBManager.cpp:222-235 | there, the order of the keys does not matter |
| OrderOfKeys.IntruderMakesOddRun | src/ESBManager.cpp:228-232 | where a literal looks like the mark of a key, a long value for the key ends up inside what was another mark |
| OrderOfKeys.LoopGoesTooFar | src/ESBManager.cpp:228-232 | a loop that finds its mark again after the last one of the template shifts the balance of length and '%'s for good |
| OrderOfKeys.UnseparatedShows | src/ESBManager.cpp:222-235 | for marks that are not kept apart there are an order of all the keys and plain values whose result is not the simultaneous substitution |
| OrderOfKeys.SimultaneousIsExact | src/ESBManager.cpp:222-235 | where no key has two marks: key by key equals one simultaneous substitution, for every order of the keys and all plain values, if and only if the marks are separated |
| Strings.SplitJoin | src/ESBManager.cpp:284 | splitting into lines loses nothing and leaves no separator in a line |
| Strings.JoinSplit | src/ESBManager.cpp:284 | lines that are joined come back from splitting |
| Strings.TrimCutsSpaces | src/ESBManager.cpp:267-276 | only spaces are cut off, and no more could be; a text of nothing but spaces stays as it is |
| Strings.TrimBetweenSpaces | src/ESBManager.cpp:267-276 | a text between any spaces comes out alone |
| Bundles.Bundle.constructor | include/Bundle.h:7-18 | a bundle starts empty, never restarted |
| Bundles.Bundle.IncrementRestartCount | src/ESBManager.cpp:356 | the counter grows by one |
| Bundles.Bundle.AddRestartAttemptTime | src/ESBManager.cpp:357 | the time is appended to the log |
| Bundles.ReadBundle | src/ESBManager.cpp:292-298 | a new object with the trimmed fields of the line |
| Bundles.MapBundleNamesToBundles | src/ESBManager.cpp:278-305 | the map of the lines from the third on, with a new object for each bundle and no object under two names |
| Bundles.ListedLastLine | src/ESBManager.cpp:285-302 | the last line of a name is the one that counts, with its six fields trimmed, never restarted |
| Bundles.ListedIffNamed | src/ESBManager.cpp:285-302 | a name is in the map if and only if some line names it |
| Bundles.HeadingsAreSkipped | src/ESBManager.cpp:284-285 | the first two lines do not count, and a text of fewer lines has none that do |
| Listings.ReadableIsExact | src/ESBManager.cpp:278-305 | the maps that some output gives under some list parser are exactly those in which every bundle goes by its own name and all its fields are trimmed and within a line |
| Listings.ReceivedByOneParser | src/ESBManager.cpp:278-305 | any two of them can be given in turn with one list parser |
| Bundles.BuildBundlesToStart | src/ESBManager.cpp:339-378 | the start string is the ids of the emitted names, system list first; counter and log of a bundle grow by the listed names that lead to it, unless it has started or is waiting |
| Bundles.BuildFromListing | src/ESBManager.cpp:339-378 | where no bundle goes by two names: counter and log of each grow by the number of times it is listed, unless it has started or is waiting |
| Bundles.EmittedCounts | src/ESBManager.cpp:347-375 | a name is emitted as often as it is listed if it is known and neither started nor waiting, and never otherwise |
| Bundles.IdTextGrows | src/ESBManager.cpp:347-375 | each listed name adds the id of its bundle and a space, if it is known and neither started nor waiting, and nothing otherwise |
| Bundles.RestartsWrittenOut | src/ESBManager.cpp:355-357 | counter and log grow by the number of times the bundle is listed, unless it has started or is waiting |
| Bundles.EmittedInOrder | src/ESBManager.cpp:347-375 | the emitted names are in the order of the lists |
| Bundles.NotedCounts | src/ESBManager.cpp:355-357 | counter and log of a shared bundle grow by the number of emitted names that lead to it |
| Bundles.NotesWrittenOut | src/ESBManager.cpp:347-375 | the same count for shared bundles, over all their names |
| Bundles.RestartedAt | src/ESBManager.cpp:355-357 | counter and log of each bundle grow by its number of emissions |
| Bundles.RestartsAreConserved | src/ESBManager.cpp:355-357 | the counters together grow by the number of ids emitted |
| Monitor.MonitorService.constructor | src/ESBManager.cpp:246-248 | the monitor starts ready, with no command running, no snapshot and no last command |
| Monitor.MonitorService.GogoReady | src/ESBManager.cpp:543-548 | sets the ready flag and nothing else |
| Monitor.MonitorService.FireCommandOperationInProgress | src/ESBManager.cpp:555-560 | sets the running flag and nothing else |
| Monitor.MonitorService.OnTick | src/ESBManager.cpp:412-480 | one round of the monitor loop takes exactly the tick step of the model |
| Monitor.MonitorService.OnList | src/ESBManager.cpp:416-443 | the list branch: read the listing, bring the snapshot up to date, emit the start string |
| Monitor.MonitorService.TakeOver | src/ESBManager.cpp:424-432 | the snapshot is set when there is none and replaced only when its size differs |
| Monitor.MonitorService.ComputeStarts | src/ESBManager.cpp:439-443 | the start string comes from the snapshot, whose bundles note their restarts |
| Monitor.TickKeepsOk | src/ESBManager.cpp:412-480 | every tick keeps the invariant of the monitor |
| Monitor.EveryRunIsOk | src/ESBManager.cpp:410-485 | in every run: the fired commands are list, start, stop, info over and over; a start uses the ids of the list just before it; the snapshot has the size of the latest listing; every counter counts the emissions since the snapshot was taken over |
| Monitor.FiredOnGatedTicks | src/ESBManager.cpp:412-414 | commands are fired on ticks that find the container ready and no command running, one each but for the very first such tick, and never taken back |
| Monitor.ReadyIsLastSet | src/ESBManager.cpp:543-553 | over any run the ready flag is what it was last set to |
| Monitor.InProgressIsLastSet | src/ESBManager.cpp:555-565 | so is the flag of a running command |
| Monitor.ShutGateHoldsAll | src/ESBManager.cpp:412-414 | as long as the container is not ready or a command is running, no number of ticks changes anything |
| Monitor.OpenGateFiresAll | src/ESBManager.cpp:412-480 | as long as it is ready and none is running, every tick fires one command |
| Monitor.ListConservesRestarts | src/ESBManager.cpp:424-443 | a list raises the counters together by the number of ids it emits |
| Freshness.FreshnessIsExact | src/ESBManager.cpp:424-443 | a list emits the ids of its listing, for every listing of a size that can be received, if and only if that is not the size of the snapshot, or is zero, or no configured name can be listed |
| Freshness.FreshnessInRuns | src/ESBManager.cpp:410-485 | the same in every state the monitor gets into |
| Freshness.SameSizeKeepsIds | src/ESBManager.cpp:424-443 | in every run in which no listing changes its size, every list emits the ids of the snapshot the run began with |
| Freshness.ListingDecidesUntilSizeChanges | src/ESBManager.cpp:424-443 | a listing of a new size decides the ids of its own list and of all later ones, until the size changes again |
| Freshness.SecondListRepeatsFirst | src/ESBManager.cpp:410-485 | run from the beginning, the monitor fires list, start, stop, info and list, and the second list has the ids of the first whenever the two listings have the same size |
| Freshness.StaleRun | src/ESBManager.cpp:424-443 | a run from the beginning, with two outputs read by one list parser, for any bundle that should start: it is emitted again although the second listing says that it has started |

## Left out

- Sockets, the resolver, signals, the internals of Asio, threads and mutexes: completions are events
  with arbitrary results. `async_write` is one operation; its partial writes are not modelled, nor is
  the `shutdown` that follows a successful write, whose error is ignored.
- Opening files: the store is a map, and it does not change while one handler runs.
- `popen`, `Sleep`, `sprintf` and its 1024-byte buffers: commands are values, and their output is an
  argument.
- The JSON configuration and both regular expressions: the configuration is an argument, and the list
  parser is an arbitrary function from a line to its fields.
- Substitution.ReplaceMarks: requires that the loop ends, since the code has no guard. For values in
  which no character is rarer than in the mark and which do not hold it, no condition for ending is
  given other than that it ends: termination there is termination of a one-rule string rewriting
  system.
- OrderOfKeys.SimultaneousIsExact: for templates in which no key has two marks. With repeated marks
  separation is sufficient (`Templates.SequentialIsSimultaneous`), but not necessary, because the
  marks of one key all get the same value.
- Substitution.StartupCommand: requires of each key in turn that its loop ends.
- Bundles.RestartsAreConserved: the total is stated for maps in which no bundle goes by two names, the
  only ones listings give; for shared bundles `Bundles.NotedCounts` counts bundle by bundle.
- The dead and failed bundle lists are computed but not used by `BuildBundlesToStart`; how they are
  computed is not modelled.
- Integer width other than that of the version numbers: content lengths and restart counters are
  unbounded.
- Only the fields a command carries are kept of it, not its text with user name, password and working
  directory.
- The `startWholly` branch with `Start`, which launch a process and never hand over to the monitor;
  `SystemInfo`, `AppStatusHandler`, `BundleMetricsHandler`, the lifetime of `Bundle` objects, and the
  functions marked "To do".
- The phrases of the status lines and the texts of the stock pages are constants. Of a phrase only its
  being within the line is proved, except for those of 200, 400 and 404.
- `include/openssl`, `include/rapidjson`, `rapidjson`: vendored code.
