# Join server: a verified model

`join_server` is a join engine over two tables, together with a small asynchronous HTTP server. This
project models the four parts of it that carry real invariants and proves what they promise.

**The request parser** (`Octets`, `RequestMachine`, `RequestParsing`, `RequestGrammar`,
`RequestAccepts`, `RequestSound`, `RequestTheorems`, `RequestUnique`, `RequestSamples`,
`ParserReuse`). `RequestParser.Consume` and `Parse` are the source's methods on an object;
`RequestMachine.Step` and `Run` are their specification. `RequestGrammar` is an independent reference:
derivation trees for the request syntax of RFC 1945 (sections 2.2, 3.1, 4.2 and 5.1) as the code narrows
it, with the text a tree derives and the request it denotes. The machine and the grammar are proved to
agree in both directions, and the grammar to be unambiguous. The grammar follows the code where it
departs from the standard: exactly one SP after the colon, a target that may be empty, bytes from 128 up
in targets and values but not in tokens, folded lines joined with nothing between them, and TAB only at a
fold. `Octets.ClassMembers` and `RequestSamples` tie the bytes that both share to characters. `reset`
returns the parser to its initial state and leaves the request alone; `ParserReuse.ResetIffCleared` says
exactly when parsing then goes as with new objects.

**The storage** (`JoinSpec`, `OrderedSets`, `JoinStorage`, `JoinLaws`, `StorageClients`,
`Linearizability`, `ClientProgress`). `JoinSpec` defines both joins on two maps. `Storage` is the class
with its ordered sets, merge loops, linear search and row assembly; each method is tied to the maps.
`StorageClients` cuts every operation into the small steps that run between taking and releasing the
mutex, and ties the operations one at a time to the class. `Linearizability` interleaves any number of
clients and relates what they call and are answered to one sequential order; `ClientProgress` says that
they all get their answers. `JoinLaws` states what an insertion, a truncation and the pair of results say
about the tables.

**The server protocol** (`Lifecycle`, `LifecycleLaws`, `HandlerLaws`, `Connections`, `HttpServers`).
`Lifecycle` is the state machine: completion handlers are atomic steps, and between them pending
operations finish. `LifecycleLaws` proves invariants of every reachable state and that shutdown drains.
`HandlerLaws` states what each handler does and that every request, however cut, can be served.
`Connection`, `ConnectionManager` and `HttpServer` are the source's objects; their handlers are proved to
be exactly the steps of the state machine, and `HttpServer.Run`, the event loop over any schedule, to
keep to it.

**Requests to replies** (`UrlDecoding`, `Paths`, `Replies`, `RequestHandling`). Percent-decoding by the
loop with its skipping index, the path checks, and the reply on the wire.

## Assumptions

- `names_` holds references to elements of a `std::vector` that grows while the constructor runs
  (`src/storage.cpp:66-70`); such references do not survive a reallocation. The model has the intended
  meaning: a name stands for a table index.
- A pending operation is in flight, and then closing its socket aborts it, or it is queued with a
  result that closing does not change. An operation issued on a closed socket fails. Only a close
  aborts.
- `is >> std::hex >> value` is defined for two hexadecimal digits. For any other pair it is an
  arbitrary partial function, a parameter of every theorem that mentions decoding.
- The file system is an arbitrary partial function from names to contents, and does not change while
  a reply is made.
- Version numbers are mathematical integers.
- Where the content type is concerned the document root, a command-line argument, has no NUL in it.

## Where the code and its documentation differ

- `README.md` of the repository asks that long set operations should not block (lines 170-172).
  `intersection` and `symmetric_difference` hold the mutex from start to end.
  `Linearizability.JoinBlocksInsert` is a run in which an insertion cannot start because of a join;
  `BlockedIffHeld` says that a called operation has to wait exactly while some client is inside, and
  `BlockedUntilUnlock` that nobody gets in before the holder leaves, however long its join takes.
- `server::run` says that an accept is always outstanding while the server runs.
  `LifecycleLaws.RunsWithoutAccept` is a run that ends with none while the aborted read of a connection
  is still to be handled; `NoAcceptIff` says that none is pending exactly when the handler of an accept
  has run after the stop handler.

## Limits worth knowing

- The two results do not always tell the tables apart. `JoinLaws.EmptyNameMoves` gives, for any tables in
  which an unshared id has an empty name, other tables with the same results; `JoinLaws.Determined`
  says that this is the only case.
- The content type goes by the extension of the whole path, the file that is opened by the path up to its
  first NUL. `RequestHandling.ContentTypeOfCut` is a path where they differ, and
  `Paths.ExtensionOfOpened` says exactly when the extension is that of the name opened.

## Model

| member | source | states |
|---|---|---|
| Octets.SignIndependence | example/server/request_parser.cpp:285-312 | the character classes do not depend on whether `char` is signed |
| Octets.AsIntMeets | example/server/request_parser.cpp:285-312 | the int a `char` converts to has its bits and is in the range of a signed or unsigned `char` |
| Octets.ClassMembers | example/server/request_parser.cpp:285-312 | a token byte is a letter, a digit or one of the listed marks; a text byte is any from 32 but 127; and so for every class |
| Octets.NamedBytes | example/server/request_parser.cpp:29-282 | the characters of the bytes that machine and grammar name |
| RequestSamples.HighByte | example/server/request_parser.cpp:63-71 | a byte from 128 up is taken into a target or a value and refused everywhere else |
| RequestSamples.Sample | example/server/request_parser.cpp:27-283 | a request spelt in characters, with a fold, a blank continuation line, leading zeros and an empty value, gives the request spelt in characters |
| RequestParsing.RequestParser.Consume | example/server/request_parser.cpp:27-283 | one byte moves the parser and the request as the transition function says; on an answer both stay as they were |
| RequestParsing.RequestParser.Parse | example/server/request_parser.hpp:38-49 | the answer, the number of bytes consumed and the request built are those of the run over the input |
| RequestParsing.RequestParser.Reset | example/server/request_parser.cpp:22-25 | the state is the initial one |
| ParserReuse.ResetIffCleared | example/server/request_parser.cpp:22-25 | a reset parser gives the results of a new one on all inputs if and only if method, target and headers of the request are cleared too |
| ParserReuse.FreshAlike | example/server/request_parser.cpp:112-118 | the version fields a cleared request happens to hold never influence a result |
| RequestMachine.RunAppend | example/server/request_parser.hpp:38-49 | input fed in two chunks gives the result of the concatenation |
| RequestAccepts.Accepts | example/server/request_parser.cpp:27-283 | completeness: every derivable text is accepted with the request it denotes, and what follows it is not read |
| RequestSound.Grows | example/server/request_parser.cpp:29-279 | each accepted byte extends a derivation tree under construction whose text is the input so far |
| RequestSound.Sound | example/server/request_parser.cpp:27-283 | soundness: whatever is accepted has a derivation that denotes the request built |
| RequestTheorems.Decides | example/server/request_parser.cpp:27-283 | good after k bytes with request r, if and only if the first k bytes have a derivation that denotes r |
| RequestTheorems.GoodIffInLanguage | example/server/request_parser.cpp:27-283 | good after k bytes if and only if the first k bytes are in the language |
| RequestTheorems.PrefixFree | example/server/request_parser.cpp:278-279 | no request is a proper prefix of another |
| RequestUnique.Unambiguous | example/server/request_parser.cpp:27-283 | a text of the language has one derivation, so folds, digits and separators can be read in one way only |
| RequestTheorems.CompletionAccepted | example/server/request_parser.hpp:68-90 | every state of the parser has a suffix that leads to good |
| RequestTheorems.CompletionShortest | example/server/request_parser.cpp:29-282 | and no input that leads from the state to good is shorter |
| RequestTheorems.IndeterminateIffViable | example/server/request_parser.hpp:42-48 | indeterminate if and only if some longer input is a request |
| RequestTheorems.BadIffFirstDead | example/server/request_parser.cpp:29-282 | bad after k bytes if and only if k is the first length at which no continuation is a request |
| RequestTheorems.ReceivableIffWellFormed | example/server/request_parser.cpp:27-283 | some input makes the parser answer good with request r, if and only if r is well formed |
| RequestTheorems.RoundTrip | example/server/request_parser.hpp:38-49 | a printed request followed by any bytes parses to the same request, stopping where those bytes begin |
| RequestTheorems.Normalisation | example/server/request_parser.cpp:124-279 | the canonical text of any accepted request, however folded or zero-padded it arrived, parses back to it and is consumed whole |
| RequestTheorems.HeaderBlockRoundTrip | example/server/request_parser.cpp:186-279 | a header block with content after it parses, from the start of a header line, to the same headers and stops at the content |
| OrderedSets.EmplaceMap | include/storage.h:28-30 | insertion into a set ordered by id adds a fresh id, and leaves the set as it is otherwise |
| OrderedSets.SetIntersection | src/storage.cpp:40-42 | the loop computes the merge of what is left of both inputs |
| OrderedSets.SetSymmetricDifference | src/storage.cpp:56-59 | the loop computes the merge of what is left of both inputs |
| OrderedSets.MergeBothMeets | src/storage.cpp:40-42 | the merge is ascending and holds exactly the common ids |
| OrderedSets.MergeOneMeets | src/storage.cpp:56-59 | the merge is ascending and holds exactly the ids of one input only |
| JoinStorage.ExtractedKeys | src/storage.cpp:85-93 | the merges of the two key vectors are the sorted shared and unshared ids of the two maps |
| JoinStorage.Storage.constructor | src/storage.cpp:5-9 | two empty tables named A and B |
| JoinStorage.Storage.AddTable | src/storage.cpp:66-70 | one more empty table, and its name if that name is new |
| JoinStorage.Storage.Insert | src/storage.cpp:11-20 | true exactly for a known table without that id; then that table gains the row and the other one is unchanged |
| JoinStorage.Storage.Truncate | src/storage.cpp:22-31 | true exactly for a known table, which is then empty; the other one is unchanged |
| JoinStorage.Storage.ExtractKeys | src/storage.cpp:85-93 | the ids of each table in order |
| JoinStorage.Storage.FindName | src/storage.cpp:72-83 | found exactly when the table has the id, and then with its name |
| JoinStorage.Storage.FillResult | src/storage.cpp:95-111 | the rows assembled for any keys, inserted one after the other |
| JoinStorage.AssembledRows | src/storage.cpp:95-111 | for any keys the result is in order of id and holds exactly the first row of each id, a key of no table counting as id 0 |
| JoinStorage.UnknownKey | src/storage.cpp:99-109 | a key of no table gives an empty row with id 0 |
| JoinStorage.AssembledTable | src/storage.cpp:95-111 | for ascending keys that are in some table it is one row for each key, in order |
| JoinStorage.Storage.Intersection | src/storage.cpp:33-47 | the merges, searches and row assembly give the intersection defined on the two maps |
| JoinStorage.Storage.SymmetricDifference | src/storage.cpp:49-64 | the same for the symmetric difference |
| JoinLaws.JoinMembers | src/storage.cpp:33-64 | a row is in a join exactly when its id is in both tables with both names, or in one table with one field empty |
| JoinLaws.JoinOrder | include/storage.h:41-43 | both results are in strictly ascending order of id |
| JoinLaws.Partition | src/storage.cpp:33-64 | the ids of the results are those of the tables, and no id is in both results |
| JoinLaws.Conservation | src/storage.cpp:33-64 | the table sizes add up to twice the intersection plus the symmetric difference |
| JoinLaws.InsertIntoA | src/storage.cpp:11-20 | a fresh id moves its row to the intersection or adds a half-empty row, and no other row changes |
| JoinLaws.InsertIntoB | src/storage.cpp:11-20 | the same for the other table |
| JoinLaws.Mirror | src/storage.cpp:33-64 | exchanging the tables exchanges the two fields of every row and changes nothing else |
| JoinLaws.Truncated | src/storage.cpp:22-31 | after a truncation nothing is shared and the other table is the symmetric difference |
| JoinLaws.Reconstruction | src/storage.cpp:95-111 | reading the columns of the two results gives back both tables if and only if no unshared id has an empty name |
| JoinLaws.EmptyNameMoves | src/storage.cpp:95-111 | an unshared id with an empty name may be moved to the other table without changing either result |
| JoinLaws.Determined | src/storage.cpp:33-64 | no other pair of tables has the same two results if and only if no unshared id has an empty name |
| StorageClients.Perform | src/storage.cpp:11-64 | the sequential operations on two maps are the methods of the storage object: the same answer and the same tables |
| StorageClients.WorkKeeps | src/storage.cpp:11-64 | every small step keeps an operation on course to the answer of the sequential operation |
| StorageClients.ToEnd | src/storage.cpp:11-64 | the work under the mutex ends, with the answer and the tables of the sequential operation |
| Linearizability.RunKeeps | src/storage.cpp:11-64 | the invariant holds after any interleaving, and the log only grows |
| Linearizability.Linearizable | src/storage.cpp:11-64 | for any clients and any interleaving, every answer a client is given is that of its call in a sequential run over two maps; that run is in the order in which the mutex was taken and has the calls of each client in order, all but one it is still at |
| Linearizability.LockOrder | src/storage.cpp:13-13 | the operations are logged in the order of the lock events, the one inside being next |
| Linearizability.RealTime | src/storage.cpp:11-64 | an operation whose answer was delivered comes in that order before every operation called later |
| Linearizability.MutualExclusion | src/storage.cpp:13-13 | at most one client is between taking and releasing the mutex |
| Linearizability.HolderCanStep | src/storage.cpp:13-13 | the holder of the mutex always has a next step |
| Linearizability.BlockedIffHeld | src/storage.cpp:35-35 | a called operation cannot take the mutex if and only if some client is inside |
| Linearizability.BlockedUntilUnlock | src/storage.cpp:35-46 | until the holder releases the mutex nobody takes it |
| Linearizability.JoinBlocksInsert | src/storage.cpp:13-35 | a run in which an insertion waits for an intersection |
| ClientProgress.CallsEnd | src/storage.cpp:11-64 | from a reachable state, runs in which no client calls are bounded in length |
| ClientProgress.AllAnswered | src/storage.cpp:11-64 | nothing but a call is possible if and only if every client has had its answer |
| ClientProgress.EveryCallCanBeAnswered | src/storage.cpp:11-64 | an idle client can call anything in every reachable state, and a run answers it and all others |
| Connections.Connection.Start | example/server/connection.cpp:28-31 | the first read is issued |
| Connections.Connection.Stop | example/server/connection.cpp:33-36 | the socket is closed and what was in flight is aborted |
| Connections.Connection.DoRead | example/server/connection.cpp:38-41 | one more read is pending |
| Connections.Connection.DoWrite | example/server/connection.cpp:72-75 | one more write is pending, of the serialised reply |
| Connections.Connection.HandleRead | example/server/connection.cpp:42-69 | the handler is the protocol's read step, on the object and on the manager's set |
| Connections.Connection.HandleWrite | example/server/connection.cpp:76-90 | the handler is the protocol's write step, on the object and on the manager's set |
| Connections.ConnectionManager.Start | example/server/connection_manager.cpp:20-24 | the connection joins the set and reads |
| Connections.ConnectionManager.Stop | example/server/connection_manager.cpp:26-30 | the connection leaves the set and is closed |
| Connections.ConnectionManager.StopAll | example/server/connection_manager.cpp:32-37 | every connection of the set is closed, each once, and the set is empty |
| HttpServers.HttpServer.constructor | example/server/server.cpp:18-46 | the objects are in the protocol's first state |
| HttpServers.HttpServer.DoAccept | example/server/server.cpp:57-59 | one more accept is pending |
| HttpServers.HttpServer.DoAwaitStop | example/server/server.cpp:79-81 | one more wait for a signal is pending |
| HttpServers.HttpServer.HandleAccept | example/server/server.cpp:60-76 | the handler takes the objects to the protocol's next state for an accept |
| HttpServers.HttpServer.HandleStop | example/server/server.cpp:82-89 | the handler takes the objects to the protocol's next state for a stop |
| HttpServers.HttpServer.DispatchConnection | example/server/server.cpp:48-55 | running a connection's handler takes the objects to the protocol's next state and touches no other connection |
| HttpServers.HttpServer.Turn | example/server/server.cpp:48-55 | whatever completes or runs next, the objects go to a next state of the protocol |
| HttpServers.HttpServer.Run | example/server/server.cpp:48-55 | over any schedule the objects end in a reachable state: a connection is managed exactly while its socket is open, then with one pending operation, and an open acceptor has one pending accept |
| HttpServers.HttpServer.CanHappenIffEnabled | example/server/server.cpp:48-55 | a schedule can have every event the protocol allows, and nothing else |
| Connections.Connection.Complete | example/server/connection.cpp:41-42 | an operation in flight ends with an outcome and nothing else changes |
| LifecycleLaws.StepKeeps | example/server/connection.cpp:38-91 | every step of the environment or a handler keeps the invariant |
| LifecycleLaws.NoLeakedConnections | example/server/connection_manager.cpp:20-37 | in every reachable state a connection is in the set if and only if its socket is open, and then has exactly one pending operation |
| LifecycleLaws.BufferStability | example/server/reply.hpp:52-55 | while a write is pending it is the only operation, its buffers are those of the reply, and that reply is the one sent |
| LifecycleLaws.NoReadAfterReply | example/server/connection.cpp:50-63 | once a reply has begun no read is pending, so no byte is parsed |
| LifecycleLaws.ReceivedIsDelivered | example/server/connection.cpp:42-48 | the bytes a connection has received are those of all its successful reads that were handled, in order |
| LifecycleLaws.RepliesByBytes | example/server/connection.cpp:38-70 | for the bytes delivered by the reads of the run there is at most one reply: none while they can become a request, the handler's for the request they begin with, else the bad-request one |
| LifecycleLaws.BytesWritten | example/server/connection.cpp:72-75 | the bytes of a pending write are those of the reply that the delivered bytes call for |
| LifecycleLaws.SameBytesSameReply | example/server/connection.cpp:38-70 | equal delivered bytes give equal replies however reads split them, in any two runs |
| LifecycleLaws.SameBytesWritten | example/server/connection.cpp:72-75 | and the bytes written for them are equal |
| LifecycleLaws.AcceptorArmed | example/server/server.cpp:57-77 | exactly one accept and one signal wait are pending while the acceptor is open; when it is closed no connection is managed |
| LifecycleLaws.OneConnectionEach | example/server/server.cpp:64-73 | there are as many connections as successful accepts were handled while the acceptor was open |
| LifecycleLaws.NoAcceptIff | example/server/server.cpp:50-76 | no accept is pending if and only if the handler of one has run after the stop handler |
| LifecycleLaws.RunsWithoutAccept | example/server/server.cpp:50-54 | a run that ends without an accept while a connection's handler is still to run |
| LifecycleLaws.DrainStep | example/server/server.cpp:84-88 | after the stop handler every step lowers the pending work |
| LifecycleLaws.StaysClosed | example/server/server.cpp:62-67 | after the stop handler no step re-arms an accept or adds a connection, even when a successful accept was already queued |
| LifecycleLaws.QuietIffStuck | example/server/server.cpp:48-55 | nothing is pending if and only if no step is possible, which is never so while the acceptor is open |
| LifecycleLaws.Drains | example/server/server.cpp:79-90 | steps taken since the stop handler plus work still pending never exceed the work pending then |
| LifecycleLaws.ShutdownEnds | example/server/server.cpp:79-90 | every run past the stop handler ends within two steps per connection and one more |
| LifecycleLaws.ShutdownEmpties | example/server/connection_manager.cpp:32-37 | past the stop handler no connection is managed, the acceptor stays closed and none is added |
| LifecycleLaws.ShutdownDrains | example/server/server.cpp:84-86 | a run past the stop handler that cannot go on has nothing pending |
| HandlerLaws.ReadHandled | example/server/connection.cpp:42-69 | a successful read adds its bytes; then the connection reads on or writes the reply to all its bytes, and nothing else in the server changes |
| HandlerLaws.ConnectionEnds | example/server/connection.cpp:65-90 | a failed read and a write that succeeded or failed leave the connection closed, unmanaged and with nothing pending |
| HandlerLaws.AbortIgnored | example/server/connection.cpp:65-65 | the handler of an aborted operation does nothing, and the connection is not managed |
| HandlerLaws.AcceptHandled | example/server/server.cpp:60-76 | a successful accept adds one managed connection with a pending read, a failed one none; then the next accept is pending; once the acceptor is closed nothing follows |
| HandlerLaws.StopHandled | example/server/server.cpp:82-89 | everything is closed, what was in flight is aborted and what was queued keeps its result |
| HandlerLaws.CanBeServed | example/server/connection.cpp:38-91 | whatever bytes begin with a request, and however they are cut up to there, some run delivers them, writes the handler's reply and closes the connection |
| HandlerLaws.CanFetch | example/server/request_handler.cpp:27-79 | for any writing of an admitted path and of the request, what can be written to the client says 200 and has the file after the header block |
| UrlDecoding.UrlDecode | example/server/request_handler.cpp:81-118 | the loop succeeds exactly when the specification does, with its result |
| UrlDecoding.DecodeEncode | example/server/request_handler.cpp:81-118 | decoding undoes every encoder, and the input is longer by two bytes for each escape |
| UrlDecoding.DecodesIffEncoded | example/server/request_handler.cpp:81-118 | the input decodes to `out` if and only if it is an encoding of `out` |
| UrlDecoding.EveryByteEscapes | example/server/request_handler.cpp:91-97 | any byte may be escaped, in digits of either case |
| UrlDecoding.HexDigits | example/server/request_handler.cpp:91-97 | the value of each hexadecimal digit in either case, and of no other character |
| UrlDecoding.DecodeSample | example/server/request_handler.cpp:81-118 | "/%2Da+b%2f" decodes to "/-a b/" |
| Paths.AdmittedIff | example/server/request_handler.cpp:37-43 | a path is admitted if and only if it begins with "/" and ".." is nowhere in it |
| Paths.SegmentsJoined | example/server/request_handler.cpp:37-43 | the segments are the pieces between the slashes |
| Paths.ResolveMore | example/server/request_handler.cpp:37-43 | "" and "." do not move, a name goes down and ".." comes back |
| Paths.Confined | example/server/request_handler.cpp:37-49 | every cut of an admitted path, appended to a directory, resolves to that directory or to something reached from it without going up, and is absolute or relative as the directory is |
| Paths.ParentIsOutside | example/server/request_handler.cpp:37-43 | the parent of a directory is not below it, whatever the directory |
| Paths.OpenedBelowRoot | example/server/request_handler.cpp:37-62 | the name that is opened, cut at its first NUL, resolves below the document root |
| Paths.ExtensionOfLastSegment | example/server/request_handler.cpp:51-58 | the extension is what follows the last dot of the last segment, or nothing |
| Paths.ExtensionOfOpened | example/server/request_handler.cpp:51-62 | the extension is that of the name opened if and only if what a NUL cuts off keeps it |
| Paths.CutLosesExtension | example/server/request_handler.cpp:51-62 | for "/a", a NUL and ".gif" the extension is "gif" and that of the name opened is empty |
| RequestHandling.RequestHandler.ExtensionOf | example/server/request_handler.cpp:51-58 | the computed extension is the specified one |
| RequestHandling.RequestHandler.AppendFile | example/server/request_handler.cpp:71-73 | reading in pieces of 512 appends the whole file |
| RequestHandling.RequestHandler.HandleRequest | example/server/request_handler.cpp:27-79 | the reply is that of the specification, on every path through the checks |
| RequestHandling.BadIffNotAdmitted | example/server/request_handler.cpp:29-43 | a request is refused as bad, with the stock page, if and only if no encoder writes an admitted path as its target |
| RequestHandling.FileServed | example/server/request_handler.cpp:45-75 | however an admitted path is written, its file or its directory's index page is served whole, and not found if there is none |
| RequestHandling.FileOnTheWire | example/server/request_handler.cpp:69-78 | the bytes after the parsed header block of such a reply are the file |
| RequestHandling.MimeTypes | example/server/request_handler.cpp:78-78 | the content type for every extension |
| RequestHandling.ContentTypeOfOpened | example/server/request_handler.cpp:51-78 | without a NUL in the path the content type is that of the extension of the file opened |
| RequestHandling.ContentTypeOfCut | example/server/request_handler.cpp:51-78 | for that path the type is "image/gif" and that of the name opened "text/plain" |
| RequestHandling.OnlyBelowRootMatters | example/server/request_handler.cpp:60-73 | two file systems that agree below the document root give the same replies to every request |
| RequestHandling.RepliesDelimited | example/server/request_handler.cpp:69-78 | every reply has well-formed headers, and its Content-Length is the length of its content |
| Replies.ToBuffers | example/server/reply.cpp:102-117 | the status line, four buffers for each header, the blank line and the content, in this order |
| Replies.BuffersFlatten | example/server/reply.cpp:102-117 | one after the other the buffers are the bytes of the reply |
| Replies.StatusOnTheWire | example/server/reply.hpp:24-42 | a reply begins with the protocol and the three digits of its status |
| Replies.HeadersReadBack | example/server/reply.cpp:102-117 | the header block of a reply, parsed by the request parser, gives the same headers and ends where the content begins |
| Replies.StockReplyDelimited | example/server/reply.cpp:241-252 | a stock reply carries the decimal length of its page |
| Replies.StockReplyShows | example/server/reply.cpp:119-252 | a stock reply has its status and, but for 200, a page with its phrase as title and heading |
| Replies.DelimitedOnTheWire | example/server/reply.cpp:241-252 | the bytes left after the parsed headers are as many as the first header says |
| Octets.DecimalDenotes | example/server/reply.cpp:248-248 | a decimal numeral denotes the number it was made from |
| Octets.DecimalShortest | example/server/reply.cpp:248-248 | and has no leading zero |
| Octets.NumeralAppend | example/server/request_parser.cpp:124-146 | in a numeral each digit counts ten times the next |

## Left out

- The balanced tree inside `std::set`: only its contents in order are modelled.
- `buffer_` of a connection: the read handler is given the received bytes (at most 8192) instead of finding them in an array.
- `async_write` as several partial writes: a write is one operation.
- The names of sockets, errors other than aborted, signals, address resolution and the effect of `shutdown` on the peer.
- Overflow of the version counters, which are `int` in the source.
- The `default` branches of the status tables: a status is one of the sixteen enumerators.
- `src/server.cpp`: its sessions start overlapping reads and writes on one buffer, so no framing invariant holds.
- `include/commands.h`, `src/processor.cpp`, `include/resultprinter.h`, `include/interpreter.h`, factories, logging, both `main.cpp` files and `sandbox/`: stubs, wrappers and plumbing.
