# A model of the HTTP server, and what it guarantees

The repository is a small multithreaded HTTP server: one thread accepts connections and puts them on a stack, twenty
workers take them off and answer GET requests from a directory. This project models the parts of it that are its own
logic and proves what they promise.

| layer | modules |
|---|---|
| text searching, parsing, splitting, message building | `Text`, `HttpPacket`, `PacketParse`, `RequestLine`, `Splitting`, `HttpMessages` |
| reading and writing over a transport that takes and gives any pieces | `Transport`, `Framing` |
| one worker: GET processing, the keep-alive loop, one socket after another | `StopTokens`, `Session`, `Delivery`, `SessionRefinement`, `Pipelining`, `SessionHistory`, `Workers`, `Connections`, `Answers` |
| the stack between the threads | `SocketStack` |
| all threads together, as steps that interleave in any order | `Protocol`, `WakeUps`, `Ownership`, `Lifo`, `Shutdown`, `AfterStop`, `Runs`, `CriticalSection`, `Waiting` |
| the bytes of a session, and a whole worker, as steps of the protocol | `Simulation`, `WorkerRuns` |
| all threads with all their bytes | `Threads`, `Worlds` |
| descriptors, listeners and the epoll set | `Descriptors`, `Listener` |

`dafny verify dfyconfig.toml` checks everything.

## How the code is represented

- A `char` stands for a C++ `char`, a `string` for a `std::string`, `None` for `npos`. C++ exceptions are the `Thrown`
  case of `Outcome`: `ParseException` with its text, `NetException` with its text, `std::out_of_range`.
- The kernel behind a descriptor is the value `Net`. Its fields `arrivals`, `answers` and `alive` hold what `recv`,
  `send` and `select` have yet to answer, so a lemma about every `Net` is about every behaviour of the kernel. When
  they run out, `recv` reports the end of the stream, `send` takes everything and `select` finds the socket readable.
  `log` is the history. `SSL_read` and `SSL_write` are the same with other answers.
- A stop token is the number of tests it has yet to answer "no" (`StopToken.polls`).
- The directory is a fixed map from paths to contents. A path reaches it through `c_str()`, which ends at the first NUL.
- Methods with loops over classes follow the imperative code (`Read`, `Write`, `Split`, `Parse`, `ProcessGET`, the loops
  of `Worker`, the stack, the server, moves of sockets). Each is tied to a function of the old state, and the lemmas
  are about those functions.
- `Protocol` has a phase for each point where another thread can come in between: taking the mutex, testing the
  predicate, sleeping, waking, taking the mutex again, testing stop, popping. `stop` may be requested at any moment, as
  it does not take the mutex. `wait_for` is the loop of the C++ standard, [thread.condvarany.intwait].

## What the code does that one might not expect

Each of these is a property one would expect and that fails. The first lemmas named give an input on which it fails, the
later ones the condition under which it holds.

- "The response announces whether the connection stays open." Every file is answered with `Connection: keep-alive`
  (Worker.cpp:53). `SaysKeepAliveAndCloses` is a client that did not ask for it; `ClientIsLeft` is the repository's own
  client, which did, and is left because stop is seen next, or because it is idle for longer than `select` waits.
  `HeaderIsTrue`, for every turn of every session that answers a GET: the response announces whether the loop will come
  back to the socket if and only if it is a refusal, or the request asks for keep-alive, Write returns a positive count
  and the next test of stop does not say yes; and whether another request will be read if and only if it is a refusal,
  or, besides, the socket is then found alive and another packet arrives.
- "The headers decide the keep-alive verdict." `ExtractField` searches the whole buffer, the request line included, and
  its search for a space can cross a line end. `ClosedByItsQuery` is a request closed because of its query.
  `HeadersDecide` and `RequestLineDecides`: the headers decide, whatever they are, if and only if the request line does
  not contain "Connection".
- "A served file went out whole, and one that failed did not." `ProcessGET` takes any positive count of `Write` for
  success, and `Write` makes a last send of no bytes, whose failure makes a message that has gone out whole count as
  failed. `PartIsSuccess` and `WholeIsFailure` are the two inputs. `FileOutcome` says exactly when, and `WholeFile`:
  success and the whole file go together if and only if the last send is of no bytes and does not fail.
- "Each request a client sends is one packet." `Read` looks for the empty line only between receives. `TwoInOne`: two
  requests in one piece are one packet. `WhenRequestsAreToldApart`: the packets are the requests if and only if each
  request ends where a piece ends, or fills the buffer.
- "A bad request ends its connection." An exception ends the whole worker: the `try` is outside the loop
  (Worker.cpp:70-133). `OneRequestEndsTheWorker` is a request that HTTP allows, with `Connection:close`, without a space;
  `UnknownExtensionEndsTheWorker` is GET /index.php.
  `RequestsThatRaise`, `SessionsThatRaise` and `WorkersThatDie`: a worker ends by an exception if and only if, in its
  last session, the loop gets as far as a packet that `Parse` does not take (`ParseErrors` says which) or a GET of an
  acceptable path whose extension is not in the table.
- "Nothing is popped after stop." `StopMayOvertakeAPop` is a run in which something is. `WhenAPopIsLate`: after stop an
  entry may still be popped if and only if a worker has passed its test of stop and the stack is not empty;
  `AtMostOneLatePop`: at most one socket in any run. It is dropped without being served.
- "A destroyed socket has closed its descriptor." `TlsStaysOpen`, for every run: if and only if it is a plain one.
  `TLSSocket` never closes (TLSSocket.cpp:8-13).

Besides, as the contracts of `ServerSocket.Assign` and `ChoiceMeans` say: `ServerSocket::operator=` does not close the
descriptor it overwrites, and an object moved to itself loses its own; `WaitClients` takes the first event of a batch
only, and leaves the others to the next call of epoll.

## Model

| member | source | states |
|---|---|---|
| HttpPacket.ExtractFieldMeans | HTTPPacket.cpp:14-30 | For every buffer and field: empty if the field does not occur; `out_of_range` if and only if no space with a later non-space follows its first occurrence; otherwise what lies between the first run of spaces after it and the next CRLF or the end of the buffer |
| HttpPacket.ExtractSkips | HTTPPacket.cpp:16-29 | Text in front in which no occurrence of the field starts does not change the result |
| HttpPacket.ExtractPrinted | HTTPPacket.cpp:14-30 | Reading back a printed `name: value` line gives the value without the spaces before it |
| HttpPacket.IsBlankLineMeans | HTTPPacket.cpp:32-42 | True if and only if the first `offset` bytes end with CRLFCRLF; never raises within the buffer |
| PacketParse.Packet.AddParam | HTTPPacket.h:34-38 | A name that is there keeps its value, as `map::insert` does |
| PacketParse.Parse | HTTPPacket.cpp:45-92 | The imperative parser agrees with the specification in packet and in error, for every buffer |
| PacketParse.VerdictMeans | HTTPPacket.h:50-58 | A Connection value keeps the connection if and only if it has ten characters, each the one of `keep-alive` or of `KEEP-ALIVE` at its place |
| PacketParse.ParsePrinted | HTTPPacket.cpp:53-85 | A printed request line, with any command, path, separator, rest and headers, parses to that command and path; only the Connection field can make it raise |
| PacketParse.PrintParsed | HTTPPacket.cpp:53-89 | Conversely every buffer that parses is such a printed request, with the command, path and Connection value that Parse returned |
| PacketParse.ParseErrors | HTTPPacket.cpp:54-89 | Each of the four errors is raised if and only if its cause is present and none of the earlier ones is |
| RequestLine.LineDecides | HTTPPacket.cpp:14-30 | For every CRLF-free request line that contains Connection and any headers: the value is what follows the first spaces after the name in the line, whatever the headers say; without a space there it is what follows the first spaces of the headers |
| RequestLine.LineIsSkipped | HTTPPacket.cpp:14-30 | A line that does not contain it has no influence on the value |
| RequestLine.HeadersDecide | HTTPPacket.cpp:14-30 | For every CRLF-free line: the value, and the keep-alive verdict, are those of the headers alone for all headers, if and only if the line does not contain Connection |
| RequestLine.RequestLineDecides | HTTPPacket.cpp:83-89 | The same condition, both ways, for the verdict of what Parse returns for any printed request line; what the verdict is of a value says `VerdictMeans` |
| RequestLine.ClosedByItsQuery | HTTPPacket.cpp:87-89 | GET /?Connection HTTP/1.1 with the header Connection: keep-alive is not kept alive, although its headers say so |
| RequestLine.QueryIrrelevant | HTTPPacket.cpp:73-89 | Two requests that differ in the query only parse alike, keep-alive verdict included, when the request line does not name Connection |
| RequestLine.QueryDecides | HTTPPacket.cpp:14-30 | For every request whose query part is the first to contain Connection: Parse returns its command and path, and as value what follows the next spaces, in the line if it has one, usually the version, and else in the headers |
| PacketParse.ParseOfPacket | HTTPPacket.cpp:54-89 | On a buffer that ends with CRLFCRLF: never the missing-CRLF error; `out_of_range` if and only if no space follows the first Connection; the value always ends at a CRLF |
| Splitting.Split | HTTPPacket.cpp:94-130 | The loop returns the lines of the buffer, which the next three rows characterise |
| Splitting.JoinOfSplit | HTTPPacket.cpp:94-130 | No piece holds a CRLF, and rejoining the pieces, with a last CRLF exactly if the buffer ends in one, rebuilds every non-empty buffer |
| Splitting.SplitOfJoin | HTTPPacket.cpp:94-130 | Splitting any joined list of CRLF-free lines, terminated or with a non-empty last line, returns the list |
| Splitting.DecompositionIsUnique | HTTPPacket.cpp:94-130 | Two joinable lists give the same buffer if and only if they are the same, termination included |
| HttpMessages.DecimalRoundTrip | HTTPPacket.cpp:164 | The printed size reads back as the size |
| HttpMessages.DecimalIsCanonical | HTTPPacket.cpp:164 | and has no zero in front |
| HttpMessages.Framing200 | HTTPPacket.cpp:160-173 | For every body and every content type without CR: the first CRLFCRLF ends the head, then come the body and CRLFCRLF and nothing else, Content-length read back is the size of the body, Connection is the flag (section 10.4 of RFC 1945, section 6.3 of RFC 9112) |
| HttpMessages.ContentType200 | HTTPPacket.cpp:160-173 | The content type is read back from the response |
| HttpMessages.Create200IsInjective | HTTPPacket.cpp:160-173 | Two responses are equal if and only if body, type and flag are |
| HttpMessages.Framing400 | HTTPPacket.cpp:175-182 | The same framing for the 400 page; its fixed length 11 is right |
| HttpMessages.Framing404 | HTTPPacket.cpp:184-194 | The same framing for the 404 page |
| HttpMessages.Status200 | HTTPPacket.cpp:162 | Read from the text, the first line is HTTP/1.0 200 OK and the status between its first two spaces 200, for every body, type and flag |
| HttpMessages.Status400 | HTTPPacket.cpp:177 | The same for HTTP/1.0 400 Bad Request and 400 |
| HttpMessages.Status404 | HTTPPacket.cpp:188 | The same for HTTP/1.0 404 Not Found and 404 |
| HttpMessages.ContentType404 | HTTPPacket.cpp:189 | The content type of the 404 page reads text/html |
| HttpMessages.ContentTypeMeans | HTTPPacket.cpp:201-227 | For every file name: the empty type without a dot; by what follows the last dot, each of the fourteen extensions has its listed type, and any other raises `out_of_range` |
| HttpMessages.TypedMeans | HTTPPacket.cpp:219-226 | A file name does not raise if and only if it has no dot or a listed extension after its last dot |
| HttpMessages.ContentTypesArePlain | HTTPPacket.cpp:201-227 | Every type of the table meets what `Framing200` and `ContentType200` ask for |
| HttpMessages.ClientRequest | HTTPPacket.cpp:142-153 | For every host and port without CR and without Connection, the client's request has CRLFCRLF only at its end and parses to GET, `/index.html`, keep-alive |
| HttpMessages.HostOfClient | HTTPPacket.cpp:145 | The Host field of the client's request reads host:port |
| Transport.Read | SocketHelper.h:44-76 | The loop returns the value and the bytes that `ReadMeans` characterises, never leaves the buffer, and on failure leaves what it received at the front of the full-size buffer |
| Transport.Write | SocketHelper.h:78-99 | The loop sends and returns what `WriteMeans` characterises; at each turn the peer has exactly `buffer[..offset]` |
| Framing.ReadMeans | SocketHelper.h:44-76 | Returns n > 0, with n bytes of the stream, if and only if there is a first boundary between arrivals, at most 65535 bytes in, at which the bytes end in CRLFCRLF and before which nothing failed; otherwise the failing code, after a stream that never ended a packet |
| Framing.ReadKeepsTheStream | SocketHelper.h:50-76 | For all arrivals: what Read returns and what it leaves make up the stream, no byte lost or doubled |
| Framing.ReadsTheRest | SocketHelper.h:50-76 | Any cutting of a message whose only CRLFCRLF ends it is read as that message, and what comes after stays unread |
| Framing.WhatFits | SocketHelper.h:47 | Of the messages with one empty line, at their end, exactly those of at most 65535 bytes arrive whole |
| Framing.WriteMeans | SocketHelper.h:81-99 | Exactly a prefix has been sent, by consecutive sends that each ask for all that is left; the result is its length unless the last send failed |
| Framing.WriteOutcome | SocketHelper.h:78-99 | r is the length if and only if all was sent and the closing empty send did not fail; 0 <= r < length if and only if a non-empty send took nothing; r < 0 if and only if the last send failed |
| Framing.WriteThenRead | SocketHelper.h:44-99 | A message of at most 65535 bytes whose only CRLFCRLF ends it, once Write reports it whole, is delivered exactly, however it is sent and received in pieces |
| Framing.ClientRoundTrip | HTTPPacket.cpp:142-153 | The client's request survives Write, transport and Read in any pieces, and parses to what was asked for |
| Session.SocketReadPacket | ClientSocket.cpp:68-71 | ReadPacket is Read |
| Session.SocketWritePacket | ClientSocket.cpp:73-76 | WritePacket is Write |
| Session.CStringMeans | Worker.cpp:37-41 | A path without NUL is opened as it is, and any other up to its first NUL |
| Session.ProcessGET | Worker.cpp:17-65 | The imperative code does to the socket, returns and raises what the reply for the path prescribes: 400 for a long path, 404 for `..` or a missing file, an exception for an unknown extension, the file otherwise, and a 404 after a file that could not be sent |
| Session.KeepAliveLoop | Worker.cpp:86-118 | The loop over the class objects leaves socket, stop token and exception as the recursive session does; the rows below are about that session |
| Delivery.WriteTakes | SocketHelper.h:78-99 | How many bytes go out, what Write returns and which answers of send it uses up, as a function of the length and the answers alone |
| Delivery.FileOutcome | Worker.cpp:53-64 | For every file and every behaviour of send: success if and only if Write returns a positive count; the peer has exactly that prefix, then after a failure a prefix of the 404 page; success with a part of the file if and only if the last send, not the first, was of some bytes and took nothing; failure with all of it if and only if the last send was of no bytes and failed |
| Delivery.WholeFile | Worker.cpp:53-64 | Success with the whole file if and only if the last send asks for no bytes and does not fail |
| Delivery.PartIsSuccess | Worker.cpp:54-64 | Sends of three bytes and then none: the peer has three bytes of the file, and the file counts as sent |
| Delivery.WholeIsFailure | Worker.cpp:54-62 | All bytes and then an error of the closing send: the peer has the file and a 404 page after it |
| Delivery.Responds | Worker.cpp:108-117 | One request at byte level is one delivery of the specification, for every behaviour of send |
| Delivery.PacketsAreTheStream | SocketHelper.h:44-76 | The packets of a session follow each other in the stream without gap or overlap |
| Delivery.SessionDelivers | Worker.cpp:86-118 | For every session at all, any arrivals, any answers of send and select, any moment of stop: the bytes the peer has are those of answering the packets that Read makes of the arrivals one after the other, each response cut where the kernel cut it, and the worker ends as that says |
| SessionRefinement.SessionRefines | Worker.cpp:86-118 | For every client in lock step, every cutting of its requests, and stop after any number of tests: the bytes sent are those of answering the first so many requests one by one (a response for a GET, silence otherwise, the end at the first that is refused or not keep-alive), and the worker dies exactly when that specification raises |
| SessionRefinement.PacketsOfScript | SocketHelper.h:44-76 | The requests of a client in lock step, however cut, are the packets that Read makes of what arrives |
| SessionRefinement.DeliversAll | Worker.cpp:86-118 | When no send fails or comes back empty-handed and the socket stays alive, delivery is the plain request-by-request specification |
| Pipelining.ReadsRequest | SocketHelper.h:50-76 | In the midst of any requests cut in any way, Read returns exactly the next one if it ends where a piece ends or fills the buffer, and otherwise more than it, or a failure |
| Pipelining.WhenRequestsAreToldApart | SocketHelper.h:44-76 | For any requests cut in any way: the packets are these requests if and only if each ends where a piece ends, or fills the buffer |
| Pipelining.TwoInOne | SocketHelper.h:44-76 | Two requests in one piece are one packet |
| SessionHistory.SessionHistory | Worker.cpp:86-118 | In every session, whatever the kernel answers and whenever stop comes: after a response that says close is tried nothing more is read or tried, and each request read is followed by exactly the tries it is due (none if it raises or is no GET, one response, one more 404 after a file that failed) |
| SessionHistory.ReplyMeans | Worker.cpp:20-53 | For every path: the file is served if and only if the path is short, not `..`, of a known extension and present, and then the peer reads status 200, exactly that file and its type; an exception if and only if the extension is unknown; otherwise status 400 if and only if the path is too long, and else 404 with text/html, framed, with close |
| SessionHistory.FileReply | Worker.cpp:20-53 | The same for a full path without NUL, through the path, its extension and the files alone |
| SessionHistory.FilesKeepAlive | Worker.cpp:53 | A file's response never says close |
| SessionHistory.RefusalsClose | HTTPPacket.cpp:175-194 | Every refusal says close |
| Workers.Worker | Worker.cpp:68-135 | The outer loop over the sockets GetSocket hands out leaves all of them, the stop token and the exception as the recursive specification does |
| Workers.ServesAPrefix | Worker.cpp:74-123 | A worker runs one session on each of a prefix of its sockets and touches no other; none once stop is requested; each starts two stop tests after the one before has ended; only the last may have raised, and that is the exception it dies of |
| Workers.StartsFall | Worker.cpp:74-123 | The stop tests left at the starts of the sessions fall strictly, from below those of the worker |
| Connections.HeaderTellsVerdict | Worker.cpp:107-117 | For every answered GET: the Connection field of the response is the verdict on this request if and only if it is a refusal, or the request asks for keep-alive and Write returns a positive count |
| Connections.SaysKeepAliveAndCloses | Worker.cpp:53 | GET /a.txt HTTP/1.0 without headers is answered with keep-alive, and the loop does not go on |
| Connections.HeaderIsTrue | Worker.cpp:86-118 | For every turn of every session that answers a GET: the response announces whether the loop comes back to the socket if and only if it is a refusal, or the request asks for keep-alive, Write returns a positive count and stop is not seen next; and whether another request is read if and only if it is a refusal, or, besides, the socket is found alive and another packet arrives |
| Connections.ClientIsLeft | Worker.cpp:86-118 | The repository's own client gets its file whole, with keep-alive, and no other request is read from it: stop is seen next, or it is idle too long |
| Connections.RequestsThatRaise | Worker.cpp:106-112 | A request raises if and only if Parse does not take it, or it is a GET of an acceptable path with an unknown extension |
| Connections.SessionsThatRaise | Worker.cpp:70-133 | A session ends by an exception if and only if the loop gets as far as such a packet |
| Connections.WorkersThatDie | Worker.cpp:70-133 | A worker ends by an exception if and only if its last session does so; the sockets it has not come to stay as they are |
| Connections.LegalRequestRaises | HTTPPacket.cpp:87-88 | GET / HTTP/1.1 with Connection:close, without a space, makes Parse throw `out_of_range` |
| Connections.OneRequestEndsTheWorker | Worker.cpp:70-133 | A worker that reads it ends with that exception, and its other sockets are untouched |
| Answers.CommandDecides | Worker.cpp:106-117 | For every written request whose Connection field does not raise: with the command GET it gets what ProcessGET does for its path, and goes on if that succeeds and the value says so letter by letter; with any other command it gets nothing, nothing is tried, and only the value decides whether the loop goes on |
| Answers.PostIsSilent | Worker.cpp:110-117 | POST /index.html HTTP/1.1 leaves the socket as it was, and is closed |
| Answers.UnknownExtensionEndsTheWorker | Worker.cpp:39 | GET /index.php HTTP/1.1, whether there is such a file or not, ends the worker with `out_of_range`, and its other sockets are untouched |
| Answers.AnyCaseGoesOn | HTTPPacket.h:50-58 | A client that writes Connection: Keep-Alive gets its file, and the loop goes on |
| SocketStack.ThreadSafeStack.AddSocket | ThreadSafeStack.cpp:9-16 | The entry, null or not, goes on top, and one notification is made |
| SocketStack.ThreadSafeStack.WaitFor | ThreadSafeStack.cpp:20-21 | Sleeps only while the stack is empty, stop is not requested and there is time, and wakes up to the stack others left |
| SocketStack.SleepsOnce | ThreadSafeStack.cpp:20-21 | The conditions under which wait_for sleeps determine how often it does |
| SocketStack.ThreadSafeStack.GetSocket | ThreadSafeStack.cpp:18-36 | After exactly so many sleeps, returns null and leaves the stack if stop is requested or it is empty, and else takes the top entry; notifies nobody |
| SocketStack.WhatIsGot | ThreadSafeStack.cpp:18-36 | null means stop, a timeout or a null that was pushed; a socket is the last one pushed, taken off; with entries on the stack it does not sleep |
| SocketStack.LastInFirstOut | ThreadSafeStack.cpp:9-36 | What was added last is taken first, and leaves the stack as it was |
| CriticalSection.CriticalSection | ThreadSafeStack.cpp:20-35 | While a worker has the mutex, no run of the other threads changes the stack, its history or the mutex |
| CriticalSection.LastTurn | ThreadSafeStack.cpp:23-35 | Whatever the others do between wait_for and the return, the steps of the protocol return and leave what `GetSocket` does on the stack it woke up to |
| Waiting.StaysRight | ThreadSafeStack.cpp:20-21 | A worker's own moves in wait_for keep the record of its sleeps: it sleeps again only on an empty stack, without stop and with time left |
| Waiting.GetSocketIsTheStacks | ThreadSafeStack.cpp:18-36 | Every call of GetSocket in any run of the protocol, by any worker, among any steps of the others: there are sleeps and a moment of stop with which the GetSocket of the stack object, called on the stack that the worker found, returns what it returned and leaves the stack that it left |
| Waiting.PushIsTheStacks | ThreadSafeStack.cpp:9-16 | main's push leaves the stack that AddSocket leaves, and the next thing main does is one notification |
| WakeUps.WakeUpStep | ThreadSafeStack.cpp:9-21 | No lost wake-up is kept by every step, spurious and timed-out wake-ups and stolen entries included: without stop, while a worker sleeps, the entries are at most the woken workers plus the notification still owed |
| WakeUps.MutexStep | ThreadSafeStack.cpp:12-21 | Exactly the workers inside the critical section hold the mutex, and at most one |
| Ownership.OwnershipStep | Worker.cpp:78-122 | Every step keeps each accepted socket in exactly one of main's hand, the stack, one worker, or destroyed, and closed exactly once if plain and destroyed, otherwise not |
| Lifo.StackChanges | ThreadSafeStack.cpp:9-36 | Only a push, a pop of a non-empty stack and the destruction change the stack; returns because of stop or timeout leave it |
| Lifo.PushKeepsLinear | ThreadSafeStack.cpp:12-13 | A push extends a sequential stack history |
| Lifo.PopKeepsLinear | ThreadSafeStack.cpp:33-34 | A pop takes the latest entry not yet popped, after any history |
| Lifo.StackIsLinearStep | ThreadSafeStack.cpp:9-36 | Ordered by their turns with the mutex, pushes and pops of all threads stay a sequential last-in-first-out history |
| Shutdown.OneMoreRequestStep | Worker.cpp:87-100 | After stop each worker reads at most one more request |
| Shutdown.LateIsNotServedStep | Worker.cpp:78-81 | No socket popped after stop is ever served |
| Shutdown.JoinedStep | main.cpp:72-77 | main joins in order, and the stack is destroyed only after every worker has exited |
| Shutdown.StepIsLighter | Worker.cpp:74-123 | After stop every step of a worker makes the measure smaller, down to the bytes left to read and write, and no step of main makes it larger |
| Shutdown.BoundedDrain | Worker.cpp:74-123 | So all workers' steps after stop are bounded, in every run |
| Shutdown.SomeoneMoves | Worker.cpp:74-123 | As long as a worker has not exited, one of them can move: no deadlock |
| AfterStop.AtMostOneLateStep | ThreadSafeStack.cpp:20-35 | Every step keeps: at most one socket popped after stop, and none as long as a worker is still about to pop |
| AfterStop.LatePopStep | ThreadSafeStack.cpp:20-35 | After stop a step pops only what a worker was already about to pop, and never adds to it |
| AfterStop.MainDrains | main.cpp:66-77 | After stop main pushes at most one more entry and takes a bounded number of steps, in every run |
| Runs.InitIsSafe | main.cpp:61-63 | The start, with any number of workers, satisfies all invariants |
| Runs.EveryRun | main.cpp:62-77 | All of the invariants above hold in every reachable state |
| Runs.SomeoneIsComing | ThreadSafeStack.cpp:9-21 | In every reachable state without stop, if there are entries and a worker sleeps, then a notification is owed or some worker is awake and on its way to the stack |
| Runs.OwnersAreApart | Worker.cpp:78-122 | In every reachable state no two workers hold the same socket, and a held one is not on the stack, in main's hand or destroyed |
| Runs.AtTheEnd | main.cpp:72-77 | When main has left its block normally, every worker has exited, every accepted socket is destroyed once, and exactly the plain ones were closed, once |
| Runs.SecureMeans | Server.cpp:71-82 | In every run a socket counts as TLS if and only if it was accepted with TLS, in the order of acceptance |
| Runs.TlsStaysOpen | TLSSocket.cpp:8-13 | In every reachable state no socket that was accepted with TLS has had its descriptor closed, and each other exactly as often as it was destroyed |
| Runs.WorkersDrain | main.cpp:72-77 | From any reachable state with stop requested the workers take a bounded number of steps, and when none can move all have exited |
| Runs.EverythingEnds | main.cpp:62-77 | From any reachable state with stop requested, all threads together take a bounded number of steps, at most one more entry is pushed, and when none can move main has left its block |
| Runs.AtMostOneLateRead | Worker.cpp:87-100 | In every run each worker reads at most one request to its end after stop |
| Runs.LatePops | ThreadSafeStack.cpp:23-35 | In every run after stop at most the one pending pop happens, and no other socket is popped late |
| Runs.WhenAPopIsLate | ThreadSafeStack.cpp:23-35 | For any number of workers: after stop some continuation pops an entry if and only if a worker has passed its test of stop and the stack is not empty, and a socket if and only if, besides, the top entry is one |
| Runs.AtMostOneLatePop | ThreadSafeStack.cpp:23-35 | In every reachable state at most one socket has been popped after stop |
| Runs.StopMayOvertakeAPop | ThreadSafeStack.cpp:23-35 | The witness: a run in which stop comes between the test and the pop: the socket is popped late, destroyed and closed, and never served |
| Simulation.LoopRuns | Worker.cpp:86-118 | The byte-level session, continued from any run of the worker, is a run of the protocol that shows the same probes, receives, packets, responses and sends in the same order |
| Simulation.SessionIsARun | Worker.cpp:86-118 | So for every kernel behaviour and moment of stop, the session is a run that ends at the outer test, or in exit if it raised |
| Simulation.SessionReleases | Worker.cpp:84-122 | For every session the run that shows it ends with its socket destroyed, closed once if plain and not at all if TLS |
| Simulation.SomeLongest | HTTPPacket.cpp:160-194 | Every site has a longest response, so the bound that the rows above assume exists |
| WorkerRuns.WorkerIsARun | Worker.cpp:68-135 | The whole of Worker, GetSocket with its timeouts included: whatever sockets it gets, plain or TLS, whatever nulls, pushed or for a timeout, and whenever stop comes, a run of the protocol in which main accepts and pushes them and the worker takes them off the stack shows what it does to them, one after the other, and ends with its exit |
| WorkerRuns.EveryWorkerIsARun | Worker.cpp:68-135 | The same from the start, for any number of workers, any one of them and any site |
| Threads.NextIsAMove | Worker.cpp:86-118 | At every point of a session the code's next step is a move the protocol allows there |
| Threads.NextMatches | Worker.cpp:84-122 | It leads to the phase of the place it reaches, and lets the socket go exactly when the session is over |
| Worlds.SessionGoesOn | Worker.cpp:86-118 | A step inside a session leaves, of the whole session, exactly what is left of it from there, or ends it as the keep-alive loop would |
| Worlds.SessionFaithful | Worker.cpp:86-118 | A step of one worker in its session concerns no other worker and no other socket |
| Worlds.StepIsFaithful | Worker.cpp:68-135 | Every step of any thread keeps all sessions on the way the keep-alive loop takes |
| Worlds.EveryWorld | main.cpp:62-77 | Without its bytes every run of the server is a run of the protocol, so all invariants hold, and every state of it is faithful to the sessions |
| Worlds.EverySocket | main.cpp:62-77 | For any number of workers, any interleaving, any sockets, any kernel behaviour on each and any moment of stop: a socket nobody has served is as it was accepted; one whose session is over is as the keep-alive loop leaves it after some number of tests of stop, and its peer has exactly the delivered answers; when main has left its block no session is under way |
| Worlds.SessionsGoOn | Worker.cpp:86-118 | In every reachable state the next step of the code in a session is possible: the protocol holds nothing up |
| Descriptors.ClientSocket.CloseSocket | ClientSocket.cpp:78-87 | Closes the descriptor once, and nothing on later calls |
| Descriptors.ClientSocket.Destroy | ClientSocket.cpp:89-92 | The destructor closes what is still open |
| Descriptors.ServerSocket.Move | ServerSocket.cpp:134-140 | The new object takes descriptor and flag, the old one keeps neither |
| Descriptors.ServerSocket.Assign | ServerSocket.cpp:125-132 | The same for assignment between two objects; a self-move ends with no descriptor |
| Descriptors.ServerSocket.Destroy | ServerSocket.cpp:119-123 | Closes a held descriptor; a moved-from object closes nothing |
| Listener.Server.Grow | Server.cpp:109 | Vector growth moves every listener and destroys the old ones: same descriptors and flags, nothing closed |
| Listener.Server.PushBack | Server.cpp:109 | The vector gains the listener, the caller's object is left with -1 |
| Listener.Server.AddSocket | Server.cpp:106-123 | On success the vector gains descriptor and flag and the argument holds -1; it throws exactly if epoll refuses, with nothing changed; epoll's set stays equal to the distinct descriptors of the vector |
| Listener.Server.FindListener | Server.cpp:62-67 | Finds a listener with the descriptor if there is one |
| Listener.ChoiceMeans | Server.cpp:43-90 | The choice is exactly this: the acceptor of the listener whose descriptor has the first event, with TLS if and only if that listener is secure; null if and only if stop is seen before any event; an exception if and only if epoll fails before either |
| Listener.Server.WaitClients | Server.cpp:43-90 | The loop over the server's objects makes that choice for the listeners it holds |
| Listener.Server.Destroy | Server.cpp:125-134 | The interest set ends empty and each listener's descriptor is closed once, in order |
| Listener.AddListener | main.cpp:57-59 | One listener: added with its flag, or refused by epoll, and then its descriptor and no other is closed |
| Listener.AddListeners | main.cpp:54-60 | After any number of listeners the vector holds them with their secure flags in order, agrees with epoll, and nothing was closed; when epoll refuses one, it holds exactly those before it, and exactly that one's descriptor is closed |

## Left out

- The kernel, OpenSSL, handshakes and certificates: only the values they return; accepting gives null or a new socket.
- Logging, options, the daemon helper, file reading and the content of log lines.
- `int` overflow: offsets are unbounded here; the code's are `int`, so messages above INT_MAX bytes are not covered.
- What the buffer holds before `Read`: the worker always passes an empty one.
- Real time and fair scheduling: a timeout may come at any moment, system calls are taken to return, and liveness is stated by measures on the workers' own steps.
- The exit of main through an exception or EINTR, where the stack may be destroyed before the workers are joined.
- The epoll descriptor itself, which the server never closes.
- `Protocol` represents threads as values, not objects, and lets a worker's receives, responses and sends be anything; `Simulation` and `WorkerRuns` prove that what the code does is among them, and `Worlds` adds the bytes to it.
- Workers.Worker: the sockets it gets are given as a list, not taken from a stack object, and the stop tests inside GetSocket are not counted; `WorkerRuns` has both, as steps of the protocol.
- SocketStack.ThreadSafeStack.GetSocket: what other threads do to the stack during each sleep is a parameter; that they can do nothing else is `CriticalSection`.
- Descriptors.ServerSocket.Move: creating, binding and listening are reduced to a new descriptor.
- Listener.Server.WaitClients: `accept` itself and its null result are not part of the call; the acceptor chosen is its result.
- The memory model, beyond the mutex and an atomic stop flag.
- The rest of the HTTP grammar: field names are compared as plain substrings and request bodies are not read.
