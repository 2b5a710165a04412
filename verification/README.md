# A verified model of the C-WebServer

The server runs one event loop per core. Every loop accepts connections, reads requests
incrementally, routes them, and flushes a queue of text and file segments; timers close
connections, a token bucket limits a route, a logger writes from a thread of its own, and a
signal stops all loops. This project models that logic in Dafny and proves what it keeps.

- `Text`, `HeaderBlock`: byte strings, splitting and joining, decimal numbers; the head of an
  HTTP message, read and printed.
- `HttpRequest`, `RequestTheorems`, `RequestVerdicts`: the incremental parser as an object and as a
  function `ReadingOf` of the buffer; which of its verdicts are final; the round trip with a
  printer; and the verdict on any printed request, told from what its sender printed.
- `HttpResponse`: the response builder, its printed form, and a reader of response streams.
- `Connection`, `HttpServer`: one connection as functions, and as the object whose methods do
  what the functions say. `recv`, `send` and `sendfile` follow a script that may deliver or move
  any number of bytes, block, or fail at any point; a script that has run out would block. Both
  say which system calls are made on the socket.
- `ConnectionTheorems`, `SocketCalls`, `LateAnswers`: what every life of a connection keeps, what
  it does to its socket and in how many calls, and when it has given its last answer.
- `Progress`: output gets out, and a lost peer ends the connection.
- `Replies`: the response on the wire against the handler's reply, the file and the request.
- `Delivery`, `Chunking`: cutting a client's bytes into read events differently makes no difference,
  exactly when a stated condition on the stream holds.
- `Router`, `StaticFiles`, `Handlers`: route table, percent-decoding and path check, and the
  server's own routes and handlers from request bytes to answers.
- `RateLimiter`: the token bucket over exact reals, with eviction.
- `TcpTimer`: ordered set and hash map with lazy deletion, against a plain map.
- `EventLoop`: one event loop as an object, with its connection objects and its timers.
- `Descriptors`: all loops over one table of reused descriptor numbers, in any interleaving.
- `Logger`: producers, writer thread and `stop`, in any interleaving.
- `Shutdown`: start-up, signal handler and loops, in any interleaving.

## Where an expected property fails

Each of these is a result about the code, with the exact condition under which the property
does hold.

- The size limit on the header block is looked at only while the blank line is missing, so a
  verdict of 431 can change when more bytes arrive: `RequestTheorems.SizeErrorMayPass`.
  `RequestTheorems.FinalVerdicts` says exactly which verdicts are final.
- For the same reason, and because queued segments are limited per event, how bytes are cut
  into read events can matter: `Chunking.HeaderLimitDependsOnCut` and
  `Chunking.SegmentLimitDependsOnCut` give a stream for each. `Chunking.ChunkingIndependence` says
  exactly for which streams it does not.
- After a request that closes the connection, later requests are still answered while the
  output is blocked: `LateAnswers.AnsweredAfterClose` shows it on two requests.
  `LateAnswers.ClosingAnswerIsLastIff`: nothing is answered any more if and only if the flush did
  not block, or the connection waits for a body that its input buffer cannot hold.
- The timer of a connection is set once, at accept, so its 30 seconds limit its life and not its
  idle time: `EventLoop.BusyIsClosed` closes a connection after two idle seconds.
  `EventLoop.EventLoop.CheckExpired` and `EventLoop.IdleTimeoutIff`: a check keeps to the idle time
  if and only if no connection was accepted more than 30 seconds ago and has been active since.
- The broadcast table has 64 entries. `Shutdown.ShutdownIsNeverLost`: shutdown cannot be lost if
  and only if there are at most 64 loops.

## Where the code and its documentation differ

The model follows the code. The documentation (README.md of the server, line 22) speaks
of a timeout of 30 idle seconds; the timer is armed once, at accept, and never refreshed
(src/EventLoop.cpp lines 171 and 218). The status codes 403 and 429 are sent with the reason
phrase "Unknown" (src/HttpResponse.cpp lines 29 to 38). Header names are compared by exact
spelling (src/HttpRequest.cpp lines 160 to 165). `checkExpired` does not return callbacks, as its
declaration says, but runs them.

## Model

| member | source | states |
|---|---|---|
| HeaderBlock.ReadRenderedHead | src/HttpRequest.cpp:25-55 | In a printed head followed by anything, the first blank line is the one that ends the head, the lines between are the printed ones, and the fields read are the ones listed, the last of equal names winning. |
| HttpRequest.HttpRequest.Parse | src/HttpRequest.cpp:20-98 | Result, consumed bytes, error code and, on success, all fields are those of the reading of the buffer: not enough bytes (and how many are needed), an error in the order of detection, or a complete request. |
| HttpRequest.HttpRequest.ParseRequestLine | src/HttpRequest.cpp:100-115 | Succeeds iff the line has three words, the second starting with a slash and the third with `HTTP/`; path and query are cut at the first question mark. |
| HttpRequest.HttpRequest.ParseHeaderLine | src/HttpRequest.cpp:117-133 | Succeeds iff there is a non-empty name before the first colon; then, and only then, the trimmed value is recorded under it. |
| HttpRequest.HttpRequest.ParseQueryParams | src/HttpRequest.cpp:135-147 | The loop over ampersands records the items of the split query string, in order. |
| HttpRequest.HttpRequest.ParseHeaderFields | src/HttpRequest.cpp:45-55 | The position loop reads exactly the lines between request line and blank line and stops at the first bad one. |
| HttpRequest.HttpRequest.ParseBody | src/HttpRequest.cpp:57-97 | Body length with its three failures (not a number or out of range, too large, unsupported transfer encoding), missing bytes, body and keep-alive. |
| HttpRequest.NextLineEnd | src/HttpRequest.cpp:47-50 | At every position the header loop can reach, the next line break exists, is not beyond the blank line and not at the position itself: neither early `break` is ever taken. |
| HttpRequest.HeaderLine | src/HttpRequest.cpp:45-55 | The line the header loop cuts out is the next piece of the header block split at line breaks, and the loop then stands at the following piece or past the end. |
| RequestTheorems.HeadSettled | src/HttpRequest.cpp:25-88 | Once the blank line is there, appended bytes change neither an error nor a complete request, and an incomplete one becomes complete exactly when the number of bytes announced has arrived. |
| RequestTheorems.OnlyLongLineIs431 | src/HttpRequest.cpp:35-55 | After the blank line, 431 is given iff the request line is longer than 8192. |
| RequestTheorems.FinalVerdicts | src/HttpRequest.cpp:20-98 | A verdict is unchanged by all further bytes iff it is a complete request, or an error found after the blank line, or the size error with the request line already over its limit. |
| RequestTheorems.SizeErrorMayPass | src/HttpRequest.cpp:25-33 | A header block over the limit is refused while its end is missing, and no longer when its end has arrived. |
| RequestTheorems.RoundTrip | src/HttpRequest.cpp:20-147 | A well-formed request printed and followed by any bytes is read as complete, consuming exactly what was printed, with every field, parameter, body and keep-alive as meant. |
| RequestVerdicts.RequestIsRead | src/HttpRequest.cpp:20-147 | For every well-formed request, all that a handler sees is what was printed, the last of equal names winning; the connection is to be kept, for HTTP/1.1, unless the last Connection field is `close`, and otherwise only if it is `keep-alive`. |
| RequestVerdicts.VerdictOnPrinted | src/HttpRequest.cpp:20-86 | For any printed request, right or wrong: 431 for the request line, 400 for its form or for Content-Length, 413, 501, or how many bytes behind the head are its body, in this order. |
| RequestVerdicts.WordsAnywhere | src/HttpRequest.cpp:100-115 | The three words may stand between white space of any kind and length, and what follows them is ignored. |
| RequestVerdicts.ShortRequestLineIsRefused | src/HttpRequest.cpp:100-115 | Fewer than three words are refused with 400. |
| RequestVerdicts.BadFieldLineIsRefused | src/HttpRequest.cpp:117-133 | One header line without a colon or a name refuses the request with 400, wherever it stands. |
| RequestVerdicts.PaddedValueIsTrimmed | src/HttpRequest.cpp:117-133 | Blanks around a value are not part of it. |
| RequestVerdicts.QueryWithItem | src/HttpRequest.cpp:135-147 | What one item more adds to any query string: a pair cut at its first equals sign, a name alone with an empty value, nothing if it is empty. |
| HttpResponse.HttpResponse.constructor | src/HttpResponse.cpp:4-7 | A new response is 200, without fields, body or file. |
| HttpResponse.HttpResponse.SetStatus | src/HttpResponse.cpp:26-39 | Code and reason phrase are set together. |
| HttpResponse.HttpResponse.AddHeader | src/HttpResponse.cpp:41-44 | The field is inserted or replaced in key order. |
| HttpResponse.HttpResponse.SetBody | src/HttpResponse.cpp:46-50 | Body and Content-Length are set together. |
| HttpResponse.HttpResponse.ToString | src/HttpResponse.cpp:74-84 | The printed head followed by the body. |
| HttpResponse.HttpResponse.ToStringHeaders | src/HttpResponse.cpp:86-95 | Status line, all fields in key order, blank line. |
| HttpResponse.PutKeepsOrder | src/HttpResponse.cpp:41-44 | Insertion keeps keys strictly ascending, so no field is printed twice. |
| HttpResponse.MapOfPut | src/HttpResponse.cpp:41-44 | Insertion into the ordered list is map update. |
| HttpResponse.DecodePrinted | src/HttpResponse.cpp:46-84 | A printed response whose Content-Length is the size of its body is framed by blank line and Content-Length as that response, leaving exactly what follows it. |
| HttpServer.HttpServer.constructor | src/HttpServer.cpp:197-201 | A new connection has empty buffers, no flag set and no file opened. |
| HttpServer.HttpServer.RecvIntoBuffer | src/HttpServer.cpp:215-239 | The buffer grows by what is delivered until the socket would block; overflow, end of stream or an error closes the connection. The calls made are exactly those of the receive function: none follows the close. |
| HttpServer.HttpServer.HandleRead | src/HttpServer.cpp:241-252 | Draining, answering and flushing in this order, each skipped once the connection is closed; state, output and socket calls are those of the event. |
| HttpServer.HttpServer.HandleWrite | src/HttpServer.cpp:254-258 | A flush, unless the connection is closed. |
| HttpServer.HttpServer.ProcessRequests | src/HttpServer.cpp:261-303 | The loop leaves the connection, the application state and the answers that the pipelining function says: an answer per complete request in order, an error page, the closing flag, the segment limit. |
| HttpServer.HttpServer.AnswerRequest | src/HttpServer.cpp:285-290 | One answer queued, the consumed bytes removed, flags set from keep-alive. |
| HttpServer.HttpServer.QueueErrorPage | src/HttpServer.cpp:272-282 | The error page is queued and the connection is to be closed. |
| HttpServer.HttpServer.Dispatch | src/HttpServer.cpp:305-325 | The handler's reply, or 404, is queued with the fields of the connection's keep-alive state. |
| HttpServer.HttpServer.SendFileResponse | src/HttpServer.cpp:328-363 | A file is queued as head and file segment; a path that cannot be opened or is no regular file as a 404 page, the latter closed at once. |
| HttpServer.HttpServer.QueueFile | src/HttpServer.cpp:350-362 | The head announces the size of the file segment queued behind it. |
| HttpServer.HttpServer.TryFlush | src/HttpServer.cpp:366-415 | The nested send loops leave connection, bytes sent and socket calls, in their order, as the flush function says, for every script of partial counts, blocking and failure; they end because bytes remaining shrink. |
| HttpServer.HttpServer.SendText | src/HttpServer.cpp:371-387 | The text loop is the flush of the front segment, one `send` a turn, and every turn but the last sends at least one byte. |
| HttpServer.HttpServer.SendFile | src/HttpServer.cpp:389-402 | The same for `sendfile`: offset and remainder move together. |
| HttpServer.HttpServer.CloseAllFiles | src/HttpServer.cpp:417-425 | Exactly the files still queued are closed, in order, and marked so. |
| ConnectionTheorems.FieldsPrint | src/HttpServer.cpp:274-361 | The fields added to each kind of answer are clean, in key order, and mean the fields a client must see. |
| ConnectionTheorems.AnswerDecodes | src/HttpServer.cpp:350-362 | Any answer, file responses included, followed by anything, is framed as exactly its own message. |
| ConnectionTheorems.StreamDecodes | src/HttpServer.cpp:261-363 | The flattened output of any list of answers splits into one message per answer, in order. |
| ConnectionTheorems.FlushConserves | src/HttpServer.cpp:366-415 | Whatever the writes return, bytes sent followed by bytes queued stay the same, open files stay accounted for, and the flush drained, blocked with output and EPOLLOUT registered, or failed and closed. |
| ConnectionTheorems.EnqueueKeepsFiles | src/HttpServer.cpp:328-363 | Answering opens at most one file, which is queued or closed at once. |
| ConnectionTheorems.ProcessConserves | src/HttpServer.cpp:261-303 | The pipelining loop appends exactly the bytes of its answers, and ends with no complete request left unless the connection is to be closed. |
| ConnectionTheorems.EventKeepsSound | src/HttpServer.cpp:241-415 | Every event keeps: bytes sent and queued are the answers' wire form; EPOLLOUT registered iff output is queued; a pending close has output; otherwise the buffer holds no complete request; files are balanced. |
| ConnectionTheorems.LifeIsSound | src/HttpServer.cpp:241-439 | The invariant over every sequence of events from accept; what was sent is a prefix of the answers. |
| ConnectionTheorems.OutputIsFramed | src/HttpServer.cpp:261-415 | Over every life, the output is the beginning of a stream of exactly one response per answer, and all of it once the queue is empty. |
| ConnectionTheorems.EveryFileClosedOnce | src/HttpServer.cpp:203-206 | Whenever the object is destroyed, each file it ever opened has been closed exactly once. |
| ConnectionTheorems.NothingOpenAfterShutAll | src/HttpServer.cpp:417-425 | After closing all files no queued segment holds an open one, so a second call closes nothing. |
| ConnectionTheorems.ClosedIsSilent | src/HttpServer.cpp:241-258 | A closed connection is unchanged by any events and sends and answers nothing. |
| ConnectionTheorems.ReadAnswersIff | src/HttpServer.cpp:241-303 | An open connection answers a read event, whether or not it is to be closed, iff what is buffered then is a request or an error and the input did not close it. |
| ConnectionTheorems.DrainedIsClosed | src/HttpServer.cpp:408-414 | A connection to be closed whose output is drained is closed. |
| Progress.OutputCanBeSent | src/HttpServer.cpp:254-258 | After any life that leaves the connection open, one writable event can send every byte of every answer; then the queue is empty, EPOLLOUT off, and the connection closed iff that was pending. |
| Progress.WritableSends | src/HttpServer.cpp:366-400 | With bytes pending, a writable event whose first write moves something sends something. |
| Progress.ReadingSendsToo | src/HttpServer.cpp:241-252 | So can a readable event send all old and new output, answered or not. |
| Progress.WritableEndsAfter | src/HttpServer.cpp:366-415 | A flush goes on while writes move bytes, and ends with the queue empty, at a write that would block with EPOLLOUT on, or at one that failed with the connection closed. |
| Progress.EndOfStreamCloses | src/HttpServer.cpp:226-237 | When the peer has closed or receiving fails, the connection is closed at once; nothing more is answered or sent. |
| Progress.HangUpEnds | src/EventLoop.cpp:183-187 | A socket error closes the connection, whatever it was doing. |
| Replies.ReplyIsQueued | src/HttpServer.cpp:305-363 | The bytes queued for a request read back as one message that shows the reply: a page with its code and body, a regular file whole with its type, 404 without route or file; with the length, and with the Connection field of the request's keep-alive for pages and files. |
| Replies.OneRequestOneResponse | src/HttpServer.cpp:241-415 | A printed request in one drained event from accept: the handler gets what was printed, the one response on the wire shows its reply, and the connection is closed iff the request does not ask for it to be kept. |
| Replies.OneErrorOneResponse | src/HttpServer.cpp:268-283 | A protocol error is answered with its code and `Connection: close`, and the connection is closed. |
| SocketCalls.ReceiveUses | src/HttpServer.cpp:215-239 | Receiving never uses a closed socket and leaves it closed iff the connection is marked so. |
| SocketCalls.FlushUses | src/HttpServer.cpp:366-439 | The same for a flush; and EPOLLOUT is changed only when it changes, to what the flag says. |
| SocketCalls.NothingAfterClose | src/HttpServer.cpp:203-439 | Over every life: no receive, send or epoll call follows the close, which happens once and iff the connection is marked closed; the last change of EPOLLOUT is what the flag says. |
| SocketCalls.FlushIsShort | src/HttpServer.cpp:366-415 | A flush makes at most as many calls as there are bytes to send, and two. |
| SocketCalls.FlushNeedsNoMore | src/HttpServer.cpp:366-415 | What writes would return beyond that many calls has no influence. |
| SocketCalls.ReceiveIsShort | src/HttpServer.cpp:215-239 | A drain makes at most as many calls as the input buffer has room for, and two. |
| SocketCalls.ReceiveNeedsNoMore | src/HttpServer.cpp:215-239 | What would be received beyond the room in the buffer has no influence. |
| LateAnswers.AnsweredAfterClose | src/HttpServer.cpp:241-303 | Two requests that each close the connection are both answered when the socket takes no output in between. |
| LateAnswers.MuteIffClosed | src/HttpServer.cpp:241-303 | A connection answers nothing in any run from now on iff it is closed or waits for a body that its input buffer cannot hold. |
| LateAnswers.ClosingAnswerIsLastIff | src/HttpServer.cpp:241-415 | When an event has left the connection to be closed, nothing is answered after it iff its flush did not block, with the same exception. |
| Chunking.IdealAppend | src/HttpServer.cpp:261-303 | The ideal result of a stream does not depend on answering a prefix of it first. |
| Chunking.LoopIsIdealIffHarmless | src/HttpServer.cpp:261-303 | One pass of the pipelining loop over a buffer gives the ideal result iff the buffer is harmless. |
| Chunking.EventIsIdealIffHarmless | src/HttpServer.cpp:241-303 | One smooth read event gives the ideal result iff buffer and new bytes are harmless; on overflow it closes without an answer. |
| Chunking.TrickleIsIdeal | src/HttpServer.cpp:215-303 | Delivered byte by byte, every stream is answered ideally. |
| Chunking.HarmlessCut | src/HttpServer.cpp:241-303 | Every cut of a harmless stream that fits the buffer is answered ideally. |
| Chunking.HarmfulWhole | src/HttpServer.cpp:215-303 | Any other stream, delivered in one event in pieces of what one `recv` can take, is not. |
| Chunking.ChunkingIndependence | src/HttpServer.cpp:241-303 | All ways of cutting a stream into read events agree on answers, application state, open or closed and bytes left over iff the stream fits the input buffer and is harmless. |
| Chunking.HeaderLimitDependsOnCut | src/HttpRequest.cpp:25-33 | Two cuts disagree on a request whose header block is over the limit. |
| Chunking.SegmentLimitDependsOnCut | src/HttpServer.cpp:296-301 | Two cuts disagree on 129 short requests that keep the connection alive. |
| Router.SegmentsOfPath | src/Router.cpp:22-31 | Cutting a path undoes joining its segments. |
| Router.SegmentsAreProper | src/Router.cpp:22-31 | Whatever the path, what is cut out is non-empty and free of slashes. |
| Router.Tokenise | src/Router.cpp:73-83 | The position loop yields the non-empty pieces behind slashes. |
| Router.Router.Add | src/Router.cpp:7-33 | The route its pattern describes is appended. |
| Router.Router.MatchSegments | src/Router.cpp:35-67 | Succeeds with the captured parameters, or fails, as the match function says, the rest of a prefix route joined by slashes. |
| Router.Router.MatchEach | src/Router.cpp:59-65 | The segment loop captures parameters in order and fails at the first difference. |
| Router.CapturesIffFills | src/Router.cpp:58-66 | Segments match a pattern with given parameters iff filling the pattern with them rebuilds the segments. |
| Router.MatchIffRebuilds | src/Router.cpp:35-67 | The same for whole routes, prefix routes included; so the parameters are unique. |
| Router.PrefixRestRecut | src/Router.cpp:49-54 | The rest a prefix route captures cuts back into the segments it stands for. |
| Router.DecisionMeans | src/Router.cpp:69-114 | 404 iff no parameters make any route into the path; 405 iff they do for some route, but none with the method; otherwise the first such route is taken, or refused iff it is limited and the limiter says no. |
| Router.Router.Dispatch | src/Router.cpp:69-114 | The first route for path and method decides; 405 iff the path is known for other methods only. The limiter is unchanged unless that route is limited; then it has made exactly one step for the client, and the route is refused iff that step says no. |
| StaticFiles.UrlDecode | src/HttpServer.cpp:38-55 | The decoding loop is the decoding function. |
| StaticFiles.DecodeUndoesEncode | src/HttpServer.cpp:38-55 | Decoding undoes every percent-encoding (section 2.1 of RFC 3986), in either case of digits. |
| StaticFiles.EscapedEncodes | src/HttpServer.cpp:29-55 | Every byte string has an encoding that decodes to it. |
| StaticFiles.StaticFileHandler | src/HttpServer.cpp:111-139 | 404 without parameter, 403 for an empty, absolute or climbing path, otherwise the file behind the root. |
| StaticFiles.ServedStaysBelowRoot | src/HttpServer.cpp:118-138 | Whenever a file is served, every prefix of the walk along its path behind the root stays at or below the root. |
| StaticFiles.ServedIff | src/HttpServer.cpp:111-139 | Whatever encoding of a name a client sends, the file of that name behind the root is served iff the name is not empty, not absolute and has no two dots standing alone. |
| StaticFiles.NoEncodedClimb | src/HttpServer.cpp:118-137 | No encoding of a climbing path passes. |
| Handlers.BuildRouter | src/HttpServer.cpp:178-193 | The patterns added in order make the route table. |
| Handlers.Serve | src/Router.cpp:69-114 | With the router and limiter objects, a request gets the reply, and the store the change, that `HandleRequest` gives for the limiter's answer. |
| Handlers.OnlyFilesBelowRoot | src/HttpServer.cpp:111-139 | Whatever the request, a file the server opens lies behind the static root by a path that stays below it. |
| Handlers.PutThenGet | src/HttpServer.cpp:142-159 | A value stored under any key is fetched under it. |
| Handlers.StoreAnswers | src/HttpServer.cpp:142-170 | Every request under a key: PUT stores, GET fetches or 404, DELETE removes or 404, anything else 405. |
| Handlers.FilesAnswer | src/HttpServer.cpp:111-139 | Every request under `/static/`: the file of the decoded rest of the path, 403, or 405. |
| Handlers.EchoAnswers | src/HttpServer.cpp:106-109 | The echo of the body if the limiter allows it, 429 if not, 405 without asking it for another method. |
| Handlers.PagesAnswer | src/HttpServer.cpp:96-104 | The two pages and the listing of the store, for GET only. |
| Handlers.NothingElseAnswers | src/HttpServer.cpp:178-193 | No other path has a route. |
| Handlers.StatusOfDecision | src/Router.cpp:86-113 | On the wire: 404 when no route leads to the path, 405 when none does for the method, 429 when the limiter refuses. |
| Handlers.StoreAndFetch | src/HttpServer.cpp:142-303 | The bytes of a storing and a fetching request, cut into read events in any way, are answered with `ok` and the value, the connection staying open with nothing left over. |
| RateLimiter.RateLimiter.constructor | src/RateLimiter.cpp:10-13 | A new limiter has admitted nothing. |
| RateLimiter.RateLimiter.Allow | src/RateLimiter.cpp:15-38 | A call passes iff the calls admitted for its key before leave room in every window ending now; denied calls, other keys and evictions have no influence. |
| RateLimiter.RateLimiter.Cleanup | src/RateLimiter.cpp:40-50 | Exactly the keys idle for more than ten minutes are forgotten, and the limiter still answers for the same history. |
| RateLimiter.LevelIsWindow | src/RateLimiter.cpp:28-35 | A bucket refilled lazily holds a token iff, from every earlier admitted call on, admitted calls plus one fit capacity and refill. |
| RateLimiter.TracksHit | src/RateLimiter.cpp:28-37 | The bucket's answer is the window's, and the bucket stands for the history after either answer. |
| RateLimiter.TracksEvicted | src/RateLimiter.cpp:40-50 | An evicted bucket was full. |
| RateLimiter.EvictionIsInvisible | src/RateLimiter.cpp:15-50 | Calls and sweeps in any order give the answers of a limiter that keeps every admitted call. |
| RateLimiter.WindowBound | src/RateLimiter.h:9-12 | Any stretch of time admits at most the capacity plus the refill of that stretch. |
| TcpTimer.TimerNode.constructor | src/TimerNode.cpp:4-8 | Deadline is now plus the timeout. |
| TcpTimer.InsertedIsSorted | src/TimerNode.cpp:49-53 | Insertion keeps deadline order, ties in insertion order. |
| TcpTimer.TcpTimer.constructor | src/TcpTimer.cpp:6 | No timer is set. |
| TcpTimer.TcpTimer.AddTimer | src/TcpTimer.cpp:18-28 | The plain map is updated at the descriptor, whatever was there. |
| TcpTimer.TcpTimer.RemoveTimer | src/TcpTimer.cpp:30-38 | The descriptor leaves the plain map, and its node alone is marked deleted. |
| TcpTimer.TcpTimer.TakeExpired | src/TcpTimer.cpp:42-57 | The scan takes off exactly the expired prefix of the live timers; every node left, deleted ones included, is due at or after the time of the check. |
| TcpTimer.TcpTimer.FireOne | src/TcpTimer.cpp:60-66 | One expired node leaves the map; its callback runs iff the node was not deleted, and what it removes is removed. |
| TcpTimer.TcpTimer.RunExpired | src/TcpTimer.cpp:60-66 | The callbacks run in order, each unless an earlier one removed its timer. |
| TcpTimer.TcpTimer.CheckExpired | src/TcpTimer.cpp:40-67 | The timers fired and the plain map left are those of the plain map's own expiry. |
| TcpTimer.TcpTimer.GetNextTimeout | src/TcpTimer.cpp:69-84 | -1 iff no timer is set; otherwise never past the earliest deadline and less than a millisecond short of it. |
| TcpTimer.TcpTimer.Size | src/TcpTimer.cpp:86-90 | The number of timers in the plain map. |
| TcpTimer.TcpTimer.SetListsMap | src/TcpTimer.h:10-13 | The live nodes of the ordered set list exactly the plain map, in firing order. |
| TcpTimer.ExpiredIsPrefix | src/TcpTimer.cpp:45-56 | With a clock read per node, a scan takes everything due when it starts and nothing that is not due when it ends. |
| TcpTimer.FiresExactlyTheExpired | src/TcpTimer.cpp:40-67 | With the event loop's callbacks, a check at one time fires exactly the timers past their deadline, once each, in deadline order with ties in setting order. |
| TcpTimer.OwnCallbacksScan | src/TcpTimer.cpp:40-67 | With a clock that goes on during the check: the plain map loses just the timers fired, which are all that are due when it starts and none that is not due when it ends. |
| TcpTimer.FiredUnlessRemoved | src/TimerNode.cpp:27-32 | An expired timer fires iff no callback that ran before it in the same check removed it. |
| EventLoop.HandledIsSound | src/EventLoop.cpp:177-198 | While other connections change the application state in between, everything a connection has sent, followed by what it still has queued, is its answers in order; and the quiescence invariant holds. |
| EventLoop.MoreCalls | src/EventLoop.cpp:177-198 | Each event a connection of the loop handles keeps its socket in proper use. |
| EventLoop.EventLoop.AcceptConnection | src/EventLoop.cpp:145-175 | A fresh connection enters the table with a timer due 30 seconds from now; no other entry changes. |
| EventLoop.EventLoop.SetupTimer | src/EventLoop.cpp:216-222 | The timer's callback closes this number's connection. |
| EventLoop.EventLoop.CloseConnection | src/EventLoop.cpp:201-214 | Closed once, out of the table and without a timer; nothing when the number is not in the table. |
| EventLoop.EventLoop.HandleEvent | src/EventLoop.cpp:177-198 | An error closes; otherwise reading comes before writing; a connection that ends up closed leaves table and timers; one that stays keeps its deadline; no other connection changes. |
| EventLoop.EventLoop.CheckExpired | src/EventLoop.cpp:138 | Closes all connections accepted more than 30 seconds before the check and only such ones, by the clock at its end; all others are as they were. With a still clock these are the idle ones iff no busy connection is that old. |
| EventLoop.IdleTimeoutIff | src/EventLoop.cpp:145-175 | A check closes exactly the connections idle for more than 30 seconds iff none was accepted longer ago and has been active since. |
| EventLoop.BusyIsClosed | src/EventLoop.cpp:145-222 | A connection accepted at 0 and active at 29 seconds is closed by the check at 31 seconds. |
| Descriptors.StepKeepsSound | src/EventLoop.cpp:145-244 | Every step of every loop keeps table, connections, timers and batches in agreement. |
| Descriptors.RunIsSound | src/EventLoop.cpp:106-244 | So does every interleaving of all loops. |
| Descriptors.EventMeetsItsConnection | src/EventLoop.cpp:121-136 | Every event of a batch finds the connection registered when the batch was polled, still open, although numbers are reused. |
| Descriptors.PolledIsTaken | src/EventLoop.cpp:111-136 | All that `epoll_wait` reports is what the loop goes on to take. |
| Descriptors.EventReachesItsConnection | src/EventLoop.cpp:121-136 | In every run, taking an event off the batch hands it to the connection registered when the batch was polled; a report on the listening socket starts accepting. |
| Descriptors.ClosingTakesTheRightOne | src/EventLoop.cpp:201-222 | In every run, an expired timer makes the loop close the connection it was armed for, and a close while handling the one handled; it is out of the table and without a timer from then on. |
| Descriptors.TimerMeetsItsConnection | src/EventLoop.cpp:216-222 | A timer closes only the connection it was armed for. |
| Descriptors.EveryConnectionIsTimed | src/EventLoop.cpp:168-171 | Every connection of a loop has its timer until the loop stops. |
| Descriptors.SocketCallsHitTheirOwn | src/EventLoop.cpp:177-235 | Every receive, send and epoll call that any loop has made on a connection's socket named a number that was open then and held by that very connection. |
| Descriptors.ClosesOwnOnce | src/EventLoop.cpp:201-214 | What a loop closes is open, its own and never closed before; no other descriptor changes. |
| Descriptors.OpenedAreClosedOrOpen | src/EventLoop.cpp:145-214 | Everything opened is closed once or open under one number. |
| Descriptors.NothingLeaks | src/EventLoop.cpp:237-244 | When all loops have shut down, nothing they opened is left open. |
| Descriptors.EveryRunCanFinish | src/EventLoop.cpp:106-244 | From every reachable state all loops can finish their turns and close everything; then every descriptor they opened has been closed exactly once. |
| Logger.StepConserves | src/Logger.cpp:105-150 | Every step keeps written, back and front queue together equal to what was pushed, in order, less dropped messages. |
| Logger.LoggerConserves | src/Logger.cpp:105-150 | Over every interleaving; and the newest messages, as many as the queue may hold, are never dropped. |
| Logger.WriterCatchesUp | src/Logger.cpp:126-150 | From every reachable state in which the logger runs, the writer's own steps bring everything queued into the file, in order. |
| Logger.StopWritesEverything | src/Logger.cpp:51-76 | After `stop`, every message pushed before it and not dropped is in the file, in order. |
| Logger.NothingWrittenAfterDrain | src/Logger.cpp:51-76 | Nothing is written after that in any run, although producers go on. |
| Logger.AsyncLogger.Init | src/Logger.cpp:35-49 | A started logger with empty queues. |
| Logger.AsyncLogger.Log | src/Logger.cpp:105-124 | Below the threshold or when stopped nothing happens; otherwise one push, the oldest message dropped from a full queue. |
| Logger.AsyncLogger.TestRunning | src/Logger.cpp:129 | The writer goes on iff the logger runs. |
| Logger.AsyncLogger.SwapBuffers | src/Logger.cpp:130-138 | The front queue becomes the back queue and is left empty. |
| Logger.AsyncLogger.WriteBack | src/Logger.cpp:140-148 | The whole back queue is appended to the file, in order. |
| Logger.AsyncLogger.RequestStop | src/Logger.cpp:53-56 | Only the first call goes on. |
| Logger.AsyncLogger.DrainRest | src/Logger.cpp:63-75 | Front and then back queue are written. |
| Shutdown.StepKeepsSafe | src/TcpServer.cpp:16-25 | With at most 64 loops every step keeps: after a finished broadcast no loop waits with its eventfd unreadable. |
| Shutdown.StrandedBeyondTable | src/EventLoop.cpp:95-97 | With more loops there is a run that leaves one asleep. |
| Shutdown.OnlySignalsEndLoops | src/EventLoop.cpp:111-139 | In every run, a loop that has left was told to by a signal. |
| Shutdown.ShutdownIsNeverLost | src/TcpServer.cpp:16-25 | No interleaving of start-up, signals and loops loses the shutdown iff there are at most 64 loops. |
| Shutdown.StopDrivesLoopsOut | src/EventLoop.cpp:111-139 | In any run after the flag is set a loop takes at most two steps of its own, and no loop that is outside waits again. |
| Shutdown.EveryLoopCanLeave | src/EventLoop.cpp:111-139 | After a completed broadcast to at most 64 loops, at most two steps of its own take any loop out, from every state that an interleaving reaches. |

## Left out

- HttpRequest.HttpRequest.Parse: does not say which fields are filled in after an error or an incomplete request, because nothing reads them then.
- Chunking.ChunkingIndependence: is about read events after each of which the output has drained, and not about end of stream, which closes the connection even when bytes were read in the same drain.
- Router.Router.Dispatch: returns the chosen handler and parameters; running the handler is `Handlers.Serve`.
- Descriptors: the loops are a state machine over values, because they interleave; the connection's own logic appears as using its socket and opening and closing files, and registering a new socket with epoll is part of accepting it. Tables and connections updated in place are `EventLoop`.
- EventLoop.EventLoop: is one loop between its waits; the batch, the choice of numbers by `accept` and `closeAllConnections` are in `Descriptors`. A connection that closes itself leaves the table when its event is done, and not in the middle of it.
- Shutdown: likewise a state machine over values; a table entry and the counter it is stored under change in one step.
- Logger: the object's methods are one uninterrupted stretch of code each; interleavings are those of `Next`. A queue size of 0, with which the code pops an empty queue, is excluded.
- HttpServer: files are numbered by opening; their descriptor numbers are part of `Descriptors`.
- TcpTimer: callbacks may remove timers, as the event loop's do, but not add any.
- RateLimiter: times are exact reals; rounding of `double` is not modelled. The limiter object allows any capacity that ten minutes refill, not only 1000 at 500 a second.
- Handlers as code: in `Connection` they are a function of application state and request; `Handlers` gives the server's own, with the limiter's answers as a list and the listing of the store as a parameter.
- File contents are fixed while they are sent; symbolic links, C strings and files that change size are not modelled.
- Sockets, `bind`, `listen`, epoll semantics, log message formatting, file types by extension and the clocks themselves.
- KVStore beyond a map, `main`, `Util`, singletons, object lifetimes beyond the closing of files, and the memory order of atomics.
