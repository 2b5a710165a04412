/** One connection: an input buffer that accumulates across events, a pipelining loop that
    answers every complete request in it, and an output queue of text and file segments
    flushed through writes that may move any number of bytes, block or fail.

    The environment is a script: what successive `recv` calls deliver and how many bytes
    successive `send`/`sendfile` calls move. A script that has run out would block. */
module Connection {
  import opened Text
  import opened HeaderBlock
  import opened HttpRequest
  import opened HttpResponse

  const MAX_IN_BUFFER: nat := 64 * 1024 * 1024
  const MAX_OUT_SEGMENTS: nat := 128

  // ---------------------------------------------------------------- environment

  datatype RecvResult = Data(bytes: string) | WouldBlock | RecvError

  /** What one `recv` can deliver at most. */
  const RECV_BUF_SIZE: nat := 16384

  datatype IoResult = Moved(n: nat) | Again | Broken

  /** What a handler decides: no route, a body, or a file to send. */
  datatype Reply = Unrouted | Page(code: nat, body: string) | StaticFile(path: string)

  datatype Opened = CannotOpen | NotRegular | Regular(content: string)

  /** Handlers are a function of application state and request; files have fixed contents. */
  datatype Site<!A> = Site(
    handle: (A, Request) -> (A, Reply),
    open: string -> Opened,
    mime: string -> string
  )

  // ---------------------------------------------------------------- answers

  datatype Answer =
    | ErrorPage(code: nat)
    | TextPage(code: nat, body: string, keepAlive: bool)
    | BarePage(body: string)
    | FilePage(mime: string, content: string, keepAlive: bool)

  const CONTENT_TYPE := "Content-Type"
  const CONNECTION := "Connection"
  const KEEP_ALIVE := "Keep-Alive"
  const TIMEOUT_30 := "timeout=30"
  const TEXT_PLAIN := "text/plain; charset=utf-8"
  const NO_ROUTE := "404 Not Found: The requested resource was not found on this server."
  const NO_FILE := "404 Not Found: The requested file does not exist."
  const NOT_A_FILE := "404 Not Found"

  function ReplyCode(reply: Reply): nat { if reply.Page? then reply.code else 404 }

  function ReplyBody(reply: Reply): string { if reply.Page? then reply.body else NO_ROUTE }

  function AnswerTo<A>(site: Site<A>, reply: Reply, keepAlive: bool): Answer {
    if !reply.StaticFile? then TextPage(ReplyCode(reply), ReplyBody(reply), keepAlive)
    else match site.open(reply.path)
      case CannotOpen => BarePage(NO_FILE)
      case NotRegular => BarePage(NOT_A_FILE)
      case Regular(content) => FilePage(site.mime(reply.path), content, keepAlive)
  }

  function CodeOf(answer: Answer): nat {
    match answer
    case ErrorPage(code) => code
    case TextPage(code, _, _) => code
    case BarePage(_) => 404
    case FilePage(_, _, _) => 200
  }

  function BodyOf(answer: Answer): string {
    match answer
    case ErrorPage(code) => "HTTP parse error (" + Decimal(code) + ")"
    case TextPage(_, body, _) => body
    case BarePage(body) => body
    case FilePage(_, content, _) => content
  }

  function ConnectionOption(keepAlive: bool): string {
    if keepAlive then "keep-alive" else "close"
  }

  function ConnectionField(h: FieldList, keepAlive: bool): FieldList {
    Put(h, CONNECTION, ConnectionOption(keepAlive))
  }

  function KeepAliveField(h: FieldList, keepAlive: bool): FieldList {
    if keepAlive then Put(h, KEEP_ALIVE, TIMEOUT_30) else h
  }

  function CommonFields(keepAlive: bool): FieldList {
    KeepAliveField(ConnectionField(Put([], CONTENT_TYPE, TEXT_PLAIN), keepAlive), keepAlive)
  }

  /** The fields of an answer, in the order in which they are added. */
  function FieldsOf(answer: Answer): FieldList {
    var length := Decimal(|BodyOf(answer)|);
    match answer
    case ErrorPage(_) => Put(ConnectionField(Put([], CONTENT_TYPE, TEXT_PLAIN), false), CONTENT_LENGTH, length)
    case TextPage(_, _, k) =>
      Put(CommonFields(k), CONTENT_LENGTH, length)
    case BarePage(_) => Put([], CONTENT_LENGTH, length)
    case FilePage(mime, _, k) =>
      KeepAliveField(ConnectionField(Put(Put([], CONTENT_TYPE, mime), CONTENT_LENGTH, length), k), k)
  }

  function HeadText(answer: Answer): string { RenderHead(StatusLine(CodeOf(answer)), FieldsOf(answer)) }

  /** The bytes of one whole response. */
  function WireOf(answer: Answer): string { HeadText(answer) + BodyOf(answer) }

  function WireAll(answers: seq<Answer>): string {
    if answers == [] then "" else WireOf(answers[0]) + WireAll(answers[1..])
  }

  // ---------------------------------------------------------------- connection state

  /** `handle` identifies an opened file, -1 once it is closed. */
  datatype Segment =
    | Bytes(bytes: string)
    | File(handle: int, content: string, offset: nat, remaining: nat)

  predicate ValidSegment(s: Segment) {
    s.File? ==> s.handle >= 0 && s.offset + s.remaining == |s.content|
  }

  predicate ValidQueue(q: seq<Segment>) { forall s :: s in q ==> ValidSegment(s) }

  /** What a segment still has to send. */
  function Pending(s: Segment): string
    requires ValidSegment(s)
  {
    match s
    case Bytes(bytes) => bytes
    case File(_, content, offset, _) => content[offset..]
  }

  function PendingAll(q: seq<Segment>): string
    requires ValidQueue(q)
  {
    if q == [] then "" else assert q[0] in q; Pending(q[0]) + PendingAll(q[1..])
  }

  function Shrink(s: Segment, m: nat): (r: Segment)
    requires ValidSegment(s) && m <= |Pending(s)|
    ensures ValidSegment(r) && Pending(s)[m..] == Pending(r)
  {
    match s
    case Bytes(bytes) => Bytes(bytes[m..])
    case File(h, content, offset, remaining) => File(h, content, offset + m, remaining - m)
  }

  /** `fileCount` counts the files ever opened, numbered from 0; `shutFiles` lists those closed. */
  datatype Conn = Conn(
    inBuffer: string,
    outQueue: seq<Segment>,
    writeRegistered: bool,
    keepAlive: bool,
    closeAfterFlush: bool,
    closed: bool,
    fileCount: nat,
    shutFiles: seq<int>
  )

  const FRESH: Conn := Conn("", [], false, false, false, false, 0, [])

  /** A connection whose input overflows is closed at once. */
  predicate Fits(c: Conn) { !c.closed ==> |c.inBuffer| <= MAX_IN_BUFFER }

  // ---------------------------------------------------------------- answering

  /** The segments of an answer; a file body goes out from the file with number `file`. */
  function OutSegments(answer: Answer, file: nat): (q: seq<Segment>)
    ensures ValidQueue(q)
  {
    if answer.FilePage?
    then [Bytes(HeadText(answer)), File(file, answer.content, 0, |answer.content|)]
    else [Bytes(WireOf(answer))]
  }

  /** The file opened for a reply is not one that can be sent: it is closed on the spot. */
  predicate Unsendable<A>(site: Site<A>, reply: Reply) {
    reply.StaticFile? && site.open(reply.path).NotRegular?
  }

  /** Append the answer to a reply to the output queue. */
  function Enqueue<A>(site: Site<A>, reply: Reply, c: Conn): (r: Conn)
    requires ValidQueue(c.outQueue)
    ensures ValidQueue(r.outQueue)
    ensures r == c.(outQueue := r.outQueue, fileCount := r.fileCount, shutFiles := r.shutFiles)
  {
    var answer := AnswerTo(site, reply, c.keepAlive);
    var opens := answer.FilePage? || Unsendable(site, reply);
    c.(outQueue := c.outQueue + OutSegments(answer, c.fileCount),
       fileCount := if opens then c.fileCount + 1 else c.fileCount,
       shutFiles := if Unsendable(site, reply) then c.shutFiles + [c.fileCount] else c.shutFiles)
  }

  datatype Turn<A> = Turn(app: A, conn: Conn, answers: seq<Answer>)

  /** Answering one parsed request of `n` bytes. */
  function AnswerOne<A>(site: Site<A>, a: A, c: Conn, request: Request, n: nat): (turn: Turn<A>)
    requires ValidQueue(c.outQueue) && n <= |c.inBuffer|
    ensures ValidQueue(turn.conn.outQueue)
    ensures turn.conn.inBuffer == c.inBuffer[n..] && turn.conn.closed == c.closed
    ensures turn.conn.closeAfterFlush == (c.closeAfterFlush || !request.keepAlive)
    ensures |turn.answers| == 1
  {
    var k := request.keepAlive;
    var (a1, reply) := site.handle(a, request);
    var c1 := Enqueue(site, reply, c.(keepAlive := k, closeAfterFlush := c.closeAfterFlush || !k));
    Turn(a1, c1.(inBuffer := c.inBuffer[n..]), [AnswerTo(site, reply, k)])
  }

  function AnswerError(c: Conn, code: nat): (r: Conn)
    requires ValidQueue(c.outQueue)
    ensures ValidQueue(r.outQueue) && r.closed == c.closed
  {
    c.(outQueue := c.outQueue + OutSegments(ErrorPage(code), 0), closeAfterFlush := true)
  }

  /** The pipelining loop, from a state in which `log` has been answered. */
  function Process<A>(site: Site<A>, a: A, c: Conn, log: seq<Answer>): (turn: Turn<A>)
    requires ValidQueue(c.outQueue)
    ensures ValidQueue(turn.conn.outQueue) && turn.conn.closed == c.closed
    decreases |c.inBuffer|
  {
    match ReadingOf(c.inBuffer)
    case NeedMore(_) => Turn(a, c, log)
    case Failed(code) => Turn(a, AnswerError(c, code), log + [ErrorPage(code)])
    case Complete(request, n) =>
      var t := AnswerOne(site, a, c, request, n);
      if !request.keepAlive then Turn(t.app, t.conn, log + t.answers)
      else if |t.conn.outQueue| > MAX_OUT_SEGMENTS then
        Turn(t.app, t.conn.(closeAfterFlush := true), log + t.answers)
      else Process(site, t.app, t.conn, log + t.answers)
  }

  /** One unfolding of `Process`. */
  lemma ProcessStep<A>(site: Site<A>, a: A, c: Conn, log: seq<Answer>)
    requires ValidQueue(c.outQueue)
    ensures var p, r := Process(site, a, c, log), ReadingOf(c.inBuffer);
            && (r.NeedMore? ==> p == Turn(a, c, log))
            && (r.Failed? ==> p == Turn(a, AnswerError(c, r.code), log + [ErrorPage(r.code)]))
            && (r.Complete? ==>
                  && 0 < r.consumed <= |c.inBuffer|
                  && var t := AnswerOne(site, a, c, r.request, r.consumed);
                     p == if !r.request.keepAlive then Turn(t.app, t.conn, log + t.answers)
                          else if |t.conn.outQueue| > MAX_OUT_SEGMENTS
                          then Turn(t.app, t.conn.(closeAfterFlush := true), log + t.answers)
                          else Process(site, t.app, t.conn, log + t.answers))
  {
    hide AnswerOne, AnswerError;
  }

  // ---------------------------------------------------------------- flushing

  function Front(io: seq<IoResult>): IoResult { if io == [] then Again else io[0] }

  function Min(a: nat, b: nat): nat { if a < b then a else b }

  /** The front segment is sent completely: close its file and drop it. */
  function Retire(c: Conn): Conn
    requires c.outQueue != []
  {
    var s := c.outQueue[0];
    c.(outQueue := c.outQueue[1..], shutFiles := if s.File? then c.shutFiles + [s.handle] else c.shutFiles)
  }

  function Advance(c: Conn, m: nat): (r: Conn)
    requires c.outQueue != [] && ValidQueue(c.outQueue) && m <= |Pending(c.outQueue[0])|
    ensures ValidQueue(r.outQueue)
  {
    c.(outQueue := [Shrink(c.outQueue[0], m)] + c.outQueue[1..])
  }

  /** Sending from the front of the queue until it is empty, a write blocks, or one fails. */
  function Flush(c: Conn, sent: string, io: seq<IoResult>): (r: (Conn, string))
    requires ValidQueue(c.outQueue)
    ensures ValidQueue(r.0.outQueue)
    decreases |io| + |c.outQueue|
  {
    if c.outQueue == [] then
      (c.(writeRegistered := false, closed := c.closed || c.closeAfterFlush), sent)
    else
      var front := Pending(c.outQueue[0]);
      if front == "" then Flush(Retire(c), sent, io)
      else match Front(io)
        case Again => (c.(writeRegistered := true), sent)
        case Broken => (c.(closed := true), sent)
        case Moved(n) =>
          if n == 0 then (c.(closed := true), sent)
          else
            var m := Min(n, |front|);
            Flush(Advance(c, m), sent + front[..m], io[1..])
  }

  /** One unfolding of `Flush` on a front segment that still has bytes to send. */
  lemma FlushStep(c: Conn, sent: string, io: seq<IoResult>)
    requires ValidQueue(c.outQueue) && c.outQueue != [] && Pending(c.outQueue[0]) != ""
    ensures var r := Front(io);
            && (r.Again? ==> Flush(c, sent, io) == (c.(writeRegistered := true), sent))
            && (r.Broken? || r == Moved(0) ==> Flush(c, sent, io) == (c.(closed := true), sent))
            && (r.Moved? && r.n > 0 ==>
                  var front := Pending(c.outQueue[0]);
                  var m := Min(r.n, |front|);
                  Flush(c, sent, io) == Flush(Advance(c, m), sent + front[..m], io[1..]))
  {
  }

  lemma RetireStep(c: Conn, sent: string, io: seq<IoResult>)
    requires ValidQueue(c.outQueue) && c.outQueue != [] && Pending(c.outQueue[0]) == ""
    ensures ValidQueue(Retire(c).outQueue)
    ensures Flush(c, sent, io) == Flush(Retire(c), sent, io)
  {
  }

  // ---------------------------------------------------------------- receiving

  /** Reading until the socket has no more; the peer's close or an error closes at once. */
  function Receive(c: Conn, rs: seq<RecvResult>): (r: Conn)
    decreases |rs|
    ensures r == c.(inBuffer := r.inBuffer, closed := r.closed)
  {
    if rs == [] || rs[0].WouldBlock? then c
    else if rs[0].Data? && rs[0].bytes != "" then
      var c1 := c.(inBuffer := c.inBuffer + rs[0].bytes);
      if |c1.inBuffer| > MAX_IN_BUFFER then c1.(closed := true) else Receive(c1, rs[1..])
    else c.(closed := true)
  }

  // ---------------------------------------------------------------- events

  datatype Event =
    | Readable(rs: seq<RecvResult>, io: seq<IoResult>)
    | Writable(io: seq<IoResult>)
    | HangUp

  datatype Outcome<A> = Outcome(app: A, conn: Conn, sent: string, answers: seq<Answer>)

  function OnRead<A>(site: Site<A>, a: A, c: Conn, rs: seq<RecvResult>, io: seq<IoResult>): (o: Outcome<A>)
    requires ValidQueue(c.outQueue)
    ensures ValidQueue(o.conn.outQueue)
  {
    if c.closed then Outcome(a, c, "", [])
    else
      var c1 := Receive(c, rs);
      if c1.closed then Outcome(a, c1, "", [])
      else
        var turn := Process(site, a, c1, []);
        var (c2, sent) := Flush(turn.conn, "", io);
        Outcome(turn.app, c2, sent, turn.answers)
  }

  function OnWrite<A>(a: A, c: Conn, io: seq<IoResult>): (o: Outcome<A>)
    requires ValidQueue(c.outQueue)
    ensures ValidQueue(o.conn.outQueue)
  {
    if c.closed then Outcome(a, c, "", [])
    else
      var (c1, sent) := Flush(c, "", io);
      Outcome(a, c1, sent, [])
  }

  /** Handling one event; `HangUp` stands for a socket error or the connection's timeout. */
  function Handle<A>(site: Site<A>, a: A, c: Conn, event: Event): (o: Outcome<A>)
    requires ValidQueue(c.outQueue)
    ensures ValidQueue(o.conn.outQueue)
  {
    match event
    case Readable(rs, io) => OnRead(site, a, c, rs, io)
    case Writable(io) => OnWrite(a, c, io)
    case HangUp => Outcome(a, c.(closed := true), "", [])
  }

  /** One event on top of what the connection has done before. */
  function After<A>(site: Site<A>, o: Outcome<A>, event: Event): (r: Outcome<A>)
    requires ValidQueue(o.conn.outQueue)
    ensures ValidQueue(r.conn.outQueue)
  {
    var step := Handle(site, o.app, o.conn, event);
    Outcome(step.app, step.conn, o.sent + step.sent, o.answers + step.answers)
  }

  /** Handling events one after another, from `o`. */
  function HandleAll<A>(site: Site<A>, o: Outcome<A>, events: seq<Event>): (r: Outcome<A>)
    requires ValidQueue(o.conn.outQueue)
    ensures ValidQueue(r.conn.outQueue)
    decreases |events|
  {
    if events == [] then o else HandleAll(site, After(site, o, events[0]), events[1..])
  }

  /** The life of a connection from accept. */
  function Life<A>(site: Site<A>, a: A, events: seq<Event>): Outcome<A> {
    HandleAll(site, Outcome(a, FRESH, "", []), events)
  }

  // ---------------------------------------------------------------- system calls on the socket

  /** `ModifyEvents` changes the epoll registration, EPOLLOUT included or not; `Close` is the
      loop's `closeConnection`, which ends the registration and closes the socket. */
  datatype Call = Recv | Send | SendFile | ModifyEvents(out: bool) | Close

  /** The loop does nothing for a connection that is no longer in its table. */
  function CloseCalls(c: Conn): seq<Call> { if c.closed then [] else [Close] }

  function SetEvents(c: Conn, out: bool): seq<Call> {
    if c.writeRegistered == out then [] else [ModifyEvents(out)]
  }

  /** The calls of `Receive`, in order. */
  function ReceiveCalls(c: Conn, rs: seq<RecvResult>): seq<Call>
    decreases |rs|
  {
    if rs == [] || rs[0].WouldBlock? then [Recv]
    else if rs[0].Data? && rs[0].bytes != "" then
      var c1 := c.(inBuffer := c.inBuffer + rs[0].bytes);
      [Recv] + if |c1.inBuffer| > MAX_IN_BUFFER then CloseCalls(c1) else ReceiveCalls(c1, rs[1..])
    else [Recv] + CloseCalls(c)
  }

  /** One unfolding of `Receive` and `ReceiveCalls`. */
  lemma ReceiveStep(c: Conn, rs: seq<RecvResult>)
    ensures var r := if rs == [] then WouldBlock else rs[0];
            && (r.WouldBlock? ==> Receive(c, rs) == c && ReceiveCalls(c, rs) == [Recv])
            && (r.Data? && r.bytes != "" ==>
                  var c1 := c.(inBuffer := c.inBuffer + r.bytes);
                  if |c1.inBuffer| > MAX_IN_BUFFER
                  then Receive(c, rs) == c1.(closed := true) && ReceiveCalls(c, rs) == [Recv] + CloseCalls(c1)
                  else Receive(c, rs) == Receive(c1, rs[1..]) && ReceiveCalls(c, rs) == [Recv] + ReceiveCalls(c1, rs[1..]))
            && (r.RecvError? || r == Data("") ==>
                  Receive(c, rs) == c.(closed := true) && ReceiveCalls(c, rs) == [Recv] + CloseCalls(c))
  {
  }

  function SendCall(s: Segment): Call { if s.Bytes? then Send else SendFile }

  /** The calls of `Flush`, in order. */
  function FlushCalls(c: Conn, io: seq<IoResult>): seq<Call>
    requires ValidQueue(c.outQueue)
    decreases |io| + |c.outQueue|
  {
    if c.outQueue == [] then
      SetEvents(c, false) + if c.closeAfterFlush then CloseCalls(c) else []
    else
      var front, call := Pending(c.outQueue[0]), SendCall(c.outQueue[0]);
      if front == "" then FlushCalls(Retire(c), io)
      else match Front(io)
        case Again => [call] + SetEvents(c, true)
        case Broken => [call] + CloseCalls(c)
        case Moved(n) =>
          if n == 0 then [call] + CloseCalls(c)
          else [call] + FlushCalls(Advance(c, Min(n, |front|)), io[1..])
  }

  lemma FlushCallsStep(c: Conn, io: seq<IoResult>)
    requires ValidQueue(c.outQueue) && c.outQueue != [] && Pending(c.outQueue[0]) != ""
    ensures var r, call := Front(io), SendCall(c.outQueue[0]);
            && (r.Again? ==> FlushCalls(c, io) == [call] + SetEvents(c, true))
            && (r.Broken? || r == Moved(0) ==> FlushCalls(c, io) == [call] + CloseCalls(c))
            && (r.Moved? && r.n > 0 ==>
                  var m := Min(r.n, |Pending(c.outQueue[0])|);
                  FlushCalls(c, io) == [call] + FlushCalls(Advance(c, m), io[1..]))
  {
  }

  lemma RetireCallsStep(c: Conn, io: seq<IoResult>)
    requires ValidQueue(c.outQueue) && c.outQueue != [] && Pending(c.outQueue[0]) == ""
    ensures ValidQueue(Retire(c).outQueue)
    ensures FlushCalls(c, io) == FlushCalls(Retire(c), io)
  {
  }

  /** Connection, bytes sent and calls made, at some point of a flush or at its end. */
  datatype Flushing = Flushing(conn: Conn, sent: string, calls: seq<Call>)

  /** How a flush ends that has come to `f`. */
  function FlushFrom(f: Flushing, io: seq<IoResult>): Flushing
    requires ValidQueue(f.conn.outQueue)
  {
    var (c, sent) := Flush(f.conn, f.sent, io);
    Flushing(c, sent, f.calls + FlushCalls(f.conn, io))
  }

  /** One `send` or `sendfile`. */
  lemma FlushTurn(f: Flushing, io: seq<IoResult>)
    requires ValidQueue(f.conn.outQueue) && f.conn.outQueue != [] && Pending(f.conn.outQueue[0]) != ""
    ensures var c, r := f.conn, Front(io);
            var front, calls := Pending(c.outQueue[0]), f.calls + [SendCall(c.outQueue[0])];
            FlushFrom(f, io) ==
              if r.Again? then Flushing(c.(writeRegistered := true), f.sent, calls + SetEvents(c, true))
              else if r.Broken? || r.n == 0 then Flushing(c.(closed := true), f.sent, calls + CloseCalls(c))
              else var m := Min(r.n, |front|); FlushFrom(Flushing(Advance(c, m), f.sent + front[..m], calls), io[1..])
  {
    hide Flush, FlushCalls, Advance;
    FlushStep(f.conn, f.sent, io);
    FlushCallsStep(f.conn, io);
  }

  lemma FlushRetires(f: Flushing, io: seq<IoResult>)
    requires ValidQueue(f.conn.outQueue) && f.conn.outQueue != [] && Pending(f.conn.outQueue[0]) == ""
    ensures ValidQueue(Retire(f.conn).outQueue)
    ensures FlushFrom(f, io) == FlushFrom(f.(conn := Retire(f.conn)), io)
  {
    hide Flush, FlushCalls, Retire;
    RetireStep(f.conn, f.sent, io);
    RetireCallsStep(f.conn, io);
  }

  lemma FlushEnds(f: Flushing, io: seq<IoResult>)
    requires f.conn.outQueue == []
    ensures var c := f.conn;
            FlushFrom(f, io) == Flushing(c.(writeRegistered := false, closed := c.closed || c.closeAfterFlush), f.sent,
              f.calls + SetEvents(c, false) + if c.closeAfterFlush then CloseCalls(c) else [])
  {
  }

  /** The calls of one event. */
  function HandleCalls<A>(site: Site<A>, a: A, c: Conn, event: Event): seq<Call>
    requires ValidQueue(c.outQueue)
  {
    if c.closed then []
    else match event
      case Readable(rs, io) =>
        var c1 := Receive(c, rs);
        ReceiveCalls(c, rs) + if c1.closed then [] else FlushCalls(Process(site, a, c1, []).conn, io)
      case Writable(io) => FlushCalls(c, io)
      case HangUp => [Close]
  }

  /** The calls of handling events one after another, from `o`. */
  function AllCalls<A>(site: Site<A>, o: Outcome<A>, events: seq<Event>): seq<Call>
    requires ValidQueue(o.conn.outQueue)
    decreases |events|
  {
    if events == [] then []
    else HandleCalls(site, o.app, o.conn, events[0]) + AllCalls(site, After(site, o, events[0]), events[1..])
  }

  // ---------------------------------------------------------------- open files

  function HandlesIn(q: seq<Segment>): seq<int> {
    if q == [] then []
    else (if q[0].File? && q[0].handle >= 0 then [q[0].handle] else []) + HandlesIn(q[1..])
  }

  function Numbers(n: nat): seq<int> {
    if n == 0 then [] else Numbers(n - 1) + [n - 1]
  }

  /** Every file ever opened is either closed, once, or in the queue, once. */
  ghost predicate FilesBalanced(c: Conn) {
    multiset(c.shutFiles) + multiset(HandlesIn(c.outQueue)) == multiset(Numbers(c.fileCount))
  }

  /** `closeAllFiles`: what the destructor leaves of a queue. */
  function ShutAll(q: seq<Segment>): seq<Segment> {
    if q == [] then []
    else [if q[0].File? && q[0].handle >= 0 then q[0].(handle := -1) else q[0]] + ShutAll(q[1..])
  }
}
