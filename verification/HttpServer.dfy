/** The connection object: its methods update the buffers and flags in place and are proved
    to do what the `Connection` functions say. */
module HttpServer {
  import opened Text
  import opened HeaderBlock
  import Requests = HttpRequest
  import Responses = HttpResponse
  import opened HttpResponse
  import opened Connection

  class HttpServer<A> {
    const site: Site<A>
    var inBuffer: string
    var outQueue: seq<Segment>
    var writeRegistered: bool
    var keepAlive: bool
    var closeAfterFlush: bool
    var closed: bool
    var fileCount: nat
    var shutFiles: seq<int>
    /** The system calls on the socket so far. */
    ghost var calls: seq<Call>

    function State(): Conn
      reads this
    {
      Conn(inBuffer, outQueue, writeRegistered, keepAlive, closeAfterFlush, closed, fileCount, shutFiles)
    }

    ghost predicate Valid()
      reads this
    {
      ValidQueue(outQueue) && Fits(State())
    }

    constructor (site: Site<A>)
      ensures Valid() && State() == FRESH && this.site == site && calls == []
    {
      this.site := site;
      inBuffer, outQueue := "", [];
      writeRegistered, keepAlive, closeAfterFlush, closed := false, false, false, false;
      fileCount, shutFiles, calls := 0, [], [];
    }

    /** The event loop's `closeConnection` as the connection sees it: it has no effect on a
        connection that is no longer in the table. */
    method MarkClosed()
      modifies this`closed, this`calls
      ensures closed && calls == old(calls) + CloseCalls(old(State()))
    {
      if closed { return; }
      closed := true;
      calls := calls + [Close];
    }

    method RecvIntoBuffer(rs: seq<RecvResult>)
      requires |inBuffer| <= MAX_IN_BUFFER
      modifies this`inBuffer, this`closed, this`calls
      ensures State() == Receive(old(State()), rs)
      ensures calls == old(calls) + ReceiveCalls(old(State()), rs) && Fits(State())
    {
      hide Receive, ReceiveCalls;
      var k := 0;
      while true
        invariant k <= |rs| && |inBuffer| <= MAX_IN_BUFFER
        invariant Receive(State(), rs[k..]) == Receive(old(State()), rs)
        invariant calls + ReceiveCalls(State(), rs[k..]) == old(calls) + ReceiveCalls(old(State()), rs)
        decreases MAX_IN_BUFFER - |inBuffer|
      {
        var r := if k == |rs| then WouldBlock else rs[k];
        ReceiveStep(State(), rs[k..]);
        calls := calls + [Recv];
        if r.Data? && r.bytes != "" {
          assert rs[k..][1..] == rs[k + 1..];
          k := k + 1;
          inBuffer := inBuffer + r.bytes;
          if |inBuffer| > MAX_IN_BUFFER {
            MarkClosed();
            return;
          }
        } else if r.WouldBlock? {
          return;
        } else {
          MarkClosed();
          return;
        }
      }
    }

    method RegisterWrite()
      modifies this`writeRegistered, this`calls
      ensures writeRegistered && calls == old(calls) + SetEvents(old(State()), true)
    {
      if writeRegistered { return; }
      writeRegistered := true;
      calls := calls + [ModifyEvents(true)];
    }

    method UnregisterWrite()
      modifies this`writeRegistered, this`calls
      ensures !writeRegistered && calls == old(calls) + SetEvents(old(State()), false)
    {
      if !writeRegistered { return; }
      writeRegistered := false;
      calls := calls + [ModifyEvents(false)];
    }

    /** Where a flush stands that has sent `sent`. */
    ghost function Progress(sent: string): Flushing
      reads this
    {
      Flushing(State(), sent, calls)
    }

    /** `send` moved `m` bytes of the front text. */
    method ShiftText(m: nat)
      requires Valid() && outQueue != [] && outQueue[0].Bytes? && m <= |outQueue[0].bytes|
      modifies this`outQueue
      ensures Valid() && State() == Advance(old(State()), m)
    {
      outQueue := [outQueue[0].(bytes := outQueue[0].bytes[m..])] + outQueue[1..];
    }

    /** Send the text segment in front. `done` is false when the flush has to stop. */
    method SendText(sent0: string, io: seq<IoResult>, k0: nat) returns (sent: string, k: nat, done: bool)
      requires Valid() && k0 <= |io| && outQueue != [] && outQueue[0].Bytes?
      modifies this`outQueue, this`writeRegistered, this`closed, this`calls
      ensures Valid() && k0 <= k <= |io| && |outQueue| == |old(outQueue)|
      ensures done ==> outQueue[0] == Bytes("")
      ensures FlushFrom(old(Progress(sent0)), io[k0..]) == if done then FlushFrom(Progress(sent), io[k..]) else Progress(sent)
    {
      hide FlushFrom;
      sent, k, done := sent0, k0, false;
      while outQueue[0].bytes != ""
        invariant k0 <= k <= |io| && Valid() && !done
        invariant |outQueue| == |old(outQueue)| && outQueue[0].Bytes?
        invariant FlushFrom(Progress(sent), io[k..]) == FlushFrom(old(Progress(sent0)), io[k0..])
        decreases |outQueue[0].bytes|
      {
        var r := Front(io[k..]);
        FlushTurn(Progress(sent), io[k..]);
        calls := calls + [Call.Send];
        if r.Moved? && r.n > 0 {
          var m := Min(r.n, |outQueue[0].bytes|);
          assert io[k..][1..] == io[k + 1..];
          sent := sent + outQueue[0].bytes[..m];
          ShiftText(m);
          k := k + 1;
        } else if r.Again? {
          RegisterWrite();
          return;
        } else {
          MarkClosed();
          return;
        }
      }
      done := true;
    }

    /** `sendfile` moved `m` bytes of the front file: offset and remainder shift. */
    method ShiftFile(m: nat)
      requires Valid() && outQueue != [] && outQueue[0].File? && ValidSegment(outQueue[0]) && m <= outQueue[0].remaining
      requires m <= |Pending(outQueue[0])|
      modifies this`outQueue
      ensures Valid() && State() == Advance(old(State()), m)
    {
      var seg := outQueue[0];
      outQueue := [seg.(offset := seg.offset + m, remaining := seg.remaining - m)] + outQueue[1..];
    }

    /** Send the file segment in front. `done` is false when the flush has to stop. */
    method SendFile(sent0: string, io: seq<IoResult>, k0: nat) returns (sent: string, k: nat, done: bool)
      requires Valid() && k0 <= |io| && outQueue != [] && outQueue[0].File?
      modifies this`outQueue, this`writeRegistered, this`closed, this`calls
      ensures Valid() && k0 <= k <= |io| && |outQueue| == |old(outQueue)|
      ensures done ==> outQueue[0].File? && outQueue[0].remaining == 0
      ensures FlushFrom(old(Progress(sent0)), io[k0..]) == if done then FlushFrom(Progress(sent), io[k..]) else Progress(sent)
    {
      hide FlushFrom;
      sent, k, done := sent0, k0, false;
      while outQueue[0].remaining > 0
        invariant k0 <= k <= |io| && Valid() && !done
        invariant |outQueue| == |old(outQueue)| && outQueue[0].File?
        invariant FlushFrom(Progress(sent), io[k..]) == FlushFrom(old(Progress(sent0)), io[k0..])
        decreases outQueue[0].remaining
      {
        assert outQueue[0] in outQueue;
        var r := Front(io[k..]);
        FlushTurn(Progress(sent), io[k..]);
        calls := calls + [Call.SendFile];
        if r.Moved? && r.n > 0 {
          var seg := outQueue[0];
          var m := Min(r.n, seg.remaining);
          assert io[k..][1..] == io[k + 1..];
          FileShare(seg, m);
          sent := sent + seg.content[seg.offset..seg.offset + m];
          ShiftFile(m);
          k := k + 1;
        } else if r.Again? {
          RegisterWrite();
          return;
        } else {
          MarkClosed();
          return;
        }
      }
      done := true;
    }

    /** Send the queue in order: text by `send`, files by `sendfile`. */
    method TryFlush(io: seq<IoResult>) returns (sent: string)
      requires Valid()
      modifies this`outQueue, this`writeRegistered, this`closed, this`shutFiles, this`calls
      ensures Valid()
      ensures Progress(sent) == FlushFrom(old(Progress("")), io)
    {
      hide FlushFrom;
      sent := "";
      var k := 0;
      while outQueue != []
        invariant k <= |io| && Valid()
        invariant FlushFrom(Progress(sent), io[k..]) == FlushFrom(old(Progress("")), io)
        decreases |outQueue|
      {
        var done;
        if outQueue[0].Bytes? {
          sent, k, done := SendText(sent, io, k);
          if !done { return; }
          FlushRetires(Progress(sent), io[k..]);
          outQueue := outQueue[1..];
        } else {
          sent, k, done := SendFile(sent, io, k);
          if !done { return; }
          assert outQueue[0] in outQueue;
          FlushRetires(Progress(sent), io[k..]);
          shutFiles := shutFiles + [outQueue[0].handle];
          outQueue := outQueue[1..];
        }
      }
      FlushEnds(Progress(sent), io[k..]);
      if writeRegistered {
        UnregisterWrite();
      }
      if closeAfterFlush {
        MarkClosed();
      }
    }

    /** The page for a path that names no file that can be sent. */
    method QueueBarePage(body: string)
      requires Valid()
      modifies this`outQueue
      ensures Valid() && outQueue == old(outQueue) + OutSegments(BarePage(body), 0)
    {
      hide WireOf, Put;
      var resp := new Responses.HttpResponse();
      resp.SetStatus(404);
      resp.SetBody(body);
      var text := PrintWhole(resp, BarePage(body));
      outQueue := outQueue + [Bytes(text)];
    }

    /** The opened file goes out as a head segment and a file segment. */
    method QueueFile(path: string, fd: nat, content: string)
      requires Valid()
      modifies this`outQueue
      ensures Valid() && outQueue == old(outQueue) + OutSegments(FilePage(site.mime(path), content, keepAlive), fd)
    {
      hide HeadText;
      var text := FileHead(site.mime(path), content, keepAlive);
      TwoSegments(outQueue, Bytes(text), File(fd, content, 0, |content|));
      outQueue := outQueue + [Bytes(text)];
      outQueue := outQueue + [File(fd, content, 0, |content|)];
    }

    method SendFileResponse(path: string)
      requires Valid()
      modifies this`outQueue, this`fileCount, this`shutFiles
      ensures Valid()
      ensures State() == Enqueue(site, StaticFile(path), old(State()))
    {
      var file := site.open(path);
      if file.CannotOpen? {
        QueueBarePage(NO_FILE);
        return;
      }
      var fd := fileCount;
      fileCount := fileCount + 1;
      if file.NotRegular? {
        shutFiles := shutFiles + [fd];
        QueueBarePage(NOT_A_FILE);
        return;
      }
      QueueFile(path, fd, file.content);
    }

    /** Route the request and queue what the handler answers. */
    method Dispatch(app: A, request: Requests.Request) returns (app': A)
      requires Valid()
      modifies this`outQueue, this`fileCount, this`shutFiles
      ensures Valid()
      ensures app' == site.handle(app, request).0
      ensures State() == Enqueue(site, site.handle(app, request).1, old(State()))
    {
      hide WireOf, Put, FieldsOf;
      var resp := new Responses.HttpResponse();
      resp.AddHeader(CONTENT_TYPE, TEXT_PLAIN);
      resp.AddHeader(CONNECTION, ConnectionOption(keepAlive));
      if keepAlive {
        resp.AddHeader(KEEP_ALIVE, TIMEOUT_30);
      }
      var (a1, reply) := site.handle(app, request);
      app' := a1;
      WriteReply(resp, reply, keepAlive);
      if resp.hasFile {
        SendFileResponse(resp.filePath);
      } else {
        var text := PrintWhole(resp, AnswerTo(site, reply, keepAlive));
        assert OutSegments(AnswerTo(site, reply, keepAlive), fileCount) == [Bytes(text)];
        outQueue := outQueue + [Bytes(text)];
      }
    }

    /** A protocol error: an error page, after which the connection is to be closed. */
    method QueueErrorPage(code: nat)
      requires Valid()
      modifies this`outQueue, this`closeAfterFlush
      ensures Valid() && State() == AnswerError(old(State()), code)
    {
      hide WireOf, Put;
      var resp := new Responses.HttpResponse();
      resp.SetStatus(code);
      resp.AddHeader(CONTENT_TYPE, TEXT_PLAIN);
      resp.AddHeader(CONNECTION, ConnectionOption(false));
      resp.SetBody("HTTP parse error (" + Decimal(code) + ")");
      var text := PrintWhole(resp, ErrorPage(code));
      outQueue := outQueue + [Bytes(text)];
      closeAfterFlush := true;
    }

    /** Answer a request that `consumed` bytes of the input buffer hold. */
    method AnswerRequest(app: A, request: Requests.Request, consumed: nat) returns (app': A)
      requires Valid() && consumed <= |inBuffer|
      modifies this`inBuffer, this`outQueue, this`keepAlive, this`closeAfterFlush, this`fileCount, this`shutFiles
      ensures Valid() && keepAlive == request.keepAlive
      ensures var turn := AnswerOne(site, app, old(State()), request, consumed);
              State() == turn.conn && app' == turn.app
    {
      hide Enqueue;
      keepAlive := request.keepAlive;
      if !keepAlive {
        closeAfterFlush := true;
      }
      app' := Dispatch(app, request);
      inBuffer := inBuffer[consumed..];
    }

    /** Answer every complete request in the input buffer. */
    method ProcessRequests(app: A) returns (app': A, ghost answers: seq<Answer>)
      requires Valid()
      modifies this`inBuffer, this`outQueue, this`keepAlive, this`closeAfterFlush, this`fileCount, this`shutFiles
      ensures Valid()
      ensures Turn(app', State(), answers) == Process(site, app, old(State()), [])
    {
      hide Process, AnswerOne, AnswerError, Requests.ReadingOf;
      app' := app;
      answers := [];
      while true
        invariant Valid()
        invariant Process(site, app', State(), answers) == Process(site, app, old(State()), [])
        decreases |inBuffer|
      {
        ProcessStep(site, app', State(), answers);
        var req := new Requests.HttpRequest();
        var result, consumed := req.Parse(inBuffer);
        match result {
          case NEED_MORE =>
            return;
          case ERROR =>
            QueueErrorPage(req.errorCode);
            answers := answers + [ErrorPage(req.errorCode)];
            return;
          case OK =>
            answers := answers + AnswerOne(site, app', State(), req.Contents(), consumed).answers;
            app' := AnswerRequest(app', req.Contents(), consumed);
            if !keepAlive { return; }
            if |outQueue| > MAX_OUT_SEGMENTS {
              closeAfterFlush := true;
              return;
            }
        }
      }
    }

    /** Everything a readable event does: drain the socket, answer, flush. */
    method HandleRead(app: A, rs: seq<RecvResult>, io: seq<IoResult>)
      returns (app': A, sent: string, ghost answers: seq<Answer>)
      requires Valid()
      modifies this
      ensures Valid()
      ensures Outcome(app', State(), sent, answers) == OnRead(site, app, old(State()), rs, io)
      ensures calls == old(calls) + HandleCalls(site, app, old(State()), Readable(rs, io))
    {
      hide Receive, ReceiveCalls, Process, Flush, FlushCalls;
      app', sent, answers := app, "", [];
      if closed { return; }
      RecvIntoBuffer(rs);
      if closed { return; }
      app', answers := ProcessRequests(app);
      if closed { return; }
      sent := TryFlush(io);
    }

    method HandleWrite(app: A, io: seq<IoResult>) returns (sent: string)
      requires Valid()
      modifies this
      ensures Valid()
      ensures Outcome(app, State(), sent, []) == OnWrite(app, old(State()), io)
      ensures calls == old(calls) + HandleCalls(site, app, old(State()), Writable(io))
    {
      hide Flush, FlushCalls;
      sent := "";
      if closed { return; }
      sent := TryFlush(io);
    }

    /** Called by the destructor: close the files still queued. */
    method CloseAllFiles()
      modifies this`outQueue, this`shutFiles
      ensures outQueue == ShutAll(old(outQueue))
      ensures shutFiles == old(shutFiles) + HandlesIn(old(outQueue))
    {
      hide ShutAll, HandlesIn;
      var i := 0;
      ghost var q, left, done := outQueue, outQueue, [];
      while i < |outQueue|
        invariant i <= |outQueue| && outQueue == done + left && |done| == i
        invariant done + ShutAll(left) == ShutAll(q)
        invariant shutFiles + HandlesIn(left) == old(shutFiles) + HandlesIn(q)
      {
        var seg := outQueue[i];
        assert left[0] == seg && outQueue == done + [seg] + left[1..];
        ShutOne(left);
        if seg.File? && seg.handle >= 0 {
          shutFiles := shutFiles + [seg.handle];
          outQueue := outQueue[i := seg.(handle := -1)];
          assert outQueue == done + [seg.(handle := -1)] + left[1..];
        }
        done := done + [outQueue[i]];
        left := left[1..];
        i := i + 1;
      }
      assert left == [];
      ShutNone();
    }
  }

  lemma TwoSegments(q: seq<Segment>, a: Segment, b: Segment)
    ensures q + [a] + [b] == q + [a, b]
    ensures ValidQueue(q) && ValidSegment(a) && ValidSegment(b) ==> ValidQueue(q + [a, b])
  {
  }

  lemma ShutOne(q: seq<Segment>)
    requires q != []
    ensures var open := q[0].File? && q[0].handle >= 0;
            && ShutAll(q) == [if open then q[0].(handle := -1) else q[0]] + ShutAll(q[1..])
            && HandlesIn(q) == (if open then [q[0].handle] else []) + HandlesIn(q[1..])
  {
  }

  lemma ShutNone()
    ensures ShutAll([]) == [] && HandlesIn([]) == []
  {
  }

  lemma FileShare(seg: Segment, m: nat)
    requires seg.File? && ValidSegment(seg) && m <= seg.remaining
    ensures |Pending(seg)| == seg.remaining
    ensures Pending(seg)[..m] == seg.content[seg.offset..seg.offset + m]
  {
  }

  /** The whole message of a response object that carries an answer's status, fields and body. */
  method PrintWhole(resp: Responses.HttpResponse, ghost answer: Answer) returns (text: string)
    requires resp.Valid() && resp.statusCode == CodeOf(answer)
    requires resp.headers == FieldsOf(answer) && resp.body == BodyOf(answer)
    ensures text == WireOf(answer)
  {
    text := resp.ToString();
  }

  method PrintHead(resp: Responses.HttpResponse, ghost answer: Answer) returns (text: string)
    requires resp.Valid() && resp.statusCode == CodeOf(answer)
    requires resp.headers == FieldsOf(answer)
    ensures text == HeadText(answer)
  {
    text := resp.ToStringHeaders();
  }

  /** Status line and fields of a file response; the size of the file is its Content-Length. */
  method FileHead(mime: string, content: string, keepAlive: bool) returns (text: string)
    ensures text == HeadText(FilePage(mime, content, keepAlive))
  {
    hide HeadText, Put;
    var resp := new Responses.HttpResponse();
    resp.SetStatus(200);
    resp.AddHeader(CONTENT_TYPE, mime);
    resp.AddHeader(CONTENT_LENGTH, Decimal(|content|));
    resp.AddHeader(CONNECTION, ConnectionOption(keepAlive));
    if keepAlive {
      resp.AddHeader(KEEP_ALIVE, TIMEOUT_30);
    }
    text := PrintHead(resp, FilePage(mime, content, keepAlive));
  }

  /** What routing leaves in the response object, which already carries the common fields. */
  method WriteReply(resp: Responses.HttpResponse, reply: Reply, ghost keepAlive: bool)
    requires resp.Valid() && !resp.hasFile && resp.statusCode == 200 && resp.body == ""
    requires resp.headers == CommonFields(keepAlive)
    modifies resp
    ensures resp.Valid() && resp.hasFile == reply.StaticFile?
    ensures reply.StaticFile? ==> resp.filePath == reply.path
    ensures !reply.StaticFile? ==>
      var code, body := ReplyCode(reply), ReplyBody(reply);
      resp.statusCode == code && resp.body == body && resp.headers == FieldsOf(TextPage(code, body, keepAlive))
  {
    hide Put;
    match reply {
      case Unrouted =>
        resp.SetStatus(404);
        resp.SetBody(NO_ROUTE);
      case Page(code, body) =>
        resp.SetStatus(code);
        resp.SetBody(body);
      case StaticFile(path) =>
        resp.SetFile(path);
    }
  }
}
