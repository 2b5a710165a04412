/** What every run of a connection keeps: no byte of an answer is lost, repeated or moved,
    the stream splits back into one message per answer, no file stays open, and a live
    connection never sits on a complete request or on output it will not be told to send. */
module ConnectionTheorems {
  import opened Text
  import opened HeaderBlock
  import opened HttpRequest
  import opened HttpResponse
  import opened Connection

  // ---------------------------------------------------------------- framing of the output

  predicate CleanAnswer(answer: Answer) {
    answer.FilePage? ==> '\r' !in answer.mime && Trimmed(answer.mime)
  }

  ghost predicate CleanSite<A>(site: Site<A>) {
    forall path: string :: '\r' !in site.mime(path) && Trimmed(site.mime(path))
  }

  function LastingFields(fields: Fields, keepAlive: bool): Fields {
    if keepAlive then fields["Connection" := "keep-alive"]["Keep-Alive" := "timeout=30"]
    else fields["Connection" := "close"]
  }

  /** The message a client must receive for an answer. */
  function MessageOf(answer: Answer): Message {
    var length: Fields := map["Content-Length" := Decimal(|BodyOf(answer)|)];
    var fields :=
      match answer
      case ErrorPage(_) => LastingFields(length["Content-Type" := TEXT_PLAIN], false)
      case TextPage(_, _, k) => LastingFields(length["Content-Type" := TEXT_PLAIN], k)
      case BarePage(_) => length
      case FilePage(mime, _, k) => LastingFields(length["Content-Type" := mime], k);
    Message(StatusLine(CodeOf(answer)), fields, BodyOf(answer))
  }

  function MessagesOf(answers: seq<Answer>): seq<Message> {
    if answers == [] then [] else [MessageOf(answers[0])] + MessagesOf(answers[1..])
  }

  /** A field list in key order, of clean fields, meaning `fields`. */
  ghost predicate Prints(h: FieldList, fields: Fields) {
    Ordered(h) && CleanFields(h) && MapOf(h, map[]) == fields
  }

  lemma PutPrints(h: FieldList, fields: Fields, key: string, value: string)
    requires Prints(h, fields) && CleanField((key, value))
    ensures Prints(Put(h, key, value), fields[key := value])
  {
    PutKeepsOrder(h, key, value);
    MapOfPut(h, map[], key, value);
  }

  lemma LastingPrints(h: FieldList, fields: Fields, keepAlive: bool)
    requires Prints(h, fields)
    ensures Prints(KeepAliveField(ConnectionField(h, keepAlive), keepAlive), LastingFields(fields, keepAlive))
  {
    var option := ConnectionOption(keepAlive);
    assert CleanField(("Connection", option));
    PutPrints(h, fields, "Connection", option);
    if keepAlive {
      assert CleanField(("Keep-Alive", "timeout=30"));
      PutPrints(ConnectionField(h, keepAlive), fields["Connection" := option], "Keep-Alive", "timeout=30");
    }
  }

  lemma DigitsAreClean(n: nat)
    ensures CleanField((CONTENT_LENGTH, Decimal(n)))
  {
    var d := Decimal(n);
    assert d[0] in d && d[|d| - 1] in d;
  }

  lemma TypePrints(mime: string)
    requires '\r' !in mime && Trimmed(mime)
    ensures Prints(Put([], CONTENT_TYPE, mime), map["Content-Type" := mime])
  {
    assert CleanField((CONTENT_TYPE, mime));
    PutPrints([], map[], CONTENT_TYPE, mime);
  }

  lemma FieldsPrint(answer: Answer)
    requires CleanAnswer(answer)
    ensures Prints(FieldsOf(answer), MessageOf(answer).fields)
  {
    hide Prints, Put, Decimal, Ordered, CleanFields, MapOf, BodyOf;
    var length := Decimal(|BodyOf(answer)|);
    DigitsAreClean(|BodyOf(answer)|);
    assert Trimmed(TEXT_PLAIN);
    match answer
    case ErrorPage(_) =>
      TypePrints(TEXT_PLAIN);
      var fields: Fields := map["Content-Type" := TEXT_PLAIN];
      var h := ConnectionField(Put([], CONTENT_TYPE, TEXT_PLAIN), false);
      LastingPrints(Put([], CONTENT_TYPE, TEXT_PLAIN), fields, false);
      PutPrints(h, LastingFields(fields, false), CONTENT_LENGTH, length);
      assert LastingFields(fields, false)[CONTENT_LENGTH := length] == MessageOf(answer).fields;
    case TextPage(_, _, k) =>
      TypePrints(TEXT_PLAIN);
      var fields: Fields := map["Content-Type" := TEXT_PLAIN];
      LastingPrints(Put([], CONTENT_TYPE, TEXT_PLAIN), fields, k);
      PutPrints(CommonFields(k), LastingFields(fields, k), CONTENT_LENGTH, length);
      assert LastingFields(fields, k)[CONTENT_LENGTH := length] == MessageOf(answer).fields;
    case BarePage(_) =>
      assert Prints([], map[]) by { EmptyPrints(); }
      PutPrints([], map[], CONTENT_LENGTH, length);
    case FilePage(mime, _, k) =>
      TypePrints(mime);
      var fields: Fields := map["Content-Type" := mime];
      PutPrints(Put([], CONTENT_TYPE, mime), fields, CONTENT_LENGTH, length);
      LastingPrints(Put(Put([], CONTENT_TYPE, mime), CONTENT_LENGTH, length), fields[CONTENT_LENGTH := length], k);
      assert LastingFields(fields[CONTENT_LENGTH := length], k) == MessageOf(answer).fields;
  }

  lemma EmptyPrints()
    ensures Prints([], map[])
  {
  }

  lemma DigitsHaveNoCr(n: nat)
    ensures '\r' !in Decimal(n)
  {
    assert !IsDigit('\r');
  }

  lemma ReasonHasNoCr(code: nat)
    ensures '\r' !in Reason(code)
  {
    if code == 431 {
      HeadersReasonHasNoCr();
    } else if code in {413, 501} {
      LongReasonHasNoCr(code);
    }
  }

  lemma HeadersReasonHasNoCr()
    ensures '\r' !in "Request Header Fields Too Large"
  {
    var a, b := "Request Header ", "Fields Too Large";
    assert a + b == "Request Header Fields Too Large";
  }

  lemma LongReasonHasNoCr(code: nat)
    requires code in {413, 501}
    ensures '\r' !in Reason(code)
  {
  }

  lemma StatusLineHasNoCr(code: nat)
    ensures '\r' !in StatusLine(code)
  {
    hide Decimal, Reason;
    DigitsHaveNoCr(code);
    ReasonHasNoCr(code);
  }

  /** One answer, text or file, is one message of the stream. */
  lemma AnswerDecodes(answer: Answer, rest: string)
    requires CleanAnswer(answer)
    ensures DecodeOne(WireOf(answer) + rest) == Some((MessageOf(answer), rest))
    ensures WireOf(answer) != ""
  {
    hide Decimal, StatusLine, FieldsOf, BodyOf, Terminated, FieldLines, DecodeOne;
    FieldsPrint(answer);
    StatusLineHasNoCr(CodeOf(answer));
    assert Lookup(MessageOf(answer).fields, CONTENT_LENGTH) == Decimal(|BodyOf(answer)|);
    DecodePrinted(StatusLine(CodeOf(answer)), FieldsOf(answer), BodyOf(answer), rest);
  }

  /** The flattened output decodes to exactly one message per answer, in order. */
  lemma {:induction false} StreamDecodes(answers: seq<Answer>)
    requires forall x :: x in answers ==> CleanAnswer(x)
    ensures Decode(WireAll(answers)) == Some(MessagesOf(answers))
  {
    hide WireOf, DecodeOne, MessageOf;
    if answers != [] {
      var rest := WireAll(answers[1..]);
      assert answers[0] in answers;
      AnswerDecodes(answers[0], rest);
      StreamDecodes(answers[1..]);
      assert |rest| < |WireAll(answers)|;
    }
  }

  // ---------------------------------------------------------------- conservation

  lemma {:induction false} PendingAppend(p: seq<Segment>, q: seq<Segment>)
    requires ValidQueue(p) && ValidQueue(q)
    ensures ValidQueue(p + q) && PendingAll(p + q) == PendingAll(p) + PendingAll(q)
  {
    if p == [] {
      assert p + q == q;
    } else {
      assert (p + q)[1..] == p[1..] + q;
      PendingAppend(p[1..], q);
    }
  }

  lemma {:induction false} HandlesAppend(p: seq<Segment>, q: seq<Segment>)
    ensures HandlesIn(p + q) == HandlesIn(p) + HandlesIn(q)
  {
    if p == [] {
      assert p + q == q;
    } else {
      assert (p + q)[1..] == p[1..] + q;
      HandlesAppend(p[1..], q);
    }
  }

  lemma {:induction false} WireAppend(a: seq<Answer>, b: seq<Answer>)
    ensures WireAll(a + b) == WireAll(a) + WireAll(b)
  {
    hide WireOf;
    if a == [] {
      assert a + b == b;
    } else {
      assert (a + b)[1..] == a[1..] + b;
      WireAppend(a[1..], b);
    }
  }

  /** From `c` with `sent` to `d` with `out`: bytes sent and bytes still queued are, in this
      order, the bytes there were; open files stay accounted for; and only queue, EPOLLOUT flag,
      closed flag and closed files may differ. */
  ghost predicate Moves(c: Conn, sent: string, d: Conn, out: string) {
    && ValidQueue(c.outQueue) && ValidQueue(d.outQueue)
    && out + PendingAll(d.outQueue) == sent + PendingAll(c.outQueue)
    && (FilesBalanced(c) ==> FilesBalanced(d))
    && d == c.(outQueue := d.outQueue, writeRegistered := d.writeRegistered, closed := d.closed,
               shutFiles := d.shutFiles)
  }

  /** How a flush may end on a live connection. */
  datatype FlushEnd = Drained | Blocked | Lost

  predicate EndsAs(end: FlushEnd, d: Conn) {
    match end
    case Drained => d.outQueue == [] && !d.writeRegistered && d.closed == d.closeAfterFlush
    case Blocked => d.outQueue != [] && d.writeRegistered && !d.closed
    case Lost => d.outQueue != [] && d.closed
  }

  /** Whatever the writes return, nothing is lost or repeated, and the flush drained the queue,
      blocked with bytes left, or failed. */
  lemma {:induction false} FlushConserves(c: Conn, sent: string, io: seq<IoResult>) returns (end: FlushEnd)
    requires ValidQueue(c.outQueue) && !c.closed
    ensures Moves(c, sent, Flush(c, sent, io).0, Flush(c, sent, io).1)
    ensures EndsAs(end, Flush(c, sent, io).0)
    decreases |io| + |c.outQueue|
  {
    hide Flush, Moves, Advance, Retire;
    if c.outQueue == [] {
      FlushEmpty(c, sent, io);
      end := Drained;
    } else {
      var front := Pending(c.outQueue[0]);
      if front == "" {
        RetireKeeps(c, sent);
        RetireStep(c, sent, io);
        end := FlushConserves(Retire(c), sent, io);
        MovesOn(c, sent, Retire(c), sent, Flush(c, sent, io).0, Flush(c, sent, io).1);
      } else {
        FlushStep(c, sent, io);
        var r := Front(io);
        if r.Moved? && r.n > 0 {
          var m := Min(r.n, |front|);
          AdvanceKeeps(c, sent, m);
          end := FlushConserves(Advance(c, m), sent + front[..m], io[1..]);
          MovesOn(c, sent, Advance(c, m), sent + front[..m], Flush(c, sent, io).0, Flush(c, sent, io).1);
        } else {
          FlagsMove(c, sent);
          end := if r.Again? then Blocked else Lost;
        }
      }
    }
  }

  lemma MovesOn(c: Conn, sent: string, d: Conn, out: string, e: Conn, more: string)
    requires Moves(c, sent, d, out) && Moves(d, out, e, more)
    ensures Moves(c, sent, e, more)
  {
    hide FilesBalanced, PendingAll;
  }

  lemma FlagsMove(c: Conn, sent: string)
    requires ValidQueue(c.outQueue)
    ensures Moves(c, sent, c.(writeRegistered := true), sent) && Moves(c, sent, c.(closed := true), sent)
  {
    hide PendingAll;
  }

  /** A flush touches neither the input buffer nor the pending close. */
  lemma FlushKeepsInput(c: Conn, io: seq<IoResult>)
    requires ValidQueue(c.outQueue) && !c.closed
    ensures var d := Flush(c, "", io).0; d.inBuffer == c.inBuffer && d.closeAfterFlush == c.closeAfterFlush
  {
    hide Flush;
    var end := FlushConserves(c, "", io);
  }

  lemma FlushEmpty(c: Conn, sent: string, io: seq<IoResult>)
    requires c.outQueue == [] && !c.closed
    ensures Moves(c, sent, Flush(c, sent, io).0, Flush(c, sent, io).1) && EndsAs(Drained, Flush(c, sent, io).0)
  {
  }

  lemma RetireKeeps(c: Conn, sent: string)
    requires ValidQueue(c.outQueue) && c.outQueue != [] && Pending(c.outQueue[0]) == ""
    ensures Moves(c, sent, Retire(c), sent) && Retire(c).closed == c.closed && |Retire(c).outQueue| < |c.outQueue|
    ensures ValidQueue(Retire(c).outQueue)
  {
    hide FilesBalanced, Pending, HandlesIn;
    assert "" + PendingAll(c.outQueue[1..]) == PendingAll(c.outQueue[1..]);
    if FilesBalanced(c) { RetireFile(c); }
  }

  /** The front file moves from the queue to the closed ones. */
  lemma RetireFile(c: Conn)
    requires ValidQueue(c.outQueue) && c.outQueue != [] && FilesBalanced(c)
    ensures FilesBalanced(Retire(c))
  {
    hide Pending, PendingAll;
    assert c.outQueue[0] in c.outQueue;
    var rest := HandlesIn(c.outQueue[1..]);
    if c.outQueue[0].File? {
      var h := c.outQueue[0].handle;
      assert HandlesIn(c.outQueue) == [h] + rest;
      hide HandlesIn;
      MoveOne(c.shutFiles, h, rest);
    } else {
      assert HandlesIn(c.outQueue) == rest;
    }
  }

  lemma MoveOne(a: seq<int>, x: int, b: seq<int>)
    ensures multiset(a + [x]) + multiset(b) == multiset(a) + multiset([x] + b)
  {
  }

  lemma AdvanceKeeps(c: Conn, sent: string, m: nat)
    requires ValidQueue(c.outQueue) && c.outQueue != [] && m <= |Pending(c.outQueue[0])|
    ensures var front, d := Pending(c.outQueue[0]), Advance(c, m);
            Moves(c, sent, d, sent + front[..m]) && d.closed == c.closed && |d.outQueue| == |c.outQueue|
  {
    hide FilesBalanced, PendingAll, HandlesIn, Pending;
    AdvanceFront(c, m);
    CutJoin(sent, Pending(c.outQueue[0]), m, PendingAll(c.outQueue[1..]));
    if FilesBalanced(c) { SameFiles(c, Advance(c, m)); }
  }

  /** Only the front segment changes, by the bytes moved. */
  lemma AdvanceFront(c: Conn, m: nat)
    requires ValidQueue(c.outQueue) && c.outQueue != [] && m <= |Pending(c.outQueue[0])|
    ensures var front, d, rest := Pending(c.outQueue[0]), Advance(c, m), PendingAll(c.outQueue[1..]);
            && PendingAll(c.outQueue) == front + rest && PendingAll(d.outQueue) == front[m..] + rest
            && HandlesIn(d.outQueue) == HandlesIn(c.outQueue)
  {
    assert Advance(c, m).outQueue[1..] == c.outQueue[1..];
  }

  lemma CutJoin(sent: string, front: string, m: nat, rest: string)
    requires m <= |front|
    ensures (sent + front[..m]) + (front[m..] + rest) == sent + (front + rest)
  {
    assert front == front[..m] + front[m..];
  }

  lemma SegmentsCarryAnswer(answer: Answer, file: nat)
    ensures PendingAll(OutSegments(answer, file)) == WireOf(answer)
    ensures HandlesIn(OutSegments(answer, file)) == if answer.FilePage? then [file] else []
  {
    hide HeadText, BodyOf;
    var q := OutSegments(answer, file);
    if answer.FilePage? {
      FileBody(answer);
      var f := File(file, answer.content, 0, |answer.content|);
      assert q[1..] == [f] && [f][1..] == [];
      assert Pending(f) == answer.content;
      assert PendingAll(q) == Pending(q[0]) + (Pending(f) + PendingAll([]));
      assert HandlesIn(q) == HandlesIn([f]) == [file] + HandlesIn([]);
    } else {
      assert q[1..] == [];
      assert PendingAll(q) == Pending(q[0]) + PendingAll([]);
    }
  }

  lemma FileBody(answer: Answer)
    requires answer.FilePage?
    ensures BodyOf(answer) == answer.content
  {
  }

  lemma FileQueued(c: Conn, d: Conn)
    requires FilesBalanced(c) && d.fileCount == c.fileCount + 1
    requires d.shutFiles == c.shutFiles && HandlesIn(d.outQueue) == HandlesIn(c.outQueue) + [c.fileCount]
    ensures FilesBalanced(d)
  {
    hide HandlesIn;
    assert Numbers(d.fileCount) == Numbers(c.fileCount) + [c.fileCount];
  }

  lemma FileShutAtOnce(c: Conn, d: Conn)
    requires FilesBalanced(c) && d.fileCount == c.fileCount + 1
    requires d.shutFiles == c.shutFiles + [c.fileCount] && HandlesIn(d.outQueue) == HandlesIn(c.outQueue)
    ensures FilesBalanced(d)
  {
    hide HandlesIn;
    assert Numbers(d.fileCount) == Numbers(c.fileCount) + [c.fileCount];
  }

  /** Queueing an answer opens at most one file, which is then queued or closed at once. */
  lemma EnqueueKeepsFiles<A>(site: Site<A>, reply: Reply, c: Conn)
    requires ValidQueue(c.outQueue) && FilesBalanced(c)
    ensures FilesBalanced(Enqueue(site, reply, c))
  {
    hide OutSegments, HandlesIn, FilesBalanced;
    var answer := AnswerTo(site, reply, c.keepAlive);
    var d := Enqueue(site, reply, c);
    SegmentsCarryAnswer(answer, c.fileCount);
    HandlesAppend(c.outQueue, OutSegments(answer, c.fileCount));
    if answer.FilePage? {
      FileQueued(c, d);
    } else {
      assert HandlesIn(d.outQueue) == HandlesIn(c.outQueue);
      if Unsendable(site, reply) {
        FileShutAtOnce(c, d);
      } else {
        SameFiles(c, d);
      }
    }
  }

  lemma SameFiles(c: Conn, d: Conn)
    requires FilesBalanced(c) && d.fileCount == c.fileCount
    requires d.shutFiles == c.shutFiles && HandlesIn(d.outQueue) == HandlesIn(c.outQueue)
    ensures FilesBalanced(d)
  {
  }

  lemma WireOne(answer: Answer)
    ensures WireAll([answer]) == WireOf(answer)
  {
    hide WireOf;
    assert WireAll([answer]) == WireOf(answer) + WireAll([]);
  }

  lemma EnqueueConserves<A>(site: Site<A>, reply: Reply, c: Conn)
    requires ValidQueue(c.outQueue)
    ensures var d, answer := Enqueue(site, reply, c), AnswerTo(site, reply, c.keepAlive);
            d.outQueue != [] && PendingAll(d.outQueue) == PendingAll(c.outQueue) + WireOf(answer)
  {
    hide WireOf, OutSegments, AnswerTo, PendingAll;
    var answer := AnswerTo(site, reply, c.keepAlive);
    PendingAppend(c.outQueue, OutSegments(answer, c.fileCount));
    SegmentsCarryAnswer(answer, c.fileCount);
    SegmentsExist(answer, c.fileCount);
  }

  lemma OneAnswerConserves<A>(site: Site<A>, a: A, c: Conn, request: Request, n: nat)
    requires ValidQueue(c.outQueue) && n <= |c.inBuffer|
    ensures var t := AnswerOne(site, a, c, request, n);
            && PendingAll(t.conn.outQueue) == PendingAll(c.outQueue) + WireAll(t.answers)
            && t.conn.outQueue != []
            && (FilesBalanced(c) ==> FilesBalanced(t.conn))
  {
    hide WireOf, OutSegments, AnswerTo, FilesBalanced, PendingAll, WireAll, Enqueue;
    var k := request.keepAlive;
    var reply := site.handle(a, request).1;
    var c0 := c.(keepAlive := k, closeAfterFlush := c.closeAfterFlush || !k);
    EnqueueConserves(site, reply, c0);
    WireOne(AnswerTo(site, reply, k));
    FilesIgnoreFlags(c, c0);
    FilesIgnoreFlags(Enqueue(site, reply, c0), AnswerOne(site, a, c, request, n).conn);
    if FilesBalanced(c) {
      EnqueueKeepsFiles(site, reply, c0);
    }
  }

  lemma SegmentsExist(answer: Answer, file: nat)
    ensures OutSegments(answer, file) != []
  {
  }

  lemma ErrorConserves(c: Conn, code: nat)
    requires ValidQueue(c.outQueue)
    ensures var d := AnswerError(c, code);
            && PendingAll(d.outQueue) == PendingAll(c.outQueue) + WireAll([ErrorPage(code)])
            && d.outQueue != [] && d.closeAfterFlush
            && (FilesBalanced(c) ==> FilesBalanced(d))
  {
    hide WireOf, HeadText, OutSegments;
    var q := OutSegments(ErrorPage(code), 0);
    PendingAppend(c.outQueue, q);
    HandlesAppend(c.outQueue, q);
    SegmentsCarryAnswer(ErrorPage(code), 0);
    SegmentsExist(ErrorPage(code), 0);
    assert WireAll([ErrorPage(code)]) == WireOf(ErrorPage(code)) + WireAll([]);
  }

  /** Nothing is left to answer unless the connection is to be closed. */
  predicate Answered(c: Conn) {
    (c.closeAfterFlush ==> c.outQueue != []) && (!c.closeAfterFlush ==> ReadingOf(c.inBuffer).NeedMore?)
  }

  /** The pipelining loop queues exactly the bytes of the answers it gives, and stops only
      when no complete request is left or the connection is to be closed. */
  lemma {:induction false} ProcessConserves<A>(site: Site<A>, a: A, c: Conn, log: seq<Answer>)
    requires ValidQueue(c.outQueue) && (c.closeAfterFlush ==> c.outQueue != [])
    ensures var p := Process(site, a, c, log);
            && log <= p.answers
            && PendingAll(p.conn.outQueue) == PendingAll(c.outQueue) + WireAll(p.answers[|log|..])
            && (FilesBalanced(c) ==> FilesBalanced(p.conn))
            && Answered(p.conn)
    decreases |c.inBuffer|
  {
    hide Process, FilesBalanced, AnswerOne, AnswerError, ReadingOf, PendingAll, WireAll;
    ProcessStep(site, a, c, log);
    match ReadingOf(c.inBuffer)
    case NeedMore(_) =>
      assert log[|log|..] == [];
      EmptyWire();
    case Failed(code) =>
      ErrorConserves(c, code);
      assert (log + [ErrorPage(code)])[|log|..] == [ErrorPage(code)];
    case Complete(request, n) =>
      var t := AnswerOne(site, a, c, request, n);
      OneAnswerConserves(site, a, c, request, n);
      var log1 := log + t.answers;
      assert log1[|log|..] == t.answers;
      if request.keepAlive {
        if |t.conn.outQueue| > MAX_OUT_SEGMENTS {
          var d := t.conn.(closeAfterFlush := true);
          FilesIgnoreFlags(t.conn, d);
        } else {
          ProcessConserves(site, t.app, t.conn, log1);
          var p := Process(site, t.app, t.conn, log1);
          WireAppend(t.answers, p.answers[|log1|..]);
          assert t.answers + p.answers[|log1|..] == p.answers[|log|..];
        }
      }
  }

  lemma FilesIgnoreFlags(c: Conn, d: Conn)
    requires d.outQueue == c.outQueue && d.fileCount == c.fileCount && d.shutFiles == c.shutFiles
    ensures FilesBalanced(d) == FilesBalanced(c)
  {
  }

  // ---------------------------------------------------------------- every run

  /** On a live connection EPOLLOUT is registered iff output is queued, a pending close has
      output to wait for, and without one no complete request is left unanswered. */
  predicate Quiescent(c: Conn) {
    !c.closed ==> (c.writeRegistered <==> c.outQueue != []) && Answered(c)
  }

  /** What holds of a connection and of everything it has sent and answered so far. */
  ghost predicate Sound<A>(o: Outcome<A>) {
    && ValidQueue(o.conn.outQueue)
    && o.sent + PendingAll(o.conn.outQueue) == WireAll(o.answers)
    && FilesBalanced(o.conn)
    && Quiescent(o.conn) && Fits(o.conn)
  }

  lemma {:induction false} ReceiveFits(c: Conn, rs: seq<RecvResult>)
    requires Fits(c)
    ensures Fits(Receive(c, rs))
    decreases |rs|
  {
    if rs != [] && rs[0].Data? && rs[0].bytes != "" {
      var c1 := c.(inBuffer := c.inBuffer + rs[0].bytes);
      if |c1.inBuffer| <= MAX_IN_BUFFER {
        ReceiveFits(c1, rs[1..]);
      }
    }
  }

  lemma {:induction false} ProcessFits<A>(site: Site<A>, a: A, c: Conn, log: seq<Answer>)
    requires ValidQueue(c.outQueue) && Fits(c)
    ensures Fits(Process(site, a, c, log).conn)
    decreases |c.inBuffer|
  {
    hide Process, ReadingOf, AnswerOne;
    ProcessStep(site, a, c, log);
    match ReadingOf(c.inBuffer)
    case NeedMore(_) =>
    case Failed(_) =>
    case Complete(request, n) =>
      var t := AnswerOne(site, a, c, request, n);
      if request.keepAlive && |t.conn.outQueue| <= MAX_OUT_SEGMENTS {
        ProcessFits(site, t.app, t.conn, log + t.answers);
      }
  }

  lemma FlushQuiesces(c: Conn, io: seq<IoResult>)
    requires ValidQueue(c.outQueue) && !c.closed && Answered(c)
    ensures Quiescent(Flush(c, "", io).0)
  {
    hide Flush, ReadingOf;
    var end := FlushConserves(c, "", io);
  }

  lemma MoreSent(a: string, b: string, c: string, wire: string, more: string)
    requires a + b == wire
    ensures a + (b + more) == wire + more && (a + c) + b == a + (c + b)
  {
    assert a + (b + more) == (a + b) + more;
  }

  lemma ReadKeepsSound<A>(site: Site<A>, o: Outcome<A>, rs: seq<RecvResult>, io: seq<IoResult>)
    requires Sound(o) && !o.conn.closed && !Receive(o.conn, rs).closed
    ensures Sound(After(site, o, Readable(rs, io)))
  {
    hide Flush, Process, Receive, FilesBalanced, PendingAll, WireAll, Quiescent, Answered;
    var c, c1 := o.conn, Receive(o.conn, rs);
    ReceiveFits(c, rs);
    FilesIgnoreFlags(c, c1);
    PendsNothing(c);
    ProcessConserves(site, o.app, c1, []);
    ProcessFits(site, o.app, c1, []);
    var turn := Process(site, o.app, c1, []);
    assert turn.answers[0..] == turn.answers;
    FlushQuiesces(turn.conn, io);
    FlushKeepsInput(turn.conn, io);
    var end := FlushConserves(turn.conn, "", io);
    WireAppend(o.answers, turn.answers);
    var (d, sent) := Flush(turn.conn, "", io);
    assert "" + PendingAll(turn.conn.outQueue) == PendingAll(turn.conn.outQueue);
    MoreSent(o.sent, PendingAll(c.outQueue), sent, WireAll(o.answers), WireAll(turn.answers));
    assert (o.sent + sent) + PendingAll(d.outQueue) == o.sent + (sent + PendingAll(d.outQueue));
  }

  /** A pending close on a live connection has output to wait for. */
  lemma PendsNothing(c: Conn)
    requires Quiescent(c) && !c.closed
    ensures c.closeAfterFlush ==> c.outQueue != []
  {
  }

  lemma WriteKeepsSound<A>(site: Site<A>, o: Outcome<A>, io: seq<IoResult>)
    requires Sound(o) && !o.conn.closed
    ensures Sound(After(site, o, Writable(io)))
  {
    hide Flush, FilesBalanced, PendingAll, WireAll, ReadingOf;
    FlushQuiesces(o.conn, io);
    FlushKeepsInput(o.conn, io);
    var end := FlushConserves(o.conn, "", io);
    var (d, sent) := Flush(o.conn, "", io);
    assert o.answers + [] == o.answers && "" + PendingAll(o.conn.outQueue) == PendingAll(o.conn.outQueue);
    assert (o.sent + sent) + PendingAll(d.outQueue) == o.sent + (sent + PendingAll(d.outQueue));
  }

  /** One event, of any kind and with any behaviour of the socket, keeps the connection sound. */
  lemma EventKeepsSound<A>(site: Site<A>, o: Outcome<A>, event: Event)
    requires Sound(o)
    ensures Sound(After(site, o, event))
  {
    hide Flush, Process, Receive, FilesBalanced, PendingAll, WireAll, ReadingOf;
    if event.Writable? && !o.conn.closed {
      WriteKeepsSound(site, o, event.io);
    } else if event.Readable? && !o.conn.closed && !Receive(o.conn, event.rs).closed {
      ReadKeepsSound(site, o, event.rs, event.io);
    } else {
      assert o.answers + [] == o.answers && o.sent + "" == o.sent;
      FilesIgnoreFlags(o.conn, After(site, o, event).conn);
    }
  }

  lemma EmptyWire()
    ensures WireAll([]) == ""
  {
  }

  lemma {:induction false} EventsKeepSound<A>(site: Site<A>, o: Outcome<A>, events: seq<Event>)
    requires Sound(o)
    ensures Sound(HandleAll(site, o, events))
    decreases |events|
  {
    hide Sound, After;
    if events != [] {
      assert ValidQueue(o.conn.outQueue) by { SoundIsValid(o); }
      EventKeepsSound(site, o, events[0]);
      EventsKeepSound(site, After(site, o, events[0]), events[1..]);
    }
  }

  lemma SoundIsValid<A>(o: Outcome<A>)
    requires Sound(o)
    ensures ValidQueue(o.conn.outQueue)
  {
  }

  /** Over the whole life of a connection, whatever arrives and however writes behave, the
      invariant holds; so the bytes sent are always a prefix of the answers' wire form. */
  lemma LifeIsSound<A>(site: Site<A>, a: A, events: seq<Event>)
    ensures Sound(Life(site, a, events))
    ensures Life(site, a, events).sent <= WireAll(Life(site, a, events).answers)
  {
    var o := Outcome(a, FRESH, "", []);
    assert Sound(o) by {
      assert multiset(Numbers(0)) == multiset{};
      assert ReadingOf("").NeedMore?;
    }
    EventsKeepSound(site, o, events);
  }

  // ---------------------------------------------------------------- what follows for a client

  lemma AnswerIsClean<A>(site: Site<A>, reply: Reply, keepAlive: bool)
    requires CleanSite(site)
    ensures CleanAnswer(AnswerTo(site, reply, keepAlive))
  {
  }

  /** Every page of a site with clean file types is clean, so its whole output decodes. */
  lemma {:induction false} AnswersAreClean<A>(site: Site<A>, a: A, c: Conn, log: seq<Answer>)
    requires ValidQueue(c.outQueue) && CleanSite(site) && forall x :: x in log ==> CleanAnswer(x)
    ensures forall x :: x in Process(site, a, c, log).answers ==> CleanAnswer(x)
    decreases |c.inBuffer|
  {
    hide Process, ReadingOf, AnswerError, Enqueue, CleanSite, AnswerTo;
    ProcessStep(site, a, c, log);
    match ReadingOf(c.inBuffer)
    case NeedMore(_) =>
    case Failed(code) =>
    case Complete(request, n) =>
      var t := AnswerOne(site, a, c, request, n);
      var log1 := log + t.answers;
      AnswerIsClean(site, site.handle(a, request).1, request.keepAlive);
      assert forall x :: x in log1 ==> x in log || x == t.answers[0];
      if request.keepAlive && |t.conn.outQueue| <= MAX_OUT_SEGMENTS {
        AnswersAreClean(site, t.app, t.conn, log1);
      }
  }

  lemma {:induction false} LifeIsClean<A>(site: Site<A>, o: Outcome<A>, events: seq<Event>)
    requires ValidQueue(o.conn.outQueue) && CleanSite(site) && forall x :: x in o.answers ==> CleanAnswer(x)
    ensures forall x :: x in HandleAll(site, o, events).answers ==> CleanAnswer(x)
    decreases |events|
  {
    hide Process, Flush, CleanSite, CleanAnswer, Receive;
    if events != [] {
      var step := Handle(site, o.app, o.conn, events[0]);
      if events[0].Readable? {
        AnswersAreClean(site, o.app, Receive(o.conn, events[0].rs), []);
      }
      assert forall x :: x in step.answers ==> CleanAnswer(x);
      var next := After(site, o, events[0]);
      assert forall x :: x in next.answers ==> x in o.answers || x in step.answers;
      LifeIsClean(site, next, events[1..]);
    }
  }

  /** Sections 3.3.3 and 6.3.2 of RFC 7230: what a connection has sent is the beginning of a
      stream that splits into exactly one response per answer, in order; when nothing is left
      in its queue, it has sent that whole stream. */
  lemma OutputIsFramed<A>(site: Site<A>, a: A, events: seq<Event>)
    requires CleanSite(site)
    ensures var o := Life(site, a, events);
            && Decode(WireAll(o.answers)) == Some(MessagesOf(o.answers))
            && o.sent <= WireAll(o.answers)
            && (o.conn.outQueue == [] ==> Decode(o.sent) == Some(MessagesOf(o.answers)))
  {
    hide WireAll, MessagesOf, Decode, HandleAll, CleanAnswer, CleanSite;
    LifeIsSound(site, a, events);
    var o := Life(site, a, events);
    var none: seq<Answer> := [];
    assert forall x :: x in none ==> CleanAnswer(x);
    LifeIsClean(site, Outcome(a, FRESH, "", none), events);
    StreamDecodes(o.answers);
    if o.conn.outQueue == [] {
      assert o.sent + PendingAll(o.conn.outQueue) == o.sent;
    }
  }

  lemma {:induction false} NothingOpenAfterShutAll(q: seq<Segment>)
    ensures HandlesIn(ShutAll(q)) == []
  {
    if q != [] {
      NothingOpenAfterShutAll(q[1..]);
      assert ShutAll(q)[1..] == ShutAll(q[1..]);
    }
  }

  lemma {:induction false} NumbersAreDistinct(n: nat, x: int)
    ensures multiset(Numbers(n))[x] == if 0 <= x < n then 1 else 0
  {
    if n > 0 {
      NumbersAreDistinct(n - 1, x);
    }
  }

  /** When the object of a connection is destroyed, at whatever moment of its life, every file
      it ever opened has been closed exactly once. */
  lemma EveryFileClosedOnce<A>(site: Site<A>, a: A, events: seq<Event>, x: int)
    ensures var c := Life(site, a, events).conn;
            multiset(c.shutFiles + HandlesIn(c.outQueue))[x] == if 0 <= x < c.fileCount then 1 else 0
  {
    hide HandleAll, HandlesIn;
    LifeIsSound(site, a, events);
    var c := Life(site, a, events).conn;
    NumbersAreDistinct(c.fileCount, x);
  }

  // ---------------------------------------------------------------- after a close

  /** A closed connection receives, answers and sends nothing, whatever happens. */
  lemma {:induction false} ClosedIsSilent<A>(site: Site<A>, o: Outcome<A>, events: seq<Event>)
    requires o.conn.closed && ValidQueue(o.conn.outQueue)
    ensures HandleAll(site, o, events) == o
    decreases |events|
  {
    if events != [] {
      assert o.sent + "" == o.sent && o.answers + [] == o.answers;
      assert After(site, o, events[0]) == o;
      ClosedIsSilent(site, o, events[1..]);
    }
  }

  /** Reading answers something exactly when what is then in the buffer is a request or an error. */
  lemma ReadAnswersIff<A>(site: Site<A>, a: A, c: Conn, rs: seq<RecvResult>, io: seq<IoResult>)
    requires ValidQueue(c.outQueue) && !c.closed
    ensures var c1 := Receive(c, rs);
            OnRead(site, a, c, rs, io).answers != [] <==> !c1.closed && !ReadingOf(c1.inBuffer).NeedMore?
  {
    hide Flush, Receive, ReadingOf, AnswerOne, AnswerError, Process;
    var c1 := Receive(c, rs);
    if !c1.closed {
      var none: seq<Answer> := [];
      ProcessStep(site, a, c1, none);
      match ReadingOf(c1.inBuffer)
      case NeedMore(_) =>
      case Failed(_) =>
      case Complete(request, n) =>
        var t := AnswerOne(site, a, c1, request, n);
        var log := none + t.answers;
        if request.keepAlive && |t.conn.outQueue| <= MAX_OUT_SEGMENTS {
          AnswersGrow(site, t.app, t.conn, log);
        }
    }
  }

  lemma {:induction false} AnswersGrow<A>(site: Site<A>, a: A, c: Conn, log: seq<Answer>)
    requires ValidQueue(c.outQueue)
    ensures log <= Process(site, a, c, log).answers
    decreases |c.inBuffer|
  {
    hide Process, ReadingOf, AnswerOne, AnswerError;
    ProcessStep(site, a, c, log);
    match ReadingOf(c.inBuffer)
    case NeedMore(_) =>
    case Failed(_) =>
    case Complete(request, n) =>
      var t := AnswerOne(site, a, c, request, n);
      if request.keepAlive && |t.conn.outQueue| <= MAX_OUT_SEGMENTS {
        AnswersGrow(site, t.app, t.conn, log + t.answers);
      }
  }

  /** When the flush drains the queue of a connection to be closed, it is closed. */
  lemma DrainedIsClosed<A>(site: Site<A>, a: A, c: Conn, rs: seq<RecvResult>, io: seq<IoResult>)
    requires ValidQueue(c.outQueue) && !c.closed
    ensures var d := OnRead(site, a, c, rs, io).conn;
            d.outQueue == [] && d.closeAfterFlush ==> d.closed
  {
    hide Flush, Process, Receive;
    var c1 := Receive(c, rs);
    if !c1.closed {
      var end := FlushConserves(Process(site, a, c1, []).conn, "", io);
    }
  }
}
