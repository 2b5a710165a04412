/** What a client finds on the wire for what a handler replied: the bytes are read back as a
    message and compared with the reply, the file, and the request, not with what was printed. */
module Replies {
  import opened Text
  import opened HeaderBlock
  import opened HttpRequest
  import opened RequestTheorems
  import opened RequestVerdicts
  import opened HttpResponse
  import opened Connection
  import opened ConnectionTheorems
  import opened Delivery

  /** A whole message that announces the length of its body and what becomes of the connection. */
  ghost predicate Announces(m: Message, keepAlive: bool) {
    && Lookup(m.fields, "Content-Length") == Decimal(|m.body|)
    && Lookup(m.fields, "Connection") == (if keepAlive then "keep-alive" else "close")
    && ("Keep-Alive" in m.fields <==> keepAlive)
  }

  const PLAIN_TEXT := "text/plain; charset=utf-8"

  /** The message shows the reply: the page as it is, the contents of the file with its type, or
      404 for what has no route or no file. */
  ghost predicate Shows<A>(site: Site<A>, reply: Reply, keepAlive: bool, m: Message) {
    match reply
    case Page(code, body) =>
      && m.statusLine == "HTTP/1.1 " + Decimal(code) + " " + Reason(code) && m.body == body
      && Lookup(m.fields, "Content-Type") == PLAIN_TEXT && Announces(m, keepAlive)
    case Unrouted => m.statusLine == "HTTP/1.1 404 Not Found" && Announces(m, keepAlive)
    case StaticFile(path) =>
      match site.open(path)
      case Regular(content) =>
        && m.statusLine == "HTTP/1.1 200 OK" && m.body == content
        && Lookup(m.fields, "Content-Type") == site.mime(path) && Announces(m, keepAlive)
      case _ => m.statusLine == "HTTP/1.1 404 Not Found" && Lookup(m.fields, "Content-Length") == Decimal(|m.body|)
  }

  ghost predicate ShowsError(code: nat, m: Message) {
    && m.statusLine == "HTTP/1.1 " + Decimal(code) + " " + Reason(code)
    && m.body == "HTTP parse error (" + Decimal(code) + ")"
    && Lookup(m.fields, "Content-Type") == PLAIN_TEXT && Announces(m, false)
  }

  /** The bytes are one message, and what it is. */
  ghost predicate IsOne(bytes: string, m: Message) { DecodeOne(bytes) == Some((m, "")) }

  ghost predicate CleanType<A>(site: Site<A>, reply: Reply) {
    reply.StaticFile? ==> '\r' !in site.mime(reply.path) && Trimmed(site.mime(reply.path))
  }

  lemma SmallDecimals()
    ensures Decimal(200) == "200" && Decimal(404) == "404"
  {
    assert Decimal(2) == "2" && Decimal(20) == "20" && Decimal(4) == "4" && Decimal(40) == "40";
  }

  lemma AnswerShows<A>(site: Site<A>, reply: Reply, keepAlive: bool)
    ensures Shows(site, reply, keepAlive, MessageOf(AnswerTo(site, reply, keepAlive)))
  {
    hide Decimal;
    SmallDecimals();
    assert "HTTP/1.1 " + "404" + " " + "Not Found" == "HTTP/1.1 404 Not Found";
    assert "HTTP/1.1 " + "200" + " " + "OK" == "HTTP/1.1 200 OK";
  }

  lemma ErrorShows(code: nat)
    ensures ShowsError(code, MessageOf(ErrorPage(code)))
  {
    hide Decimal;
  }

  lemma WireIsOne(answer: Answer)
    requires CleanAnswer(answer)
    ensures IsOne(WireOf(answer), MessageOf(answer))
  {
    hide WireOf, MessageOf, DecodeOne;
    AnswerDecodes(answer, "");
    assert WireOf(answer) + "" == WireOf(answer);
  }

  // ---------------------------------------------------------------- one answer

  /** The bytes that answering one request appends to the output, for any state before. */
  lemma ReplyIsQueued<A>(site: Site<A>, a: A, c: Conn, request: Request, n: nat) returns (bytes: string, m: Message)
    requires ValidQueue(c.outQueue) && n <= |c.inBuffer| && CleanType(site, site.handle(a, request).1)
    ensures var turn := AnswerOne(site, a, c, request, n);
            && PendingAll(turn.conn.outQueue) == PendingAll(c.outQueue) + bytes
            && turn.app == site.handle(a, request).0
            && IsOne(bytes, m) && Shows(site, site.handle(a, request).1, request.keepAlive, m)
  {
    hide PendingAll, WireOf, MessageOf, AnswerTo, Shows, IsOne;
    var turn := AnswerOne(site, a, c, request, n);
    var reply := site.handle(a, request).1;
    var answer := AnswerTo(site, reply, request.keepAlive);
    OneAnswerConserves(site, a, c, request, n);
    assert turn.answers == [answer];
    WireOne(answer);
    TypeIsClean(site, reply, request.keepAlive);
    WireIsOne(answer);
    AnswerShows(site, reply, request.keepAlive);
    bytes, m := WireOf(answer), MessageOf(answer);
  }

  lemma TypeIsClean<A>(site: Site<A>, reply: Reply, keepAlive: bool)
    requires CleanType(site, reply)
    ensures CleanAnswer(AnswerTo(site, reply, keepAlive))
  {
  }

  // ---------------------------------------------------------------- one request, one response

  /** The bytes `text` in one event that sends everything, on a new connection. */
  ghost predicate Arrives<A>(site: Site<A>, a: A, text: string, event: Event) {
    && event.Readable? && NoEof(event.rs) && Arrived(event.rs) == text && |text| <= MAX_IN_BUFFER
    && Life(site, a, [event]).conn.outQueue == []
  }

  /** What the event does, once the bytes are in. */
  lemma AfterArrival<A>(site: Site<A>, a: A, text: string, event: Event)
    requires Arrives(site, a, text, event)
    ensures var none: seq<Answer> := [];
            var turn, o := Process(site, a, FRESH.(inBuffer := text), none), Life(site, a, [event]);
            && o.answers == turn.answers && o.app == turn.app && o.sent == WireAll(turn.answers)
            && o.conn.closed == turn.conn.closeAfterFlush
  {
    hide Flush, Process, Receive, NoEof, Arrived, PendingAll, WireAll, FilesBalanced, Quiescent;
    var start := Outcome(a, FRESH, "", []);
    assert [event][1..] == [];
    assert Life(site, a, [event]) == HandleAll(site, After(site, start, event), []) == After(site, start, event);
    ReceiveAll(FRESH, event.rs);
    assert "" + text == text;
    var c1 := FRESH.(inBuffer := text);
    assert Receive(FRESH, event.rs) == c1;
    var none: seq<Answer> := [];
    var turn := Process(site, a, c1, none);
    FlushKeepsInput(turn.conn, event.io);
    var end := FlushConserves(turn.conn, "", event.io);
    LifeIsSound(site, a, [event]);
    var sent := Life(site, a, [event]).sent;
    assert sent + PendingAll([]) == sent by { NothingPending(sent); }
    assert none + turn.answers == turn.answers;
  }

  lemma NothingPending(sent: string)
    ensures sent + PendingAll([]) == sent
  {
  }

  /** From printed request to response: the handler gets what was printed; the one response on
      the wire shows its reply; and the connection is closed afterwards iff the request does not
      ask for it to be kept. */
  lemma OneRequestOneResponse<A>(site: Site<A>, a: A, d: Draft, event: Event) returns (request: Request, m: Message)
    requires WellFormed(d) && Arrives(site, a, Render(d), event)
    requires var r := ReadingOf(Render(d)); r.Complete? ==> CleanType(site, site.handle(a, r.request).1)
    ensures ReadingOf(Render(d)) == Complete(request, |Render(d)|)
    ensures var o := Life(site, a, [event]);
            && o.app == site.handle(a, request).0
            && IsOne(o.sent, m) && Shows(site, site.handle(a, request).1, Persists(d), m)
            && (o.conn.closed <==> !Persists(d))
  {
    hide ReadingOf, Render, WellFormed, Process, AnswerOne, Shows, IsOne, Life, WireAll, PendingAll, Persists;
    var text := Render(d);
    RequestIsRead(d, "");
    assert text + "" == text;
    AfterArrival(site, a, text, event);
    request := ReadingOf(text).request;
    var c1 := FRESH.(inBuffer := text);
    var none: seq<Answer> := [];
    ProcessStep(site, a, c1, none);
    var t := AnswerOne(site, a, c1, request, |text|);
    var bytes;
    bytes, m := ReplyIsQueued(site, a, c1, request, |text|);
    OneAnswerConserves(site, a, c1, request, |text|);
    FewSegments(site, a, c1, request, |text|);
    EmptyEnds(t.conn.inBuffer, text);
    ProcessStep(site, t.app, t.conn, none + t.answers);
    assert none + t.answers == t.answers;
    assert WireAll(t.answers) == bytes by { NothingBefore(WireAll(t.answers)); NothingBefore(bytes); }
  }

  lemma NothingBefore(bytes: string)
    ensures PendingAll([]) + bytes == bytes
  {
  }

  lemma FewSegments<A>(site: Site<A>, a: A, c: Conn, request: Request, n: nat)
    requires c.outQueue == [] && n <= |c.inBuffer|
    ensures |AnswerOne(site, a, c, request, n).conn.outQueue| <= 2
  {
    hide HeadText, WireOf;
  }

  lemma EmptyEnds(rest: string, text: string)
    requires rest == text[|text|..]
    ensures ReadingOf(rest) == NeedMore(0)
  {
  }

  /** A protocol error is answered with its code, and the connection is closed. */
  lemma OneErrorOneResponse<A>(site: Site<A>, a: A, text: string, event: Event) returns (m: Message)
    requires ReadingOf(text).Failed? && Arrives(site, a, text, event)
    ensures var o := Life(site, a, [event]);
            o.conn.closed && o.app == a && IsOne(o.sent, m) && ShowsError(ReadingOf(text).code, m)
  {
    hide ReadingOf, Process, IsOne, ShowsError, Life, WireAll, MessageOf;
    AfterArrival(site, a, text, event);
    var c1 := FRESH.(inBuffer := text);
    var none: seq<Answer> := [];
    ProcessStep(site, a, c1, none);
    var answer := ErrorPage(ReadingOf(text).code);
    assert none + [answer] == [answer];
    WireOne(answer);
    WireIsOne(answer);
    ErrorShows(ReadingOf(text).code);
    m := MessageOf(answer);
  }
}
