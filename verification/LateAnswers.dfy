/** A request that asks for the connection to be closed is not always the last one answered:
    while its response waits for the socket, further requests are still read and answered,
    against section 6.6 of RFC 7230. And exactly when it is the last one. */
module LateAnswers {
  import opened Text
  import opened HeaderBlock
  import opened HttpRequest
  import opened RequestTheorems
  import opened Connection
  import opened ConnectionTheorems
  import opened Delivery
  import Chunking

  const LAST_REQUEST: Draft := Draft("GET", "/", [], "HTTP/1.0", [], "")

  lemma LastRequestCloses()
    ensures WellFormed(LAST_REQUEST) && !Meaning(LAST_REQUEST).keepAlive && 0 < |Render(LAST_REQUEST)| <= 100
  {
    assert Decimal(0) == "0";
  }

  /** Reading one closing request on a live connection answers it and leaves the buffer empty. */
  lemma AnswersOne<A>(site: Site<A>, a: A, c: Conn)
    requires ValidQueue(c.outQueue) && !c.closed && c.inBuffer == ""
    ensures var o := OnRead(site, a, c, [Data(Render(LAST_REQUEST))], []);
            |o.answers| == 1 && !o.conn.closed && o.conn.inBuffer == "" && o.conn.closeAfterFlush
  {
    hide Flush, AnswerOne, ReadingOf, Render, Meaning, WellFormed, Process;
    var text := Render(LAST_REQUEST);
    LastRequestCloses();
    RoundTrip(LAST_REQUEST, "");
    assert text + "" == text && "" + text == text;
    var rs := [Data(text)];
    assert rs[1..] == [];
    var c1 := c.(inBuffer := text);
    assert Receive(c, rs) == c1;
    var none: seq<Answer> := [];
    ProcessStep(site, a, c1, none);
    var t := AnswerOne(site, a, c1, Meaning(LAST_REQUEST), |text|);
    assert Process(site, a, c1, none) == Turn(t.app, t.conn, none + t.answers);
    OneAnswerConserves(site, a, c1, Meaning(LAST_REQUEST), |text|);
    BlocksWithOutput(t.conn);
  }

  /** A flush whose first write would block leaves the connection open. */
  lemma {:induction false} BlocksWithOutput(c: Conn)
    requires ValidQueue(c.outQueue) && !c.closed && PendingAll(c.outQueue) != ""
    ensures !Flush(c, "", []).0.closed && Flush(c, "", []).0.inBuffer == c.inBuffer
    ensures Flush(c, "", []).0.closeAfterFlush == c.closeAfterFlush
    decreases |c.outQueue|
  {
    if Pending(c.outQueue[0]) == "" {
      RetireKeeps(c, "");
      BlocksWithOutput(Retire(c));
    }
  }

  /** Two closing requests in two read events, the socket not taking any output: both are
      answered. */
  lemma AnsweredAfterClose<A>(site: Site<A>, a: A)
    ensures var event := Readable([Data(Render(LAST_REQUEST))], []);
            |Life(site, a, [event, event]).answers| == 2
  {
    hide OnRead, Render;
    var event := Readable([Data(Render(LAST_REQUEST))], []);
    var o1 := After(site, Outcome(a, FRESH, "", []), event);
    var o2 := After(site, o1, event);
    AnswersOne(site, a, FRESH);
    AnswersOne(site, o1.app, o1.conn);
    assert [event, event][1..] == [event] && [event][1..] == [];
    assert HandleAll(site, o1, [event]) == HandleAll(site, o2, []);
  }

  // ---------------------------------------------------------------- when nothing is answered any more

  /** Whatever happens to the connection from now on, it answers nothing. */
  ghost predicate Mute<A>(site: Site<A>, o: Outcome<A>)
    requires ValidQueue(o.conn.outQueue)
  {
    forall events :: Deliverable(events) ==> HandleAll(site, o, events).answers == o.answers
  }

  /** The buffer waits for a body that does not fit it: it can overflow, but not be completed. */
  predicate NeverWhole(s: string) { ReadingOf(s).NeedMore? && ReadingOf(s).awaiting > MAX_IN_BUFFER }

  function Filler(n: int): string { if n <= 0 then "" else seq(n, _ => 'x') }

  /** What completes a buffer whose blank line is there. */
  function BodyFiller(s: string): string {
    match ReadingOf(s)
    case NeedMore(n) => Filler(n - |s|)
    case _ => ""
  }

  /** Bytes that make a request or an error of what is in the buffer. */
  function Completion(s: string): string {
    if HasBlankLine(s) || !ReadingOf(s).NeedMore? then BodyFiller(s) else BLANK_LINE + BodyFiller(s + BLANK_LINE)
  }

  lemma AwaitingMeansBlankLine(s: string)
    requires ReadingOf(s).NeedMore?
    ensures if HasBlankLine(s) then |s| < ReadingOf(s).awaiting <= HeaderEnd(s) + 4 + MAX_BODY
            else ReadingOf(s).awaiting == 0 && |s| <= MAX_HEADER_TOTAL
  {
    if HasBlankLine(s) {
      Chunking.HeadLengthBound(s);
    }
  }

  /** Filling up to what a settled head announces completes the request. */
  lemma FillerCompletes(s: string)
    requires HasBlankLine(s) && ReadingOf(s).NeedMore?
    ensures var t := s + Filler(ReadingOf(s).awaiting - |s|);
            ReadingOf(t).Complete? && |t| == ReadingOf(s).awaiting
  {
    AwaitingMeansBlankLine(s);
    HeadSettled(s, Filler(ReadingOf(s).awaiting - |s|));
  }

  lemma BodyFillerWorks(s: string)
    requires HasBlankLine(s) || !ReadingOf(s).NeedMore?
    ensures var t := s + BodyFiller(s);
            && !ReadingOf(t).NeedMore?
            && |t| == if ReadingOf(s).NeedMore? then ReadingOf(s).awaiting else |s|
  {
    hide ReadingOf, HasBlankLine, Filler;
    if ReadingOf(s).NeedMore? {
      FillerCompletes(s);
    } else {
      assert s + "" == s;
    }
  }

  lemma CompletionWorks(s: string)
    requires |s| <= MAX_IN_BUFFER && !NeverWhole(s)
    ensures |s + Completion(s)| <= MAX_IN_BUFFER && !ReadingOf(s + Completion(s)).NeedMore?
  {
    hide ReadingOf, HasBlankLine, BodyFiller;
    if HasBlankLine(s) || !ReadingOf(s).NeedMore? {
      BodyFillerWorks(s);
    } else {
      var t := s + BLANK_LINE;
      AwaitingMeansBlankLine(s);
      AppendedBlankLineIsFound(s);
      EndsInside(t);
      if ReadingOf(t).NeedMore? { AwaitingMeansBlankLine(t); }
      BodyFillerWorks(t);
      JoinsLater(s, BLANK_LINE, BodyFiller(t));
    }
  }

  lemma JoinsLater(a: string, b: string, c: string)
    ensures a + (b + c) == (a + b) + c
  {
  }

  lemma EndsInside(s: string)
    requires HasBlankLine(s)
    ensures HeaderEnd(s) + 4 <= |s|
  {
  }

  /** One event that gets an answer. */
  lemma SomeEventAnswers<A>(site: Site<A>, o: Outcome<A>)
    requires ValidQueue(o.conn.outQueue) && Fits(o.conn) && !o.conn.closed && !NeverWhole(o.conn.inBuffer)
    ensures !Mute(site, o)
  {
    hide OnRead, Completion, NeverWhole, Receive, ReadingOf, Pieces, NoEof, Arrived, Receivable;
    var more := Completion(o.conn.inBuffer);
    CompletionWorks(o.conn.inBuffer);
    PiecesArrive(more);
    ReceiveAll(o.conn, Pieces(more));
    var event := Readable(Pieces(more), []);
    ReadAnswersIff(site, o.app, o.conn, event.rs, event.io);
    var events := [event];
    assert events[1..] == [];
    assert HandleAll(site, o, events) == HandleAll(site, After(site, o, event), []) == After(site, o, event);
    assert Deliverable(events);
  }

  lemma {:induction false} ReceiveExtends(c: Conn, rs: seq<RecvResult>)
    ensures c.inBuffer <= Receive(c, rs).inBuffer
    decreases |rs|
  {
    if rs != [] && rs[0].Data? && rs[0].bytes != "" {
      ReceiveExtends(c.(inBuffer := c.inBuffer + rs[0].bytes), rs[1..]);
    }
  }

  lemma NeverWholeGrows(s: string, t: string)
    requires NeverWhole(s) && s <= t && |t| <= MAX_IN_BUFFER
    ensures NeverWhole(t)
  {
    hide ReadingOf, HasBlankLine;
    AwaitingMeansBlankLine(s);
    HeadSettled(s, t[|s|..]);
    assert s + t[|s|..] == t;
  }

  /** One event on a buffer that cannot be completed. */
  lemma NeverWholeStays<A>(site: Site<A>, o: Outcome<A>, event: Event)
    requires ValidQueue(o.conn.outQueue) && Fits(o.conn) && !o.conn.closed && NeverWhole(o.conn.inBuffer)
    ensures var n := After(site, o, event);
            n.answers == o.answers && Fits(n.conn) && (n.conn.closed || NeverWhole(n.conn.inBuffer))
  {
    hide Flush, Receive, ReadingOf, Process, NeverWhole;
    assert o.answers + [] == o.answers;
    match event
    case HangUp =>
    case Writable(io) => FlushKeepsInput(o.conn, io);
    case Readable(rs, io) =>
      var c1 := Receive(o.conn, rs);
      ReceiveFits(o.conn, rs);
      if !c1.closed {
        ReceiveExtends(o.conn, rs);
        NeverWholeGrows(o.conn.inBuffer, c1.inBuffer);
        var none: seq<Answer> := [];
        ProcessStep(site, o.app, c1, none);
        assert ReadingOf(c1.inBuffer).NeedMore? by { WaitsForMore(c1.inBuffer); }
        FlushKeepsInput(c1, io);
      }
  }

  lemma WaitsForMore(s: string)
    requires NeverWhole(s)
    ensures ReadingOf(s).NeedMore?
  {
  }

  lemma {:induction false} NeverWholeIsMute<A>(site: Site<A>, o: Outcome<A>, events: seq<Event>)
    requires ValidQueue(o.conn.outQueue) && Fits(o.conn) && !o.conn.closed && NeverWhole(o.conn.inBuffer)
    ensures HandleAll(site, o, events).answers == o.answers
    decreases |events|
  {
    hide After, NeverWhole;
    if events != [] {
      NeverWholeStays(site, o, events[0]);
      var n := After(site, o, events[0]);
      if n.conn.closed {
        ClosedIsSilent(site, n, events[1..]);
      } else {
        NeverWholeIsMute(site, n, events[1..]);
      }
    }
  }

  /** Over all runs: a connection answers nothing any more exactly when it is closed, or waits
      for a body that its buffer cannot hold. */
  lemma MuteIffClosed<A>(site: Site<A>, o: Outcome<A>)
    requires ValidQueue(o.conn.outQueue) && Fits(o.conn)
    ensures Mute(site, o) <==> o.conn.closed || NeverWhole(o.conn.inBuffer)
  {
    hide HandleAll, NeverWhole, Deliverable;
    if o.conn.closed {
      forall events ensures HandleAll(site, o, events).answers == o.answers {
        ClosedIsSilent(site, o, events);
      }
    } else if NeverWhole(o.conn.inBuffer) {
      forall events ensures HandleAll(site, o, events).answers == o.answers {
        NeverWholeIsMute(site, o, events);
      }
    } else {
      SomeEventAnswers(site, o);
    }
  }

  /** When the last event of a life has left the connection to be closed, nothing is answered
      after it exactly when its flush did not block: it drained the queue or failed. The
      exception is a buffer that cannot be completed any more. */
  lemma ClosingAnswerIsLastIff<A>(site: Site<A>, a: A, events: seq<Event>)
    requires Life(site, a, events).conn.closeAfterFlush
    ensures var o := Life(site, a, events);
            ValidQueue(o.conn.outQueue) &&
            (Mute(site, o) <==> !EndsAs(Blocked, o.conn) || NeverWhole(o.conn.inBuffer))
  {
    hide Life, Mute, NeverWhole, PendingAll, WireAll, FilesBalanced;
    LifeIsSound(site, a, events);
    MuteIffClosed(site, Life(site, a, events));
  }
}
