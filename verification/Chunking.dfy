/** How the bytes of a client are cut into read events does not matter: exactly when.

    `Ideal` answers a byte stream with no events at all. A run of the connection over any cut
    of the stream gives the ideal result if, and only if, the stream fits the input buffer and
    is `Harmless`: no header block that only slips past its limit because it arrived at once,
    and no burst of answers that trips the limit on queued segments. */
module Chunking {
  import opened Text
  import opened HttpRequest
  import opened HeaderBlock
  import opened RequestTheorems
  import opened Connection
  import opened ConnectionTheorems
  import opened Delivery
  import opened Progress

  /** What a client can tell: the answers, the application state, whether the connection is
      still open, and the bytes it then still holds unanswered. */
  datatype Result<A> = Result(answers: seq<Answer>, app: A, live: bool, rest: string)

  function Then<A>(before: seq<Answer>, r: Result<A>): Result<A> { r.(answers := before + r.answers) }

  function Live<A>(a: A, rest: string): Result<A> { Result([], a, true, rest) }

  function LastWords<A>(a: A, answer: Answer): Result<A> { Result([answer], a, false, "") }

  /** The header block, up to the last byte before its end is known, is over the limit. */
  predicate HeaderTooLong(s: string) {
    if HasBlankLine(s) then HeaderEnd(s) + 3 > MAX_HEADER_TOTAL else |s| > MAX_HEADER_TOTAL
  }

  /** The stream answered as a whole, the header limit applied to every request alike. */
  function Ideal<A>(site: Site<A>, a: A, s: string): Result<A>
    decreases |s|
  {
    if HeaderTooLong(s) then LastWords(a, ErrorPage(431))
    else match ReadingOf(s)
      case NeedMore(_) => Live(a, s)
      case Failed(code) => LastWords(a, ErrorPage(code))
      case Complete(request, n) =>
        var (a1, reply) := site.handle(a, request);
        var answer := AnswerTo(site, reply, request.keepAlive);
        if request.keepAlive then Then([answer], Ideal(site, a1, s[n..])) else LastWords(a1, answer)
  }

  function SegmentCount(answer: Answer): nat { if answer.FilePage? then 2 else 1 }

  /** Answering all of `s` in one event, with `queued` segments waiting, meets neither an
      overlong header block whose request line is acceptable nor the segment limit. */
  predicate Harmless<A>(site: Site<A>, a: A, s: string, queued: nat)
    decreases |s|
  {
    if !HasBlankLine(s) then true
    else if HeaderTooLong(s) then Find(s, CRLF, 0) > MAX_REQUEST_LINE
    else match ReadingOf(s)
      case Complete(request, n) =>
        var (a1, reply) := site.handle(a, request);
        var total := queued + SegmentCount(AnswerTo(site, reply, request.keepAlive));
        request.keepAlive ==> total <= MAX_OUT_SEGMENTS && Harmless(site, a1, s[n..], total)
      case _ => true
  }

  // ---------------------------------------------------------------- the ideal result

  lemma {:induction false} ClosedHasAnswered<A>(site: Site<A>, a: A, s: string)
    ensures !Ideal(site, a, s).live ==> Ideal(site, a, s).answers != []
    decreases |s|
  {
    hide ReadingOf, HeaderTooLong, AnswerTo;
    match ReadingOf(s)
    case Complete(request, n) => ClosedHasAnswered(site, site.handle(a, request).0, s[n..]);
    case _ =>
  }

  lemma HeaderTooLongGrows(s: string, t: string)
    ensures HeaderTooLong(s) ==> HeaderTooLong(s + t)
    ensures HasBlankLine(s) ==> HasBlankLine(s + t) && HeaderTooLong(s + t) == HeaderTooLong(s)
  {
    if HasBlankLine(s) {
      HeadSettled(s, t);
    } else {
      FindGrows(s, BLANK_LINE, t);
    }
  }

  /** Growing a buffer, by cases of what it holds. */
  lemma ReadingGrows(s: string, t: string)
    requires !HeaderTooLong(s)
    ensures !ReadingOf(s).NeedMore? ==> HasBlankLine(s) && ReadingOf(s + t) == ReadingOf(s)
    ensures HasBlankLine(s) ==> !HeaderTooLong(s + t) && HasBlankLine(s + t)
  {
    HeaderTooLongGrows(s, t);
    if HasBlankLine(s) {
      HeadSettled(s, t);
    }
  }

  /** The ideal result depends on the stream only: answering a prefix first changes nothing. */
  lemma {:induction false} IdealAppend<A>(site: Site<A>, a: A, s: string, t: string)
    ensures var r := Ideal(site, a, s);
            Ideal(site, a, s + t) == if r.live then Then(r.answers, Ideal(site, r.app, r.rest + t)) else r
    decreases |s|
  {
    hide ReadingOf, HeaderTooLong, AnswerTo, HasBlankLine;
    HeaderTooLongGrows(s, t);
    if !HeaderTooLong(s) {
      ReadingGrows(s, t);
      match ReadingOf(s)
      case NeedMore(_) =>
      case Failed(_) =>
      case Complete(request, n) =>
        assert (s + t)[n..] == s[n..] + t;
        IdealAppend(site, site.handle(a, request).0, s[n..], t);
    }
  }

  /** Bytes left over by the ideal run are not answerable by themselves. */
  predicate Settled(s: string) { !HeaderTooLong(s) && ReadingOf(s).NeedMore? }

  lemma {:induction false} LeftoverIsSettled<A>(site: Site<A>, a: A, s: string)
    ensures Ideal(site, a, s).live ==> Settled(Ideal(site, a, s).rest) && |Ideal(site, a, s).rest| <= |s|
    decreases |s|
  {
    hide ReadingOf, HeaderTooLong, AnswerTo;
    match ReadingOf(s)
    case Complete(request, n) => LeftoverIsSettled(site, site.handle(a, request).0, s[n..]);
    case _ =>
  }

  // ---------------------------------------------------------------- harmless streams

  lemma {:induction false} HarmlessWithFewer<A>(site: Site<A>, a: A, s: string, n: nat, m: nat)
    requires Harmless(site, a, s, n) && m <= n
    ensures Harmless(site, a, s, m)
    decreases |s|
  {
    hide ReadingOf, HeaderTooLong, AnswerTo, HasBlankLine;
    match ReadingOf(s)
    case Complete(request, k) =>
      var (a1, reply) := site.handle(a, request);
      var count := SegmentCount(AnswerTo(site, reply, request.keepAlive));
      if HasBlankLine(s) && !HeaderTooLong(s) && request.keepAlive {
        HarmlessWithFewer(site, a1, s[k..], n + count, m + count);
      }
    case _ =>
  }

  lemma {:induction false} HarmlessParts<A>(site: Site<A>, a: A, s: string, t: string, n: nat)
    requires Harmless(site, a, s + t, n)
    ensures Harmless(site, a, s, n)
    ensures var r := Ideal(site, a, s); r.live ==> Harmless(site, r.app, r.rest + t, 0)
    decreases |s|
  {
    hide ReadingOf, HeaderTooLong, AnswerTo, HasBlankLine;
    HarmlessWithFewer(site, a, s + t, n, 0);
    HeaderTooLongGrows(s, t);
    if HasBlankLine(s) {
      if HeaderTooLong(s) {
        FirstLineGrows(s, t);
      } else {
        ReadingGrows(s, t);
        match ReadingOf(s)
        case Complete(request, k) =>
          var (a1, reply) := site.handle(a, request);
          if request.keepAlive {
            assert (s + t)[k..] == s[k..] + t;
            HarmlessParts(site, a1, s[k..], t, n + SegmentCount(AnswerTo(site, reply, true)));
          }
        case _ =>
      }
    } else if !HeaderTooLong(s) {
      ReadingGrows(s, t);
    }
  }

  lemma FirstLineGrows(s: string, t: string)
    requires HasBlankLine(s)
    ensures Find(s + t, CRLF, 0) == Find(s, CRLF, 0)
  {
    FirstLine(s);
    FindStable(s, CRLF, 0, t);
  }

  // ---------------------------------------------------------------- one event

  /** What the pipelining loop has done since `log`, if its output then drains. */
  function Seen<A>(p: Turn<A>, log: seq<Answer>): Result<A>
    requires log <= p.answers
  {
    var over := p.conn.closeAfterFlush;
    Result(p.answers[|log|..], p.app, !over, if over then "" else p.conn.inBuffer)
  }

  lemma TooLongAndAnswered(s: string)
    requires HeaderTooLong(s)
    ensures HasBlankLine(s) ==> (ReadingOf(s) == Failed(431) <==> Find(s, CRLF, 0) > MAX_REQUEST_LINE)
    ensures !HasBlankLine(s) ==> ReadingOf(s) == Failed(431)
  {
    if HasBlankLine(s) {
      OnlyLongLineIs431(s);
    }
  }

  lemma CompleteHasBlankLine(s: string)
    requires ReadingOf(s).Complete?
    ensures HasBlankLine(s)
  {
  }

  lemma OneAnswer<A>(site: Site<A>, a: A, c: Conn, request: Request, n: nat)
    requires ValidQueue(c.outQueue) && n <= |c.inBuffer|
    ensures var t := AnswerOne(site, a, c, request, n);
            var answer := AnswerTo(site, site.handle(a, request).1, request.keepAlive);
            && t.app == site.handle(a, request).0
            && t.answers == [answer]
            && |t.conn.outQueue| == |c.outQueue| + SegmentCount(answer)
  {
    hide AnswerTo, HeadText, WireOf;
  }

  lemma AnswerIsNoErrorPage<A>(site: Site<A>, reply: Reply, keepAlive: bool)
    ensures !AnswerTo(site, reply, keepAlive).ErrorPage?
  {
  }

  lemma ThenInjective<A>(x: Answer, r1: Result<A>, r2: Result<A>)
    ensures Then([x], r1) == Then([x], r2) <==> r1 == r2
  {
    if Then([x], r1) == Then([x], r2) {
      assert r1.answers == Then([x], r1).answers[1..];
      assert r2.answers == Then([x], r2).answers[1..];
    }
  }

  /** The pipelining loop gives the ideal result on a buffer exactly when it is harmless. */
  lemma {:induction false} LoopIsIdealIffHarmless<A>(site: Site<A>, a: A, c: Conn, log: seq<Answer>)
    requires ValidQueue(c.outQueue) && !c.closeAfterFlush
    ensures log <= Process(site, a, c, log).answers
    ensures Seen(Process(site, a, c, log), log) == Ideal(site, a, c.inBuffer)
            <==> Harmless(site, a, c.inBuffer, |c.outQueue|)
    decreases |c.inBuffer|
  {
    hide Process, ReadingOf, HeaderTooLong, AnswerOne, AnswerTo, HasBlankLine, SegmentCount;
    var s, p := c.inBuffer, Process(site, a, c, log);
    ProcessStep(site, a, c, log);
    if HeaderTooLong(s) { TooLongAndAnswered(s); }
    match ReadingOf(s)
    case NeedMore(_) =>
      assert p.answers[|log|..] == [];
    case Failed(code) =>
      assert p.answers[|log|..] == [ErrorPage(code)];
      ErrorCloses(c, code);
    case Complete(request, n) =>
      CompleteHasBlankLine(s);
      var t := AnswerOne(site, a, c, request, n);
      OneAnswer(site, a, c, request, n);
      var answer := t.answers[0];
      AnswerIsNoErrorPage(site, site.handle(a, request).1, request.keepAlive);
      var log1 := log + [answer];
      assert log1[|log|..] == [answer];
      ClosedHasAnswered(site, t.app, s[n..]);
      if request.keepAlive && |t.conn.outQueue| <= MAX_OUT_SEGMENTS {
        LoopIsIdealIffHarmless(site, t.app, t.conn, log1);
        assert p.answers[|log|..] == [answer] + p.answers[|log1|..];
        ThenInjective(answer, Seen(p, log1), Ideal(site, t.app, s[n..]));
      }
      assert Seen(p, log).answers[0] == answer;
  }

  lemma ErrorCloses(c: Conn, code: nat)
    requires ValidQueue(c.outQueue)
    ensures AnswerError(c, code).closeAfterFlush
  {
  }

  // ---------------------------------------------------------------- read events

  /** Read events without end of stream, after each of which nothing is left to send. */
  ghost predicate Smooth<A>(site: Site<A>, o: Outcome<A>, events: seq<Event>)
    requires ValidQueue(o.conn.outQueue)
    decreases |events|
  {
    events != [] ==>
      && events[0].Readable? && NoEof(events[0].rs)
      && After(site, o, events[0]).conn.outQueue == []
      && Smooth(site, After(site, o, events[0]), events[1..])
  }

  function Start<A>(a: A): Outcome<A> { Outcome(a, FRESH, "", []) }

  /** A way of delivering the stream `s` to a new connection. */
  ghost predicate IsCut<A>(site: Site<A>, a: A, s: string, events: seq<Event>) {
    Smooth(site, Start(a), events) && Deliverable(events) && ArrivedAll(events) == s
  }

  function ResultOf<A>(o: Outcome<A>): Result<A> {
    Result(o.answers, o.app, !o.conn.closed, if o.conn.closed then "" else o.conn.inBuffer)
  }

  /** Between events: alive, everything sent, no close pending. */
  predicate Idle<A>(o: Outcome<A>) {
    !o.conn.closed && o.conn.outQueue == [] && !o.conn.closeAfterFlush
  }

  /** A single smooth event gives the ideal result on buffer and new bytes exactly when the
      two together are harmless; if they overflow the buffer, it closes without an answer. */
  lemma EventIsIdealIffHarmless<A>(site: Site<A>, o: Outcome<A>, event: Event)
    requires Idle(o) && |o.conn.inBuffer| <= MAX_IN_BUFFER
    requires event.Readable? && NoEof(event.rs) && After(site, o, event).conn.outQueue == []
    ensures var b := o.conn.inBuffer + Arrived(event.rs);
            var n := After(site, o, event);
            && (|b| > MAX_IN_BUFFER ==> ResultOf(n) == Result(o.answers, o.app, false, ""))
            && (|b| <= MAX_IN_BUFFER ==>
                  && (ResultOf(n) == Then(o.answers, Ideal(site, o.app, b)) <==> Harmless(site, o.app, b, 0))
                  && (!n.conn.closed ==> Idle(n)))
  {
    hide Process, Flush, Receive, NoEof, Arrived, Ideal, Harmless, ReadingOf;
    var b, n := o.conn.inBuffer + Arrived(event.rs), After(site, o, event);
    var c1 := Receive(o.conn, event.rs);
    ReceiveAll(o.conn, event.rs);
    if |b| > MAX_IN_BUFFER {
      assert o.answers + [] == o.answers;
    } else {
      var none: seq<Answer> := [];
      var p := Process(site, o.app, c1, none);
      LoopIsIdealIffHarmless(site, o.app, c1, none);
      var end := FlushConserves(p.conn, "", event.io);
      assert p.answers[|none|..] == p.answers;
      assert ResultOf(n) == Then(o.answers, Seen(p, none));
      PrefixInjective(o.answers, Seen(p, none), Ideal(site, o.app, b));
    }
  }

  lemma PrefixInjective<A>(before: seq<Answer>, r1: Result<A>, r2: Result<A>)
    ensures Then(before, r1) == Then(before, r2) <==> r1 == r2
  {
    if Then(before, r1) == Then(before, r2) {
      assert r1.answers == Then(before, r1).answers[|before|..];
      assert r2.answers == Then(before, r2).answers[|before|..];
    }
  }

  // ---------------------------------------------------------------- whole runs

  lemma {:induction false} ClosedStays<A>(site: Site<A>, o: Outcome<A>, events: seq<Event>)
    requires o.conn.closed && ValidQueue(o.conn.outQueue) && Smooth(site, o, events)
    ensures ResultOf(HandleAll(site, o, events)) == ResultOf(o)
    decreases |events|
  {
    if events != [] {
      assert o.answers + [] == o.answers;
      ClosedStays(site, After(site, o, events[0]), events[1..]);
    }
  }

  /** Every cut of a harmless stream gives the ideal result. */
  lemma {:induction false} RunIsIdeal<A>(site: Site<A>, o: Outcome<A>, events: seq<Event>)
    requires Idle(o) && Settled(o.conn.inBuffer) && Smooth(site, o, events)
    requires |o.conn.inBuffer + ArrivedAll(events)| <= MAX_IN_BUFFER
    requires Harmless(site, o.app, o.conn.inBuffer + ArrivedAll(events), 0)
    ensures ResultOf(HandleAll(site, o, events))
            == Then(o.answers, Ideal(site, o.app, o.conn.inBuffer + ArrivedAll(events)))
    decreases |events|
  {
    hide Handle, Ideal, Harmless, Settled, NoEof, Arrived;
    var buf := o.conn.inBuffer;
    if events == [] {
      assert buf + "" == buf;
      SettledIsIdeal(site, o.app, buf);
      assert o.answers + [] == o.answers;
    } else {
      var b, later := buf + Arrived(events[0].rs), ArrivedAll(events[1..]);
      assert buf + ArrivedAll(events) == b + later;
      var n, r := After(site, o, events[0]), Ideal(site, o.app, b);
      HarmlessParts(site, o.app, b, later, 0);
      EventIsIdealIffHarmless(site, o, events[0]);
      IdealAppend(site, o.app, b, later);
      if r.live {
        LeftoverIsSettled(site, o.app, b);
        RunIsIdeal(site, n, events[1..]);
        ThenThen(o.answers, r.answers, Ideal(site, r.app, r.rest + later));
      } else {
        ClosedStays(site, n, events[1..]);
      }
    }
  }

  lemma SettledIsIdeal<A>(site: Site<A>, a: A, s: string)
    requires Settled(s)
    ensures Ideal(site, a, s) == Live(a, s)
  {
  }

  lemma ThenThen<A>(x: seq<Answer>, y: seq<Answer>, r: Result<A>)
    ensures Then(x + y, r) == Then(x, Then(y, r))
  {
    assert (x + y) + r.answers == x + (y + r.answers);
  }

  // ---------------------------------------------------------------- one byte at a time

  /** An event that delivers `bytes` and sends everything. */
  function Feed<A>(site: Site<A>, o: Outcome<A>, bytes: string): Event
    requires ValidQueue(o.conn.outQueue)
  {
    var c := o.conn.(inBuffer := o.conn.inBuffer + bytes);
    Readable(Pieces(bytes), Drain(Process(site, o.app, c, []).conn.outQueue))
  }

  lemma FeedIsSmooth<A>(site: Site<A>, o: Outcome<A>, bytes: string)
    requires o.conn.outQueue == []
    requires !o.conn.closed ==> |o.conn.inBuffer| <= MAX_IN_BUFFER
    ensures var e := Feed(site, o, bytes);
            && e.Readable? && NoEof(e.rs) && Arrived(e.rs) == bytes && Receivable(e.rs)
            && After(site, o, e).conn.outQueue == []
  {
    hide Process, Flush, Drain, Receive, Pieces, NoEof, Arrived, Receivable;
    PiecesArrive(bytes);
    if !o.conn.closed {
      ReceiveAll(o.conn, Pieces(bytes));
      var c := o.conn.(inBuffer := o.conn.inBuffer + bytes);
      DrainWorks(Process(site, o.app, c, []).conn, "");
    }
  }

  function Trickle<A>(site: Site<A>, o: Outcome<A>, s: string): seq<Event>
    requires ValidQueue(o.conn.outQueue)
    decreases |s|
  {
    if s == "" then []
    else
      var e := Feed(site, o, s[..1]);
      [e] + Trickle(site, After(site, o, e), s[1..])
  }

  lemma SettledIsShort(s: string)
    requires Settled(s)
    ensures |s| < MAX_IN_BUFFER
  {
    if HasBlankLine(s) {
      HeadLengthBound(s);
    }
  }

  lemma HeadLengthBound(s: string)
    requires HasBlankLine(s) && ReadingOf(s).NeedMore?
    ensures |s| < ReadingOf(s).awaiting <= HeaderEnd(s) + 4 + MAX_BODY
  {
  }

  /** One more byte after a settled buffer completes at most one request and nothing behind it. */
  lemma OneByteIsHarmless<A>(site: Site<A>, a: A, s: string, x: string)
    requires Settled(s) && |x| == 1
    ensures Harmless(site, a, s + x, 0)
  {
    hide AnswerTo, Find, HeadOf;
    var t := s + x;
    HeaderTooLongGrows(s, x);
    if HasBlankLine(s) {
      HeadSettled(s, x);
    } else {
      FindGrows(s, BLANK_LINE, x);
    }
    if HasBlankLine(t) && ReadingOf(t).Complete? {
      assert ReadingOf(t).consumed == |t|;
      assert t[|t|..] == "";
    }
  }

  /** Delivered one byte at a time, every stream whatsoever is answered ideally. */
  lemma {:induction false} TrickleIsIdeal<A>(site: Site<A>, o: Outcome<A>, s: string)
    requires o.conn.outQueue == []
    requires o.conn.closed || (Idle(o) && Settled(o.conn.inBuffer))
    ensures var events := Trickle(site, o, s);
            && Smooth(site, o, events) && Deliverable(events) && ArrivedAll(events) == s
            && ResultOf(HandleAll(site, o, events))
               == if o.conn.closed then ResultOf(o)
                  else Then(o.answers, Ideal(site, o.app, o.conn.inBuffer + s))
    decreases |s|
  {
    hide Handle, Ideal, Harmless, Settled, NoEof, Arrived, Receivable, Feed, Process, Drain;
    var buf := o.conn.inBuffer;
    if s == "" {
      assert buf + "" == buf;
      if !o.conn.closed { SettledIsIdeal(site, o.app, buf); }
      assert o.answers + [] == o.answers;
    } else {
      var x, later := s[..1], s[1..];
      var e := Feed(site, o, x);
      var n := After(site, o, e);
      if !o.conn.closed { SettledIsShort(buf); }
      FeedIsSmooth(site, o, x);
      if o.conn.closed {
        ClosedAfter(site, o, e);
        TrickleIsIdeal(site, n, later);
      } else {
        var r := Ideal(site, o.app, buf + x);
        OneByteIsHarmless(site, o.app, buf, x);
        EventIsIdealIffHarmless(site, o, e);
        IdealAppend(site, o.app, buf + x, later);
        assert buf + s == (buf + x) + later;
        if r.live {
          LeftoverIsSettled(site, o.app, buf + x);
          ThenThen(o.answers, r.answers, Ideal(site, r.app, r.rest + later));
        }
        TrickleIsIdeal(site, n, later);
      }
    }
  }

  lemma ClosedAfter<A>(site: Site<A>, o: Outcome<A>, event: Event)
    requires o.conn.closed && ValidQueue(o.conn.outQueue)
    ensures After(site, o, event).conn.closed && ResultOf(After(site, o, event)) == ResultOf(o)
    ensures After(site, o, event).conn.outQueue == o.conn.outQueue
  {
    assert o.answers + [] == o.answers;
  }

  // ---------------------------------------------------------------- the theorem

  ghost predicate CutsAgree<A>(site: Site<A>, a: A, s: string) {
    forall e1, e2 :: IsCut(site, a, s, e1) && IsCut(site, a, s, e2)
      ==> ResultOf(Life(site, a, e1)) == ResultOf(Life(site, a, e2))
  }

  lemma StartIsSettled<A>(a: A)
    ensures Idle(Start(a)) && Settled(Start(a).conn.inBuffer)
  {
  }

  /** There is a cut, one byte at a time, under which any stream is answered ideally. */
  lemma IdealIsReached<A>(site: Site<A>, a: A, s: string) returns (events: seq<Event>)
    ensures IsCut(site, a, s, events) && ResultOf(Life(site, a, events)) == Ideal(site, a, s)
  {
    hide Ideal, Settled, Handle;
    StartIsSettled(a);
    TrickleIsIdeal(site, Start(a), s);
    events := Trickle(site, Start(a), s);
    assert "" + s == s && [] + Ideal(site, a, s).answers == Ideal(site, a, s).answers;
  }

  /** Any cut of a harmless stream that fits the buffer is answered ideally. */
  lemma HarmlessCut<A>(site: Site<A>, a: A, s: string, events: seq<Event>)
    requires |s| <= MAX_IN_BUFFER && Harmless(site, a, s, 0) && IsCut(site, a, s, events)
    ensures ResultOf(Life(site, a, events)) == Ideal(site, a, s)
  {
    hide Ideal, Settled, Handle, Harmless;
    StartIsSettled(a);
    assert "" + s == s;
    RunIsIdeal(site, Start(a), events);
    assert [] + Ideal(site, a, s).answers == Ideal(site, a, s).answers;
  }

  /** Delivered in one event, a stream that is not harmless or overflows is not answered ideally. */
  lemma HarmfulWhole<A>(site: Site<A>, a: A, s: string) returns (events: seq<Event>)
    requires |s| > MAX_IN_BUFFER || !Harmless(site, a, s, 0)
    ensures IsCut(site, a, s, events) && ResultOf(Life(site, a, events)) != Ideal(site, a, s)
  {
    hide Ideal, Settled, Handle, Feed, Receivable, NoEof;
    var o := Start(a);
    StartIsSettled(a);
    var e := Feed(site, o, s);
    FeedIsSmooth(site, o, s);
    events := [e];
    assert events[1..] == [];
    assert "" + s == s == s + "";
    EventIsIdealIffHarmless(site, o, e);
    ClosedHasAnswered(site, a, s);
    assert [] + Ideal(site, a, s).answers == Ideal(site, a, s).answers;
    var n := After(site, o, e);
    assert Smooth(site, n, events[1..]) && ArrivedAll(events[1..]) == "";
    assert ArrivedAll(events) == Arrived(e.rs) + "" == s;
    assert Life(site, a, events) == HandleAll(site, n, events[1..]) == n;
    PrefixInjective([], ResultOf(n), Ideal(site, a, s));
  }

  /** The way a client's bytes are cut into read events makes no difference to the answers,
      the application state, the open or closed status and the bytes left over, if and only
      if the stream fits the input buffer and is harmless; then all cuts are ideal. */
  lemma ChunkingIndependence<A>(site: Site<A>, a: A, s: string)
    ensures CutsAgree(site, a, s) <==> |s| <= 64 * 1024 * 1024 && Harmless(site, a, s, 0)
    ensures CutsAgree(site, a, s) ==>
      forall events :: IsCut(site, a, s, events) ==> ResultOf(Life(site, a, events)) == Ideal(site, a, s)
  {
    hide IsCut, Life, Ideal, Harmless;
    var bytes := IdealIsReached(site, a, s);
    if |s| <= MAX_IN_BUFFER && Harmless(site, a, s, 0) {
      forall events | IsCut(site, a, s, events)
        ensures ResultOf(Life(site, a, events)) == Ideal(site, a, s)
      {
        HarmlessCut(site, a, s, events);
      }
    } else {
      var whole := HarmfulWhole(site, a, s);
      assert ResultOf(Life(site, a, whole)) != ResultOf(Life(site, a, bytes));
    }
  }

  // ---------------------------------------------------------------- streams on which cuts matter

  /** The header block that only passes when its end arrives with it. */
  lemma HeaderLimitDependsOnCut<A>(site: Site<A>, a: A)
    ensures !CutsAgree(site, a, LongHeader() + BLANK_LINE)
  {
    hide CutsAgree, Find;
    var s := LongHeader() + BLANK_LINE;
    LongHeaderLine();
    LineTooLongGrows(LongHeader(), BLANK_LINE);
    AppendedBlankLineIsFound(LongHeader());
    HeaderTooLongGrows(LongHeader(), BLANK_LINE);
    assert !Harmless(site, a, s, 0);
    ChunkingIndependence(site, a, s);
  }

  const SHORT_REQUEST: Draft := Draft("GET", "/", [], "HTTP/1.1", [], "")

  function Burst(n: nat): string { if n == 0 then "" else Render(SHORT_REQUEST) + Burst(n - 1) }

  lemma ShortRequestKeepsAlive()
    ensures WellFormed(SHORT_REQUEST) && Meaning(SHORT_REQUEST).keepAlive && 0 < |Render(SHORT_REQUEST)| <= 100
  {
    assert Decimal(0) == "0";
  }

  lemma {:induction false} BurstIsHarmful<A>(site: Site<A>, a: A, n: nat, queued: nat)
    requires queued <= MAX_OUT_SEGMENTS < queued + n
    ensures !Harmless(site, a, Burst(n), queued)
  {
    hide Render, Meaning, WellFormed, ReadingOf, AnswerTo, Find;
    var text, s := Render(SHORT_REQUEST), Burst(n);
    ShortRequestKeepsAlive();
    RoundTrip(SHORT_REQUEST, Burst(n - 1));
    CompleteHasBlankLine(s);
    assert s[|text|..] == Burst(n - 1);
    if !HeaderTooLong(s) {
      var (a1, reply) := site.handle(a, Meaning(SHORT_REQUEST));
      var total := queued + SegmentCount(AnswerTo(site, reply, true));
      if total <= MAX_OUT_SEGMENTS {
        BurstIsHarmful(site, a1, n - 1, total);
      }
    } else {
      ShortHeader(Burst(n - 1));
    }
  }

  lemma ShortHeader(rest: string)
    ensures !HeaderTooLong(Render(SHORT_REQUEST) + rest)
  {
    hide Find;
    FirstLineHasNoCr(SHORT_REQUEST);
    ShortRequestKeepsAlive();
    var head := RenderHead(FirstLineOf(SHORT_REQUEST), []);
    assert Render(SHORT_REQUEST) + rest == head + ("" + rest);
    ReadRenderedHead(FirstLineOf(SHORT_REQUEST), [], "" + rest);
  }

  /** One request more than there may be segments in the queue. */
  lemma SegmentLimitDependsOnCut<A>(site: Site<A>, a: A)
    ensures !CutsAgree(site, a, Burst(129))
  {
    hide CutsAgree, Burst;
    BurstIsHarmful(site, a, MAX_OUT_SEGMENTS + 1, 0);
    ChunkingIndependence(site, a, Burst(MAX_OUT_SEGMENTS + 1));
  }
}
