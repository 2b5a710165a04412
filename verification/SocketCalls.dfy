/** What a connection does to its socket over its whole life, and how many calls one event can
    take, whatever the environment answers. */
module SocketCalls {
  import opened Connection
  import opened ConnectionTheorems
  import opened HttpRequest

  /** A socket as its calls leave it: registered with or without EPOLLOUT, closed, or used after
      it was closed. */
  datatype Socket = Open(out: bool) | Shut(out: bool) | Misused

  function Used(s: Socket, call: Call): Socket {
    if !s.Open? then Misused
    else match call
      case ModifyEvents(out) => if out == s.out then Misused else Open(out)
      case Close => Shut(s.out)
      case _ => s
  }

  function UsedAll(s: Socket, calls: seq<Call>): Socket
    decreases |calls|
  {
    if calls == [] then s else UsedAll(Used(s, calls[0]), calls[1..])
  }

  /** What the flags of a connection say of its socket. */
  function SocketOf(c: Conn): Socket { if c.closed then Shut(c.writeRegistered) else Open(c.writeRegistered) }

  lemma {:induction false} UsedAppend(s: Socket, a: seq<Call>, b: seq<Call>)
    ensures UsedAll(s, a + b) == UsedAll(UsedAll(s, a), b)
    decreases |a|
  {
    if a == [] {
      assert a + b == b;
    } else {
      assert (a + b)[1..] == a[1..] + b;
      UsedAppend(Used(s, a[0]), a[1..], b);
    }
  }

  lemma UsedNone(s: Socket)
    ensures UsedAll(s, []) == s
  {
  }

  lemma UsedOne(s: Socket, call: Call)
    ensures UsedAll(s, [call]) == Used(s, call)
  {
    assert [call][1..] == [];
  }

  lemma CloseUses(c: Conn)
    requires !c.closed
    ensures UsedAll(SocketOf(c), CloseCalls(c)) == SocketOf(c.(closed := true))
  {
    UsedOne(SocketOf(c), Close);
  }

  lemma SetEventsUses(c: Conn, out: bool)
    requires !c.closed
    ensures UsedAll(SocketOf(c), SetEvents(c, out)) == SocketOf(c.(writeRegistered := out))
  {
    if c.writeRegistered != out {
      UsedOne(SocketOf(c), ModifyEvents(out));
    }
  }

  lemma {:induction false} ReceiveUses(c: Conn, rs: seq<RecvResult>)
    requires !c.closed
    ensures UsedAll(SocketOf(c), ReceiveCalls(c, rs)) == SocketOf(Receive(c, rs))
    decreases |rs|
  {
    hide UsedAll;
    UsedNone(SocketOf(c));
    UsedOne(SocketOf(c), Recv);
    CloseUses(c);
    UsedAppend(SocketOf(c), [Recv], CloseCalls(c));
    if rs != [] && rs[0].Data? && rs[0].bytes != "" {
      var c1 := c.(inBuffer := c.inBuffer + rs[0].bytes);
      CloseUses(c1);
      if |c1.inBuffer| <= MAX_IN_BUFFER {
        ReceiveUses(c1, rs[1..]);
        UsedAppend(SocketOf(c), [Recv], ReceiveCalls(c1, rs[1..]));
      }
    }
  }

  lemma {:induction false} FlushUses(c: Conn, sent: string, io: seq<IoResult>)
    requires ValidQueue(c.outQueue) && !c.closed
    ensures UsedAll(SocketOf(c), FlushCalls(c, io)) == SocketOf(Flush(c, sent, io).0)
    decreases |io| + |c.outQueue|
  {
    hide UsedAll, Flush, FlushCalls;
    if c.outQueue == [] {
      DrainedUses(c, sent, io);
    } else if Pending(c.outQueue[0]) == "" {
      RetireStep(c, sent, io);
      RetireCallsStep(c, io);
      FlushUses(Retire(c), sent, io);
    } else {
      var call := SendCall(c.outQueue[0]);
      FlushStep(c, sent, io);
      FlushCallsStep(c, io);
      UsedOne(SocketOf(c), call);
      UsedAppend(SocketOf(c), [call], SetEvents(c, true));
      UsedAppend(SocketOf(c), [call], CloseCalls(c));
      SetEventsUses(c, true);
      CloseUses(c);
      var r := Front(io);
      if r.Moved? && r.n > 0 {
        var front := Pending(c.outQueue[0]);
        var m := Min(r.n, |front|);
        UsedAppend(SocketOf(c), [call], FlushCalls(Advance(c, m), io[1..]));
        FlushUses(Advance(c, m), sent + front[..m], io[1..]);
      }
    }
  }

  lemma DrainedUses(c: Conn, sent: string, io: seq<IoResult>)
    requires c.outQueue == [] && !c.closed
    ensures UsedAll(SocketOf(c), FlushCalls(c, io)) == SocketOf(Flush(c, sent, io).0)
  {
    hide UsedAll;
    UsedNone(SocketOf(c));
    var d := c.(writeRegistered := false);
    SetEventsUses(c, false);
    CloseUses(d);
    UsedAppend(SocketOf(c), SetEvents(c, false), CloseCalls(d));
    assert SetEvents(c, false) + [] == SetEvents(c, false);
  }

  lemma EventUses<A>(site: Site<A>, a: A, c: Conn, event: Event)
    requires ValidQueue(c.outQueue)
    ensures UsedAll(SocketOf(c), HandleCalls(site, a, c, event)) == SocketOf(Handle(site, a, c, event).conn)
  {
    hide Flush, FlushCalls, Receive, ReceiveCalls, Process;
    if c.closed {
    } else {
      match event
      case HangUp => CloseUses(c);
      case Writable(io) => FlushUses(c, "", io);
      case Readable(rs, io) =>
        var c1 := Receive(c, rs);
        ReceiveUses(c, rs);
        if c1.closed {
          assert ReceiveCalls(c, rs) + [] == ReceiveCalls(c, rs);
        } else {
          var turn := Process(site, a, c1, []);
          ProcessKeepsRegistration(site, a, c1, []);
          FlushUses(turn.conn, "", io);
          UsedAppend(SocketOf(c), ReceiveCalls(c, rs), FlushCalls(turn.conn, io));
        }
    }
  }

  lemma {:induction false} ProcessKeepsRegistration<A>(site: Site<A>, a: A, c: Conn, log: seq<Answer>)
    requires ValidQueue(c.outQueue)
    ensures Process(site, a, c, log).conn.writeRegistered == c.writeRegistered
    decreases |c.inBuffer|
  {
    hide Process;
    ProcessStep(site, a, c, log);
    match ReadingOf(c.inBuffer)
    case NeedMore(_) =>
    case Failed(_) =>
    case Complete(request, n) =>
      var t := AnswerOne(site, a, c, request, n);
      if request.keepAlive && |t.conn.outQueue| <= MAX_OUT_SEGMENTS {
        ProcessKeepsRegistration(site, t.app, t.conn, log + t.answers);
      }
  }

  lemma {:induction false} EventsUse<A>(site: Site<A>, o: Outcome<A>, events: seq<Event>)
    requires ValidQueue(o.conn.outQueue)
    ensures UsedAll(SocketOf(o.conn), AllCalls(site, o, events)) == SocketOf(HandleAll(site, o, events).conn)
    decreases |events|
  {
    hide Handle, HandleCalls, UsedAll;
    if events == [] {
      UsedNone(SocketOf(o.conn));
    } else {
      var n := After(site, o, events[0]);
      var calls := HandleCalls(site, o.app, o.conn, events[0]);
      EventUses(site, o.app, o.conn, events[0]);
      EventsUse(site, n, events[1..]);
      UsedAppend(SocketOf(o.conn), calls, AllCalls(site, n, events[1..]));
    }
  }

  // ---------------------------------------------------------------- a whole life

  /** Whether EPOLLOUT is registered after the calls, if it was as `out` before. */
  function LastEvents(out: bool, calls: seq<Call>): bool {
    if calls == [] then out
    else
      var last := calls[|calls| - 1];
      if last.ModifyEvents? then last.out else LastEvents(out, calls[..|calls| - 1])
  }

  predicate EndsClosed(calls: seq<Call>) { calls != [] && calls[|calls| - 1].Close? }

  lemma {:induction false} ProperUse(out: bool, calls: seq<Call>)
    requires UsedAll(Open(out), calls) != Misused
    ensures forall i :: 0 <= i < |calls| && calls[i].Close? ==> i == |calls| - 1
    ensures var last := LastEvents(out, calls);
            UsedAll(Open(out), calls) == if EndsClosed(calls) then Shut(last) else Open(last)
  {
    if calls != [] {
      var before, last := calls[..|calls| - 1], calls[|calls| - 1];
      assert calls == before + [last];
      UsedAppend(Open(out), before, [last]);
      UsedOne(UsedAll(Open(out), before), last);
      ProperUse(out, before);
    }
  }

  /** Whatever happens in the life of a connection: after its socket is closed there is no
      further call on it, it is closed once and exactly when the connection is marked closed,
      and the last change of the registration is what the flag says. */
  lemma NothingAfterClose<A>(site: Site<A>, a: A, events: seq<Event>)
    ensures var o := Outcome(a, FRESH, "", []);
            var calls, c := AllCalls(site, o, events), Life(site, a, events).conn;
            && (forall i :: 0 <= i < |calls| && calls[i].Close? ==> i == |calls| - 1)
            && (c.closed <==> EndsClosed(calls))
            && c.writeRegistered == LastEvents(false, calls)
  {
    hide AllCalls, UsedAll, HandleAll;
    var o := Outcome(a, FRESH, "", []);
    EventsUse(site, o, events);
    ProperUse(false, AllCalls(site, o, events));
  }

  // ---------------------------------------------------------------- how many calls

  lemma PendingFront(c: Conn, m: nat)
    requires ValidQueue(c.outQueue) && c.outQueue != [] && m <= |Pending(c.outQueue[0])|
    ensures |PendingAll(Advance(c, m).outQueue)| == |PendingAll(c.outQueue)| - m
    ensures |PendingAll(c.outQueue)| >= |Pending(c.outQueue[0])|
  {
    var q := c.outQueue;
    var r := Advance(c, m).outQueue;
    assert r[0] == Shrink(q[0], m) && r[1..] == q[1..];
    assert |Pending(r[0])| == |Pending(q[0])| - m;
  }

  lemma PendingRetired(c: Conn)
    requires ValidQueue(c.outQueue) && c.outQueue != [] && Pending(c.outQueue[0]) == ""
    ensures ValidQueue(Retire(c).outQueue) && PendingAll(Retire(c).outQueue) == PendingAll(c.outQueue)
  {
  }

  /** A flush makes no more calls than there are bytes to send, and two: each `send` or
      `sendfile` moves at least one byte or is the last. */
  lemma {:induction false} FlushIsShort(c: Conn, io: seq<IoResult>)
    requires ValidQueue(c.outQueue)
    ensures |FlushCalls(c, io)| <= |PendingAll(c.outQueue)| + 2
    decreases |io| + |c.outQueue|
  {
    hide FlushCalls, PendingAll, Advance, Retire;
    if c.outQueue == [] {
      DrainedCalls(c, io);
    } else if Pending(c.outQueue[0]) == "" {
      RetireCallsStep(c, io);
      PendingRetired(c);
      Retired(c);
      FlushIsShort(Retire(c), io);
    } else {
      FlushCallsStep(c, io);
      PendingFront(c, 0);
      var r := Front(io);
      if r.Moved? && r.n > 0 {
        var m := Min(r.n, |Pending(c.outQueue[0])|);
        PendingFront(c, m);
        Advanced(c, m);
        FlushIsShort(Advance(c, m), io[1..]);
      }
    }
  }

  lemma DrainedCalls(c: Conn, io: seq<IoResult>)
    requires c.outQueue == []
    ensures |FlushCalls(c, io)| <= 2
  {
  }

  lemma Retired(c: Conn)
    requires c.outQueue != []
    ensures |Retire(c).outQueue| < |c.outQueue|
  {
  }

  lemma Advanced(c: Conn, m: nat)
    requires c.outQueue != [] && ValidQueue(c.outQueue) && m <= |Pending(c.outQueue[0])|
    ensures |Advance(c, m).outQueue| == |c.outQueue|
  {
  }

  /** What the environment would answer after as many calls as there are bytes does not matter. */
  lemma {:induction false} FlushNeedsNoMore(c: Conn, sent: string, io: seq<IoResult>, n: nat)
    requires ValidQueue(c.outQueue) && |PendingAll(c.outQueue)| <= n <= |io|
    ensures Flush(c, sent, io) == Flush(c, sent, io[..n])
    decreases |io| + |c.outQueue|
  {
    hide Flush, PendingAll, Advance, Retire;
    if c.outQueue == [] {
      DrainedFlush(c, sent, io, io[..n]);
    } else if Pending(c.outQueue[0]) == "" {
      RetireStep(c, sent, io);
      RetireStep(c, sent, io[..n]);
      PendingRetired(c);
      Retired(c);
      FlushNeedsNoMore(Retire(c), sent, io, n);
    } else {
      var front := Pending(c.outQueue[0]);
      FlushStep(c, sent, io);
      FlushStep(c, sent, io[..n]);
      PendingFront(c, 0);
      assert Front(io) == Front(io[..n]);
      if io[0].Moved? && io[0].n > 0 {
        var m := Min(io[0].n, |front|);
        PendingFront(c, m);
        Advanced(c, m);
        FlushNeedsNoMore(Advance(c, m), sent + front[..m], io[1..], n - 1);
        assert io[..n][1..] == io[1..][..n - 1];
      }
    }
  }

  lemma DrainedFlush(c: Conn, sent: string, io: seq<IoResult>, io': seq<IoResult>)
    requires c.outQueue == []
    ensures Flush(c, sent, io) == Flush(c, sent, io')
  {
  }

  /** Draining the socket takes no more calls than the input buffer has room for, and two. */
  lemma {:induction false} ReceiveIsShort(c: Conn, rs: seq<RecvResult>)
    requires |c.inBuffer| <= MAX_IN_BUFFER
    ensures |ReceiveCalls(c, rs)| <= MAX_IN_BUFFER - |c.inBuffer| + 2
    decreases |rs|
  {
    if rs != [] && rs[0].Data? && rs[0].bytes != "" {
      var c1 := c.(inBuffer := c.inBuffer + rs[0].bytes);
      if |c1.inBuffer| <= MAX_IN_BUFFER {
        ReceiveIsShort(c1, rs[1..]);
      }
    }
  }

  lemma {:induction false} ReceiveNeedsNoMore(c: Conn, rs: seq<RecvResult>, n: nat)
    requires |c.inBuffer| <= MAX_IN_BUFFER < |c.inBuffer| + n && n <= |rs|
    ensures Receive(c, rs) == Receive(c, rs[..n])
    decreases |rs|
  {
    if rs[0].Data? && rs[0].bytes != "" {
      var c1 := c.(inBuffer := c.inBuffer + rs[0].bytes);
      if |c1.inBuffer| <= MAX_IN_BUFFER {
        ReceiveNeedsNoMore(c1, rs[1..], n - 1);
        assert rs[..n][1..] == rs[1..][..n - 1];
      }
    }
  }
}
