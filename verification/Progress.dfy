/** Output gets out: what a writable event sends, how a flush ends for each behaviour of the
    socket, and that the peer's close or an error ends the connection. */
module Progress {
  import opened Text
  import opened HttpRequest
  import opened Connection
  import opened ConnectionTheorems
  import opened Delivery

  // ---------------------------------------------------------------- one more event

  lemma {:induction false} HandleAppend<A>(site: Site<A>, o: Outcome<A>, a: seq<Event>, b: seq<Event>)
    requires ValidQueue(o.conn.outQueue)
    ensures HandleAll(site, o, a + b) == HandleAll(site, HandleAll(site, o, a), b)
    decreases |a|
  {
    hide After;
    if a == [] {
      assert a + b == b;
    } else {
      assert (a + b)[1..] == a[1..] + b;
      HandleAppend(site, After(site, o, a[0]), a[1..], b);
    }
  }

  lemma OneMore<A>(site: Site<A>, a: A, events: seq<Event>, event: Event)
    ensures Life(site, a, events + [event]) == After(site, Life(site, a, events), event)
  {
    hide After;
    var o := Outcome(a, FRESH, "", []);
    HandleAppend(site, o, events, [event]);
    var n := HandleAll(site, o, events);
    assert [event][1..] == [];
    assert HandleAll(site, n, [event]) == HandleAll(site, After(site, n, event), []);
  }

  // ---------------------------------------------------------------- everything is sent

  /** A script under which a flush sends everything. */
  function Drain(q: seq<Segment>): seq<IoResult>
    requires ValidQueue(q)
  {
    if q == [] then []
    else
      assert q[0] in q;
      (if Pending(q[0]) == "" then [] else [Moved(|Pending(q[0])|)]) + Drain(q[1..])
  }

  lemma {:induction false} DrainWorks(c: Conn, sent: string)
    requires ValidQueue(c.outQueue)
    ensures Flush(c, sent, Drain(c.outQueue)).0.outQueue == []
    decreases |c.outQueue|
  {
    if c.outQueue != [] {
      var front, io := Pending(c.outQueue[0]), Drain(c.outQueue);
      if front == "" {
        assert io == Drain(c.outQueue[1..]);
        DrainWorks(Retire(c), sent);
      } else {
        assert io[1..] == Drain(c.outQueue[1..]);
        var d := Advance(c, |front|);
        assert d.outQueue[1..] == c.outQueue[1..];
        FlushStep(c, sent, io);
        RetireStep(d, sent + front[..|front|], io[1..]);
        DrainWorks(Retire(d), sent + front[..|front|]);
      }
    }
  }

  /** Whatever the life of a connection so far, if it is open and has output queued, there is a
      way for the socket to take it all: after one writable event every answer has been sent,
      EPOLLOUT is no longer registered, and the connection is closed iff that was pending. */
  lemma OutputCanBeSent<A>(site: Site<A>, a: A, events: seq<Event>) returns (io: seq<IoResult>)
    requires !Life(site, a, events).conn.closed
    ensures var before, after := Life(site, a, events), Life(site, a, events + [Writable(io)]);
            && after.sent == WireAll(after.answers) && after.answers == before.answers
            && after.conn.outQueue == [] && !after.conn.writeRegistered
            && after.conn.closed == before.conn.closeAfterFlush
  {
    hide Life, Flush, Drain, WireAll, FilesBalanced, Quiescent;
    LifeIsSound(site, a, events);
    var o := Life(site, a, events);
    io := Drain(o.conn.outQueue);
    OneMore(site, a, events, Writable(io));
    LifeIsSound(site, a, events + [Writable(io)]);
    DrainWorks(o.conn, "");
    var end := FlushConserves(o.conn, "", io);
    FlushKeepsInput(o.conn, io);
    assert o.answers + [] == o.answers;
    var sent := Life(site, a, events + [Writable(io)]).sent;
    assert sent + "" == sent;
  }

  /** A readable event sends as well, whether or not what it brings is answered: there is a way
      for the socket to take the old output and all the new. */
  lemma ReadingSendsToo<A>(site: Site<A>, a: A, events: seq<Event>, rs: seq<RecvResult>) returns (io: seq<IoResult>)
    requires var c := Life(site, a, events).conn;
             !c.closed && NoEof(rs) && |c.inBuffer + Arrived(rs)| <= 64 * 1024 * 1024
    ensures var after := Life(site, a, events + [Readable(rs, io)]);
            after.sent == WireAll(after.answers) && after.conn.outQueue == [] && !after.conn.writeRegistered
            && after.conn.closed == after.conn.closeAfterFlush
  {
    hide Life, Flush, Process, Receive, Drain, WireAll, FilesBalanced, Quiescent, NoEof, Arrived;
    LifeIsSound(site, a, events);
    var o := Life(site, a, events);
    ReceiveAll(o.conn, rs);
    var c1 := Receive(o.conn, rs);
    var turn := Process(site, o.app, c1, []);
    io := Drain(turn.conn.outQueue);
    OneMore(site, a, events, Readable(rs, io));
    LifeIsSound(site, a, events + [Readable(rs, io)]);
    DrainWorks(turn.conn, "");
    var end := FlushConserves(turn.conn, "", io);
    FlushKeepsInput(turn.conn, io);
    var sent := Life(site, a, events + [Readable(rs, io)]).sent;
    assert sent + "" == sent;
  }

  lemma {:induction false} SentGrows(c: Conn, sent: string, io: seq<IoResult>)
    requires ValidQueue(c.outQueue)
    ensures |sent| <= |Flush(c, sent, io).1|
    decreases |io| + |c.outQueue|
  {
    hide Flush, Advance, Retire;
    if c.outQueue == [] {
      EmptySends(c, sent, io);
    } else if Pending(c.outQueue[0]) == "" {
      RetireStep(c, sent, io);
      RetireKeeps(c, sent);
      SentGrows(Retire(c), sent, io);
    } else {
      FlushStep(c, sent, io);
      var r := Front(io);
      if r.Moved? && r.n > 0 {
        var front := Pending(c.outQueue[0]);
        var m := Min(r.n, |front|);
        AdvanceKeeps(c, sent, m);
        SentGrows(Advance(c, m), sent + front[..m], io[1..]);
      }
    }
  }

  lemma EmptySends(c: Conn, sent: string, io: seq<IoResult>)
    requires c.outQueue == []
    ensures Flush(c, sent, io).1 == sent
  {
  }

  lemma {:induction false} FirstWriteSends(c: Conn, sent: string, n: nat, io: seq<IoResult>)
    requires ValidQueue(c.outQueue) && !c.closed && PendingAll(c.outQueue) != "" && n > 0
    ensures |Flush(c, sent, [Moved(n)] + io).1| > |sent|
    decreases |c.outQueue|
  {
    hide Flush, Advance, Retire;
    var script := [Moved(n)] + io;
    if Pending(c.outQueue[0]) == "" {
      RetireStep(c, sent, script);
      RetireKeeps(c, sent);
      FirstWriteSends(Retire(c), sent, n, io);
    } else {
      FlushStep(c, sent, script);
      var front := Pending(c.outQueue[0]);
      var m := Min(n, |front|);
      assert script[1..] == io;
      AdvanceKeeps(c, sent, m);
      SentGrows(Advance(c, m), sent + front[..m], io);
    }
  }

  /** With bytes pending, a writable event whose first write moves something sends something. */
  lemma WritableSends<A>(site: Site<A>, a: A, events: seq<Event>, n: nat, io: seq<IoResult>)
    requires var o := Life(site, a, events);
             !o.conn.closed && n > 0 && ValidQueue(o.conn.outQueue) && PendingAll(o.conn.outQueue) != ""
    ensures |Life(site, a, events + [Writable([Moved(n)] + io)]).sent| > |Life(site, a, events).sent|
  {
    hide Life, Flush;
    OneMore(site, a, events, Writable([Moved(n)] + io));
    FirstWriteSends(Life(site, a, events).conn, "", n, io);
  }

  // ---------------------------------------------------------------- how a flush ends

  /** The first `k` writes move bytes. */
  predicate AllMove(io: seq<IoResult>, k: nat) {
    k <= |io| && forall i :: 0 <= i < k ==> io[i].Moved? && io[i].n > 0
  }

  /** A flush goes on while writes move bytes. It ends with the queue empty, or at a write that
      would block, with the connection open and EPOLLOUT registered, or at one that failed, with
      the connection closed. */
  ghost predicate EndsAfter(d: Conn, io: seq<IoResult>, k: nat)
    requires k <= |io|
  {
    || (d.outQueue == [] && !d.writeRegistered && d.closed == d.closeAfterFlush)
    || (d.outQueue != [] && Front(io[k..]) == Again && d.writeRegistered && !d.closed)
    || (d.outQueue != [] && (Front(io[k..]) == Broken || Front(io[k..]) == Moved(0)) && d.closed)
  }

  lemma {:induction false} FlushEndsAfter(c: Conn, sent: string, io: seq<IoResult>) returns (k: nat)
    requires ValidQueue(c.outQueue) && !c.closed
    ensures AllMove(io, k) && EndsAfter(Flush(c, sent, io).0, io, k)
    decreases |io| + |c.outQueue|
  {
    hide Flush, Advance, Retire;
    if c.outQueue == [] {
      FlushEmpty(c, sent, io);
      k := 0;
    } else if Pending(c.outQueue[0]) == "" {
      RetireStep(c, sent, io);
      RetireKeeps(c, sent);
      k := FlushEndsAfter(Retire(c), sent, io);
    } else {
      FlushStep(c, sent, io);
      assert io[0..] == io;
      var r := Front(io);
      if r.Moved? && r.n > 0 {
        var front := Pending(c.outQueue[0]);
        var m := Min(r.n, |front|);
        AdvanceKeeps(c, sent, m);
        k := FlushEndsAfter(Advance(c, m), sent + front[..m], io[1..]);
        assert io[1..][k..] == io[k + 1..];
        k := k + 1;
      } else {
        k := 0;
      }
    }
  }

  /** So a writable event on an open connection ends as the socket behaves. */
  lemma WritableEndsAfter<A>(site: Site<A>, a: A, events: seq<Event>, io: seq<IoResult>) returns (k: nat)
    requires !Life(site, a, events).conn.closed
    ensures AllMove(io, k) && EndsAfter(Life(site, a, events + [Writable(io)]).conn, io, k)
  {
    hide Life, Flush, EndsAfter, AllMove, PendingAll, WireAll, FilesBalanced, Quiescent;
    LifeIsSound(site, a, events);
    OneMore(site, a, events, Writable(io));
    k := FlushEndsAfter(Life(site, a, events).conn, "", io);
  }

  // ---------------------------------------------------------------- end of stream

  /** Reading on until something other than bytes comes. */
  predicate AllBytes(rs: seq<RecvResult>) { forall r :: r in rs ==> r.Data? && r.bytes != "" }

  lemma {:induction false} ReceiveCloses(c: Conn, rs: seq<RecvResult>, last: RecvResult, more: seq<RecvResult>)
    requires AllBytes(rs) && (last.RecvError? || last == Data(""))
    ensures Receive(c, rs + [last] + more).closed
    decreases |rs|
  {
    var all := rs + [last] + more;
    if rs == [] {
      assert all[0] == last;
    } else {
      assert all[0] == rs[0] && rs[0] in rs && all[1..] == rs[1..] + [last] + more;
      ReceiveCloses(c.(inBuffer := c.inBuffer + rs[0].bytes), rs[1..], last, more);
    }
  }

  /** When the peer has closed or receiving fails, the connection is closed at once: what came
      before in the same drain is not answered and what is queued is not sent. */
  lemma EndOfStreamCloses<A>(site: Site<A>, a: A, events: seq<Event>, rs: seq<RecvResult>, last: RecvResult,
                             more: seq<RecvResult>, io: seq<IoResult>)
    requires AllBytes(rs) && (last.RecvError? || last == Data(""))
    ensures var before, after := Life(site, a, events), Life(site, a, events + [Readable(rs + [last] + more, io)]);
            after.conn.closed && after.answers == before.answers && after.sent == before.sent && after.app == before.app
  {
    hide Life, Flush, Receive, Process;
    var o := Life(site, a, events);
    OneMore(site, a, events, Readable(rs + [last] + more, io));
    ReceiveCloses(o.conn, rs, last, more);
    assert o.sent + "" == o.sent && o.answers + [] == o.answers;
  }

  /** A socket error or the connection's timeout closes it, whatever it was doing. */
  lemma HangUpEnds<A>(site: Site<A>, a: A, events: seq<Event>)
    ensures var before, after := Life(site, a, events), Life(site, a, events + [HangUp]);
            after.conn.closed && after.answers == before.answers && after.sent == before.sent
  {
    hide Life;
    var o := Life(site, a, events);
    OneMore(site, a, events, HangUp);
    assert o.sent + "" == o.sent && o.answers + [] == o.answers;
  }
}
