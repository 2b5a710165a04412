/** One event loop as an object: its connection table and its timers, updated in place by
    accept, events, close and expiry. How the loops of the process share descriptor numbers is
    in `Descriptors`. */
module EventLoop {
  import opened Connection
  import opened ConnectionTheorems
  import opened SocketCalls
  import opened TcpTimer
  import Requests = HttpRequest
  import Server = HttpServer

  const KEEP_ALIVE_TIMEOUT_MS: int := 30000

  /** The callback armed for a connection: close the connection on `fd`, which removes its own
      timer. */
  function CloseOn(fd: int): Callback { Callback(0, [fd]) }

  /** The deadline of a connection accepted at `t`. */
  function DeadlineFrom(t: int): int { t + KEEP_ALIVE_TIMEOUT_MS * MS }

  /** What a connection has sent and answered since it was accepted, when that was, and when an
      event of it was last handled. */
  datatype Record = Record(accepted: int, lastActive: int, sent: string, answers: seq<Answer>)

  function NewRecord(now: int): Record { Record(now, now, "", []) }

  ghost predicate SoundSoFar(c: Conn, r: Record) {
    Sound(Outcome((), c, r.sent, r.answers))
  }

  function Extended(r: Record, now: int, sent: string, answers: seq<Answer>): Record {
    r.(lastActive := now, sent := r.sent + sent, answers := r.answers + answers)
  }

  /** Every call on the socket was in order, and the last ones are what the flags say. */
  predicate CallsMatch(calls: seq<Call>, c: Conn) { UsedAll(Open(false), calls) == SocketOf(c) }

  /** The readiness that `epoll_wait` reports, as the events of a connection: an error hides
      everything else, and reading comes before writing. */
  function EventsOf(hangUp: bool, readable: bool, writable: bool,
                    rs: seq<RecvResult>, io: seq<IoResult>, io': seq<IoResult>): seq<Event> {
    if hangUp then [HangUp]
    else (if readable then [Readable(rs, io)] else []) + (if writable then [Writable(io')] else [])
  }

  function Handled<A>(site: Site<A>, app: A, c: Conn, events: seq<Event>): Outcome<A>
    requires ValidQueue(c.outQueue)
  {
    HandleAll(site, Outcome(app, c, "", []), events)
  }

  lemma SoundConn(c: Conn, r: Record)
    requires SoundSoFar(c, r)
    ensures ValidQueue(c.outQueue) && Fits(c)
  {
  }

  lemma NewIsSound(r: Record)
    requires r.sent == "" && r.answers == []
    ensures SoundSoFar(FRESH, r)
  {
    LifeIsSound(Site((a: (), q) => ((), Unrouted), p => CannotOpen, p => ""), (), []);
  }

  /** However the application state was changed by other connections in between. */
  lemma HandledIsSound<A>(site: Site<A>, app: A, c: Conn, r: Record, now: int, events: seq<Event>)
    requires SoundSoFar(c, r)
    ensures ValidQueue(c.outQueue)
    ensures var o := Handled(site, app, c, events); SoundSoFar(o.conn, Extended(r, now, o.sent, o.answers))
  {
    hide Sound, HandleAll;
    SoundIgnoresApp((), app, c, r.sent, r.answers);
    SoundIsValid(Outcome((), c, r.sent, r.answers));
    EventsKeepSound(site, Outcome(app, c, r.sent, r.answers), events);
    LogsAccumulate(site, Outcome(app, c, "", []), r.sent, r.answers, events);
    assert r.sent + "" == r.sent && r.answers + [] == r.answers;
    var o := Handled(site, app, c, events);
    SoundIgnoresApp(o.app, (), o.conn, r.sent + o.sent, r.answers + o.answers);
  }

  lemma SoundIgnoresApp<A, B>(a: A, b: B, c: Conn, sent: string, answers: seq<Answer>)
    requires Sound(Outcome(a, c, sent, answers))
    ensures Sound(Outcome(b, c, sent, answers))
  {
  }

  /** What was sent and answered before has no influence on what follows. */
  lemma {:induction false} LogsAccumulate<A>(site: Site<A>, o: Outcome<A>, sent: string, answers: seq<Answer>,
                                             events: seq<Event>)
    requires ValidQueue(o.conn.outQueue)
    ensures var e := HandleAll(site, o, events);
            HandleAll(site, Outcome(o.app, o.conn, sent + o.sent, answers + o.answers), events)
              == Outcome(e.app, e.conn, sent + e.sent, answers + e.answers)
    decreases |events|
  {
    hide Handle;
    if events != [] {
      var next := After(site, o, events[0]);
      var step := Handle(site, o.app, o.conn, events[0]);
      assert sent + o.sent + step.sent == sent + next.sent;
      assert answers + o.answers + step.answers == answers + next.answers;
      LogsAccumulate(site, next, sent, answers, events[1..]);
    }
  }

  /** Every connection has a timer, due 30 seconds after accept; there are no others. */
  ghost predicate TimersMatch(timers: Timers, records: map<int, Record>) {
    && timers.Keys == records.Keys
    && (forall fd :: fd in records ==>
          timers[fd].deadline == DeadlineFrom(records[fd].accepted) && timers[fd].callback == CloseOn(fd))
  }

  lemma MatchAdded(timers: Timers, records: map<int, Record>, fd: int, now: int, stamp: nat)
    requires TimersMatch(timers, records)
    ensures TimersMatch(timers[fd := Entry(now + KEEP_ALIVE_TIMEOUT_MS * MS, stamp, CloseOn(fd))],
                        records[fd := NewRecord(now)])
  {
  }

  lemma MatchRemoved(timers: Timers, records: map<int, Record>, fds: set<int>)
    requires TimersMatch(timers, records)
    ensures TimersMatch(timers - fds, records - fds)
  {
  }

  lemma MatchExtended(timers: Timers, records: map<int, Record>, fd: int, now: int, sent: string, answers: seq<Answer>)
    requires TimersMatch(timers, records) && fd in records
    ensures TimersMatch(timers, records[fd := Extended(records[fd], now, sent, answers)])
  {
  }

  /** Nobody was active before being accepted or after `now`. */
  ghost predicate Timely(records: map<int, Record>, now: int) {
    forall fd :: fd in records ==> records[fd].accepted <= records[fd].lastActive <= now
  }

  lemma TimelyAdded(records: map<int, Record>, was: int, fd: int, now: int)
    requires Timely(records, was) && was <= now
    ensures Timely(records[fd := NewRecord(now)], now)
  {
  }

  lemma TimelyRemoved(records: map<int, Record>, now: int, fds: set<int>)
    requires Timely(records, now)
    ensures Timely(records - fds, now)
  {
  }

  lemma TimelyExtended(records: map<int, Record>, was: int, fd: int, now: int, sent: string, answers: seq<Answer>)
    requires Timely(records, was) && was <= now && fd in records
    ensures Timely(records[fd := Extended(records[fd], now, sent, answers)], now)
  {
  }

  // ---------------------------------------------------------------- the table

  type Table<A> = map<int, Server.HttpServer<A>>

  ghost predicate OneEach<A>(m: Table<A>) {
    forall f, g :: f in m && g in m && f != g ==> m[f] != m[g]
  }

  ghost predicate Within<A>(m: Table<A>, n: Table<A>) { forall g :: g in m ==> g in n && n[g] == m[g] }

  ghost predicate Agrees<A>(site: Site<A>, conn: Server.HttpServer<A>, r: Record)
    reads conn
  {
    conn.site == site && SoundSoFar(conn.State(), r) && CallsMatch(conn.calls, conn.State())
  }

  /** The connections of a table agree with their records, and no object is in it twice. */
  ghost predicate Listed<A>(site: Site<A>, m: Table<A>, records: map<int, Record>)
    reads m.Values
  {
    m.Keys == records.Keys && OneEach(m) && forall fd :: fd in m ==> Agrees(site, m[fd], records[fd])
  }

  ghost predicate AllOpen<A>(m: Table<A>)
    reads m.Values
  {
    forall fd :: fd in m ==> !m[fd].closed
  }

  lemma ListedFacts<A>(site: Site<A>, m: Table<A>, records: map<int, Record>)
    requires Listed(site, m, records)
    ensures m.Keys == records.Keys && OneEach(m)
  {
  }

  lemma ListedConn<A>(site: Site<A>, m: Table<A>, records: map<int, Record>, fd: int)
    requires Listed(site, m, records) && fd in m
    ensures fd in records && Agrees(site, m[fd], records[fd]) && m[fd].Valid()
  {
    hide SoundSoFar;
    SoundConn(m[fd].State(), records[fd]);
  }

  /** A table with one connection more. */
  lemma ListedWith<A>(site: Site<A>, m: Table<A>, records: map<int, Record>, fd: int, conn: Server.HttpServer<A>, r: Record)
    requires Listed(site, m, records) && Agrees(site, conn, r) && fd !in m && conn !in m.Values
    ensures Listed(site, m[fd := conn], records[fd := r])
  {
    hide Agrees, OneEach;
    OneEachWith(m, fd, conn);
  }

  lemma OneEachWith<A>(m: Table<A>, fd: int, conn: Server.HttpServer<A>)
    requires OneEach(m) && fd !in m && conn !in m.Values
    ensures OneEach(m[fd := conn])
  {
    assert forall g :: g in m ==> m[g] in m.Values;
  }

  lemma OneEachWithout<A>(m: Table<A>, fd: int)
    requires OneEach(m) && fd in m
    ensures OneEach(m - {fd}) && m[fd] !in (m - {fd}).Values
    ensures forall g :: g in m - {fd} <==> g in m && g != fd
    ensures forall g :: g in m - {fd} ==> (m - {fd})[g] == m[g]
  {
    var less := m - {fd};
    forall f, g | f in less && g in less && f != g ensures less[f] != less[g] {
      assert m[f] != m[g];
    }
    forall x | x in less.Values ensures x != m[fd] {
      var g :| g in less && less[g] == x;
      assert m[g] != m[fd];
    }
  }

  /** A table with one connection less, which then is not in it. */
  lemma ListedWithout<A>(site: Site<A>, m: Table<A>, records: map<int, Record>, fd: int)
    requires Listed(site, m, records) && fd in m
    ensures Listed(site, m - {fd}, records - {fd}) && m[fd] !in (m - {fd}).Values
  {
    hide Agrees, OneEach;
    OneEachWithout(m, fd);
  }

  lemma OpenWith<A>(m: Table<A>, fd: int)
    requires AllOpen(m - {fd}) && (fd in m ==> !m[fd].closed)
    ensures AllOpen(m)
  {
    assert forall g :: g in m && g != fd ==> g in m - {fd} && (m - {fd})[g] == m[g];
  }

  lemma OpenWithout<A>(m: Table<A>, fd: int)
    requires AllOpen(m)
    ensures AllOpen(m - {fd}) && (fd in m ==> !m[fd].closed)
  {
    assert forall g :: g in m - {fd} ==> g in m && (m - {fd})[g] == m[g];
  }

  // ---------------------------------------------------------------- time-outs

  lemma SameFds(fds: seq<int>, l: Listing)
    requires FdsAre(fds, l)
    ensures SetOf(fds) == Fds(l)
  {
    forall fd ensures fd in fds <==> fd in Fds(l) {
      if fd in fds {
        var i :| 0 <= i < |fds| && fds[i] == fd;
        assert l[i] in l;
      }
    }
  }

  /** All connections accepted more than 30 seconds before `start`, and only ones accepted more
      than 30 seconds before `end`, whatever they have done since. */
  ghost predicate AreTimedOut(fds: seq<int>, records: map<int, Record>, start: int, end: int) {
    && (forall fd :: fd in fds ==> fd in records && DeadlineFrom(records[fd].accepted) < end)
    && (forall fd :: fd in records && fd !in fds ==> start <= DeadlineFrom(records[fd].accepted))
  }

  /** The documented time-out, one of idle time: exactly the connections on which nothing has
      happened for more than 30 seconds. */
  ghost predicate AreIdle(fds: seq<int>, records: map<int, Record>, t: int) {
    forall fd :: fd in records ==> (fd in fds <==> DeadlineFrom(records[fd].lastActive) < t)
  }

  /** Some connection was accepted more than 30 seconds ago, but has been active since. */
  ghost predicate SomeBusyAndOld(records: map<int, Record>, t: int) {
    exists fd :: fd in records && DeadlineFrom(records[fd].accepted) < t <= DeadlineFrom(records[fd].lastActive)
  }

  ghost predicate Still(clock: nat -> int) { forall k: nat :: clock(k) == clock(0) }

  /** A check at one time keeps to the documented time-out if and only if there is no busy
      connection of more than 30 seconds. */
  lemma IdleTimeoutIff(fds: seq<int>, records: map<int, Record>, t: int, now: int)
    requires AreTimedOut(fds, records, t, t) && Timely(records, now)
    ensures AreIdle(fds, records, t) <==> !SomeBusyAndOld(records, t)
  {
  }

  lemma IdleTimeoutAt(fds: seq<int>, records: map<int, Record>, clock: nat -> int, end: nat, now: int)
    requires AreTimedOut(fds, records, clock(0), clock(end)) && Timely(records, now)
    ensures Still(clock) ==> (AreIdle(fds, records, clock(0)) <==> !SomeBusyAndOld(records, clock(0)))
  {
    hide AreTimedOut, Timely, AreIdle, SomeBusyAndOld;
    if Still(clock) {
      IdleTimeoutIff(fds, records, clock(0), now);
    }
  }

  /** Each once, and without a timer any more. */
  ghost predicate TakenOff(fds: seq<int>, timers: Timers, keys: set<int>) {
    && (forall i, j :: 0 <= i < j < |fds| ==> fds[i] != fds[j])
    && (forall fd :: fd in fds ==> fd in keys && fd !in timers)
  }

  /** A listing of these timers holds only callbacks that remove their own timer. */
  lemma CallbacksAreOwn(l: Listing, m: Timers, records: map<int, Record>)
    requires Lists(l, m) && TimersMatch(m, records)
    ensures forall x :: x in l ==> OwnOnly(x)
  {
    hide InOrder;
  }

  /** Timers that ran out, and the connections they belong to. */
  lemma TimedOutConnections(m: Timers, records: map<int, Record>, fds: seq<int>, start: int, end: int)
    requires TimersMatch(m, records)
    requires forall i, j :: 0 <= i < j < |fds| ==> fds[i] != fds[j]
    requires forall fd :: fd in SetOf(fds) ==> fd in m && m[fd].deadline < end
    requires forall fd :: fd in m && m[fd].deadline < start ==> fd in SetOf(fds)
    ensures TakenOff(fds, m - SetOf(fds), records.Keys) && AreTimedOut(fds, records, start, end)
  {
    assert forall fd :: fd in fds ==> fd in SetOf(fds);
  }

  lemma AsManyTimers(m: Timers, records: map<int, Record>)
    requires TimersMatch(m, records)
    ensures |m| == |records|
  {
    assert m.Keys == records.Keys;
  }

  /** What a check of the timers comes to for the connections they belong to. */
  lemma ScanOfLoop(l: Listing, m: Timers, records: map<int, Record>, clock: nat -> int, fds: seq<int>, fired: Listing)
    requires Lists(l, m) && TimersMatch(m, records) && NeverBack(clock)
    requires fired == Fire(Expired(l, clock, 0), {}) && FdsAre(fds, fired)
    ensures m - Fds(Expired(l, clock, 0)) - RemovedBy(fired) == m - SetOf(fds)
    ensures TimersMatch(m - SetOf(fds), records - SetOf(fds)) && TakenOff(fds, m - SetOf(fds), records.Keys)
    ensures AreTimedOut(fds, records, clock(0), clock(|records|))
  {
    hide *;
    CallbacksAreOwn(l, m, records);
    OwnCallbacksScan(l, m, clock);
    SameFds(fds, fired);
    MatchRemoved(m, records, SetOf(fds));
    AsManyTimers(m, records);
    SameOrder(fds, fired);
    TimedOutConnections(m, records, fds, clock(0), clock(|records|));
  }

  lemma SameOrder(fds: seq<int>, l: Listing)
    requires FdsAre(fds, l) && forall i, j :: 0 <= i < j < |l| ==> l[i].0 != l[j].0
    ensures forall i, j :: 0 <= i < j < |fds| ==> fds[i] != fds[j]
  {
  }

  /** The connections behind a table, as values. */
  ghost function States<A>(m: Table<A>): (r: map<int, Conn>)
    reads m.Values
    ensures r.Keys == m.Keys
  {
    map fd | fd in m :: m[fd].State()
  }

  ghost function ClosedIn(states: map<int, Conn>, fds: seq<int>): map<int, Conn> {
    map fd | fd in states :: if fd in fds then states[fd].(closed := true) else states[fd]
  }

  class EventLoop<A> {
    const site: Site<A>
    const timer: TcpTimer
    var clients: Table<A>
    ghost var records: map<int, Record>
    /** The latest reading of the clock. */
    ghost var lastTime: int

    ghost predicate Valid()
      reads this, timer, timer.timerSet, clients.Values
    {
      && timer.Valid() && timer.lastSet <= lastTime
      && Listed(site, clients, records) && AllOpen(clients)
      && TimersMatch(timer.View(), records) && Timely(records, lastTime)
    }

    lemma WhenValid()
      requires Valid()
      ensures timer.Valid() && timer.lastSet <= lastTime && Listed(site, clients, records) && AllOpen(clients)
      ensures TimersMatch(timer.View(), records) && Timely(records, lastTime)
    {
    }

    lemma ThenValid()
      requires timer.Valid() && timer.lastSet <= lastTime && Listed(site, clients, records) && AllOpen(clients)
      requires TimersMatch(timer.View(), records) && Timely(records, lastTime)
      ensures Valid()
    {
    }

    constructor (site: Site<A>, ghost now: int)
      ensures Valid() && clients == map[] && records == map[] && this.site == site && lastTime == now
      ensures fresh(timer) && timer.timerSet == []
    {
      this.site := site;
      timer := new TcpTimer(now);
      clients := map[];
      records := map[];
      lastTime := now;
    }

    /** The part of accepting that concerns the table only. */
    method AddConnection(cfd: int, now: int)
      requires Listed(site, clients, records) && AllOpen(clients) && cfd !in clients
      modifies this`clients, this`records
      ensures Listed(site, clients, records) && AllOpen(clients)
      ensures cfd in clients && clients == old(clients)[cfd := clients[cfd]]
      ensures fresh(clients[cfd]) && clients[cfd].State() == FRESH
      ensures records == old(records)[cfd := NewRecord(now)]
    {
      hide SoundSoFar, Listed, AllOpen;
      var conn := new Server.HttpServer<A>(site);
      NewIsSound(NewRecord(now));
      UsedNone(Open(false));
      ListedWith(site, clients, records, cfd, conn, NewRecord(now));
      ghost var before := clients;
      clients := clients[cfd := conn];
      records := records[cfd := NewRecord(now)];
      assert clients - {cfd} == before;
      OpenWith(clients, cfd);
    }

    /** A connection accepted under a number that this loop does not use. */
    method AcceptConnection(cfd: int, now: int)
      requires Valid() && cfd !in clients && lastTime <= now
      modifies this`clients, this`records, this`lastTime, timer, timer.timerSet
      ensures Valid() && lastTime == now
      ensures cfd in clients && clients == old(clients)[cfd := clients[cfd]]
      ensures fresh(clients[cfd]) && clients[cfd].State() == FRESH
      ensures records == old(records)[cfd := NewRecord(now)]
      ensures forall n :: n in timer.timerSet ==> n in old(timer.timerSet) || fresh(n)
    {
      hide Listed, AllOpen, LinkedBy, TimersMatch, Timely;
      MatchAdded(timer.View(), records, cfd, now, timer.nextStamp);
      TimelyAdded(records, lastTime, cfd, now);
      AddConnection(cfd, now);
      SetupTimer(cfd, KEEP_ALIVE_TIMEOUT_MS, now);
      lastTime := now;
    }

    method SetupTimer(fd: int, timeout: int, now: int)
      requires timer.Valid() && timer.lastSet <= now && timeout <= INT_MAX
      modifies timer, timer.timerSet
      ensures timer.Valid() && timer.lastSet == now
      ensures forall n :: n in timer.timerSet ==> n in old(timer.timerSet) || fresh(n)
      ensures timer.View() == old(timer.View())[fd := Entry(now + timeout * MS, old(timer.nextStamp), CloseOn(fd))]
    {
      timer.AddTimer(fd, timeout, CloseOn(fd), now);
    }

    /** The part of closing that concerns the table only. */
    method RemoveConnection(fd: int)
      requires Listed(site, clients, records) && AllOpen(clients - {fd}) && fd in clients
      modifies this`clients, this`records, clients[fd]
      ensures Listed(site, clients, records) && AllOpen(clients)
      ensures clients == old(clients) - {fd} && records == old(records) - {fd}
      ensures old(clients[fd]).State() == old(clients[fd].State()).(closed := true)
      ensures CallsMatch(old(clients[fd]).calls, old(clients[fd]).State())
    {
      hide Listed, AllOpen, SoundSoFar, UsedAll;
      var conn := clients[fd];
      ListedConn(site, clients, records, fd);
      ListedWithout(site, clients, records, fd);
      clients := clients - {fd};
      records := records - {fd};
      if !conn.closed { CloseUses(conn.State()); }
      UsedAppend(Open(false), conn.calls, CloseCalls(conn.State()));
      UsedNone(SocketOf(conn.State()));
      conn.MarkClosed();
    }

    /** Out of the table, marked closed, timer removed; nothing when it is not in the table. */
    method CloseConnection(fd: int)
      requires timer.Valid() && Listed(site, clients, records) && AllOpen(clients - {fd})
      modifies this`clients, this`records, timer`timerMap, set n | n in timer.timerSet
      modifies if fd in clients then {clients[fd]} else {}
      ensures timer.Valid() && Listed(site, clients, records) && AllOpen(clients)
      ensures clients == old(clients) - {fd} && records == old(records) - {fd}
      ensures timer.View() == old(timer.View()) - if fd in old(clients) then {fd} else {}
      ensures fd in old(clients) ==>
        var conn := old(clients[fd]);
        conn.State() == old(clients[fd].State()).(closed := true) && CallsMatch(conn.calls, conn.State())
    {
      hide Listed, AllOpen, LinkedBy, CallsMatch;
      if fd !in clients {
        ListedFacts(site, clients, records);
        assert clients - {fd} == clients && records - {fd} == records;
        return;
      }
      RemoveConnection(fd);
      timer.RemoveTimer(fd, timer.timerSet);
    }

    /** A connection of the table handles its events; the table does not change. */
    method RunEvents(fd: int, hangUp: bool, readable: bool, writable: bool,
                     app: A, rs: seq<RecvResult>, io: seq<IoResult>, io': seq<IoResult>, ghost now: int)
      returns (app': A, sent: string, ghost answers: seq<Answer>)
      requires Listed(site, clients, records) && AllOpen(clients) && fd in clients
      modifies this`records, clients[fd]
      ensures Listed(site, clients, records) && AllOpen(clients - {fd}) && (hangUp ==> clients[fd].closed)
      ensures Outcome(app', clients[fd].State(), sent, answers)
              == Handled(site, app, old(clients[fd].State()), EventsOf(hangUp, readable, writable, rs, io, io'))
      ensures fd in old(records) && records == old(records)[fd := Extended(old(records[fd]), now, sent, answers)]
    {
      hide SoundSoFar, Handled, EventsOf, Extended, Listed, AllOpen, CallsMatch;
      var conn := clients[fd];
      ListedConn(site, clients, records, fd);
      ListedWithout(site, clients, records, fd);
      OpenWithout(clients, fd);
      HandledIsSound(site, app, conn.State(), records[fd], now, EventsOf(hangUp, readable, writable, rs, io, io'));
      app', sent, answers := HandleReady(conn, hangUp, readable, writable, app, rs, io, io');
      ghost var r := Extended(records[fd], now, sent, answers);
      ListedWith(site, clients - {fd}, records - {fd}, fd, conn, r);
      assert (clients - {fd})[fd := conn] == clients && (records - {fd})[fd := r] == records[fd := r];
      records := records[fd := r];
    }

    /** One event of a batch. A connection that has closed itself meanwhile leaves the table;
        handling does not touch the deadline of one that stays. */
    method HandleEvent(fd: int, hangUp: bool, readable: bool, writable: bool,
                       app: A, rs: seq<RecvResult>, io: seq<IoResult>, io': seq<IoResult>, ghost now: int)
      returns (app': A, sent: string)
      requires Valid() && lastTime <= now
      modifies this`clients, this`records, this`lastTime, timer`timerMap, set n | n in timer.timerSet
      modifies if fd in clients then {clients[fd]} else {}
      ensures Valid() && lastTime == now
      ensures fd !in old(clients) ==>
        app' == app && sent == "" && clients == old(clients) && records == old(records) && timer.View() == old(timer.View())
      ensures fd in old(clients) && hangUp ==> old(clients[fd]).closed && fd !in clients
      ensures fd in old(clients) ==>
        var conn := old(clients[fd]);
        var o := Handled(site, app, old(clients[fd].State()), EventsOf(hangUp, readable, writable, rs, io, io'));
        && app' == o.app && sent == o.sent && conn.State() == o.conn
        && (if conn.closed
            then clients == old(clients) - {fd} && records == old(records) - {fd} && timer.View() == old(timer.View()) - {fd}
            else clients == old(clients) && timer.View() == old(timer.View()) && fd in old(records)
                 && records == old(records)[fd := Extended(old(records[fd]), now, sent, o.answers)])
    {
      hide Listed, AllOpen, LinkedBy, Handled, TimersMatch, Timely, Extended, CallsMatch, EventsOf;
      app', sent := app, "";
      ghost var before := lastTime;
      lastTime := now;
      if fd !in clients {
        TimelyLater(records, before, now);
        return;
      }
      ListedFacts(site, clients, records);
      var conn := clients[fd];
      ghost var answers;
      app', sent, answers := RunEvents(fd, hangUp, readable, writable, app, rs, io, io', now);
      if conn.closed {
        MatchRemoved(timer.View(), old(records), {fd});
        TimelyLater(old(records), before, now);
        TimelyRemoved(old(records), now, {fd});
        WithoutIt(old(records), fd, records[fd]);
        CloseConnection(fd);
      } else {
        MatchExtended(timer.View(), old(records), fd, now, sent, answers);
        TimelyExtended(old(records), before, fd, now, sent, answers);
        OpenWith(clients, fd);
      }
    }

    /** Close the connections whose deadline has passed. */
    method CheckExpired(clock: nat -> int) returns (fds: seq<int>)
      requires Valid() && NeverBack(clock)
      modifies this`clients, this`records, timer, set n | n in timer.timerSet
      modifies clients.Values
      ensures Valid() && lastTime == old(lastTime)
      ensures clients == old(clients) - SetOf(fds) && records == old(records) - SetOf(fds)
      ensures TakenOff(fds, timer.View(), old(records).Keys) && AreTimedOut(fds, old(records), clock(0), clock(|old(records)|))
      ensures Still(clock) ==> (AreIdle(fds, old(records), clock(0)) <==> !SomeBusyAndOld(old(records), clock(0)))
      ensures States(old(clients)) == ClosedIn(old(States(clients)), fds)
    {
      hide *;
      WhenValid();
      fds := CheckTimersOnly(clock);
      TimelyRemoved(records, lastTime, SetOf(fds));
      IdleTimeoutAt(fds, records, clock, |records|, lastTime);
      CloseAll(fds);
      ThenValid();
    }

    /** The descriptors whose callbacks run in a check. */
    method CheckTimers(clock: nat -> int) returns (fds: seq<int>)
      requires timer.Valid() && TimersMatch(timer.View(), records) && NeverBack(clock)
      modifies timer, timer.timerSet
      ensures timer.Valid() && timer.lastSet == old(timer.lastSet) && TimersMatch(timer.View(), records - SetOf(fds))
      ensures TakenOff(fds, timer.View(), records.Keys)
      ensures forall n :: n in timer.timerSet ==> n in old(timer.timerSet)
      ensures AreTimedOut(fds, records, clock(0), clock(|records|))
    {
      hide *;
      timer.SetListsMap();
      ghost var l, m := LiveOf(timer.timerSet), timer.View();
      ghost var fired;
      fds, fired := timer.CheckExpired(clock);
      ScanOfLoop(l, m, records, clock, fds, fired);
    }

    /** A check of the timers leaves the connections alone. */
    method CheckTimersOnly(clock: nat -> int) returns (fds: seq<int>)
      requires timer.Valid() && TimersMatch(timer.View(), records) && NeverBack(clock)
      requires Listed(site, clients, records) && AllOpen(clients)
      modifies timer, timer.timerSet
      ensures Listed(site, clients, records) && AllOpen(clients) && States(clients) == old(States(clients))
      ensures timer.Valid() && timer.lastSet == old(timer.lastSet) && TimersMatch(timer.View(), records - SetOf(fds))
      ensures TakenOff(fds, timer.View(), records.Keys)
      ensures forall n :: n in timer.timerSet ==> n in old(timer.timerSet)
      ensures AreTimedOut(fds, records, clock(0), clock(|records|))
    {
      hide *;
      fds := CheckTimers(clock);
    }

    /** One of the timed-out connections; `before` is the table when the check started. */
    method CloseNext(ghost before: Table<A>, fd: int)
      requires timer.Valid() && Listed(site, clients, records) && AllOpen(clients) && fd in clients && fd !in timer.View()
      requires OneEach(before) && Within(clients, before)
      modifies this`clients, this`records, timer`timerMap, set n | n in timer.timerSet
      modifies clients[fd]
      ensures timer.Valid() && Listed(site, clients, records) && AllOpen(clients) && timer.View() == old(timer.View())
      ensures clients == old(clients) - {fd} && records == old(records) - {fd}
      ensures States(before) == old(States(before))[fd := old(States(before))[fd].(closed := true)]
    {
      hide Listed, AllOpen, LinkedBy, CallsMatch;
      OpenWithout(clients, fd);
      assert timer.View() - {fd} == timer.View();
      CloseConnection(fd);
      assert forall g :: g in before && g != fd ==> before[g].State() == old(before[g].State());
    }

    /** The connections whose timers have been taken off. */
    method CloseAll(fds: seq<int>)
      requires timer.Valid() && Listed(site, clients, records) && AllOpen(clients)
      requires TakenOff(fds, timer.View(), records.Keys)
      modifies this`clients, this`records, timer`timerMap, set n | n in timer.timerSet
      modifies clients.Values
      ensures timer.Valid() && Listed(site, clients, records) && AllOpen(clients) && timer.View() == old(timer.View())
      ensures clients == old(clients) - SetOf(fds) && records == old(records) - SetOf(fds)
      ensures States(old(clients)) == ClosedIn(old(States(clients)), fds)
    {
      hide *;
      ListedFacts(site, clients, records);
      ghost var before, states, timers, known := clients, States(clients), timer.View(), records;
      ghost var done := [];
      var i := 0;
      NoneDone(before, known, states, fds);
      while i < |fds|
        invariant i <= |fds| && done == fds[..i]
        invariant timer.Valid() && Listed(site, clients, records) && AllOpen(clients) && timer.View() == timers
        invariant clients == before - SetOf(done) && records == known - SetOf(done)
        invariant States(before) == ClosedIn(states, done)
      {
        NextDone(before, known, states, timers, fds, i);
        CloseNext(before, fds[i]);
        done := fds[..i + 1];
        i := i + 1;
      }
      AllDone(fds);
    }
  }

  lemma NoneDone<A>(m: Table<A>, records: map<int, Record>, states: map<int, Conn>, fds: seq<int>)
    ensures fds[..0] == [] && m - SetOf([]) == m && records - SetOf([]) == records && ClosedIn(states, []) == states
  {
    assert SetOf([]) == {};
  }

  lemma AllDone(fds: seq<int>)
    ensures fds[..|fds|] == fds
  {
  }

  /** What closing the next connection does to table, records and states. */
  lemma NextDone<A>(m: Table<A>, records: map<int, Record>, states: map<int, Conn>, timers: Timers, fds: seq<int>, i: nat)
    requires TakenOff(fds, timers, m.Keys) && i < |fds| && states.Keys == m.Keys
    ensures var done, next, fd := fds[..i], fds[..i + 1], fds[i];
            && fd in m - SetOf(done) && (m - SetOf(done))[fd] in m.Values && fd !in timers
            && Within(m - SetOf(done), m)
            && m - SetOf(done) - {fd} == m - SetOf(next) && records - SetOf(done) - {fd} == records - SetOf(next)
            && ClosedIn(states, done).Keys == states.Keys
            && ClosedIn(states, next) == ClosedIn(states, done)[fd := ClosedIn(states, done)[fd].(closed := true)]
  {
    assert fds[i] in fds && fds[..i + 1] == fds[..i] + [fds[i]];
  }

  lemma WithoutIt<T>(m: map<int, T>, fd: int, x: T)
    ensures m[fd := x] - {fd} == m - {fd}
  {
  }

  lemma TimelyLater(records: map<int, Record>, was: int, now: int)
    requires Timely(records, was) && was <= now
    ensures Timely(records, now)
  {
  }

  lemma HangUpCloses<A>(site: Site<A>, app: A, c: Conn, readable: bool, writable: bool,
                        rs: seq<RecvResult>, io: seq<IoResult>, io': seq<IoResult>)
    requires ValidQueue(c.outQueue)
    ensures Handled(site, app, c, EventsOf(true, readable, writable, rs, io, io'))
            == Outcome(app, c.(closed := true), "", [])
  {
    assert [HangUp][1..] == [];
  }

  lemma HandledInTurn<A>(site: Site<A>, app: A, c: Conn, readable: bool, writable: bool,
                         rs: seq<RecvResult>, io: seq<IoResult>, io': seq<IoResult>)
    requires ValidQueue(c.outQueue)
    ensures var first := if readable then OnRead(site, app, c, rs, io) else Outcome(app, c, "", []);
            var second := if writable then OnWrite(first.app, first.conn, io') else Outcome(first.app, first.conn, "", []);
            Handled(site, app, c, EventsOf(false, readable, writable, rs, io, io'))
              == Outcome(second.app, second.conn, first.sent + second.sent, first.answers)
  {
    hide OnRead, Flush, HandleAll;
    var start := Outcome(app, c, "", []);
    var first := if readable then OnRead(site, app, c, rs, io) else start;
    var ins, outs := if readable then [Readable(rs, io)] else [], if writable then [Writable(io')] else [];
    assert "" + first.sent == first.sent == first.sent + "" && [] + first.answers == first.answers == first.answers + [];
    if readable {
      HandleFirst(site, start, Readable(rs, io), outs);
    } else {
      assert ins + outs == outs;
    }
    assert Handled(site, app, c, ins + outs) == HandleAll(site, first, outs);
    HandleNone(site, first);
    if writable {
      HandleFirst(site, first, Writable(io'), []);
      HandleNone(site, After(site, first, Writable(io')));
      assert outs + [] == outs;
    }
  }

  lemma HandleFirst<A>(site: Site<A>, o: Outcome<A>, event: Event, rest: seq<Event>)
    requires ValidQueue(o.conn.outQueue)
    ensures HandleAll(site, o, [event] + rest) == HandleAll(site, After(site, o, event), rest)
  {
    hide After;
    assert ([event] + rest)[1..] == rest;
  }

  lemma HandleNone<A>(site: Site<A>, o: Outcome<A>)
    requires ValidQueue(o.conn.outQueue)
    ensures HandleAll(site, o, []) == o
  {
  }

  /** An error closes; otherwise reading comes before writing. */
  method HandleReady<A>(conn: Server.HttpServer<A>, hangUp: bool, readable: bool, writable: bool,
                        app: A, rs: seq<RecvResult>, io: seq<IoResult>, io': seq<IoResult>)
    returns (app': A, sent: string, ghost answers: seq<Answer>)
    requires conn.Valid() && CallsMatch(conn.calls, conn.State())
    modifies conn
    ensures conn.Valid() && CallsMatch(conn.calls, conn.State()) && (hangUp ==> conn.closed)
    ensures Outcome(app', conn.State(), sent, answers)
            == Handled(conn.site, app, old(conn.State()), EventsOf(hangUp, readable, writable, rs, io, io'))
  {
    hide Handled, OnRead, OnWrite, HandleCalls, CallsMatch;
    app', sent, answers := app, "", [];
    if hangUp {
      HangUpCloses(conn.site, app, conn.State(), readable, writable, rs, io, io');
      MoreCalls(conn.site, app, conn.calls, conn.State(), HangUp);
      HangUpCalls(conn.site, app, conn.State());
      conn.MarkClosed();
      return;
    }
    HandledInTurn(conn.site, app, conn.State(), readable, writable, rs, io, io');
    ghost var c := conn.State();
    if readable {
      MoreCalls(conn.site, app, conn.calls, c, Readable(rs, io));
      app', sent, answers := conn.HandleRead(app, rs, io);
    }
    ghost var first := if readable then OnRead(conn.site, app, c, rs, io) else Outcome(app, c, "", []);
    assert first == Outcome(app', conn.State(), sent, answers);
    if writable {
      MoreCalls(conn.site, app', conn.calls, conn.State(), Writable(io'));
      var more := conn.HandleWrite(app', io');
      sent := sent + more;
    } else {
      assert sent + "" == sent;
    }
  }

  lemma MoreCalls<A>(site: Site<A>, app: A, calls: seq<Call>, c: Conn, event: Event)
    requires ValidQueue(c.outQueue) && CallsMatch(calls, c)
    ensures CallsMatch(calls + HandleCalls(site, app, c, event), Handle(site, app, c, event).conn)
  {
    hide UsedAll, HandleCalls;
    EventUses(site, app, c, event);
    UsedAppend(Open(false), calls, HandleCalls(site, app, c, event));
  }

  lemma HangUpCalls<A>(site: Site<A>, app: A, c: Conn)
    requires ValidQueue(c.outQueue)
    ensures HandleCalls(site, app, c, HangUp) == CloseCalls(c)
  {
  }

  // ---------------------------------------------------------------- busy, and closed

  const SECOND: int := 1000 * MS

  /** Bytes that are not a request yet leave a new connection open. */
  lemma PartOfRequestIsKept<A>(site: Site<A>, app: A)
    ensures var o := Handled(site, app, FRESH, EventsOf(false, true, false, [Data("GET ")], [], []));
            !o.conn.closed
  {
    hide Receive, Process, Flush, Requests.ReadingOf, Handled;
    var rs, c1 := [Data("GET ")], FRESH.(inBuffer := "GET ");
    HandledInTurn(site, app, FRESH, true, false, rs, [], []);
    assert rs[1..] == [] && "" + "GET " == "GET ";
    ReceiveStep(FRESH, rs);
    ReceiveStep(c1, []);
    ShortIsNoRequest("GET ");
    ProcessStep(site, app, c1, []);
    FlushEmpty(c1, "", []);
  }

  lemma ShortIsNoRequest(s: string)
    requires |s| == 4 && s[0] != '\r'
    ensures Requests.ReadingOf(s).NeedMore?
  {
    assert s[0..4] == s;
  }

  /** A loop whose only connection was accepted at 0. */
  method NewLoop<A>(site: Site<A>) returns (loop: EventLoop<A>)
    ensures fresh(loop) && loop.Valid() && fresh(loop.timer) && loop.site == site && loop.lastTime == 0
    ensures forall n :: n in loop.timer.timerSet ==> fresh(n)
    ensures loop.clients.Keys == {7} && fresh(loop.clients[7])
    ensures loop.clients[7].State() == FRESH && loop.records == map[7 := NewRecord(0)]
  {
    hide Listed, AllOpen, LinkedBy, TimersMatch, Timely;
    loop := new EventLoop<A>(site, 0);
    loop.AcceptConnection(7, 0);
    assert loop.clients == map[7 := loop.clients[7]];
    assert loop.records == map[7 := NewRecord(0)];
  }

  /** A loop whose only connection was accepted at 0 and active at 29 seconds. */
  method BusyLoop<A>(site: Site<A>, app: A) returns (loop: EventLoop<A>)
    ensures fresh(loop) && loop.Valid() && fresh(loop.timer) && fresh(loop.clients.Values)
    ensures forall n :: n in loop.timer.timerSet ==> fresh(n)
    ensures loop.clients.Keys == loop.records.Keys == {7}
    ensures loop.records[7].accepted == 0 && loop.records[7].lastActive == 29 * SECOND
  {
    hide Listed, AllOpen, LinkedBy, Handled, EventsOf, TimersMatch, Timely, CallsMatch;
    loop := NewLoop(site);
    ghost var conn := loop.clients[7];
    assert loop.clients == map[7 := conn];
    PartOfRequestIsKept(site, app);
    var app', sent := loop.HandleEvent(7, false, true, false, app, [Data("GET ")], [], [], 29 * SECOND);
    assert !conn.closed && loop.clients == map[7 := conn];
    assert loop.clients.Keys == {7} && loop.clients.Values == {conn};
    assert loop.records.Keys == {7};
  }

  /** Two seconds of idleness later, the check at 31 seconds closes it. */
  method BusyIsClosed<A>(site: Site<A>, app: A) returns (before: set<int>, fds: seq<int>, after: set<int>)
    ensures before == {7} && 7 in fds && after == {}
  {
    hide Listed, AllOpen, LinkedBy, TimersMatch, Timely;
    var loop := BusyLoop(site, app);
    before := loop.clients.Keys;
    fds := loop.CheckExpired((k: nat) => 31 * SECOND);
    after := loop.clients.Keys;
  }
}
