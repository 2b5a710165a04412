/** All event loops of the process over one table of open descriptors. Descriptor numbers are
    reused by the kernel as soon as they are closed, by any loop; connections, timers and
    events name connections by number only. Every opening gets an identity of its own here, so
    that it can be said which connection a number stood for.

    A step is one stretch of a loop's code with at most one system call; a run interleaves the
    steps of all loops in any way, with any choice of new descriptor numbers. */
module Descriptors {
  import opened Text

  // ---------------------------------------------------------------- descriptors

  /** Who holds an open descriptor: another part of the process, a connection for its socket,
      or a connection (on descriptor `client`, identity `conn`) for a file in its queue. */
  datatype Owner =
    | System
    | ClientOf(loop: nat, id: nat)
    | FileOf(loop: nat, client: int, conn: nat, id: nat)

  /** `id` is the identity of the accepted socket; `files` are descriptor and identity. */
  datatype Conn = Conn(fd: int, id: nat, files: set<(int, nat)>)

  /** An entry of an epoll batch. `id` is the connection registered under the number when
      `epoll_wait` returned, which the code does not know. */
  datatype Event = Listen | Ready(fd: int, id: nat)

  /** What a loop is in the middle of: nothing; accepting; handling an event of the connection
      `id`, whose object it holds; closing one, already out of the connection table but with its socket open;
      destroying one whose socket is closed; or closing everything before it exits, `dead`
      being the connections whose sockets it has closed. */
  datatype Turn =
    | Idle
    | Accepting
    | Handling(fd: int, id: nat)
    | Closing(conn: Conn)
    | Dying(conn: Conn)
    | Stopping(dead: map<int, Conn>)

  datatype Loop = Loop(clients: map<int, Conn>, timers: map<int, nat>, batch: seq<Event>, turn: Turn)

  /** System calls that name a connection's socket by number, other than `close`. */
  datatype SocketCall = Recv | Send | SendFile | ModifyEvents | Deregister

  /** Such a call by `loop` for its connection `id`, and who held the number then. */
  datatype Use = Use(loop: nat, id: nat, fd: int, holder: Option<Owner>, call: SocketCall)

  /** `closed` lists the identities of the descriptors closed so far, `used` the socket calls. */
  datatype World = World(table: map<int, Owner>, loops: seq<Loop>, nextId: nat, closed: seq<nat>, used: seq<Use>)

  datatype Step =
    | Poll(events: seq<Event>)
    | BeginAccept
    | Accept(fd: int)
    | EndAccept
    | BeginEvent
    | UseSocket(call: SocketCall)
    | DeregisterStopped(fd: int)
    | OpenFile(file: int)
    | CloseFile(entry: (int, nat))
    | EndEvent
    | EraseHandled
    | Expire(fd: int)
    | CloseSocket
    | CloseLeftFile(entry: (int, nat))
    | Forget
    | LeaveBatch
    | Stop
    | StopSocket(fd: int)
    | StopFile(fd: int, entry: (int, nat))

  // ---------------------------------------------------------------- steps

  /** What `epoll_wait` can return: distinct registered connections, as they are now. */
  ghost predicate IsBatch(l: Loop, events: seq<Event>) {
    && (forall i :: 0 <= i < |events| && events[i].Ready? ==>
          events[i].fd in l.clients && l.clients[events[i].fd].id == events[i].id)
    && (forall i, j :: 0 <= i < j < |events| && events[i].Ready? && events[j].Ready? ==> events[i].fd != events[j].fd)
  }

  ghost predicate Enabled(w: World, i: nat, step: Step) {
    i < |w.loops| &&
    var l := w.loops[i];
    match step
    case Poll(events) => l.turn.Idle? && l.batch == [] && IsBatch(l, events)
    case BeginAccept => l.turn.Idle? && l.batch != [] && l.batch[0].Listen?
    case Accept(fd) => l.turn.Accepting? && fd !in w.table
    case EndAccept => l.turn.Accepting?
    case BeginEvent => l.turn.Idle? && l.batch != [] && l.batch[0].Ready?
    case UseSocket(call) => if call.Deregister? then l.turn.Closing? else l.turn.Handling?
    case DeregisterStopped(fd) => l.turn.Stopping? && fd in l.clients
    case OpenFile(file) => l.turn.Handling? && l.turn.fd in l.clients && file !in w.table
    case CloseFile(entry) => l.turn.Handling? && l.turn.fd in l.clients && entry in l.clients[l.turn.fd].files
    case EndEvent => l.turn.Handling?
    case EraseHandled => l.turn.Handling? && l.turn.fd in l.clients
    case Expire(fd) => l.turn.Idle? && l.batch == [] && fd in l.timers
    case CloseSocket => l.turn.Closing?
    case CloseLeftFile(entry) => l.turn.Dying? && entry in l.turn.conn.files
    case Forget => l.turn.Dying? && l.turn.conn.files == {}
    case LeaveBatch => l.turn.Idle?
    case Stop => l.turn.Idle?
    case StopSocket(fd) => l.turn.Stopping? && fd in l.clients
    case StopFile(fd, entry) =>
      l.turn.Stopping? && l.clients == map[] && fd in l.turn.dead && entry in l.turn.dead[fd].files
  }

  function SetLoop(w: World, i: nat, l: Loop): World
    requires i < |w.loops|
  {
    w.(loops := w.loops[i := l])
  }

  function Opened(w: World, fd: int, owner: Owner): World {
    w.(table := w.table[fd := owner], nextId := w.nextId + 1)
  }

  /** A call on the number `fd` by loop `i`, for its connection `id`. */
  function UsedBy(w: World, i: nat, fd: int, id: nat, call: SocketCall): World {
    w.(used := w.used + [Use(i, id, fd, if fd in w.table then Some(w.table[fd]) else None, call)])
  }

  /** `close(fd)` on the descriptor with identity `id`. */
  function Closed(w: World, fd: int, id: nat): World {
    w.(table := w.table - {fd}, closed := w.closed + [id])
  }

  /** `closeConnection` up to `close`: out of the connection table, timer removed. */
  function Erased(l: Loop, fd: int): Loop
    requires fd in l.clients
  {
    Loop(l.clients - {fd}, l.timers - {fd}, l.batch, Closing(l.clients[fd]))
  }

  ghost function Next(w: World, i: nat, step: Step): World {
    if !Enabled(w, i, step) then w
    else
      var l := w.loops[i];
      match step
      case Poll(events) => SetLoop(w, i, l.(batch := events))
      case BeginAccept => SetLoop(w, i, l.(batch := l.batch[1..], turn := Accepting))
      case Accept(fd) =>
        SetLoop(Opened(w, fd, ClientOf(i, w.nextId)), i,
                l.(clients := l.clients[fd := Conn(fd, w.nextId, {})], timers := l.timers[fd := w.nextId]))
      case EndAccept => SetLoop(w, i, l.(turn := Idle))
      case BeginEvent =>
        var fd := l.batch[0].fd;
        SetLoop(w, i, l.(batch := l.batch[1..], turn := if fd in l.clients then Handling(fd, l.clients[fd].id) else Idle))
      case UseSocket(call) =>
        if call.Deregister? then UsedBy(w, i, l.turn.conn.fd, l.turn.conn.id, call)
        else UsedBy(w, i, l.turn.fd, l.turn.id, call)
      case DeregisterStopped(fd) => UsedBy(w, i, fd, l.clients[fd].id, Deregister)
      case OpenFile(file) =>
        var c := l.clients[l.turn.fd];
        SetLoop(Opened(w, file, FileOf(i, c.fd, c.id, w.nextId)), i,
                l.(clients := l.clients[l.turn.fd := c.(files := c.files + {(file, w.nextId)})]))
      case CloseFile(entry) =>
        var c := l.clients[l.turn.fd];
        SetLoop(Closed(w, entry.0, entry.1), i, l.(clients := l.clients[l.turn.fd := c.(files := c.files - {entry})]))
      case EndEvent => SetLoop(w, i, l.(turn := Idle))
      case EraseHandled => SetLoop(w, i, Erased(l, l.turn.fd))
      case Expire(fd) =>
        SetLoop(w, i, if fd in l.clients then Erased(l, fd) else l.(timers := l.timers - {fd}))
      case CloseSocket => SetLoop(Closed(w, l.turn.conn.fd, l.turn.conn.id), i, l.(turn := Dying(l.turn.conn)))
      case CloseLeftFile(entry) =>
        SetLoop(Closed(w, entry.0, entry.1), i,
                l.(turn := Dying(l.turn.conn.(files := l.turn.conn.files - {entry}))))
      case Forget => SetLoop(w, i, l.(turn := Idle))
      case LeaveBatch => SetLoop(w, i, l.(batch := []))
      case Stop => SetLoop(w, i, l.(batch := [], turn := Stopping(map[])))
      case StopSocket(fd) =>
        var c := l.clients[fd];
        SetLoop(Closed(w, fd, c.id), i, l.(clients := l.clients - {fd}, turn := Stopping(l.turn.dead[fd := c])))
      case StopFile(fd, entry) =>
        var c := l.turn.dead[fd];
        SetLoop(Closed(w, entry.0, entry.1), i,
                l.(turn := Stopping(l.turn.dead[fd := c.(files := c.files - {entry})])))
  }

  // ---------------------------------------------------------------- ownership

  /** The connections a loop still refers to, with their sockets open or not. */
  predicate HoldsSocket(l: Loop, fd: int, id: nat) {
    || (fd in l.clients && l.clients[fd].id == id)
    || (l.turn.Closing? && l.turn.conn.fd == fd && l.turn.conn.id == id)
  }

  predicate ConnHolds(c: Conn, client: int, conn: nat, entry: (int, nat)) {
    c.fd == client && c.id == conn && entry in c.files
  }

  predicate HoldsFile(l: Loop, client: int, conn: nat, entry: (int, nat)) {
    || (client in l.clients && ConnHolds(l.clients[client], client, conn, entry))
    || ((l.turn.Closing? || l.turn.Dying?) && ConnHolds(l.turn.conn, client, conn, entry))
    || (l.turn.Stopping? && client in l.turn.dead && ConnHolds(l.turn.dead[client], client, conn, entry))
  }

  /** The table and the loops agree: each owner holds what the table says, and nobody else. */
  ghost predicate Owned(w: World) {
    && (forall fd :: fd in w.table && w.table[fd].ClientOf? ==>
          w.table[fd].loop < |w.loops| && HoldsSocket(w.loops[w.table[fd].loop], fd, w.table[fd].id))
    && (forall fd :: fd in w.table && w.table[fd].FileOf? ==>
          var o := w.table[fd];
          o.loop < |w.loops| && HoldsFile(w.loops[o.loop], o.client, o.conn, (fd, o.id)))
    && (forall i, fd, id :: 0 <= i < |w.loops| && HoldsSocket(w.loops[i], fd, id) ==>
          fd in w.table && w.table[fd] == ClientOf(i, id))
    && (forall i, client, conn, e :: 0 <= i < |w.loops| && HoldsFile(w.loops[i], client, conn, e) ==>
          e.0 in w.table && w.table[e.0] == FileOf(i, client, conn, e.1))
  }

  /** What holds inside one loop: timers belong to the connections they were armed for, the
      rest of a batch still names the connections it was polled for, each once, and the one
      being handled is out of the batch. */
  ghost predicate Tidy(l: Loop) {
    && (forall fd :: fd in l.clients ==> l.clients[fd].fd == fd)
    && (!l.turn.Stopping? ==> forall fd :: fd in l.timers ==> fd in l.clients && l.clients[fd].id == l.timers[fd])
    && (!l.turn.Stopping? ==> forall fd :: fd in l.clients ==> fd in l.timers)
    && IsBatch(l, l.batch)
    && (l.turn.Handling? ==> l.turn.fd in l.clients && l.clients[l.turn.fd].id == l.turn.id)
    && (l.turn.Handling? ==> forall k :: 0 <= k < |l.batch| && l.batch[k].Ready? ==> l.batch[k].fd != l.turn.fd)
    && (l.turn.Closing? || l.turn.Dying? ==> l.turn.conn.fd !in l.clients)
    && (l.turn.Stopping? ==> l.batch == [] && forall fd :: fd in l.turn.dead ==> fd !in l.clients && l.turn.dead[fd].fd == fd)
  }

  /** Every identity ever given out is that of one open descriptor, or was closed, once. */
  ghost predicate Counted(w: World) {
    && (forall fd :: fd in w.table && !w.table[fd].System? ==> w.table[fd].id < w.nextId && w.table[fd].id !in w.closed)
    && (forall f, g :: f in w.table && g in w.table && f != g && !w.table[f].System? && !w.table[g].System?
          ==> w.table[f].id != w.table[g].id)
    && (forall k :: 0 <= k < w.nextId && k !in w.closed ==>
          exists fd :: fd in w.table && !w.table[fd].System? && w.table[fd].id == k)
    && (forall k :: k in w.closed ==> k < w.nextId)
    && (forall a, b :: 0 <= a < b < |w.closed| ==> w.closed[a] != w.closed[b])
  }

  /** Every socket call so far hit the socket of the connection it was made for. */
  ghost predicate UsesOwn(w: World) {
    forall u :: u in w.used ==> u.holder == Some(ClientOf(u.loop, u.id))
  }

  ghost predicate Sound(w: World) {
    Owned(w) && Counted(w) && UsesOwn(w) && forall i :: 0 <= i < |w.loops| ==> Tidy(w.loops[i])
  }

  // ---------------------------------------------------------------- changes of ownership

  ghost predicate SameSockets(l: Loop, m: Loop) {
    forall fd, id :: HoldsSocket(m, fd, id) <==> HoldsSocket(l, fd, id)
  }

  ghost predicate SameFiles(l: Loop, m: Loop) {
    forall client, conn, e :: HoldsFile(m, client, conn, e) <==> HoldsFile(l, client, conn, e)
  }

  lemma KeepsHoldings(w: World, i: nat, m: Loop)
    requires Owned(w) && i < |w.loops| && SameSockets(w.loops[i], m) && SameFiles(w.loops[i], m)
    ensures Owned(SetLoop(w, i, m))
  {
    hide HoldsSocket, HoldsFile;
  }

  lemma GainsSocket(w: World, i: nat, m: Loop, fd: int)
    requires Owned(w) && i < |w.loops| && fd !in w.table && SameFiles(w.loops[i], m)
    requires forall f, id :: HoldsSocket(m, f, id) <==> HoldsSocket(w.loops[i], f, id) || (f == fd && id == w.nextId)
    ensures Owned(SetLoop(Opened(w, fd, ClientOf(i, w.nextId)), i, m))
  {
    hide HoldsSocket, HoldsFile;
  }

  lemma GainsFile(w: World, i: nat, m: Loop, file: int, client: int, conn: nat)
    requires Owned(w) && i < |w.loops| && file !in w.table && SameSockets(w.loops[i], m)
    requires forall c, n, e :: HoldsFile(m, c, n, e) <==>
      HoldsFile(w.loops[i], c, n, e) || (c == client && n == conn && e == (file, w.nextId))
    ensures Owned(SetLoop(Opened(w, file, FileOf(i, client, conn, w.nextId)), i, m))
  {
    hide HoldsSocket, HoldsFile;
  }

  lemma LosesSocket(w: World, i: nat, m: Loop, fd: int, id: nat)
    requires Owned(w) && i < |w.loops| && SameFiles(w.loops[i], m) && HoldsSocket(w.loops[i], fd, id)
    requires forall f, x :: HoldsSocket(m, f, x) <==> HoldsSocket(w.loops[i], f, x) && f != fd
    ensures Owned(SetLoop(Closed(w, fd, id), i, m))
  {
    hide HoldsSocket, HoldsFile;
  }

  lemma LosesFile(w: World, i: nat, m: Loop, client: int, conn: nat, entry: (int, nat))
    requires Owned(w) && i < |w.loops| && SameSockets(w.loops[i], m) && HoldsFile(w.loops[i], client, conn, entry)
    requires forall c, n, e :: HoldsFile(m, c, n, e) <==> HoldsFile(w.loops[i], c, n, e) && e.0 != entry.0
    ensures Owned(SetLoop(Closed(w, entry.0, entry.1), i, m))
  {
    hide HoldsSocket, HoldsFile;
  }

  lemma OpenedCounts(w: World, fd: int, owner: Owner)
    requires Counted(w) && fd !in w.table && !owner.System? && owner.id == w.nextId
    ensures Counted(Opened(w, fd, owner))
  {
    var v := Opened(w, fd, owner);
    forall k | 0 <= k < v.nextId && k !in v.closed
      ensures exists f :: f in v.table && !v.table[f].System? && v.table[f].id == k
    {
      if k == w.nextId {
        assert v.table[fd].id == k;
      } else {
        var f :| f in w.table && !w.table[f].System? && w.table[f].id == k;
        assert f in v.table;
      }
    }
  }

  lemma ClosedCounts(w: World, fd: int, id: nat)
    requires Counted(w) && fd in w.table && !w.table[fd].System? && w.table[fd].id == id
    ensures Counted(Closed(w, fd, id))
  {
    var v := Closed(w, fd, id);
    forall k | 0 <= k < v.nextId && k !in v.closed
      ensures exists f :: f in v.table && !v.table[f].System? && v.table[f].id == k
    {
      assert k != id by { assert v.closed[|w.closed|] == id; }
      assert k !in w.closed by { assert forall x :: x in w.closed ==> x in v.closed; }
      var f :| f in w.table && !w.table[f].System? && w.table[f].id == k;
      assert f in v.table;
    }
    assert forall x :: x in v.closed <==> x in w.closed || x == id;
  }

  lemma SameTable(w: World, i: nat, m: Loop)
    requires Counted(w) && i < |w.loops|
    ensures Counted(SetLoop(w, i, m))
  {
  }

  // ---------------------------------------------------------------- every step

  lemma SocketInTable(w: World, i: nat, fd: int, id: nat)
    requires Owned(w) && i < |w.loops| && HoldsSocket(w.loops[i], fd, id)
    ensures fd in w.table && w.table[fd] == ClientOf(i, id)
  {
    hide HoldsSocket, HoldsFile;
  }

  lemma FileInTable(w: World, i: nat, client: int, conn: nat, entry: (int, nat))
    requires Owned(w) && i < |w.loops| && HoldsFile(w.loops[i], client, conn, entry)
    ensures entry.0 in w.table && w.table[entry.0] == FileOf(i, client, conn, entry.1)
  {
    hide HoldsSocket, HoldsFile;
  }

  lemma ErasedKeeps(l: Loop, fd: int)
    requires Tidy(l) && fd in l.clients && (l.turn.Handling? || l.turn.Idle?)
    requires forall k :: 0 <= k < |l.batch| && l.batch[k].Ready? ==> l.batch[k].fd != fd
    ensures SameSockets(l, Erased(l, fd)) && SameFiles(l, Erased(l, fd)) && Tidy(Erased(l, fd))
  {
  }

  /** Steps that open and close nothing. */
  lemma PlainStep(w: World, i: nat, step: Step)
    requires Sound(w) && Enabled(w, i, step)
    requires step.Poll? || step.BeginAccept? || step.EndAccept? || step.BeginEvent? || step.EndEvent?
             || step.EraseHandled? || step.Expire? || step.Forget? || step.LeaveBatch? || step.Stop?
    ensures Sound(Next(w, i, step))
  {
    hide Owned, Counted;
    var l, m := w.loops[i], Next(w, i, step).loops[i];
    assert Tidy(l);
    if step.EraseHandled? {
      ErasedKeeps(l, l.turn.fd);
    } else if step.Expire? {
      ErasedKeeps(l, step.fd);
    }
    assert SameSockets(l, m) && SameFiles(l, m) && Tidy(m);
    KeepsHoldings(w, i, m);
    SameTable(w, i, m);
  }

  lemma AcceptStep(w: World, i: nat, fd: int)
    requires Sound(w) && Enabled(w, i, Accept(fd))
    ensures Sound(Next(w, i, Accept(fd)))
  {
    hide Owned, Counted;
    var l, m := w.loops[i], Next(w, i, Accept(fd)).loops[i];
    assert Tidy(l);
    assert fd !in l.clients by {
      if fd in l.clients { SocketInTable(w, i, fd, l.clients[fd].id); }
    }
    GainsSocket(w, i, m, fd);
    OpenedCounts(w, fd, ClientOf(i, w.nextId));
    SameTable(Opened(w, fd, ClientOf(i, w.nextId)), i, m);
  }

  lemma OpenFileStep(w: World, i: nat, file: int)
    requires Sound(w) && Enabled(w, i, OpenFile(file))
    ensures Sound(Next(w, i, OpenFile(file)))
  {
    hide Owned, Counted;
    var l, m := w.loops[i], Next(w, i, OpenFile(file)).loops[i];
    assert Tidy(l);
    var c := l.clients[l.turn.fd];
    GainsFile(w, i, m, file, c.fd, c.id);
    OpenedCounts(w, file, FileOf(i, c.fd, c.id, w.nextId));
    SameTable(Opened(w, file, FileOf(i, c.fd, c.id, w.nextId)), i, m);
  }

  /** Removing one file from what a loop holds. */
  lemma DropFile(w: World, i: nat, m: Loop, client: int, conn: nat, entry: (int, nat))
    requires Sound(w) && i < |w.loops| && SameSockets(w.loops[i], m) && HoldsFile(w.loops[i], client, conn, entry)
    requires forall c, n, e :: HoldsFile(m, c, n, e) <==>
      HoldsFile(w.loops[i], c, n, e) && !(c == client && n == conn && e == entry)
    requires Tidy(m)
    ensures Sound(SetLoop(Closed(w, entry.0, entry.1), i, m))
  {
    hide Owned, Counted, HoldsFile, HoldsSocket, Tidy;
    FileInTable(w, i, client, conn, entry);
    forall c, n, e ensures HoldsFile(m, c, n, e) <==> HoldsFile(w.loops[i], c, n, e) && e.0 != entry.0 {
      if HoldsFile(w.loops[i], c, n, e) { FileInTable(w, i, c, n, e); }
    }
    LosesFile(w, i, m, client, conn, entry);
    ClosedCounts(w, entry.0, entry.1);
    SameTable(Closed(w, entry.0, entry.1), i, m);
  }

  /** Removing one socket from what a loop holds. */
  lemma DropSocket(w: World, i: nat, m: Loop, fd: int, id: nat)
    requires Sound(w) && i < |w.loops| && SameFiles(w.loops[i], m) && HoldsSocket(w.loops[i], fd, id)
    requires forall f, x :: HoldsSocket(m, f, x) <==> HoldsSocket(w.loops[i], f, x) && !(f == fd && x == id)
    requires Tidy(m)
    ensures Sound(SetLoop(Closed(w, fd, id), i, m))
  {
    hide Owned, Counted, HoldsFile, HoldsSocket, Tidy;
    SocketInTable(w, i, fd, id);
    forall f, x ensures HoldsSocket(m, f, x) <==> HoldsSocket(w.loops[i], f, x) && f != fd {
      if HoldsSocket(w.loops[i], f, x) { SocketInTable(w, i, f, x); }
    }
    LosesSocket(w, i, m, fd, id);
    ClosedCounts(w, fd, id);
    SameTable(Closed(w, fd, id), i, m);
  }

  lemma SocketClosingStep(w: World, i: nat, step: Step)
    requires Sound(w) && Enabled(w, i, step) && (step.CloseSocket? || step.StopSocket?)
    ensures Sound(Next(w, i, step))
  {
    hide Owned, Counted, UsesOwn;
    var l, m := w.loops[i], Next(w, i, step).loops[i];
    assert Tidy(l);
    match step
    case CloseSocket =>
      DropSocket(w, i, m, l.turn.conn.fd, l.turn.conn.id);
    case StopSocket(fd) =>
      DropSocket(w, i, m, fd, l.clients[fd].id);
  }

  lemma FileClosingStep(w: World, i: nat, step: Step)
    requires Sound(w) && Enabled(w, i, step) && (step.CloseFile? || step.CloseLeftFile? || step.StopFile?)
    ensures Sound(Next(w, i, step))
  {
    hide Owned, Counted, UsesOwn;
    var l, m := w.loops[i], Next(w, i, step).loops[i];
    assert Tidy(l);
    match step
    case CloseFile(entry) =>
      var c := l.clients[l.turn.fd];
      DropFile(w, i, m, c.fd, c.id, entry);
    case CloseLeftFile(entry) =>
      DropFile(w, i, m, l.turn.conn.fd, l.turn.conn.id, entry);
    case StopFile(fd, entry) =>
      DropFile(w, i, m, fd, l.turn.dead[fd].id, entry);
  }

  lemma UseStep(w: World, i: nat, step: Step)
    requires Sound(w) && Enabled(w, i, step) && (step.UseSocket? || step.DeregisterStopped?)
    ensures Sound(Next(w, i, step))
  {
    hide HoldsFile;
    var l, v := w.loops[i], Next(w, i, step);
    assert Tidy(l);
    match step
    case UseSocket(call) =>
      if call.Deregister? {
        SocketInTable(w, i, l.turn.conn.fd, l.turn.conn.id);
      } else {
        SocketInTable(w, i, l.turn.fd, l.turn.id);
      }
    case DeregisterStopped(fd) => SocketInTable(w, i, fd, l.clients[fd].id);
  }

  lemma StepKeepsSound(w: World, i: nat, step: Step)
    requires Sound(w)
    ensures Sound(Next(w, i, step))
  {
    hide Sound;
    if Enabled(w, i, step) {
      match step
      case Accept(fd) => AcceptStep(w, i, fd);
      case OpenFile(file) => OpenFileStep(w, i, file);
      case UseSocket(_) => UseStep(w, i, step);
      case DeregisterStopped(_) => UseStep(w, i, step);
      case CloseFile(_) => FileClosingStep(w, i, step);
      case CloseSocket => SocketClosingStep(w, i, step);
      case CloseLeftFile(_) => FileClosingStep(w, i, step);
      case StopSocket(_) => SocketClosingStep(w, i, step);
      case StopFile(_, _) => FileClosingStep(w, i, step);
      case _ => PlainStep(w, i, step);
    }
  }

  // ---------------------------------------------------------------- every run

  /** Which loop takes which step. */
  type Schedule = seq<(nat, Step)>

  ghost function Run(w: World, schedule: Schedule): World
    decreases |schedule|
  {
    if schedule == [] then w else Run(Next(w, schedule[0].0, schedule[0].1), schedule[1..])
  }

  /** Loops without connections, next to descriptors that other parts of the process hold. */
  ghost predicate Fresh(w: World) {
    && (forall fd :: fd in w.table ==> w.table[fd].System?)
    && (forall i :: 0 <= i < |w.loops| ==> w.loops[i] == Loop(map[], map[], [], Idle))
    && w.nextId == 0 && w.closed == [] && w.used == []
  }

  lemma {:induction false} RunIsSound(w: World, schedule: Schedule)
    requires Sound(w)
    ensures Sound(Run(w, schedule))
    decreases |schedule|
  {
    hide Sound, Next;
    if schedule != [] {
      StepKeepsSound(w, schedule[0].0, schedule[0].1);
      RunIsSound(Next(w, schedule[0].0, schedule[0].1), schedule[1..]);
    }
  }

  lemma FreshIsSound(w: World)
    requires Fresh(w)
    ensures Sound(w)
  {
  }

  /** In every interleaving of all loops: the next event of a batch finds the very connection
      that was registered when the batch was polled, still open, however many numbers were
      closed and given out again since; so the look-up of its number never fails. */
  lemma EventMeetsItsConnection(w: World, schedule: Schedule, i: nat)
    requires Fresh(w) && i < |Run(w, schedule).loops|
    ensures var v := Run(w, schedule);
            var l := v.loops[i];
            forall k :: 0 <= k < |l.batch| && l.batch[k].Ready? ==>
              var e := l.batch[k];
              && e.fd in l.clients && l.clients[e.fd].id == e.id
              && e.fd in v.table && v.table[e.fd] == ClientOf(i, e.id)
  {
    hide Owned, Counted, Fresh;
    FreshIsSound(w);
    RunIsSound(w, schedule);
    var v := Run(w, schedule);
    var l := v.loops[i];
    assert Tidy(l);
    forall k | 0 <= k < |l.batch| && l.batch[k].Ready?
      ensures l.batch[k].fd in v.table && v.table[l.batch[k].fd] == ClientOf(i, l.batch[k].id)
    {
      SocketInTable(v, i, l.batch[k].fd, l.batch[k].id);
    }
  }

  /** Only loop `i` differs. */
  ghost predicate Becomes(w: World, v: World, i: nat, l: Loop) {
    i < |w.loops| && v == w.(loops := w.loops[i := l])
  }

  /** What `epoll_wait` reports is what the loop goes on to take, nothing left out. */
  lemma PolledIsTaken(w: World, schedule: Schedule, i: nat, events: seq<Event>)
    requires Enabled(Run(w, schedule), i, Poll(events))
    ensures var v := Run(w, schedule);
            Becomes(v, Next(v, i, Poll(events)), i, v.loops[i].(batch := events))
  {
    hide Run;
  }

  /** Taking an event off the batch hands it to the connection that was registered when the
      batch was polled; a report on the listening socket starts accepting. */
  lemma EventReachesItsConnection(w: World, schedule: Schedule, i: nat)
    requires Fresh(w) && i < |Run(w, schedule).loops|
    requires var l := Run(w, schedule).loops[i]; l.turn.Idle? && l.batch != []
    ensures var v := Run(w, schedule);
            var l := v.loops[i];
            var e := l.batch[0];
            if e.Ready? then
              && Enabled(v, i, BeginEvent)
              && Becomes(v, Next(v, i, BeginEvent), i, l.(batch := l.batch[1..], turn := Handling(e.fd, e.id)))
            else
              && Enabled(v, i, BeginAccept)
              && Becomes(v, Next(v, i, BeginAccept), i, l.(batch := l.batch[1..], turn := Accepting))
  {
    hide Run, Fresh;
    EventMeetsItsConnection(w, schedule, i);
  }

  /** An expired timer makes the loop close the connection it was armed for, out of the table
      and without a timer from then on; and so does a close while handling, for its connection. */
  lemma ClosingTakesTheRightOne(w: World, schedule: Schedule, i: nat, step: Step)
    requires Fresh(w) && Enabled(Run(w, schedule), i, step) && (step.Expire? || step.EraseHandled?)
    ensures var v := Run(w, schedule);
            var l := v.loops[i];
            var fd, id := if step.Expire? then step.fd else l.turn.fd, if step.Expire? then l.timers[step.fd] else l.turn.id;
            && fd in l.clients && l.clients[fd].id == id && l.clients[fd].fd == fd
            && Becomes(v, Next(v, i, step), i,
                       Loop(l.clients - {fd}, l.timers - {fd}, l.batch, Closing(l.clients[fd])))
  {
    hide Run, Owned, Counted, Fresh;
    FreshIsSound(w);
    RunIsSound(w, schedule);
    assert Tidy(Run(w, schedule).loops[i]);
  }

  /** Every connection of a loop has its timer until the loop stops. */
  lemma EveryConnectionIsTimed(w: World, schedule: Schedule, i: nat, fd: int)
    requires Fresh(w) && i < |Run(w, schedule).loops|
    requires var l := Run(w, schedule).loops[i]; !l.turn.Stopping? && fd in l.clients
    ensures var l := Run(w, schedule).loops[i]; fd in l.timers && l.timers[fd] == l.clients[fd].id
  {
    hide Run, Owned, Counted, Fresh;
    FreshIsSound(w);
    RunIsSound(w, schedule);
    assert Tidy(Run(w, schedule).loops[i]);
  }

  /** A timer closes only the connection it was armed for. */
  lemma TimerMeetsItsConnection(w: World, schedule: Schedule, i: nat, fd: int)
    requires Fresh(w) && i < |Run(w, schedule).loops|
    requires var l := Run(w, schedule).loops[i]; !l.turn.Stopping? && fd in l.timers
    ensures var v := Run(w, schedule);
            var l := v.loops[i];
            fd in l.clients && l.clients[fd].id == l.timers[fd] && fd in v.table && v.table[fd] == ClientOf(i, l.timers[fd])
  {
    hide Owned, Counted, Fresh;
    FreshIsSound(w);
    RunIsSound(w, schedule);
    var v := Run(w, schedule);
    assert Tidy(v.loops[i]);
    SocketInTable(v, i, fd, v.loops[i].timers[fd]);
  }

  /** Every `recv`, `send`, `sendfile` and `epoll_ctl` that any loop has made on a connection's
      socket named a number that was open then and belonged to that very connection. */
  lemma SocketCallsHitTheirOwn(w: World, schedule: Schedule)
    requires Fresh(w)
    ensures forall u :: u in Run(w, schedule).used ==> u.holder == Some(ClientOf(u.loop, u.id))
  {
    hide Owned, Counted, Fresh;
    FreshIsSound(w);
    RunIsSound(w, schedule);
  }

  predicate Closes(step: Step) {
    step.CloseFile? || step.CloseSocket? || step.CloseLeftFile? || step.StopSocket? || step.StopFile?
  }

  predicate OwnedBy(o: Owner, i: nat) { !o.System? && o.loop == i }

  /** Whatever a loop closes is open, is its own, and has not been closed before; every other
      descriptor of the process stays as it is. */
  lemma ClosesOwnOnce(w: World, schedule: Schedule, i: nat, step: Step)
    requires Fresh(w) && Closes(step) && Enabled(Run(w, schedule), i, step)
    ensures var v := Run(w, schedule);
            var v' := Next(v, i, step);
            exists fd :: fd in v.table && OwnedBy(v.table[fd], i)
              && v'.table == v.table - {fd} && v'.closed == v.closed + [v.table[fd].id]
              && v.table[fd].id !in v.closed
  {
    hide Owned, Fresh;
    FreshIsSound(w);
    RunIsSound(w, schedule);
    var v := Run(w, schedule);
    var l := v.loops[i];
    assert Tidy(l);
    var fd: int;
    match step {
      case CloseFile(entry) =>
        FileInTable(v, i, l.turn.fd, l.clients[l.turn.fd].id, entry);
        fd := entry.0;
      case CloseSocket =>
        SocketInTable(v, i, l.turn.conn.fd, l.turn.conn.id);
        fd := l.turn.conn.fd;
      case CloseLeftFile(entry) =>
        FileInTable(v, i, l.turn.conn.fd, l.turn.conn.id, entry);
        fd := entry.0;
      case StopSocket(f) =>
        SocketInTable(v, i, f, l.clients[f].id);
        fd := f;
      case StopFile(f, entry) =>
        FileInTable(v, i, f, l.turn.dead[f].id, entry);
        fd := entry.0;
    }
    assert fd in v.table && OwnedBy(v.table[fd], i);
  }

  /** Conservation: at every moment the descriptors ever opened are those closed, each once,
      and those open now, each under one number. */
  lemma OpenedAreClosedOrOpen(w: World, schedule: Schedule, id: nat)
    requires Fresh(w)
    ensures var v := Run(w, schedule);
            && (id < v.nextId <==> id in v.closed || exists fd :: fd in v.table && !v.table[fd].System? && v.table[fd].id == id)
            && !(id in v.closed && exists fd :: fd in v.table && !v.table[fd].System? && v.table[fd].id == id)
            && multiset(v.closed)[id] <= 1
  {
    hide Owned, Tidy, Fresh;
    FreshIsSound(w);
    RunIsSound(w, schedule);
    DistinctOnce(Run(w, schedule).closed, id);
  }

  lemma {:induction false} DistinctOnce(s: seq<nat>, x: nat)
    requires forall a, b :: 0 <= a < b < |s| ==> s[a] != s[b]
    ensures multiset(s)[x] <= 1
  {
    if s != [] {
      var t := s[..|s| - 1];
      assert s == t + [s[|s| - 1]];
      DistinctOnce(t, x);
      assert s[|s| - 1] !in t;
    }
  }

  /** A loop that has closed its connections and their files. */
  predicate Finished(l: Loop) {
    l.turn.Stopping? && l.clients == map[] && forall fd :: fd in l.turn.dead ==> l.turn.dead[fd].files == {}
  }

  /** When all loops have finished, nothing they opened is left open. */
  lemma NothingLeaks(w: World, schedule: Schedule)
    requires Fresh(w) && forall i :: 0 <= i < |Run(w, schedule).loops| ==> Finished(Run(w, schedule).loops[i])
    ensures forall fd :: fd in Run(w, schedule).table ==> Run(w, schedule).table[fd].System?
  {
    hide Counted, Tidy, Fresh;
    FreshIsSound(w);
    RunIsSound(w, schedule);
    var v := Run(w, schedule);
    assert Owned(v);
  }

  // ---------------------------------------------------------------- every run can be ended

  ghost predicate OnlyLoop(w: World, v: World, i: nat) {
    |v.loops| == |w.loops| && forall j :: 0 <= j < |w.loops| && j != i ==> v.loops[j] == w.loops[j]
  }

  lemma {:induction false} RunAppend(w: World, a: Schedule, b: Schedule)
    ensures Run(w, a + b) == Run(Run(w, a), b)
    decreases |a|
  {
    hide Next;
    if a == [] {
      assert a + b == b;
    } else {
      assert (a + b)[1..] == a[1..] + b;
      RunAppend(Next(w, a[0].0, a[0].1), a[1..], b);
    }
  }

  /** A first step in front of a run of the same loop. */
  lemma ThenMore(w: World, i: nat, step: Step, more: Schedule)
    requires i < |w.loops| && OnlyLoop(Next(w, i, step), Run(Next(w, i, step), more), i)
    requires OnlyLoop(w, Next(w, i, step), i)
    ensures Run(w, [(i, step)] + more) == Run(Next(w, i, step), more)
    ensures OnlyLoop(w, Run(w, [(i, step)] + more), i)
  {
    hide Next;
    assert ([(i, step)] + more)[1..] == more;
  }

  lemma StepIsOwn(w: World, i: nat, step: Step)
    requires i < |w.loops|
    ensures OnlyLoop(w, Next(w, i, step), i)
  {
  }

  /** Finishing what the loop is in the middle of. */
  lemma {:induction false} CanIdle(w: World, i: nat) returns (more: Schedule)
    requires i < |w.loops| && !w.loops[i].turn.Stopping?
    ensures var v := Run(w, more); OnlyLoop(w, v, i) && v.loops[i].turn.Idle?
    decreases match w.loops[i].turn
              case Closing(c) => |c.files| + 2
              case Dying(c) => |c.files| + 1
              case _ => 0
  {
    hide Run;
    var turn := w.loops[i].turn;
    if turn.Idle? {
      RunNone(w);
      return [];
    }
    var step :=
      match turn
      case Accepting => EndAccept
      case Handling(_, _) => EndEvent
      case Closing(_) => CloseSocket
      case Dying(c) => if c.files == {} then Forget else var e :| e in c.files; CloseLeftFile(e)
      case _ => LeaveBatch;
    StepIsOwn(w, i, step);
    var v := Next(w, i, step);
    if v.loops[i].turn.Idle? {
      RunNone(v);
      more := [];
    } else {
      more := CanIdle(v, i);
    }
    ThenMore(w, i, step, more);
    more := [(i, step)] + more;
  }

  lemma RunNone(w: World)
    ensures Run(w, []) == w
  {
  }

  lemma NoClients(clients: map<int, Conn>)
    requires forall fd :: fd !in clients
    ensures clients == map[]
  {
    assert forall fd :: fd !in clients.Keys;
  }

  /** `closeAllConnections`: the sockets, one after another. */
  lemma {:induction false} CanStopSockets(w: World, i: nat) returns (more: Schedule)
    requires i < |w.loops| && w.loops[i].turn.Stopping?
    ensures var v := Run(w, more); OnlyLoop(w, v, i) && v.loops[i].turn.Stopping? && v.loops[i].clients == map[]
    decreases |w.loops[i].clients|
  {
    hide Run;
    var l := w.loops[i];
    if fd :| fd in l.clients {
      var step := StopSocket(fd);
      StepIsOwn(w, i, step);
      assert (l.clients - {fd}).Keys == l.clients.Keys - {fd};
      more := CanStopSockets(Next(w, i, step), i);
      ThenMore(w, i, step, more);
      more := [(i, step)] + more;
    } else {
      NoClients(l.clients);
      RunNone(w);
      more := [];
    }
  }

  /** The connections whose files are not all closed. */
  function Unfinished(dead: map<int, Conn>): set<int> { set fd | fd in dead && dead[fd].files != {} }

  /** Then the files of one connection, one after another. */
  lemma {:induction false} CanStopFiles(w: World, i: nat, fd: int) returns (more: Schedule)
    requires i < |w.loops| && w.loops[i].turn.Stopping? && w.loops[i].clients == map[] && fd in w.loops[i].turn.dead
    ensures var v := Run(w, more);
            && OnlyLoop(w, v, i) && v.loops[i].turn.Stopping? && v.loops[i].clients == map[]
            && Unfinished(v.loops[i].turn.dead) == Unfinished(w.loops[i].turn.dead) - {fd}
    decreases |w.loops[i].turn.dead[fd].files|
  {
    hide Run;
    var dead := w.loops[i].turn.dead;
    if dead[fd].files == {} {
      RunNone(w);
      assert Unfinished(dead) == Unfinished(dead) - {fd};
      return [];
    }
    var entry :| entry in dead[fd].files;
    var step := StopFile(fd, entry);
    StepIsOwn(w, i, step);
    var v := Next(w, i, step);
    assert Unfinished(v.loops[i].turn.dead) - {fd} == Unfinished(dead) - {fd};
    more := CanStopFiles(v, i, fd);
    ThenMore(w, i, step, more);
    more := [(i, step)] + more;
  }

  lemma {:induction false} CanStopAllFiles(w: World, i: nat) returns (more: Schedule)
    requires i < |w.loops| && w.loops[i].turn.Stopping? && w.loops[i].clients == map[]
    ensures var v := Run(w, more); OnlyLoop(w, v, i) && Finished(v.loops[i])
    decreases |Unfinished(w.loops[i].turn.dead)|
  {
    hide Run;
    var dead := w.loops[i].turn.dead;
    if fd :| fd in dead && dead[fd].files != {} {
      var first := CanStopFiles(w, i, fd);
      assert fd in Unfinished(dead);
      var rest := CanStopAllFiles(Run(w, first), i);
      RunAppend(w, first, rest);
      more := first + rest;
    } else {
      RunNone(w);
      more := [];
    }
  }

  /** From wherever it is, a loop can finish its turn, stop, and close everything. */
  lemma LoopCanFinish(w: World, i: nat) returns (more: Schedule)
    requires i < |w.loops|
    ensures var v := Run(w, more); OnlyLoop(w, v, i) && Finished(v.loops[i])
  {
    hide Run, Finished;
    var idle: Schedule := [];
    RunNone(w);
    if !w.loops[i].turn.Stopping? {
      idle := CanIdle(w, i);
      var u := Run(w, idle);
      StepIsOwn(u, i, Stop);
      RunNone(Next(u, i, Stop));
      ThenMore(u, i, Stop, []);
      RunAppend(w, idle, [(i, Stop)] + []);
      idle := idle + ([(i, Stop)] + []);
    }
    var sockets := CanStopSockets(Run(w, idle), i);
    RunAppend(w, idle, sockets);
    var files := CanStopAllFiles(Run(w, idle + sockets), i);
    RunAppend(w, idle + sockets, files);
    more := idle + sockets + files;
  }

  lemma {:induction false} LoopsCanFinish(w: World, n: nat) returns (more: Schedule)
    requires n <= |w.loops|
    ensures var v := Run(w, more); |v.loops| == |w.loops| && forall i :: 0 <= i < n ==> Finished(v.loops[i])
  {
    hide Run, Finished;
    if n == 0 {
      RunNone(w);
      return [];
    }
    var first := LoopsCanFinish(w, n - 1);
    var last := LoopCanFinish(Run(w, first), n - 1);
    RunAppend(w, first, last);
    more := first + last;
  }

  /** Whatever has happened, all loops can finish from there, and then everything they ever
      opened has been closed, once. */
  lemma EveryRunCanFinish(w: World, schedule: Schedule) returns (more: Schedule)
    requires Fresh(w)
    ensures var v := Run(w, schedule + more);
            && (forall i :: 0 <= i < |v.loops| ==> Finished(v.loops[i]))
            && (forall fd :: fd in v.table ==> v.table[fd].System?)
            && (forall id :: 0 <= id < v.nextId ==> multiset(v.closed)[id] == 1)
  {
    hide Run, Finished, Fresh;
    more := LoopsCanFinish(Run(w, schedule), |Run(w, schedule).loops|);
    RunAppend(w, schedule, more);
    NothingLeaks(w, schedule + more);
    var v := Run(w, schedule + more);
    forall id | 0 <= id < v.nextId ensures multiset(v.closed)[id] == 1 {
      OpenedAreClosedOrOpen(w, schedule + more, id);
    }
  }
}
