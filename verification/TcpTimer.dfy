/** The timers of one event loop: a multiset of nodes in deadline order and a hash map by
    descriptor, kept in step by marking replaced and removed nodes deleted and dropping them
    lazily. Together they are a plain map from descriptor to deadline and callback.

    Times are nanoseconds of a clock that never goes back; timeouts are milliseconds. */
module TcpTimer {

  const MS: int := 1_000_000
  const INT_MAX: int := 0x7FFF_FFFF

  /** The descriptors whose timers a callback removes when it runs. */
  datatype Callback = Callback(id: nat, removes: seq<int>)

  /** `stamp` numbers timers in the order in which they were set. */
  datatype Entry = Entry(deadline: int, stamp: nat, callback: Callback)

  type Timers = map<int, Entry>
  type Listing = seq<(int, Entry)>

  // ---------------------------------------------------------------- expiry on the plain map

  predicate Earlier(a: Entry, b: Entry) {
    a.deadline < b.deadline || (a.deadline == b.deadline && a.stamp < b.stamp)
  }

  predicate InOrder(l: Listing) {
    forall i, j :: 0 <= i < j < |l| ==> Earlier(l[i].1, l[j].1)
  }

  /** All timers of `m`, earliest deadline first, ties in the order in which they were set. */
  ghost predicate Lists(l: Listing, m: Timers) {
    && InOrder(l)
    && (forall x :: x in l <==> x.0 in m && m[x.0] == x.1)
    && (forall i, j :: 0 <= i < j < |l| ==> l[i].0 != l[j].0)
  }

  /** The timers a scan takes off: it reads the clock once per timer, from reading `k` on. */
  function Expired(l: Listing, clock: nat -> int, k: nat): Listing {
    if l == [] || clock(k) <= l[0].1.deadline then [] else [l[0]] + Expired(l[1..], clock, k + 1)
  }

  function SetOf(s: seq<int>): set<int> { set x | x in s }

  /** Running callbacks in order, skipping the timers that an earlier one has removed. */
  function Fire(l: Listing, gone: set<int>): Listing
    decreases |l|
  {
    if l == [] then []
    else if l[0].0 in gone then Fire(l[1..], gone)
    else [l[0]] + Fire(l[1..], gone + SetOf(l[0].1.callback.removes))
  }

  function Fds(l: Listing): set<int> { set x | x in l :: x.0 }

  /** The descriptors of a listing, in order. */
  predicate FdsAre(fds: seq<int>, l: Listing) {
    |fds| == |l| && forall i :: 0 <= i < |l| ==> fds[i] == l[i].0
  }

  function RemovedBy(fired: Listing): set<int> {
    if fired == [] then {} else RemovedBy(fired[..|fired| - 1]) + SetOf(fired[|fired| - 1].1.callback.removes)
  }

  ghost predicate NeverBack(clock: nat -> int) {
    forall i: nat, j: nat :: i <= j ==> clock(i) <= clock(j)
  }

  /** What a scan takes off: everything due when it starts, nothing that is not due when it
      ends, and always the earliest ones. */
  lemma {:induction false} ExpiredIsPrefix(l: Listing, clock: nat -> int, k: nat)
    requires InOrder(l) && NeverBack(clock)
    ensures var e := Expired(l, clock, k);
            && e <= l
            && (forall x :: x in e ==> x.1.deadline < clock(k + |l|))
            && (forall x :: x in l[|e|..] ==> x.1.deadline >= clock(k))
  {
    if l != [] {
      if clock(k) <= l[0].1.deadline {
        forall x | x in l ensures x.1.deadline >= clock(k) {
          var i :| 0 <= i < |l| && l[i] == x;
          assert i > 0 ==> Earlier(l[0].1, l[i].1);
        }
      } else {
        ExpiredIsPrefix(l[1..], clock, k + 1);
        assert clock(k) <= clock(k + 1) <= clock(k + |l|);
      }
    }
  }

  /** A callback that removes at most its own timer, as the event loop's do. */
  predicate OwnOnly(x: (int, Entry)) { forall fd :: fd in x.1.callback.removes ==> fd == x.0 }

  lemma {:induction false} FireAll(l: Listing, gone: set<int>)
    requires forall x :: x in l ==> OwnOnly(x) && x.0 !in gone
    requires forall i, j :: 0 <= i < j < |l| ==> l[i].0 != l[j].0
    ensures Fire(l, gone) == l
    decreases |l|
  {
    if l != [] {
      assert l[0] in l;
      forall x | x in l[1..] ensures OwnOnly(x) && x.0 !in gone + SetOf(l[0].1.callback.removes) {
        assert x in l;
        var j :| 1 <= j < |l| && l[j] == x;
      }
      FireAll(l[1..], gone + SetOf(l[0].1.callback.removes));
    }
  }

  /** With a clock that stands still at `t` and the event loop's callbacks, a check fires the
      timers whose deadline has passed: all of them, once each, in deadline order with ties
      in setting order. */
  lemma FiresExactlyTheExpired(l: Listing, m: Timers, clock: nat -> int, t: int)
    requires Lists(l, m) && (forall x :: x in l ==> OwnOnly(x)) && forall k: nat :: clock(k) == t
    ensures var fired := Fire(Expired(l, clock, 0), {});
            && InOrder(fired) && fired == Expired(l, clock, 0)
            && (forall fd, e :: (fd, e) in fired <==> fd in m && m[fd] == e && e.deadline < t)
            && (forall i, j :: 0 <= i < j < |fired| ==> fired[i].0 != fired[j].0)
  {
    hide Expired, Fire, Earlier;
    var due := Expired(l, clock, 0);
    ExpiredIsPrefix(l, clock, 0);
    assert forall i :: 0 <= i < |due| ==> due[i] == l[i];
    FireAll(due, {});
    forall fd, e ensures (fd, e) in due <==> fd in m && m[fd] == e && e.deadline < t {
      assert (fd, e) in l <==> fd in m && m[fd] == e;
      if (fd, e) in l && (fd, e) !in due {
        assert (fd, e) in l[|due|..] by {
          assert l == due + l[|due|..];
        }
      }
    }
  }

  /** The same with a clock that moves on during the check: whatever is due when it starts is
      taken off, nothing that is not due when it ends, and the plain map loses just these. */
  lemma OwnCallbacksScan(l: Listing, m: Timers, clock: nat -> int)
    requires Lists(l, m) && (forall x :: x in l ==> OwnOnly(x)) && NeverBack(clock)
    ensures var due := Expired(l, clock, 0);
            && Fire(due, {}) == due
            && m - Fds(due) - RemovedBy(due) == m - Fds(due)
            && (forall i, j :: 0 <= i < j < |due| ==> due[i].0 != due[j].0)
            && (forall fd :: fd in Fds(due) ==> fd in m && m[fd].deadline < clock(|m|))
            && (forall fd :: fd in m && m[fd].deadline < clock(0) ==> fd in Fds(due))
  {
    hide Expired, Fire, InOrder, RemovedBy;
    var due := Expired(l, clock, 0);
    ExpiredIsPrefix(l, clock, 0);
    assert l == due + l[|due|..] && forall i :: 0 <= i < |due| ==> due[i] == l[i];
    FireAll(due, {});
    RemovesOnlyFired(due);
    OnePerTimer(l, m);
    forall fd | fd in m && m[fd].deadline < clock(0) ensures fd in Fds(due) {
      var x := (fd, m[fd]);
      assert x in l && x !in l[|due|..];
    }
  }

  lemma OnePerTimer(l: Listing, m: Timers)
    requires Lists(l, m)
    ensures |l| == |m|
  {
    hide InOrder;
    assert Fds(l) == m.Keys by {
      forall fd | fd in m ensures fd in Fds(l) {
        assert (fd, m[fd]) in l;
      }
    }
    DistinctFds(l);
  }

  lemma {:induction false} DistinctFds(l: Listing)
    requires forall i, j :: 0 <= i < j < |l| ==> l[i].0 != l[j].0
    ensures |Fds(l)| == |l|
  {
    hide Fds;
    if l == [] {
      NoFds();
    } else {
      var n := |l| - 1;
      DistinctFds(l[..n]);
      FdsSnoc(l[..n], l[n]);
      assert l[..n] + [l[n]] == l;
      assert l[n].0 !in Fds(l[..n]) by { LastIsNew(l); }
    }
  }

  lemma NoFds()
    ensures Fds([]) == {}
  {
  }

  lemma LastIsNew(l: Listing)
    requires l != [] && forall i, j :: 0 <= i < j < |l| ==> l[i].0 != l[j].0
    ensures l[|l| - 1].0 !in Fds(l[..|l| - 1])
  {
  }

  lemma {:induction false} RemovesOnlyFired(fired: Listing)
    requires forall x :: x in fired ==> OwnOnly(x)
    ensures RemovedBy(fired) <= Fds(fired)
  {
    if fired != [] {
      var n := |fired| - 1;
      RemovesOnlyFired(fired[..n]);
      FdsSnoc(fired[..n], fired[n]);
      assert fired[..n] + [fired[n]] == fired && fired[n] in fired && OwnOnly(fired[n]);
      forall fd | fd in SetOf(fired[n].1.callback.removes) ensures fd == fired[n].0 {
        assert fd in fired[n].1.callback.removes;
      }
    }
  }

  /** A timer fires unless an earlier callback of the same check removed it; none fires twice. */
  lemma {:induction false} FiredUnlessRemoved(l: Listing, gone: set<int>, i: nat)
    requires i < |l| && forall a, b :: 0 <= a < b < |l| ==> l[a].0 != l[b].0
    ensures l[i] in Fire(l, gone) <==> l[i].0 !in gone + RemovedBy(Fire(l[..i], gone))
    decreases |l|
  {
    if i == 0 {
      assert l[..0] == [];
      FireKeepsFds(l[1..], gone);
      FireKeepsFds(l[1..], gone + SetOf(l[0].1.callback.removes));
    } else {
      var later := l[1..];
      assert later[i - 1] == l[i] && later[..i - 1] == l[..i][1..];
      if l[0].0 in gone {
        FiredUnlessRemoved(later, gone, i - 1);
      } else {
        var first := SetOf(l[0].1.callback.removes);
        FiredUnlessRemoved(later, gone + first, i - 1);
        RemovedByCons(l[0], Fire(later[..i - 1], gone + first));
        assert l[i] != l[0];
      }
    }
  }

  lemma {:induction false} FireKeepsFds(l: Listing, gone: set<int>)
    ensures forall x :: x in Fire(l, gone) ==> x in l
    decreases |l|
  {
    if l != [] {
      FireKeepsFds(l[1..], gone);
      FireKeepsFds(l[1..], gone + SetOf(l[0].1.callback.removes));
    }
  }

  lemma {:induction false} RemovedByCons(x: (int, Entry), rest: Listing)
    ensures RemovedBy([x] + rest) == SetOf(x.1.callback.removes) + RemovedBy(rest)
  {
    var l := [x] + rest;
    if rest == [] {
      assert l == [x] && l[..0] == [];
    } else {
      var n := |rest| - 1;
      assert l[..|l| - 1] == [x] + rest[..n];
      RemovedByCons(x, rest[..n]);
    }
  }

  // ---------------------------------------------------------------- nodes

  class TimerNode {
    const fd: int
    const expire: int
    const callback: Callback
    ghost const stamp: nat
    var deleted: bool

    constructor (fd: int, timeout: int, callback: Callback, now: int, ghost stamp: nat)
      ensures this.fd == fd && this.expire == now + timeout * MS && this.callback == callback
      ensures this.stamp == stamp && !deleted
    {
      this.fd, this.expire, this.callback := fd, now + timeout * MS, callback;
      this.stamp, deleted := stamp, false;
    }

    ghost function Value(): Entry { Entry(expire, stamp, callback) }

    predicate IsExpired(now: int) { now > expire }

    method MarkDeleted()
      modifies this
      ensures deleted
    {
      deleted := true;
    }
  }

  /** Where `std::multiset` inserts: after every node whose deadline is not later. */
  function Inserted(s: seq<TimerNode>, node: TimerNode): (r: seq<TimerNode>)
    ensures |r| == |s| + 1
    ensures forall i :: 0 <= i < |r| ==> r[i] == node || r[i] in s
    ensures node in r && forall i :: 0 <= i < |s| ==> s[i] in r
  {
    if s == [] || node.expire < s[0].expire then [node] + s
    else [s[0]] + Inserted(s[1..], node)
  }

  lemma InsertedMembers(s: seq<TimerNode>, node: TimerNode)
    ensures forall n :: n in Inserted(s, node) <==> n == node || n in s
  {
    hide Inserted;
  }

  ghost predicate Sorted(s: seq<TimerNode>) {
    forall i, j :: 0 <= i < j < |s| ==> Earlier(s[i].Value(), s[j].Value())
  }

  /** The nodes in `m` are exactly the live ones of `all`, each under its descriptor. */
  ghost predicate LinkedBy(all: seq<TimerNode>, m: map<int, TimerNode>)
    reads all
  {
    && Sorted(all)
    && (forall fd :: fd in m ==> m[fd] in all && !m[fd].deleted && m[fd].fd == fd)
    && (forall n :: n in all && !n.deleted ==> n.fd in m && m[n.fd] == n)
  }

  /** A new live node for a descriptor without one. */
  lemma LinkedInsert(all: seq<TimerNode>, m: map<int, TimerNode>, node: TimerNode)
    requires LinkedBy(all, m) && node.fd !in m && !node.deleted && forall n :: n in all ==> n.stamp < node.stamp
    ensures LinkedBy(Inserted(all, node), m[node.fd := node])
  {
    hide Inserted, Sorted;
    InsertedIsSorted(all, node);
    InsertedMembers(all, node);
  }

  lemma {:induction false} InsertedIsSorted(s: seq<TimerNode>, node: TimerNode)
    requires Sorted(s) && forall n :: n in s ==> n.stamp < node.stamp
    ensures Sorted(Inserted(s, node))
  {
    if s != [] && !(node.expire < s[0].expire) {
      InsertedIsSorted(s[1..], node);
      var r := Inserted(s[1..], node);
      forall j | 0 <= j < |r| ensures Earlier(s[0].Value(), r[j].Value()) {
        if r[j] != node {
          assert r[j] in s[1..];
        }
      }
    }
  }

  /** The nodes of `s` that are not deleted, as entries. */
  ghost function LiveOf(s: seq<TimerNode>): Listing
    reads s
  {
    if s == [] then []
    else (if s[0].deleted then [] else [(s[0].fd, s[0].Value())]) + LiveOf(s[1..])
  }

  /** `static_cast<int>` of a 64-bit count. */
  function ToInt(n: int): int {
    var r := n % 0x1_0000_0000;
    if r > INT_MAX then r - 0x1_0000_0000 else r
  }

  // ---------------------------------------------------------------- the manager

  class TcpTimer {
    var timerSet: seq<TimerNode>
    var timerMap: map<int, TimerNode>
    ghost var nextStamp: nat
    /** When a timer was last set; before that, when the manager was made. */
    ghost var lastSet: int

    /** The plain map that the two structures stand for. */
    ghost function View(): Timers
      reads this`timerMap
    {
      map fd | fd in timerMap :: timerMap[fd].Value()
    }

    /** Numbered before `nextStamp`, and due no later than the longest timeout from `lastSet`. */
    ghost predicate Bounded(all: seq<TimerNode>)
      reads this`nextStamp, this`lastSet
    {
      forall n :: n in all ==> n.stamp < nextStamp && n.expire <= lastSet + INT_MAX * MS
    }

    ghost predicate Linked(all: seq<TimerNode>)
      reads this`timerMap, this`nextStamp, this`lastSet, all
    {
      LinkedBy(all, timerMap) && Bounded(all)
    }

    ghost predicate Valid()
      reads this, timerSet
    {
      Linked(timerSet)
    }

    constructor (ghost now: int)
      ensures Valid() && View() == map[] && timerSet == [] && lastSet == now
    {
      timerSet, timerMap, nextStamp, lastSet := [], map[], 0, now;
    }

    /** Mark the node that `fd` may have deleted; the map entry is about to be overwritten. */
    method Detach(fd: int)
      requires Valid()
      modifies set n | n in timerSet
      ensures LinkedBy(timerSet, timerMap - {fd}) && Bounded(timerSet)
    {
      if fd in timerMap {
        timerMap[fd].MarkDeleted();
      }
    }

    /** Set the timer of `fd`, replacing the one it may have. */
    method AddTimer(fd: int, timeout: int, callback: Callback, now: int)
      requires Valid() && lastSet <= now && timeout <= INT_MAX
      modifies this, set n | n in timerSet
      ensures Valid() && lastSet == now && forall n :: n in timerSet ==> n in old(timerSet) || fresh(n)
      ensures nextStamp == old(nextStamp) + 1
      ensures View() == old(View())[fd := Entry(now + timeout * MS, old(nextStamp), callback)]
    {
      hide Inserted, LinkedBy, Bounded;
      Detach(fd);
      var node := new TimerNode(fd, timeout, callback, now, nextStamp);
      assert forall n :: n in timerSet ==> n.stamp < node.stamp by { StampsBelow(timerSet); }
      LinkedInsert(timerSet, timerMap - {fd}, node);
      InsertedMembers(timerSet, node);
      BoundedGrows(timerSet, node, now);
      assert (timerMap - {fd})[fd := node] == timerMap[fd := node];
      timerSet := Inserted(timerSet, node);
      timerMap := timerMap[fd := node];
      nextStamp, lastSet := nextStamp + 1, now;
      assert Bounded(timerSet) by { BoundedNow(timerSet); }
    }

    lemma StampsBelow(all: seq<TimerNode>)
      requires Bounded(all)
      ensures forall n :: n in all ==> n.stamp < nextStamp
    {
    }

    lemma BoundedNow(all: seq<TimerNode>)
      requires forall n :: n in all ==> n.stamp < nextStamp && n.expire <= lastSet + INT_MAX * MS
      ensures Bounded(all)
    {
    }

    lemma BoundedGrows(all: seq<TimerNode>, node: TimerNode, now: int)
      requires Bounded(all) && node.stamp == nextStamp && lastSet <= now && node.expire <= now + INT_MAX * MS
      ensures forall n :: n in Inserted(all, node) ==> n.stamp < nextStamp + 1 && n.expire <= now + INT_MAX * MS
    {
      InsertedMembers(all, node);
    }

    /** Drop the timer of `fd`, if it has one. `all` are the nodes still to be reckoned with:
        the ordered set and, during a check, the expired nodes whose turn has not come. */
    method RemoveTimer(fd: int, ghost all: seq<TimerNode>)
      requires Linked(all)
      modifies this`timerMap, all
      ensures Linked(all) && View() == old(View()) - {fd} && timerMap == old(timerMap) - {fd}
      ensures forall n :: n in all ==> (n.deleted <==> old(n.deleted) || n.fd == fd)
    {
      if fd in timerMap {
        timerMap[fd].MarkDeleted();
        timerMap := timerMap - {fd};
      }
    }

    method Size() returns (n: nat)
      requires Valid()
      ensures n == |View()|
    {
      assert View().Keys == timerMap.Keys;
      n := |timerMap|;
    }

    lemma NoLiveNode()
      requires Valid() && forall n :: n in timerSet ==> n.deleted
      ensures View() == map[]
    {
      assert forall fd :: fd in timerMap ==> timerMap[fd] in timerSet && !timerMap[fd].deleted;
      assert View().Keys == {};
    }

    /** The timer of `fd` is set, and none is due before it. */
    ghost predicate Earliest(fd: int)
      reads this`timerMap
    {
      fd in View() && forall other :: other in View() ==> View()[fd].deadline <= View()[other].deadline
    }

    lemma FirstLiveIsEarliest(i: nat)
      requires Valid() && i < |timerSet| && !timerSet[i].deleted
      requires forall j :: 0 <= j < i ==> timerSet[j].deleted
      ensures Earliest(timerSet[i].fd) && View()[timerSet[i].fd].deadline == timerSet[i].expire
    {
      var node := timerSet[i];
      forall other | other in View() ensures node.expire <= View()[other].deadline {
        var j :| 0 <= j < |timerSet| && timerSet[j] == timerMap[other];
        assert j > i ==> Earlier(timerSet[i].Value(), timerSet[j].Value());
      }
    }

    /** Milliseconds until the earliest timer, for `epoll_wait`: -1 without timers, never past
        the earliest deadline, and less than one millisecond short of it. */
    method GetNextTimeout(now: int) returns (ms: int)
      requires Valid() && lastSet <= now
      ensures ms == -1 <==> View() == map[]
      ensures ms != -1 ==>
        exists fd :: Earliest(fd) &&
          var d := View()[fd].deadline; if d <= now then ms == 0 else 0 <= ms && d - MS < now + ms * MS <= d
    {
      hide Sorted, Earliest, ToInt;
      if timerSet == [] {
        NoLiveNode();
        return -1;
      }
      var i := 0;
      while i < |timerSet|
        invariant i <= |timerSet|
        invariant forall j :: 0 <= j < i ==> timerSet[j].deleted
      {
        var node := timerSet[i];
        if !node.deleted {
          FirstLiveIsEarliest(i);
          assert node.fd in View();
          if node.expire <= now { return 0; }
          var left := (node.expire - now) / MS;
          WholeMilliseconds(node.expire - now);
          ms := if left > 0 then ToInt(left) else 0;
          return;
        }
        i := i + 1;
      }
      NoLiveNode();
      return -1;
    }

    lemma MapNode(fd: int)
      requires Valid() && fd in timerMap
      ensures timerMap[fd] in timerSet && !timerMap[fd].deleted && timerMap[fd].fd == fd
    {
    }

    /** The live nodes of the ordered set list the plain map, in firing order. */
    lemma SetListsMap()
      requires Valid()
      ensures Lists(LiveOf(timerSet), View())
    {
      hide LiveOf, Sorted;
      var l, m := LiveOf(timerSet), View();
      LiveInOrder(timerSet);
      forall x ensures x in l <==> x.0 in m && m[x.0] == x.1 {
        LiveMembers(timerSet, x);
        if x in l {
          var n :| n in timerSet && !n.deleted && x == (n.fd, n.Value());
          assert timerMap[n.fd] == n;
        }
        if x.0 in m && m[x.0] == x.1 {
          MapNode(x.0);
          var n := timerMap[x.0];
          assert n in timerSet && !n.deleted && x == (n.fd, n.Value());
        }
      }
      forall i, j | 0 <= i < j < |l| ensures l[i].0 != l[j].0 {
        var a, b := l[i], l[j];
        assert a in l && b in l && Earlier(a.1, b.1);
        assert a.0 == b.0 ==> a.1 == b.1;
      }
    }

    /** First part of a check, under the lock: drop deleted nodes and take off expired ones
        from the front, stopping at the first live node that is not due. */
    method TakeExpired(clock: nat -> int) returns (expired: seq<TimerNode>)
      requires Valid() && NeverBack(clock)
      modifies this`timerSet
      ensures Linked(expired + timerSet) && forall n :: n in expired ==> !n.deleted
      ensures LiveOf(expired) == Expired(old(LiveOf(timerSet)), clock, 0)
      ensures forall n :: n in timerSet ==> n.expire >= clock(0)
      ensures forall n :: n in expired + timerSet ==> n in old(timerSet)
    {
      hide Linked, LiveOf, Expired, LinkedBy, Bounded, Sorted;
      ghost var all := timerSet;
      expired := [];
      assert expired + timerSet == timerSet;
      LiveEmpty();
      while timerSet != []
        invariant Linked(expired + timerSet) && forall n :: n in expired ==> !n.deleted
        invariant |LiveOf(expired)| == |expired|
        invariant LiveOf(expired) + Expired(LiveOf(timerSet), clock, |expired|) == Expired(LiveOf(all), clock, 0)
        invariant forall n :: n in expired ==> n in all
        invariant forall n :: n in timerSet ==> n in all
        decreases |timerSet|
      {
        var node, rest := timerSet[0], timerSet[1..];
        assert timerSet == [node] + rest;
        MoveAcross(expired, node, rest);
        LiveHead(timerSet);
        if node.deleted {
          LinkedWithout(expired, node, rest);
          assert [] + LiveOf(rest) == LiveOf(rest);
          timerSet := rest;
        } else {
          ghost var x, after := (node.fd, node.Value()), Expired(LiveOf(rest), clock, |expired| + 1);
          ExpiredHead(x, LiveOf(rest), clock, |expired|);
          if node.IsExpired(clock(|expired|)) {
            LiveSnoc(expired, node);
            AppendAssociates(LiveOf(expired), x, after);
            expired := expired + [node];
            timerSet := rest;
          } else {
            assert clock(0) <= clock(|expired|);
            NoneDueBehind(expired, clock(|expired|));
            break;
          }
        }
      }
      if timerSet == [] {
        LiveEmpty();
        ExpiredEmpty(clock, |expired|);
      }
      assert LiveOf(expired) + [] == LiveOf(expired);
    }

    /** A deleted node can be left out. */
    lemma LinkedWithout(before: seq<TimerNode>, node: TimerNode, rest: seq<TimerNode>)
      requires Linked(before + [node] + rest) && node.deleted
      ensures Linked(before + rest)
    {
      hide Sorted;
      SortedWithout(before, node, rest);
    }

    lemma NoneDueBehind(expired: seq<TimerNode>, t: int)
      requires Linked(expired + timerSet) && timerSet != [] && t <= timerSet[0].expire
      ensures forall n :: n in timerSet ==> n.expire >= t
    {
      var all := expired + timerSet;
      forall n | n in timerSet ensures n.expire >= t {
        var j :| 0 <= j < |timerSet| && timerSet[j] == n;
        assert all[|expired|] == timerSet[0] && all[|expired| + j] == n;
        assert j > 0 ==> Earlier(all[|expired|].Value(), all[|expired| + j].Value());
      }
    }

    /** The turn of one expired node: its map entry goes, its callback runs unless deleted. */
    method FireOne(node: TimerNode, ghost later: seq<TimerNode>) returns (ran: bool)
      requires Linked([node] + later) && (node.deleted ==> node.fd !in timerMap)
      modifies this`timerMap, set n | n in later
      ensures Linked(later) && ran == !old(node.deleted)
      ensures View() == old(View()) - {node.fd} - (if ran then SetOf(node.callback.removes) else {})
      ensures timerMap.Keys <= old(timerMap.Keys)
      ensures forall n :: n in later ==>
        && (n.deleted <==> old(n.deleted) || (ran && n.fd in node.callback.removes))
        && (n.deleted && !old(n.deleted) ==> n.fd !in timerMap)
    {
      hide LinkedBy, Bounded, SetOf;
      assert Bounded(later) by { BoundedTail(node, later); }
      ghost var erased := timerMap - {node.fd};
      assert LinkedBy(later, erased) by { LinkedTail(node, later, timerMap); }
      timerMap := timerMap - {node.fd};
      ran := !node.deleted;
      if ran {
        var r := node.callback.removes;
        var j := 0;
        NoneGone(old(View()) - {node.fd}, r);
        while j < |r|
          invariant j <= |r| && Linked(later)
          invariant View() == old(View()) - {node.fd} - SetOf(r[..j])
          invariant timerMap.Keys <= old(timerMap.Keys)
          invariant forall n :: n in later ==> (n.deleted <==> old(n.deleted) || n.fd in r[..j])
          invariant forall n :: n in later && n.deleted && !old(n.deleted) ==> n.fd !in timerMap
        {
          RemoveTimer(r[j], later);
          OneMoreGone(old(View()) - {node.fd}, r, j);
          j := j + 1;
        }
        assert r[..j] == r;
      }
    }

    lemma BoundedTail(node: TimerNode, later: seq<TimerNode>)
      requires Bounded([node] + later)
      ensures Bounded(later)
    {
      assert forall n :: n in later ==> n in [node] + later;
    }

    /** Erasing the map entry of the first node leaves the others linked, unless the node is
        deleted and its descriptor has a timer again. */
    lemma LinkedTail(node: TimerNode, later: seq<TimerNode>, m: map<int, TimerNode>)
      requires LinkedBy([node] + later, m) && (node.deleted ==> node.fd !in m)
      ensures LinkedBy(later, m - {node.fd})
    {
      hide Earlier;
      var all := [node] + later;
      forall i, j | 0 <= i < j < |later| ensures Earlier(later[i].Value(), later[j].Value()) {
        assert all[i + 1] == later[i] && all[j + 1] == later[j];
      }
      forall n | n in later ensures n in all && n != node {
        var i :| 0 <= i < |later| && later[i] == n;
        assert all[0] == node && all[i + 1] == n;
        EarlierIsStrict(node.Value(), n.Value());
      }
    }

    /** Second part of a check, outside the lock: the expired nodes one after another. */
    method RunExpired(expired: seq<TimerNode>) returns (fds: seq<int>, ghost fired: Listing)
      requires Linked(expired + timerSet) && forall n :: n in expired ==> !n.deleted
      modifies this`timerMap, set n | n in expired + timerSet
      ensures Valid() && FdsAre(fds, fired)
      ensures var due := old(LiveOf(expired));
              fired == Fire(due, {}) && View() == old(View()) - Fds(due) - RemovedBy(fired)
    {
      hide Linked, LiveOf, Fire, Fds, RemovedBy, View;
      ghost var before, due := View(), LiveOf(expired);
      LivePairs(expired);
      fds, fired := [], [];
      ghost var gone: set<int> := {};
      var i := 0;
      assert expired[0..] == expired && due[0..] == due && due[..0] == [];
      StartOfRun(due, before);
      while i < |expired|
        invariant i <= |expired| == |due| && Linked(expired[i..] + timerSet)
        invariant forall n :: n in expired[i..] ==> (n.deleted <==> n.fd in gone) && (n.deleted ==> n.fd !in timerMap)
        invariant fired + Fire(due[i..], gone) == Fire(due, {})
        invariant gone == RemovedBy(fired) && FdsAre(fds, fired)
        invariant View() == before - Fds(due[..i]) - gone
      {
        var node := expired[i];
        ghost var later := expired[i + 1..] + timerSet;
        assert [node] + later == expired[i..] + timerSet;
        assert forall n :: n in later ==> n in expired + timerSet;
        var ran := FireOne(node, later);
        FiringOne(due, i, fired, gone);
        if ran {
          fds, fired := fds + [node.fd], fired + [(node.fd, node.Value())];
          gone := gone + SetOf(node.callback.removes);
        }
        i := i + 1;
      }
      FireEmpty(gone);
      assert due[i..] == [] && due[..i] == due && expired[i..] + timerSet == timerSet;
    }

    /** Fire every expired timer. A callback runs unless its node has been deleted meanwhile,
        and may itself remove timers. */
    method CheckExpired(clock: nat -> int) returns (fds: seq<int>, ghost fired: Listing)
      requires Valid() && NeverBack(clock)
      modifies this, timerSet
      ensures Valid() && FdsAre(fds, fired) && nextStamp == old(nextStamp) && lastSet == old(lastSet)
      ensures var due := Expired(old(LiveOf(timerSet)), clock, 0);
              && fired == Fire(due, {})
              && View() == old(View()) - Fds(due) - RemovedBy(fired)
      ensures forall n :: n in timerSet ==> n in old(timerSet) && n.expire >= clock(0)
    {
      hide Linked, LiveOf, Expired, Fire;
      var expired := TakeExpired(clock);
      fds, fired := RunExpired(expired);
    }
  }

  lemma {:induction false} LiveMembers(s: seq<TimerNode>, x: (int, Entry))
    ensures x in LiveOf(s) <==> exists n :: n in s && !n.deleted && x == (n.fd, n.Value())
  {
    if s != [] {
      LiveMembers(s[1..], x);
      assert s == [s[0]] + s[1..];
    }
  }

  lemma {:induction false} LiveInOrder(s: seq<TimerNode>)
    requires Sorted(s)
    ensures InOrder(LiveOf(s))
  {
    if s != [] {
      LiveInOrder(s[1..]);
      var l := LiveOf(s[1..]);
      forall j | 0 <= j < |l| ensures Earlier(s[0].Value(), l[j].1) {
        LiveMembers(s[1..], l[j]);
        var n :| n in s[1..] && !n.deleted && l[j] == (n.fd, n.Value());
        var i :| 1 <= i < |s| && s[i] == n;
      }
    }
  }

  lemma NoneGone(m: Timers, r: seq<int>)
    ensures m - SetOf(r[..0]) == m
  {
    assert SetOf(r[..0]) == {};
  }

  lemma OneMoreGone(m: Timers, r: seq<int>, j: nat)
    requires j < |r|
    ensures m - SetOf(r[..j]) - {r[j]} == m - SetOf(r[..j + 1])
    ensures forall fd :: fd in r[..j + 1] <==> fd in r[..j] || fd == r[j]
  {
    assert r[..j + 1] == r[..j] + [r[j]];
  }

  lemma EarlierIsStrict(a: Entry, b: Entry)
    ensures Earlier(a, b) ==> a != b
  {
  }

  /** The cast to `int` loses nothing within the longest timeout. */
  lemma WholeMilliseconds(d: int)
    requires 0 < d <= INT_MAX * MS
    ensures var n := d / MS; 0 <= n && ToInt(n) == n && d - MS < n * MS <= d
  {
  }

  lemma StartOfRun(due: Listing, before: Timers)
    ensures [] + Fire(due, {}) == Fire(due, {}) && RemovedBy([]) == {}
    ensures before == before - Fds([]) - {}
  {
  }

  /** What one turn does to the list of callbacks run and to the timers accounted for. */
  lemma FiringOne(due: Listing, i: nat, fired: Listing, gone: set<int>)
    requires i < |due| && gone == RemovedBy(fired)
    requires fired + Fire(due[i..], gone) == Fire(due, {})
    ensures var x, more := due[i], SetOf(due[i].1.callback.removes);
            && Fds(due[..i + 1]) == Fds(due[..i]) + {x.0}
            && (if x.0 in gone then fired + Fire(due[i + 1..], gone) == Fire(due, {})
                else fired + [x] + Fire(due[i + 1..], gone + more) == Fire(due, {})
                     && RemovedBy(fired + [x]) == gone + more)
  {
    hide Fire, Fds, RemovedBy, SetOf;
    var x, more := due[i], SetOf(due[i].1.callback.removes);
    FireHead(due[i..], gone);
    assert due[i..][1..] == due[i + 1..];
    if x.0 !in gone {
      var f := Fire(due[i + 1..], gone + more);
      assert fired + ([x] + f) == fired + [x] + f;
    }
    FdsSnoc(due[..i], due[i]);
    assert due[..i] + [due[i]] == due[..i + 1];
    RemovedSnoc(fired, due[i]);
  }

  lemma MoveAcross(s: seq<TimerNode>, node: TimerNode, rest: seq<TimerNode>)
    ensures s + ([node] + rest) == (s + [node]) + rest
  {
  }

  lemma AppendAssociates(l: Listing, x: (int, Entry), rest: Listing)
    ensures l + ([x] + rest) == (l + [x]) + rest
  {
  }

  lemma LiveEmpty()
    ensures LiveOf([]) == []
  {
  }

  lemma LiveHead(s: seq<TimerNode>)
    requires s != []
    ensures LiveOf(s) == (if s[0].deleted then [] else [(s[0].fd, s[0].Value())]) + LiveOf(s[1..])
  {
  }

  lemma ExpiredHead(x: (int, Entry), rest: Listing, clock: nat -> int, k: nat)
    ensures Expired([x] + rest, clock, k) == if clock(k) <= x.1.deadline then [] else [x] + Expired(rest, clock, k + 1)
  {
    assert ([x] + rest)[1..] == rest;
  }

  lemma ExpiredEmpty(clock: nat -> int, k: nat)
    ensures Expired([], clock, k) == []
  {
  }

  lemma FireHead(l: Listing, gone: set<int>)
    requires l != []
    ensures Fire(l, gone) == if l[0].0 in gone then Fire(l[1..], gone)
                             else [l[0]] + Fire(l[1..], gone + SetOf(l[0].1.callback.removes))
  {
  }

  lemma FireEmpty(gone: set<int>)
    ensures Fire([], gone) == []
  {
  }

  lemma FdsSnoc(l: Listing, x: (int, Entry))
    ensures Fds(l + [x]) == Fds(l) + {x.0}
  {
    assert forall y :: y in l + [x] <==> y in l || y == x;
  }

  lemma RemovedSnoc(fired: Listing, x: (int, Entry))
    ensures RemovedBy(fired + [x]) == RemovedBy(fired) + SetOf(x.1.callback.removes)
  {
    assert (fired + [x])[..|fired|] == fired;
  }

  lemma SortedWithout(before: seq<TimerNode>, node: TimerNode, rest: seq<TimerNode>)
    requires Sorted(before + [node] + rest)
    ensures Sorted(before + rest)
  {
    var s, r := before + [node] + rest, before + rest;
    forall i, j | 0 <= i < j < |r| ensures Earlier(r[i].Value(), r[j].Value()) {
      var i', j' := if i < |before| then i else i + 1, if j < |before| then j else j + 1;
      assert r[i] == s[i'] && r[j] == s[j'];
    }
  }

  lemma {:induction false} LiveSnoc(s: seq<TimerNode>, node: TimerNode)
    ensures LiveOf(s + [node]) == LiveOf(s) + if node.deleted then [] else [(node.fd, node.Value())]
  {
    if s == [] {
      assert s + [node] == [node] && [node][1..] == [];
    } else {
      assert (s + [node])[1..] == s[1..] + [node];
      LiveSnoc(s[1..], node);
    }
  }

  lemma {:induction false} LivePairs(s: seq<TimerNode>)
    requires forall n :: n in s ==> !n.deleted
    ensures |LiveOf(s)| == |s| && forall i :: 0 <= i < |s| ==> LiveOf(s)[i] == (s[i].fd, s[i].Value())
  {
    if s != [] {
      LivePairs(s[1..]);
    }
  }
}
