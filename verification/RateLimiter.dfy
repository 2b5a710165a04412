/** Token bucket per key, refilled lazily, with eviction of idle keys. Times are seconds.
    The answers are characterised by the times of the calls admitted before, alone. */
module RateLimiter {

  const IDLE_LIMIT: real := 600.0
  const MAX_BUCKETS: nat := 10000

  function Min(a: real, b: real): real { if a < b then a else b }

  /** The tokens that flow in during `seconds`. */
  function Gain(rate: real, seconds: real): real { rate * seconds }

  // ---------------------------------------------------------------- the sliding window

  /** A call at `t` may pass: counted from any earlier admitted call on, this one included,
      no more were admitted than a full bucket and the refill since then allow. */
  ghost predicate WithinWindow(cap: real, rate: real, admitted: seq<real>, t: real) {
    forall i :: 0 <= i < |admitted| ==> (|admitted| - i) as real + 1.0 <= cap + Gain(rate, t - admitted[i])
  }

  ghost predicate Ascending(times: seq<real>) {
    forall i, j :: 0 <= i <= j < |times| ==> times[i] <= times[j]
  }

  /** Every call in the list was allowed to pass when it came. */
  ghost predicate Admissible(cap: real, rate: real, admitted: seq<real>) {
    && Ascending(admitted)
    && forall n :: 0 <= n < |admitted| ==> WithinWindow(cap, rate, admitted[..n], admitted[n])
  }

  /** The tokens of a bucket that starts full and that nobody but the admitted calls touches. */
  ghost function Level(cap: real, rate: real, admitted: seq<real>, t: real): (level: real)
    ensures level <= cap
  {
    if admitted == [] then cap
    else
      var last := admitted[|admitted| - 1];
      Min(cap, Level(cap, rate, admitted[..|admitted| - 1], last) - 1.0 + Gain(rate, t - last))
  }

  lemma Distributes(rate: real, d1: real, d2: real, d: real)
    requires d == d1 + d2
    ensures Gain(rate, d) == Gain(rate, d1) + Gain(rate, d2)
  {
  }

  /** What is left at `t` of the admission made at `s`, with `later` admissions since. */
  ghost function Slack(cap: real, rate: real, s: real, t: real, later: nat): real {
    cap + Gain(rate, t - s) - later as real
  }

  lemma SlackMoves(cap: real, rate: real, s: real, last: real, t: real, later: nat, x: real)
    ensures Slack(cap, rate, s, last, later) >= x + 1.0 - Gain(rate, t - last) <==> Slack(cap, rate, s, t, later + 1) >= x
  {
    Distributes(rate, last - s, t - last, t - s);
  }

  /** Every earlier admission leaves a slack of at least `x` at `t`. */
  ghost predicate SlackAtLeast(cap: real, rate: real, admitted: seq<real>, t: real, x: real) {
    forall i :: 0 <= i < |admitted| ==> Slack(cap, rate, admitted[i], t, |admitted| - i) >= x
  }

  lemma SlackOfLonger(cap: real, rate: real, before: seq<real>, last: real, t: real, x: real)
    ensures SlackAtLeast(cap, rate, before + [last], t, x) <==>
      SlackAtLeast(cap, rate, before, last, x + 1.0 - Gain(rate, t - last)) && Slack(cap, rate, last, t, 1) >= x
  {
    hide Slack;
    var n, h, y := |before|, before + [last], x + 1.0 - Gain(rate, t - last);
    forall i | 0 <= i < n ensures Slack(cap, rate, before[i], last, n - i) >= y <==> Slack(cap, rate, h[i], t, n + 1 - i) >= x {
      SlackMoves(cap, rate, before[i], last, t, n - i, x);
    }
    assert h[n] == last;
    if SlackAtLeast(cap, rate, h, t, x) {
      forall i | 0 <= i < n ensures Slack(cap, rate, before[i], last, n - i) >= y {
        assert Slack(cap, rate, h[i], t, n + 1 - i) >= x;
      }
    }
  }

  /** The level as a minimum over all earlier admitted calls. */
  lemma {:induction false} LevelAtLeast(cap: real, rate: real, admitted: seq<real>, t: real, x: real)
    ensures Level(cap, rate, admitted, t) >= x <==> cap >= x && SlackAtLeast(cap, rate, admitted, t, x)
  {
    if admitted != [] {
      hide Slack, SlackAtLeast;
      var n := |admitted| - 1;
      var before, last := admitted[..n], admitted[n];
      LevelAtLeast(cap, rate, before, last, x + 1.0 - Gain(rate, t - last));
      SlackOfLonger(cap, rate, before, last, t, x);
      assert before + [last] == admitted;
      LastSlack(cap, rate, last, t, x);
    }
  }

  lemma LastSlack(cap: real, rate: real, last: real, t: real, x: real)
    ensures cap >= x + 1.0 - Gain(rate, t - last) <==> Slack(cap, rate, last, t, 1) >= x
  {
  }

  /** A bucket holds a whole token exactly when the sliding window has room. */
  lemma LevelIsWindow(cap: real, rate: real, admitted: seq<real>, t: real)
    requires cap >= 1.0
    ensures Level(cap, rate, admitted, t) >= 1.0 <==> WithinWindow(cap, rate, admitted, t)
  {
    LevelAtLeast(cap, rate, admitted, t, 1.0);
    forall i | 0 <= i < |admitted|
      ensures Slack(cap, rate, admitted[i], t, |admitted| - i) >= 1.0
              <==> (|admitted| - i) as real + 1.0 <= cap + Gain(rate, t - admitted[i])
    {
    }
  }

  /** Refilling in two steps is refilling in one: a denied call leaves no trace. */
  lemma RefillSplits(cap: real, rate: real, admitted: seq<real>, t1: real, t2: real)
    requires rate >= 0.0 && t1 <= t2
    ensures Level(cap, rate, admitted, t2) == Min(cap, Level(cap, rate, admitted, t1) + Gain(rate, t2 - t1))
  {
    MoreTimeMoreTokens(rate, 0.0, t2 - t1);
    if admitted != [] {
      var last := admitted[|admitted| - 1];
      Distributes(rate, t1 - last, t2 - t1, t2 - last);
    }
  }

  lemma AdmitOne(cap: real, rate: real, admitted: seq<real>, t: real)
    ensures Level(cap, rate, admitted + [t], t) == Level(cap, rate, admitted, t) - 1.0
  {
    var h := admitted + [t];
    assert h[..|h| - 1] == admitted;
    NoTimeNoGain(rate, t - t);
  }

  lemma NoTimeNoGain(rate: real, d: real)
    requires d == 0.0
    ensures Gain(rate, d) == 0.0
  {
  }

  // ---------------------------------------------------------------- what a window admits

  ghost function CountIn(times: seq<real>, from: real, to: real): nat {
    if times == [] then 0
    else
      var n := |times| - 1;
      CountIn(times[..n], from, to) + if from <= times[n] <= to then 1 else 0
  }

  lemma {:induction false} CountSuffix(times: seq<real>, from: real, to: real, i: nat)
    requires i <= |times|
    requires forall k :: 0 <= k < i ==> times[k] < from
    requires forall k :: i <= k < |times| ==> from <= times[k] <= to
    ensures CountIn(times, from, to) == |times| - i
  {
    if times != [] {
      var n := |times| - 1;
      CountSuffix(times[..n], from, to, if i == |times| then n else i);
    }
  }

  /** The first time that is not before `from`. */
  lemma {:induction false} FirstFrom(times: seq<real>, from: real) returns (i: nat)
    requires Ascending(times)
    ensures i <= |times|
    ensures forall k :: 0 <= k < i ==> times[k] < from
    ensures forall k :: i <= k < |times| ==> from <= times[k]
  {
    if times == [] || times[|times| - 1] < from {
      i := |times|;
    } else {
      i := FirstFrom(times[..|times| - 1], from);
    }
  }

  /** Any stretch of time admits at most a full bucket and the refill of that stretch. */
  lemma {:induction false} WindowBound(cap: real, rate: real, admitted: seq<real>, from: real, to: real)
    requires cap >= 1.0 && rate >= 0.0 && from <= to && Admissible(cap, rate, admitted)
    ensures CountIn(admitted, from, to) as real <= cap + Gain(rate, to - from)
  {
    MoreTimeMoreTokens(rate, 0.0, to - from);
    if admitted != [] {
      var n := |admitted| - 1;
      if admitted[n] > to {
        PrefixAdmissible(cap, rate, admitted, n);
        WindowBound(cap, rate, admitted[..n], from, to);
      } else {
        var i := FirstFrom(admitted, from);
        CountSuffix(admitted, from, to, i);
        if i < n {
          MoreTimeMoreTokens(rate, admitted[n] - admitted[i], to - from);
          AdmittedBetween(cap, rate, admitted, i, n);
        }
      }
    }
  }

  lemma AdmittedBetween(cap: real, rate: real, admitted: seq<real>, i: nat, n: nat)
    requires Admissible(cap, rate, admitted) && i < n < |admitted|
    ensures (n - i + 1) as real <= cap + Gain(rate, admitted[n] - admitted[i])
  {
    assert WithinWindow(cap, rate, admitted[..n], admitted[n]);
    assert admitted[..n][i] == admitted[i];
  }

  lemma PrefixAdmissible(cap: real, rate: real, admitted: seq<real>, n: nat)
    requires Admissible(cap, rate, admitted) && n <= |admitted|
    ensures Admissible(cap, rate, admitted[..n])
  {
    assert forall k :: 0 <= k < n ==> admitted[..n][..k] == admitted[..k];
  }

  lemma MoreTimeMoreTokens(rate: real, d1: real, d2: real)
    requires rate >= 0.0 && d1 <= d2
    ensures Gain(rate, d1) <= Gain(rate, d2)
  {
    assert rate * (d2 - d1) >= 0.0;
  }

  // ---------------------------------------------------------------- one key

  datatype Bucket = Bucket(tokens: real, lastRefill: real)

  datatype Slot = Absent | Present(bucket: Bucket)

  /** At time `clock` the slot of a key stands for the calls admitted for it: a bucket is the
      level at its last refill, and a key without a bucket has a full one. */
  ghost predicate Tracks(cap: real, rate: real, admitted: seq<real>, slot: Slot, clock: real) {
    && Admissible(cap, rate, admitted)
    && (forall i :: 0 <= i < |admitted| ==> admitted[i] <= clock)
    && match slot
       case Absent => Level(cap, rate, admitted, clock) == cap
       case Present(b) =>
         && b.lastRefill <= clock && 0.0 <= b.tokens == Level(cap, rate, admitted, b.lastRefill)
         && forall i :: 0 <= i < |admitted| ==> admitted[i] <= b.lastRefill
  }

  lemma TracksLater(cap: real, rate: real, admitted: seq<real>, slot: Slot, clock: real, now: real)
    requires rate >= 0.0 && clock <= now && Tracks(cap, rate, admitted, slot, clock)
    ensures Tracks(cap, rate, admitted, slot, now)
  {
    hide Admissible;
    RefillSplits(cap, rate, admitted, clock, now);
    MoreTimeMoreTokens(rate, 0.0, now - clock);
  }

  lemma AdmitKeeps(cap: real, rate: real, admitted: seq<real>, now: real)
    requires Admissible(cap, rate, admitted) && WithinWindow(cap, rate, admitted, now)
    requires forall i :: 0 <= i < |admitted| ==> admitted[i] <= now
    ensures Admissible(cap, rate, admitted + [now])
  {
    hide WithinWindow;
    var h := admitted + [now];
    forall n | 0 <= n < |h| ensures WithinWindow(cap, rate, h[..n], h[n]) {
      assert h[..n] == admitted[..n];
      if n == |admitted| {
        assert admitted[..n] == admitted;
      }
    }
  }

  /** Admitting a call when the level has room takes one token. */
  lemma Admit(cap: real, rate: real, admitted: seq<real>, level: real, now: real)
    requires cap >= 1.0 && Admissible(cap, rate, admitted)
    requires forall i :: 0 <= i < |admitted| ==> admitted[i] <= now
    requires level == Level(cap, rate, admitted, now) >= 1.0
    ensures WithinWindow(cap, rate, admitted, now)
    ensures Tracks(cap, rate, admitted + [now], Present(Bucket(level - 1.0, now)), now)
  {
    hide Level, WithinWindow, Admissible;
    LevelIsWindow(cap, rate, admitted, now);
    AdmitKeeps(cap, rate, admitted, now);
    AdmitOne(cap, rate, admitted, now);
  }

  /** A key without a bucket always has room. */
  lemma TracksNew(cap: real, rate: real, admitted: seq<real>, clock: real, now: real)
    requires cap >= 1.0 && rate >= 0.0 && clock <= now && Tracks(cap, rate, admitted, Absent, clock)
    ensures WithinWindow(cap, rate, admitted, now)
    ensures Tracks(cap, rate, admitted + [now], Present(Bucket(cap - 1.0, now)), now)
  {
    hide Level, WithinWindow, Admissible;
    TracksLater(cap, rate, admitted, Absent, clock, now);
    Admit(cap, rate, admitted, cap, now);
  }

  function Refilled(cap: real, rate: real, b: Bucket, now: real): real {
    Min(cap, b.tokens + Gain(rate, now - b.lastRefill))
  }

  /** A refilled bucket answers for the window, and tracks the key after either answer. */
  lemma TracksHit(cap: real, rate: real, admitted: seq<real>, b: Bucket, clock: real, now: real)
    requires cap >= 1.0 && rate >= 0.0 && clock <= now && Tracks(cap, rate, admitted, Present(b), clock)
    ensures var tokens := Refilled(cap, rate, b, now);
            && (tokens >= 1.0 <==> WithinWindow(cap, rate, admitted, now))
            && Tracks(cap, rate, admitted, Present(Bucket(tokens, now)), now)
            && (tokens >= 1.0 ==> Tracks(cap, rate, admitted + [now], Present(Bucket(tokens - 1.0, now)), now))
  {
    hide Level, WithinWindow, Admissible;
    var tokens := Refilled(cap, rate, b, now);
    RefillSplits(cap, rate, admitted, b.lastRefill, now);
    MoreTimeMoreTokens(rate, 0.0, now - b.lastRefill);
    LevelIsWindow(cap, rate, admitted, now);
    if tokens >= 1.0 {
      Admit(cap, rate, admitted, tokens, now);
    }
  }

  /** After ten idle minutes the bucket is full again, so forgetting it changes nothing. */
  lemma TracksEvicted(cap: real, rate: real, admitted: seq<real>, b: Bucket, clock: real, now: real)
    requires rate >= 0.0 && cap <= IDLE_LIMIT * rate
    requires clock <= now && Tracks(cap, rate, admitted, Present(b), clock)
    requires now - b.lastRefill > IDLE_LIMIT
    ensures Tracks(cap, rate, admitted, Absent, now)
  {
    hide Level, Admissible;
    RefillSplits(cap, rate, admitted, b.lastRefill, now);
    MoreTimeMoreTokens(rate, IDLE_LIMIT, now - b.lastRefill);
  }

  // ---------------------------------------------------------------- runs of one key

  /** What happens to the slot of a key: a call, or an eviction sweep. */
  datatype Visit = Call(at: real) | Sweep(at: real)

  function SlotAfter(cap: real, rate: real, slot: Slot, v: Visit): (Slot, seq<bool>) {
    match v
    case Call(t) =>
      var tokens := if slot.Absent? then cap else Refilled(cap, rate, slot.bucket, t);
      if slot.Absent? || tokens >= 1.0 then (Present(Bucket(tokens - 1.0, t)), [true])
      else (Present(Bucket(tokens, t)), [false])
    case Sweep(t) =>
      (if slot.Present? && t - slot.bucket.lastRefill > IDLE_LIMIT then Absent else slot, [])
  }

  type Buckets = map<string, Bucket>

  /** The buckets that a sweep at `now` leaves. */
  function Kept(buckets: Buckets, now: real): Buckets {
    map k | k in buckets && !(now - buckets[k].lastRefill > IDLE_LIMIT) :: buckets[k]
  }

  /** The buckets after one call for `key` at `now`: its slot has made one step, the others none,
      and a new key over the limit has caused a sweep at `later`. */
  function BucketsAfter(cap: real, rate: real, buckets: Buckets, key: string, now: real, later: real): Buckets {
    var slot := if key in buckets then Present(buckets[key]) else Absent;
    match SlotAfter(cap, rate, slot, Call(now)).0
    case Absent => buckets
    case Present(b) =>
      if key !in buckets && |buckets| >= MAX_BUCKETS then Kept(buckets[key := b], later) else buckets[key := b]
  }

  function Answers(cap: real, rate: real, slot: Slot, visits: seq<Visit>): seq<bool>
    decreases |visits|
  {
    if visits == [] then []
    else
      var (slot1, said) := SlotAfter(cap, rate, slot, visits[0]);
      said + Answers(cap, rate, slot1, visits[1..])
  }

  function CallsOf(visits: seq<Visit>): seq<real> {
    if visits == [] then [] else (if visits[0].Call? then [visits[0].at] else []) + CallsOf(visits[1..])
  }

  /** The answers of a limiter that keeps the whole list of admitted calls. */
  ghost function WindowAnswers(cap: real, rate: real, admitted: seq<real>, calls: seq<real>): seq<bool>
    decreases |calls|
  {
    if calls == [] then []
    else
      var ok := WithinWindow(cap, rate, admitted, calls[0]);
      [ok] + WindowAnswers(cap, rate, if ok then admitted + [calls[0]] else admitted, calls[1..])
  }

  ghost predicate InOrder(visits: seq<Visit>, from: real) {
    visits != [] ==> from <= visits[0].at && InOrder(visits[1..], visits[0].at)
  }

  /** Sweeps at arbitrary moments change no answer: they are those of a limiter that never
      forgets a call and starts every key with a full bucket. */
  lemma {:induction false} EvictionIsInvisible(
    cap: real, rate: real, admitted: seq<real>, slot: Slot, clock: real, visits: seq<Visit>)
    requires cap >= 1.0 && cap <= IDLE_LIMIT * rate
    requires Tracks(cap, rate, admitted, slot, clock) && InOrder(visits, clock)
    ensures Answers(cap, rate, slot, visits) == WindowAnswers(cap, rate, admitted, CallsOf(visits))
    decreases |visits|
  {
    hide Tracks, WithinWindow, Refilled;
    if visits != [] {
      var t, later := visits[0].at, visits[1..];
      var slot1 := SlotAfter(cap, rate, slot, visits[0]).0;
      if visits[0].Sweep? {
        TracksLater(cap, rate, admitted, slot, clock, t);
        if slot.Present? && slot1.Absent? {
          TracksEvicted(cap, rate, admitted, slot.bucket, clock, t);
        }
        EvictionIsInvisible(cap, rate, admitted, slot1, t, later);
        assert [] + CallsOf(later) == CallsOf(later);
        assert [] + Answers(cap, rate, slot1, later) == Answers(cap, rate, slot1, later);
      } else {
        if slot.Absent? {
          TracksNew(cap, rate, admitted, clock, t);
        } else {
          TracksHit(cap, rate, admitted, slot.bucket, clock, t);
        }
        assert CallsOf(visits)[1..] == CallsOf(later);
        var ok := WithinWindow(cap, rate, admitted, t);
        EvictionIsInvisible(cap, rate, if ok then admitted + [t] else admitted, slot1, t, later);
      }
    }
  }

  // ---------------------------------------------------------------- the limiter

  /** `history` records, per key, when calls were admitted; the code has no such memory. */
  class RateLimiter {
    const capacity: nat
    const refillPerSec: real
    var buckets: Buckets
    ghost var history: map<string, seq<real>>
    ghost var clock: real

    ghost function Admitted(key: string): seq<real>
      reads this`history
    {
      if key in history then history[key] else []
    }

    ghost function SlotOf(key: string): Slot
      reads this`buckets
    {
      if key in buckets then Present(buckets[key]) else Absent
    }

    ghost predicate Tracked(key: string)
      reads this
    {
      Tracks(capacity as real, refillPerSec, Admitted(key), SlotOf(key), clock)
    }

    ghost predicate Sane() {
      1 <= capacity && capacity as real <= IDLE_LIMIT * refillPerSec
    }

    ghost predicate Valid()
      reads this
    {
      Sane() && forall key :: Tracked(key)
    }

    /** The process uses one limiter, with the default arguments 1000 and 500. */
    constructor (capacity: nat := 1000, refillPerSec: real := 500.0, ghost now: real)
      requires 1 <= capacity && capacity as real <= IDLE_LIMIT * refillPerSec
      ensures Valid() && history == map[] && buckets == map[] && clock == now
      ensures this.capacity == capacity && this.refillPerSec == refillPerSec
    {
      this.capacity, this.refillPerSec := capacity, refillPerSec;
      buckets, history, clock := map[], map[], now;
    }

    /** Time passes: every key is still tracked. */
    ghost method Wait(now: real)
      requires Valid() && clock <= now
      modifies this`clock
      ensures Valid() && clock == now
    {
      hide Tracks;
      forall key ensures Tracks(capacity as real, refillPerSec, Admitted(key), SlotOf(key), now) {
        assert Tracked(key);
        TracksLater(capacity as real, refillPerSec, Admitted(key), SlotOf(key), clock, now);
      }
      clock := now;
    }

    /** Changing the slot and the admitted calls of one key leaves the others tracked. */
    twostate lemma OthersTracked(key: string)
      requires old(Valid()) && clock == old(clock)
      requires forall k :: k != key ==> SlotOf(k) == old(SlotOf(k)) && Admitted(k) == old(Admitted(k))
      requires Tracked(key)
      ensures Valid()
    {
      hide Tracks;
      forall k ensures Tracked(k) {
        assert old(Tracked(k));
      }
    }

    /** Whether a call for `key` at time `now` passes: decided by the calls admitted for this
        key before, whatever was denied and whichever buckets were evicted in between. The
        eviction triggered by a new key reads the clock again, at `later`. */
    method Allow(key: string, now: real, later: real) returns (allowed: bool)
      requires Valid() && clock <= now <= later
      modifies this
      ensures Valid()
      ensures clock == if key !in old(buckets) && |old(buckets)| >= MAX_BUCKETS then later else now
      ensures allowed <==> WithinWindow(capacity as real, refillPerSec, old(Admitted(key)), now)
      ensures history == if allowed then old(history)[key := old(Admitted(key)) + [now]] else old(history)
      ensures var step := SlotAfter(capacity as real, refillPerSec, old(SlotOf(key)), Call(now));
              [allowed] == step.1
      ensures buckets == BucketsAfter(capacity as real, refillPerSec, old(buckets), key, now, later)
    {
      hide Tracks, WithinWindow, Gain;
      ghost var past, before := Admitted(key), clock;
      assert Tracked(key);
      Wait(now);
      label Ready:
      if key !in buckets {
        TracksNew(capacity as real, refillPerSec, past, before, now);
        NewSize(buckets, key, Bucket(capacity as real - 1.0, now));
        buckets := buckets[key := Bucket(capacity as real - 1.0, now)];
        history := history[key := past + [now]];
        OthersTracked@Ready(key);
        if |buckets| > MAX_BUCKETS {
          Cleanup(later);
        }
        return true;
      }
      var b := buckets[key];
      TracksHit(capacity as real, refillPerSec, past, b, before, now);
      var elapsed := now - b.lastRefill;
      var tokens := Min(capacity as real, b.tokens + Gain(refillPerSec, elapsed));
      if tokens >= 1.0 {
        buckets := buckets[key := Bucket(tokens - 1.0, now)];
        history := history[key := past + [now]];
        OthersTracked@Ready(key);
        return true;
      }
      buckets := buckets[key := Bucket(tokens, now)];
      OthersTracked@Ready(key);
      return false;
    }

    /** Forget the keys that have been idle for more than ten minutes. */
    method Cleanup(now: real)
      requires Valid() && clock <= now
      modifies this`buckets, this`clock
      ensures Valid() && clock == now
      ensures buckets == Kept(old(buckets), now)
      ensures forall k :: k in buckets <==> k in old(buckets) && now - old(buckets)[k].lastRefill <= 600.0
      ensures forall k :: k in buckets ==> buckets[k] == old(buckets)[k]
    {
      hide Tracks;
      Wait(now);
      var todo := buckets.Keys;
      ghost var all := buckets;
      while todo != {}
        invariant todo <= buckets.Keys <= all.Keys && Valid() && clock == now
        invariant forall k :: k in buckets ==> buckets[k] == all[k]
        invariant forall k :: k in all ==> (k in buckets <==> k in todo || !(now - all[k].lastRefill > IDLE_LIMIT))
        decreases todo
      {
        label Next:
        var key :| key in todo;
        if now - buckets[key].lastRefill > IDLE_LIMIT {
          assert Tracked(key);
          TracksEvicted(capacity as real, refillPerSec, Admitted(key), buckets[key], now, now);
          buckets := buckets - {key};
          OthersTracked@Next(key);
        }
        todo := todo - {key};
      }
    }
  }

  lemma NewSize(m: map<string, Bucket>, key: string, b: Bucket)
    requires key !in m
    ensures |m[key := b]| == |m| + 1
  {
    assert m[key := b].Keys == m.Keys + {key};
  }
}
