/** The asynchronous logger: producers append to a front queue under a lock, a writer thread
    swaps it with a back queue and writes that out unlocked, and `stop` joins the writer and
    writes what is left. `Next` has one case per stretch of code that runs without being
    interrupted; a run is any interleaving of such steps. */
module Logger {

  /** `number` counts the messages pushed before this one. */
  datatype Message = Message(number: nat, text: string)

  /** Where the writer stands: about to test `_running` with the lock held, waiting for the
      condition variable, writing the back queue without the lock, or gone. */
  datatype Writer = AtLoop | Waiting | Writing | Gone

  datatype State = State(
    running: bool,
    writer: Writer,
    front: seq<Message>,
    back: seq<Message>,
    written: seq<Message>,
    dropped: seq<Message>,
    history: seq<string>,
    drainedAt: nat,
    drained: bool
  )

  /** `Push` is the locked part of `log`; its caller tested `_running` some time before. `Wake`
      is the end of a wait, by notification, timeout or the predicate being true already. */
  datatype Step = Push(text: string) | Test | Wake | WriteOne | BackEmpty | RequestStop | FinalDrain

  const INIT: State := State(true, AtLoop, [], [], [], [], [], 0, false)

  function PushTo(max: nat, s: State, text: string): State {
    var full := |s.front| >= max && s.front != [];
    s.(front := (if full then s.front[1..] else s.front) + [Message(|s.history|, text)],
       dropped := if full then s.dropped + [s.front[0]] else s.dropped,
       history := s.history + [text])
  }

  function Next(max: nat, s: State, step: Step): State {
    match step
    case Push(text) => PushTo(max, s, text)
    case Test =>
      if !s.writer.AtLoop? then s else s.(writer := if s.running then Waiting else Gone)
    case Wake =>
      if !s.writer.Waiting? then s
      else if !s.running && s.front == [] then s.(writer := Gone)
      else s.(front := s.back, back := s.front, writer := Writing)
    case WriteOne =>
      if !s.writer.Writing? || s.back == [] then s
      else s.(written := s.written + [s.back[0]], back := s.back[1..])
    case BackEmpty =>
      if !s.writer.Writing? || s.back != [] then s else s.(writer := AtLoop)
    case RequestStop => s.(running := false)
    case FinalDrain =>
      if s.running || !s.writer.Gone? || s.drained then s
      else s.(written := s.written + s.front + s.back, front := [], back := [],
              drained := true, drainedAt := |s.history|)
  }

  function Run(max: nat, s: State, steps: seq<Step>): State
    decreases |steps|
  {
    if steps == [] then s else Run(max, Next(max, s, steps[0]), steps[1..])
  }

  // ---------------------------------------------------------------- the invariant

  /** The messages not dropped, oldest first. */
  function Kept(s: State): seq<Message> { s.written + s.back + s.front }

  function NumbersOf(ms: seq<Message>): set<nat> { set m | m in ms :: m.number }

  ghost predicate Ascending(ms: seq<Message>) {
    forall i, j :: 0 <= i < j < |ms| ==> ms[i].number < ms[j].number
  }

  ghost predicate Genuine(ms: seq<Message>, history: seq<string>) {
    forall m :: m in ms ==> m.number < |history| && m.text == history[m.number]
  }

  /** Each of the first `count` messages is in exactly one of the two. */
  ghost predicate EachOnce(kept: seq<Message>, dropped: seq<Message>, count: nat) {
    forall n :: 0 <= n < count ==> (n in NumbersOf(kept) <==> n !in NumbersOf(dropped))
  }

  /** Written, back and front queue together are what was pushed, in order, less the messages
      dropped; the newest `max` messages are never among those; and back is empty whenever the
      queues are swapped or the writer is gone. */
  ghost predicate Conserved(max: nat, s: State) {
    && Ascending(Kept(s)) && Genuine(Kept(s), s.history) && Genuine(s.dropped, s.history)
    && EachOnce(Kept(s), s.dropped, |s.history|)
    && (forall m :: m in s.dropped ==> m.number + max < |s.history|)
    && |s.front| <= max && |s.front| <= |s.history|
    && (forall i :: 0 <= i < |s.front| ==> s.front[i].number == |s.history| - |s.front| + i)
    && (!s.writer.Writing? ==> s.back == [])
    && (s.drained ==> s.writer.Gone? && s.drainedAt <= |s.history| && forall m :: m in s.front ==> m.number >= s.drainedAt)
  }

  /** A step that only moves messages along keeps the order of all of them. */
  lemma SameKept(max: nat, s: State, t: State)
    requires Conserved(max, s) && Kept(t) == Kept(s) && t.history == s.history && t.dropped == s.dropped
    requires t.front == s.front || t.front == []
    requires !t.writer.Writing? ==> t.back == []
    requires t.drained ==> t.writer.Gone? && (t == s.(running := t.running) || (t.front == [] && t.drainedAt == |s.history|))
    ensures Conserved(max, t)
  {
    hide Ascending, Genuine, NumbersOf, EachOnce;
  }

  lemma PushConserves(max: nat, s: State, text: string)
    requires max >= 1 && Conserved(max, s)
    ensures Conserved(max, PushTo(max, s, text))
  {
    hide Ascending, Genuine, NumbersOf, EachOnce;
    var t, m, past := PushTo(max, s, text), Message(|s.history|, text), s.written + s.back;
    var gone, rest := if |s.front| >= max then [s.front[0]] else [], if |s.front| >= max then s.front[1..] else s.front;
    assert Kept(s) == past + gone + rest && Kept(t) == past + rest + [m];
    assert t.dropped == s.dropped + gone;
    KeptAfterPush(past, gone, rest, m, s.history, text);
    DroppedGenuine(s.dropped, gone, s.history, text);
    EachOnceAfterPush(past, gone, rest, m, s.dropped, s.history);
  }

  lemma DroppedGenuine(dropped: seq<Message>, gone: seq<Message>, history: seq<string>, text: string)
    requires Genuine(dropped, history) && Genuine(gone, history + [text])
    ensures Genuine(dropped + gone, history + [text])
  {
  }

  lemma EachOnceAfterPush(
    a: seq<Message>, gone: seq<Message>, b: seq<Message>, m: Message, dropped: seq<Message>, history: seq<string>)
    requires Ascending(a + gone + b) && |gone| <= 1 && m.number == |history|
    requires Genuine(a + gone + b, history) && Genuine(dropped, history)
    requires EachOnce(a + gone + b, dropped, |history|)
    ensures EachOnce(a + b + [m], dropped + gone, |history| + 1)
  {
    hide NumbersOf;
    NumbersMove(a, gone, b, m, dropped);
    DroppedIsElsewhere(a, gone, b);
    NumbersBelow(dropped, history);
    NumbersBelow(a + gone + b, history);
  }

  lemma DroppedIsElsewhere(a: seq<Message>, gone: seq<Message>, b: seq<Message>)
    requires Ascending(a + gone + b) && |gone| <= 1
    ensures NumbersOf(gone) !! NumbersOf(a) && NumbersOf(gone) !! NumbersOf(b)
  {
    var all := a + gone + b;
    forall i, x | 0 <= i < |a| && x in gone ensures x.number != a[i].number {
      assert all[|a|] == x && all[i] == a[i];
    }
    forall i, x | 0 <= i < |b| && x in gone ensures x.number != b[i].number {
      assert all[|a|] == x && all[|a| + 1 + i] == b[i];
    }
  }

  lemma NumbersBelow(ms: seq<Message>, history: seq<string>)
    requires Genuine(ms, history)
    ensures forall n :: n in NumbersOf(ms) ==> n < |history|
  {
  }

  /** Dropping a stretch from an ascending sequence and appending the newest message. */
  lemma KeptAfterPush(a: seq<Message>, gone: seq<Message>, b: seq<Message>, m: Message, history: seq<string>, text: string)
    requires Ascending(a + gone + b) && Genuine(a + gone + b, history) && m == Message(|history|, text)
    ensures Ascending(a + b + [m]) && Genuine(a + b + [m], history + [text]) && Genuine(gone, history + [text])
  {
    var all, r := a + gone + b, a + b + [m];
    forall i | 0 <= i < |a + b| ensures r[i] in all && r[i] == all[if i < |a| then i else i + |gone|] {
      var k := if i < |a| then i else i + |gone|;
      assert r[i] == all[k];
    }
    forall x | x in gone ensures x in all {
      var k :| 0 <= k < |gone| && gone[k] == x;
      assert all[|a| + k] == x;
    }
  }

  lemma NumbersMove(a: seq<Message>, gone: seq<Message>, b: seq<Message>, m: Message, dropped: seq<Message>)
    ensures NumbersOf(a + b + [m]) + NumbersOf(gone) == NumbersOf(a + gone + b) + {m.number}
    ensures NumbersOf(dropped + gone) == NumbersOf(dropped) + NumbersOf(gone)
    ensures NumbersOf(a + gone + b) == NumbersOf(a) + NumbersOf(gone) + NumbersOf(b)
    ensures NumbersOf(a + b + [m]) == NumbersOf(a) + NumbersOf(b) + {m.number}
  {
    assert forall x :: x in a + b + [m] <==> x in a || x in b || x == m;
    assert forall x :: x in a + gone + b <==> x in a || x in gone || x in b;
    assert forall x :: x in dropped + gone <==> x in dropped || x in gone;
  }

  lemma StepConserves(max: nat, s: State, step: Step)
    requires max >= 1 && Conserved(max, s)
    ensures Conserved(max, Next(max, s, step))
  {
    hide Ascending, Genuine, NumbersOf, EachOnce;
    var t := Next(max, s, step);
    if step.Push? {
      PushConserves(max, s, step.text);
    } else {
      assert Kept(t) == Kept(s);
      SameKept(max, s, t);
    }
  }

  // ---------------------------------------------------------------- every interleaving

  /** Whatever the interleaving of producers, writer and `stop`. */
  lemma {:induction false} RunConserves(max: nat, s: State, steps: seq<Step>)
    requires max >= 1 && Conserved(max, s)
    ensures Conserved(max, Run(max, s, steps))
    decreases |steps|
  {
    hide Conserved, Next;
    if steps != [] {
      StepConserves(max, s, steps[0]);
      RunConserves(max, Next(max, s, steps[0]), steps[1..]);
    }
  }

  lemma InitConserved(max: nat)
    ensures Conserved(max, INIT)
  {
  }

  /** From the start of the logger: nothing is lost but what was dropped, nothing is reordered,
      and the newest `max` messages, or all if there are fewer, are never dropped. */
  lemma LoggerConserves(max: nat, steps: seq<Step>)
    requires max >= 1
    ensures var s := Run(max, INIT, steps);
            && Conserved(max, s)
            && forall n :: 0 <= n < |s.history| <= n + max ==> n in NumbersOf(Kept(s))
  {
    InitConserved(max);
    RunConserves(max, INIT, steps);
    var s := Run(max, INIT, steps);
    forall n | 0 <= n < |s.history| <= n + max ensures n in NumbersOf(Kept(s)) {
      assert n !in NumbersOf(s.dropped);
    }
  }

  /** When `stop` has written the rest, every message pushed before that and not dropped is in
      the file, in the order of pushing. */
  lemma StopWritesEverything(max: nat, steps: seq<Step>)
    requires max >= 1
    ensures var s := Run(max, INIT, steps);
            s.drained ==>
              && Ascending(s.written)
              && forall n :: 0 <= n < s.drainedAt ==> n in NumbersOf(s.written) || n in NumbersOf(s.dropped)
  {
    LoggerConserves(max, steps);
    var s := Run(max, INIT, steps);
    if s.drained {
      assert s.back == [] && Kept(s) == s.written + s.front;
      forall i, j | 0 <= i < j < |s.written| ensures s.written[i].number < s.written[j].number {
        assert Kept(s)[i] == s.written[i] && Kept(s)[j] == s.written[j];
      }
      forall n | 0 <= n < s.drainedAt && n !in NumbersOf(s.dropped) ensures n in NumbersOf(s.written) {
        assert n in NumbersOf(Kept(s));
        var m :| m in Kept(s) && m.number == n;
        assert m !in s.front;
      }
    }
  }

  /** After that nothing more reaches the file, however long late producers go on pushing. */
  lemma {:induction false} NothingWrittenAfterDrain(max: nat, s: State, steps: seq<Step>)
    requires s.drained && s.writer.Gone?
    ensures var t := Run(max, s, steps); t.written == s.written && t.drained && t.writer.Gone?
    decreases |steps|
  {
    if steps != [] {
      NothingWrittenAfterDrain(max, Next(max, s, steps[0]), steps[1..]);
    }
  }

  // ---------------------------------------------------------------- everything can be written

  /** Steps that neither push nor stop. */
  predicate WriterSteps(steps: seq<Step>) { forall s :: s in steps ==> s.Test? || s.Wake? || s.WriteOne? || s.BackEmpty? }

  lemma {:induction false} RunAppend(max: nat, s: State, a: seq<Step>, b: seq<Step>)
    ensures Run(max, s, a + b) == Run(max, Run(max, s, a), b)
    decreases |a|
  {
    hide Next;
    if a == [] {
      assert a + b == b;
    } else {
      assert (a + b)[1..] == a[1..] + b;
      RunAppend(max, Next(max, s, a[0]), a[1..], b);
    }
  }

  lemma RunFirst(max: nat, s: State, step: Step, more: seq<Step>)
    ensures Run(max, s, [step] + more) == Run(max, Next(max, s, step), more)
  {
    hide Next;
    assert ([step] + more)[1..] == more;
  }

  lemma RunNone(max: nat, s: State)
    ensures Run(max, s, []) == s
  {
  }

  /** The writer empties the back queue and goes back to its loop. */
  lemma {:induction false} CanWriteBack(max: nat, s: State) returns (steps: seq<Step>)
    requires s.writer.Writing?
    ensures WriterSteps(steps) && Run(max, s, steps) == s.(written := s.written + s.back, back := [], writer := AtLoop)
    decreases |s.back|
  {
    hide Run;
    if s.back == [] {
      RunNone(max, Next(max, s, BackEmpty));
      RunFirst(max, s, BackEmpty, []);
      assert s.written + s.back == s.written;
      steps := [BackEmpty] + [];
    } else {
      var t := Next(max, s, WriteOne);
      steps := CanWriteBack(max, t);
      RunFirst(max, s, WriteOne, steps);
      assert t.written + t.back == s.written + s.back;
      steps := [WriteOne] + steps;
    }
  }

  /** From the head of its loop, while the logger runs, the writer gets the front queue out. */
  lemma CanWriteFront(max: nat, s: State) returns (steps: seq<Step>)
    requires s.writer.Waiting? && s.back == [] && (s.running || s.front != [])
    ensures WriterSteps(steps)
    ensures Run(max, s, steps) == s.(written := s.written + s.front, front := [], writer := AtLoop)
  {
    hide Run;
    var t := Next(max, s, Wake);
    steps := CanWriteBack(max, t);
    RunFirst(max, s, Wake, steps);
    steps := [Wake] + steps;
  }

  lemma WakeFromLoop(max: nat, s: State)
    requires s.writer.AtLoop? && s.running
    ensures Next(max, s, Test) == s.(writer := Waiting)
  {
  }

  /** Whatever has happened, as long as the logger runs, its writer can bring everything queued
      into the file, in order, without another message being pushed. */
  lemma WriterCatchesUp(max: nat, steps: seq<Step>) returns (more: seq<Step>)
    requires max >= 1 && Run(max, INIT, steps).running && !Run(max, INIT, steps).writer.Gone?
    ensures WriterSteps(more)
    ensures var s, t := Run(max, INIT, steps), Run(max, INIT, steps + more);
            t.written == s.written + s.back + s.front && t.back == [] && t.front == [] && t.dropped == s.dropped
  {
    hide Run, Next, Conserved;
    LoggerConserves(max, steps);
    var s := Run(max, INIT, steps);
    assert !s.writer.Writing? ==> s.back == [] by { BackIsEmpty(max, s); }
    var first: seq<Step> := [];
    RunNone(max, s);
    if s.writer.Writing? {
      first := CanWriteBack(max, s);
    }
    var s1 := Run(max, s, first);
    assert s1.written == s.written + s.back && s1.back == [] && s1.front == s.front;
    if s1.writer.AtLoop? {
      WakeFromLoop(max, s1);
      RunNone(max, Next(max, s1, Test));
      RunFirst(max, s1, Test, []);
      RunAppend(max, s, first, [Test] + []);
      first := first + ([Test] + []);
    }
    var s2 := Run(max, s, first);
    var second := CanWriteFront(max, s2);
    RunAppend(max, s, first, second);
    RunAppend(max, INIT, steps, first + second);
    more := first + second;
  }

  lemma BackIsEmpty(max: nat, s: State)
    requires Conserved(max, s)
    ensures !s.writer.Writing? ==> s.back == []
  {
  }

  // ---------------------------------------------------------------- the logger object

  class AsyncLogger {
    const maxQueueSize: nat
    var level: int
    var running: bool
    var front: seq<Message>
    var back: seq<Message>
    var file: seq<Message>
    /** The writer's place in its code, and what the code does not remember. */
    ghost var writer: Writer
    ghost var dropped: seq<Message>
    ghost var history: seq<string>
    ghost var drainedAt: nat
    ghost var drained: bool
    var pushed: nat

    ghost function View(): State
      reads this
    {
      State(running, writer, front, back, file, dropped, history, drainedAt, drained)
    }

    ghost predicate Valid()
      reads this
    {
      1 <= maxQueueSize && pushed == |history| && Conserved(maxQueueSize, View())
    }

    /** The file could be opened and the writer thread started. */
    constructor Init(level: int, maxQueueSize: nat)
      requires 1 <= maxQueueSize
      ensures Valid() && View() == INIT && this.level == level && this.maxQueueSize == maxQueueSize
    {
      this.level, this.maxQueueSize, running, pushed := level, maxQueueSize, true, 0;
      front, back, file := [], [], [];
      writer, dropped, history, drainedAt, drained := AtLoop, [], [], 0, false;
    }

    /** A message below the threshold, or after `stop`, is not logged; otherwise it is queued,
        the oldest queued message making room when the queue is full. */
    method Log(severity: int, text: string)
      requires Valid()
      modifies this
      ensures Valid() && level == old(level)
      ensures View() == if severity < level || !old(running) then old(View())
                        else Next(maxQueueSize, old(View()), Push(text))
      ensures severity >= level && old(running) ==>
        && history == old(history) + [text] && front != [] && front[|front| - 1] == Message(|old(history)|, text)
        && front == (if |old(front)| >= maxQueueSize then old(front)[1..] else old(front)) + [front[|front| - 1]]
    {
      hide Conserved;
      if severity < level { return; }
      if !running { return; }
      StepConserves(maxQueueSize, View(), Push(text));
      if |front| >= maxQueueSize {
        dropped := dropped + [front[0]];
        front := front[1..];
      }
      front := front + [Message(pushed, text)];
      pushed, history := pushed + 1, history + [text];
    }

    /** The head of the writer's loop: whether it goes on. */
    method TestRunning() returns (go: bool)
      requires Valid() && writer.AtLoop?
      modifies this`writer
      ensures Valid() && go == running && View() == Next(maxQueueSize, old(View()), Test)
      ensures writer == if go then Waiting else Gone
    {
      StepConserves(maxQueueSize, View(), Test);
      go := running;
      writer := if running then Waiting else Gone;
    }

    /** After the wait, with the lock held again: stop, or swap the queues. */
    method SwapBuffers() returns (go: bool)
      requires Valid() && writer.Waiting?
      modifies this`writer, this`front, this`back
      ensures Valid() && View() == Next(maxQueueSize, old(View()), Wake)
      ensures go <==> running || old(front) != []
      ensures if go then front == [] && back == old(front) && writer.Writing? else front == old(front) && writer.Gone?
    {
      StepConserves(maxQueueSize, View(), Wake);
      if !running && front == [] {
        writer := Gone;
        return false;
      }
      front, back := back, front;
      writer := Writing;
      go := true;
    }

    /** Without the lock: write the whole back queue. */
    method WriteBack()
      requires Valid() && writer.Writing?
      modifies this`file, this`back, this`writer
      ensures Valid() && file == old(file) + old(back) && back == [] && writer == AtLoop
    {
      hide Conserved;
      ghost var batch := back;
      while back != []
        invariant Valid() && writer.Writing?
        invariant file + back == old(file) + batch
        decreases |back|
      {
        StepConserves(maxQueueSize, View(), WriteOne);
        file := file + [back[0]];
        back := back[1..];
      }
      assert file + [] == file;
      StepConserves(maxQueueSize, View(), BackEmpty);
      writer := AtLoop;
    }

    /** `stop` clears the flag; only the first call goes on to join and drain. */
    method RequestStop() returns (first: bool)
      requires Valid()
      modifies this`running
      ensures Valid() && first == old(running) && View() == Next(maxQueueSize, old(View()), Step.RequestStop)
      ensures !running
    {
      StepConserves(maxQueueSize, View(), Step.RequestStop);
      if !running { return false; }
      running := false;
      first := true;
    }

    /** After the join: write the front queue and then the back queue. */
    method DrainRest()
      requires Valid() && !running && writer.Gone? && !drained
      modifies this`file, this`front, this`back, this`drained, this`drainedAt
      ensures Valid() && View() == Next(maxQueueSize, old(View()), FinalDrain)
      ensures file == old(file) + old(front) + old(back) && front == [] && back == []
    {
      hide Conserved;
      StepConserves(maxQueueSize, View(), FinalDrain);
      ghost var f, b, w := front, back, file;
      while front != []
        invariant file + front == w + f && back == b
        invariant drained == old(drained) && drainedAt == old(drainedAt)
        decreases |front|
      {
        file := file + [front[0]];
        front := front[1..];
      }
      assert file + [] == file == w + f;
      while back != []
        invariant file + back == w + f + b && front == []
        invariant drained == old(drained) && drainedAt == old(drainedAt)
        decreases |back|
      {
        file := file + [back[0]];
        back := back[1..];
      }
      assert file + [] == file;
      drained, drainedAt := true, |history|;
    }
  }
}
