/** Start-up and shutdown of the event loops. The main thread creates loops one by one, each
    registering its own eventfd before its thread starts; a signal handler, on any thread and
    at any moment, sets the stop flag and writes every registered eventfd; each loop tests the
    flag, waits, and leaves when it finds its eventfd readable or the flag set. A run is any
    interleaving of these steps, for any number of loops and of signals. */
module Shutdown {

  /** The size of the broadcast table. */
  const TABLE_SIZE: nat := 64

  /** Where the thread of a loop stands: not running yet, about to test the flag, inside
      `epoll_wait`, or past the loop. */
  datatype Place = NotStarted | AtTest | InWait | Left

  /** `ready[i]` says that the eventfd of loop `i` is readable, `table` lists the loops in the
      broadcast table, and `handlers` how many entries each handler invocation has written. */
  datatype State = State(
    stop: bool,
    loops: seq<Place>,
    ready: seq<bool>,
    table: seq<nat>,
    handlers: seq<nat>,
    finished: bool
  )

  /** `Return` is the end of an `epoll_wait`, for whatever reason, with or without the event of
      the loop's eventfd in the batch. */
  datatype Step =
    | Create
    | Start(i: nat)
    | Test(i: nat)
    | Return(i: nat, wakeup: bool)
    | Signal
    | Write(h: nat)
    | Finish(h: nat)

  const INIT: State := State(false, [], [], [], [], false)

  predicate Enabled(total: nat, s: State, step: Step) {
    match step
    case Create => |s.loops| < total
    case Start(i) => i < |s.loops| && s.loops[i].NotStarted?
    case Test(i) => i < |s.loops| && s.loops[i].AtTest?
    case Return(i, wakeup) => i < |s.loops| && s.loops[i].InWait? && i < |s.ready| && (wakeup ==> s.ready[i])
    case Signal => true
    case Write(h) => h < |s.handlers| && s.handlers[h] < |s.table| && s.table[s.handlers[h]] < |s.ready|
    case Finish(h) => h < |s.handlers| && s.handlers[h] >= |s.table|
  }

  function Next(total: nat, s: State, step: Step): State {
    if !Enabled(total, s, step) then s
    else match step
      case Create =>
        s.(loops := s.loops + [NotStarted], ready := s.ready + [false],
           table := if |s.table| < TABLE_SIZE then s.table + [|s.loops|] else s.table)
      case Start(i) => s.(loops := s.loops[i := AtTest])
      case Test(i) => s.(loops := s.loops[i := if s.stop then Left else InWait])
      case Return(i, wakeup) =>
        if wakeup then s.(loops := s.loops[i := Left], ready := s.ready[i := false])
        else s.(loops := s.loops[i := AtTest])
      case Signal => s.(stop := true, handlers := s.handlers + [0])
      case Write(h) =>
        s.(ready := s.ready[s.table[s.handlers[h]] := true], handlers := s.handlers[h := s.handlers[h] + 1])
      case Finish(h) => s.(finished := true)
  }

  function Run(total: nat, s: State, steps: seq<Step>): State
    decreases |steps|
  {
    if steps == [] then s else Run(total, Next(total, s, steps[0]), steps[1..])
  }

  // ---------------------------------------------------------------- no lost wake-up

  /** Loop `i` sleeps and nothing will wake it for the shutdown. */
  predicate Stranded(s: State, i: nat) {
    i < |s.loops| && i < |s.ready| && s.loops[i].InWait? && !s.ready[i]
  }

  ghost predicate Safe(s: State) { s.finished ==> forall i: nat :: !Stranded(s, i) }

  /** The table holds the first loops in order, the flag is set before any handler writes, and
      no loop that a handler has written to is stranded. */
  ghost predicate Consistent(total: nat, s: State) { InShape(total, s) && WrittenAwake(s) }

  ghost predicate InShape(total: nat, s: State) {
    && |s.ready| == |s.loops| <= total
    && |s.table| == (if |s.loops| < TABLE_SIZE then |s.loops| else TABLE_SIZE)
    && (forall k :: 0 <= k < |s.table| ==> s.table[k] == k)
    && (s.stop <==> s.handlers != [])
    && (s.finished ==> s.stop)
    && (forall h :: 0 <= h < |s.handlers| ==> s.handlers[h] <= |s.table|)
  }

  ghost predicate WrittenAwake(s: State) {
    forall h, i: nat :: 0 <= h < |s.handlers| && i < s.handlers[h] ==> !Stranded(s, i)
  }

  lemma StepKeepsShape(total: nat, s: State, step: Step)
    requires InShape(total, s)
    ensures InShape(total, Next(total, s, step))
  {
  }

  /** Once the flag is set no loop becomes stranded. */
  lemma NoneStrandedAfterStop(total: nat, s: State, step: Step, i: nat)
    requires InShape(total, s) && s.stop && Stranded(Next(total, s, step), i)
    ensures Stranded(s, i)
  {
  }

  lemma StepKeepsAwake(total: nat, s: State, step: Step)
    requires InShape(total, s) && WrittenAwake(s)
    ensures WrittenAwake(Next(total, s, step))
  {
    hide InShape;
    var t := Next(total, s, step);
    forall h, i: nat | 0 <= h < |t.handlers| && i < t.handlers[h] ensures !Stranded(t, i) {
      if Stranded(t, i) && s.stop {
        NoneStrandedAfterStop(total, s, step, i);
      }
      if step.Write? { WriteWakes(total, s, step.h); }
      NoHandlersBeforeStop(total, s);
    }
  }

  lemma NoHandlersBeforeStop(total: nat, s: State)
    requires InShape(total, s)
    ensures s.stop <==> s.handlers != []
  {
  }

  /** The loop that a handler writes to is not stranded. */
  lemma WriteWakes(total: nat, s: State, h: nat)
    requires InShape(total, s)
    ensures Enabled(total, s, Write(h)) ==> !Stranded(Next(total, s, Write(h)), s.handlers[h])
  {
  }

  lemma StepKeepsConsistent(total: nat, s: State, step: Step)
    requires Consistent(total, s)
    ensures Consistent(total, Next(total, s, step))
  {
    hide Next, InShape, WrittenAwake;
    StepKeepsShape(total, s, step);
    StepKeepsAwake(total, s, step);
  }

  lemma StepKeepsSafe(total: nat, s: State, step: Step)
    requires total <= TABLE_SIZE && Consistent(total, s) && Safe(s)
    ensures Consistent(total, Next(total, s, step)) && Safe(Next(total, s, step))
  {
    StepKeepsConsistent(total, s, step);
    var t := Next(total, s, step);
    forall i: nat | t.finished && Stranded(t, i) ensures Stranded(s, i) {
    }
    if step.Finish? && Enabled(total, s, step) {
      assert forall i: nat :: i < s.handlers[step.h] ==> !Stranded(s, i);
    }
  }

  lemma {:induction false} RunKeepsSafe(total: nat, s: State, steps: seq<Step>)
    requires total <= TABLE_SIZE && Consistent(total, s) && Safe(s)
    ensures Consistent(total, Run(total, s, steps)) && Safe(Run(total, s, steps))
    decreases |steps|
  {
    hide Next, Consistent, Safe;
    if steps != [] {
      StepKeepsSafe(total, s, steps[0]);
      RunKeepsSafe(total, Next(total, s, steps[0]), steps[1..]);
    }
  }

  // ---------------------------------------------------------------- one loop too many

  function Repeat(step: Step, k: nat): seq<Step> {
    if k == 0 then [] else [step] + Repeat(step, k - 1)
  }

  lemma {:induction false} RunAppend(total: nat, s: State, a: seq<Step>, b: seq<Step>)
    ensures Run(total, s, a + b) == Run(total, Run(total, s, a), b)
    decreases |a|
  {
    if a == [] {
      assert a + b == b;
    } else {
      assert (a + b)[1..] == a[1..] + b;
      RunAppend(total, Next(total, s, a[0]), a[1..], b);
    }
  }

  lemma CreateOne(total: nat, s: State)
    requires |s.loops| < total && |s.ready| == |s.loops|
    requires |s.table| == (if |s.loops| < TABLE_SIZE then |s.loops| else TABLE_SIZE)
    requires forall j :: 0 <= j < |s.table| ==> s.table[j] == j
    ensures var t := Next(total, s, Create);
            && t.loops == s.loops + [NotStarted] && t.ready == s.ready + [false]
            && t == s.(loops := t.loops, ready := t.ready, table := t.table)
            && |t.table| == (if |t.loops| < TABLE_SIZE then |t.loops| else TABLE_SIZE)
            && (forall j :: 0 <= j < |t.table| ==> t.table[j] == j)
  {
  }

  /** Creating `k` more loops before anything else happens. */
  lemma {:induction false} CreateMany(total: nat, s: State, k: nat)
    requires |s.loops| + k <= total && |s.ready| == |s.loops|
    requires |s.table| == (if |s.loops| < TABLE_SIZE then |s.loops| else TABLE_SIZE)
    requires forall j :: 0 <= j < |s.table| ==> s.table[j] == j
    ensures var t := Run(total, s, Repeat(Create, k));
            && |t.loops| == |t.ready| == |s.loops| + k
            && (forall i :: 0 <= i < |s.loops| ==> t.loops[i] == s.loops[i] && t.ready[i] == s.ready[i])
            && (forall i :: |s.loops| <= i < |t.loops| ==> t.loops[i] == NotStarted && !t.ready[i])
            && t == s.(loops := t.loops, ready := t.ready, table := t.table)
            && |t.table| == (if |t.loops| < TABLE_SIZE then |t.loops| else TABLE_SIZE)
            && (forall j :: 0 <= j < |t.table| ==> t.table[j] == j)
    decreases k
  {
    hide Next;
    if k > 0 {
      var u := Next(total, s, Create);
      CreateOne(total, s);
      assert Repeat(Create, k)[1..] == Repeat(Create, k - 1);
      CreateMany(total, u, k - 1);
    }
  }

  lemma WriteOne(total: nat, s: State)
    requires |s.handlers| == 1 && s.handlers[0] < |s.table| <= |s.ready|
    requires forall j :: 0 <= j < |s.table| ==> s.table[j] == j
    ensures var t := Next(total, s, Write(0));
            && t == s.(ready := t.ready, handlers := [s.handlers[0] + 1])
            && |t.ready| == |s.ready|
            && (forall i :: |s.table| <= i < |s.ready| ==> t.ready[i] == s.ready[i])
  {
    assert s.handlers[0 := s.handlers[0] + 1] == [s.handlers[0] + 1];
  }

  /** The handler writing `k` more entries reaches only loops that are in the table. */
  lemma {:induction false} WriteMany(total: nat, s: State, k: nat)
    requires |s.handlers| == 1 && s.handlers[0] + k <= |s.table| && |s.table| <= |s.ready|
    requires forall j :: 0 <= j < |s.table| ==> s.table[j] == j
    ensures var t := Run(total, s, Repeat(Write(0), k));
            && t == s.(ready := t.ready, handlers := [s.handlers[0] + k])
            && |t.ready| == |s.ready|
            && (forall i :: |s.table| <= i < |s.ready| ==> t.ready[i] == s.ready[i])
    decreases k
  {
    hide Next;
    if k > 0 {
      var u := Next(total, s, Write(0));
      WriteOne(total, s);
      assert Repeat(Write(0), k)[1..] == Repeat(Write(0), k - 1);
      WriteMany(total, u, k - 1);
    } else {
      assert s.handlers == [s.handlers[0]];
    }
  }

  lemma RunThree(total: nat, s: State, a: Step, b: Step, c: Step)
    ensures Run(total, s, [a, b, c]) == Next(total, Next(total, Next(total, s, a), b), c)
  {
    hide Next;
    assert [a, b, c][1..] == [b, c] && [b, c][1..] == [c] && [c][1..] == [];
    assert Run(total, Next(total, s, a), [b, c]) == Run(total, Next(total, Next(total, s, a), b), [c]);
    var u := Next(total, Next(total, s, a), b);
    assert Run(total, u, [c]) == Run(total, Next(total, u, c), []);
  }

  /** With more loops than table entries the last one can be left asleep. */
  lemma StrandedBeyondTable(total: nat) returns (steps: seq<Step>)
    requires total > TABLE_SIZE
    ensures !Safe(Run(total, INIT, steps))
  {
    hide Repeat;
    var i := TABLE_SIZE;
    var creates, begin, writes := Repeat(Create, i + 1), [Start(i), Test(i), Signal], Repeat(Write(0), i);
    CreateMany(total, INIT, i + 1);
    var s1 := Run(total, INIT, creates);
    var started := Next(total, s1, Start(i));
    var waiting := Next(total, started, Test(i));
    var s2 := Next(total, waiting, Signal);
    RunThree(total, s1, Start(i), Test(i), Signal);
    WriteMany(total, s2, i);
    var s3 := Run(total, s2, writes);
    var s4 := Next(total, s3, Finish(0));
    assert Run(total, s3, [Finish(0)]) == s4 by { assert [Finish(0)][1..] == []; }
    RunAppend(total, INIT, creates, begin);
    RunAppend(total, INIT, creates + begin, writes);
    RunAppend(total, INIT, creates + begin + writes, [Finish(0)]);
    steps := creates + begin + writes + [Finish(0)];
    assert Stranded(s4, i);
  }

  /** No interleaving leaves a loop asleep after a completed broadcast, if and only if the loops
      fit the broadcast table. */
  lemma ShutdownIsNeverLost(total: nat)
    ensures (forall steps: seq<Step> :: Safe(Run(total, INIT, steps))) <==> total <= 64
  {
    if total <= TABLE_SIZE {
      forall steps: seq<Step> ensures Safe(Run(total, INIT, steps)) {
        RunKeepsSafe(total, INIT, steps);
      }
    } else {
      var steps := StrandedBeyondTable(total);
    }
  }

  // ---------------------------------------------------------------- leaving

  /** How many steps of its own a loop is away from leaving, once the flag is set. */
  function StepsToLeave(p: Place): nat {
    match p
    case NotStarted => 2
    case InWait => 2
    case AtTest => 1
    case Left => 0
  }

  function MoverOf(step: Step): int {
    match step
    case Start(i) => i
    case Test(i) => i
    case Return(i, _) => i
    case _ => -1
  }

  /** The steps of its own that loop `i` takes during a run. */
  function OwnSteps(total: nat, s: State, steps: seq<Step>, i: nat): nat
    decreases |steps|
  {
    if steps == [] then 0
    else (if Enabled(total, s, steps[0]) && MoverOf(steps[0]) == i then 1 else 0)
         + OwnSteps(total, Next(total, s, steps[0]), steps[1..], i)
  }

  /** Once the flag is set, a loop takes no more steps of its own than it is away from leaving,
      whatever the others do; nobody who is outside waits again. */
  lemma {:induction false} StopDrivesLoopsOut(total: nat, s: State, steps: seq<Step>, i: nat)
    requires s.stop && i < |s.loops|
    ensures var t := Run(total, s, steps);
            && t.stop && i < |t.loops|
            && OwnSteps(total, s, steps, i) + StepsToLeave(t.loops[i]) <= StepsToLeave(s.loops[i]) <= 2
            && (t.loops[i].InWait? ==> s.loops[i].InWait?)
    decreases |steps|
  {
    if steps != [] {
      StopDrivesLoopsOut(total, Next(total, s, steps[0]), steps[1..], i);
    }
  }

  /** And after a completed broadcast nothing holds a loop back: from any state that a run has
      reached, at most two steps of its own take it out. */
  lemma EveryLoopCanLeave(total: nat, steps: seq<Step>, i: nat) returns (more: seq<Step>)
    requires total <= TABLE_SIZE && Run(total, INIT, steps).finished && i < |Run(total, INIT, steps).loops|
    ensures |more| <= 2 && forall k :: 0 <= k < |more| ==> MoverOf(more[k]) == i
    ensures var t := Run(total, INIT, steps + more); i < |t.loops| && t.loops[i].Left?
  {
    RunKeepsSafe(total, INIT, steps);
    var s := Run(total, INIT, steps);
    assert !Stranded(s, i);
    more := match s.loops[i]
      case NotStarted => [Start(i), Test(i)]
      case AtTest => [Test(i)]
      case InWait => [Return(i, true)]
      case Left => [];
    RunAppend(total, INIT, steps, more);
    if |more| > 0 {
      var u := Next(total, s, more[0]);
      assert Run(total, s, more) == Run(total, u, more[1..]);
      if |more| == 2 {
        assert more[1..] == [Test(i)] && [Test(i)][1..] == [];
        assert Run(total, u, [Test(i)]) == Run(total, Next(total, u, Test(i)), []);
      }
    }
  }

  /** A readable eventfd and a loop that has left both mean that the flag has been set. */
  ghost predicate LeavesForStop(s: State) {
    (forall i :: 0 <= i < |s.ready| && s.ready[i] ==> s.stop) && (forall i :: 0 <= i < |s.loops| && s.loops[i].Left? ==> s.stop)
  }

  lemma StepLeavesForStop(total: nat, s: State, step: Step)
    requires Consistent(total, s) && LeavesForStop(s)
    ensures LeavesForStop(Next(total, s, step))
  {
  }

  lemma {:induction false} RunLeavesForStop(total: nat, s: State, steps: seq<Step>)
    requires Consistent(total, s) && LeavesForStop(s)
    ensures LeavesForStop(Run(total, s, steps))
    decreases |steps|
  {
    hide Next, Consistent, LeavesForStop;
    if steps != [] {
      StepKeepsConsistent(total, s, steps[0]);
      StepLeavesForStop(total, s, steps[0]);
      RunLeavesForStop(total, Next(total, s, steps[0]), steps[1..]);
    }
  }

  /** No loop leaves before a signal, whatever ends its waits. */
  lemma OnlySignalsEndLoops(total: nat, steps: seq<Step>, i: nat)
    ensures var s := Run(total, INIT, steps); i < |s.loops| && s.loops[i].Left? ==> s.stop && s.handlers != []
  {
    hide Run, Next;
    assert Consistent(total, INIT) && LeavesForStop(INIT);
    RunLeavesForStop(total, INIT, steps);
    RunKeepsConsistent(total, INIT, steps);
  }

  lemma {:induction false} RunKeepsConsistent(total: nat, s: State, steps: seq<Step>)
    requires Consistent(total, s)
    ensures Consistent(total, Run(total, s, steps))
    decreases |steps|
  {
    hide Next, Consistent;
    if steps != [] {
      StepKeepsConsistent(total, s, steps[0]);
      RunKeepsConsistent(total, Next(total, s, steps[0]), steps[1..]);
    }
  }
}
