/** The database task queue (engine/src/databasetasks.cpp): one worker thread, any number of
    callers of addTask, flush and shutdown, a mutex and a condition variable.

    A step is one critical section, one notify, one query run, or one test of the thread
    state; the mutex makes a critical section atomic.  Waiting releases the mutex and
    joins the wait set in one step, and a waiting thread may wake up by itself. */
module DatabaseTasks {
  import opened Common

  type Query = string

  datatype ThreadState = Running | Closing | Terminated

  /** Where the worker is: before its test of the thread state, between that test and taking
      the lock, in the wait set, woken but without the lock, running the k-th popped query,
      or out of its loop. */
  datatype Worker = Testing | Locking | Waiting | Woken | Busy(k: nat) | Done

  /** Where a caller of flush is: about to take the lock, running a query it popped, or past
      its loop with the notify of shutdown still to issue. */
  datatype Flusher = Flushing(shutdown: bool) | Draining(k: nat, shutdown: bool) | Notifying

  datatype State = State(
    threadState: ThreadState,
    tasks: seq<Query>,
    worker: Worker,
    owing: set<nat>,               // callers of addTask that have still to notify
    flushers: map<nat, Flusher>,   // callers of flush and shutdown
    accepted: seq<Query>,          // history: queries that addTask put into the queue
    popped: seq<Query>,            // history: queries taken out, in order
    ran: seq<nat>                  // history: which popped queries have been run, in order
  )

  datatype Action =
    | Test
    | Lock
    | WakeUp
    | Relock
    | RunTask
    | AddTask(caller: nat, query: Query)
    | Notify(caller: nat)
    | Flush(caller: nat)
    | Shutdown(caller: nat)
    | FlushStep(caller: nat)
    | FlushRun(caller: nat)
    | FinalNotify(caller: nat)
    | Stop

  const INITIAL := State(Running, [], Testing, {}, map[], [], [], [])

  predicate Enabled(s: State, a: Action) {
    match a
    case Test => s.worker == Testing
    case Lock => s.worker == Locking
    case WakeUp => s.worker == Waiting
    case Relock => s.worker == Woken
    case RunTask => s.worker.Busy?
    case AddTask(caller, query) => caller !in s.owing
    case Notify(caller) => caller in s.owing
    case Flush(caller) => caller !in s.flushers
    case Shutdown(caller) => caller !in s.flushers
    case FlushStep(caller) => caller in s.flushers && s.flushers[caller].Flushing?
    case FlushRun(caller) => caller in s.flushers && s.flushers[caller].Draining?
    case FinalNotify(caller) => caller in s.flushers && s.flushers[caller].Notifying?
    case Stop => true
  }

  function Notified(s: State): State {
    if s.worker == Waiting then s.(worker := Woken) else s
  }

  // The first query leaves the queue.
  function Pop(s: State): State
    requires s.tasks != []
  {
    s.(tasks := s.tasks[1..], popped := s.popped + [s.tasks[0]])
  }

  function Next(s: State, a: Action): State
    requires Enabled(s, a)
  {
    match a
    case Test => s.(worker := if s.threadState != Terminated then Locking else Done)
    case Lock => if s.tasks == [] then s.(worker := Waiting) else Pop(s).(worker := Busy(|s.popped|))
    case WakeUp => s.(worker := Woken)
    case Relock => if s.tasks == [] then s.(worker := Testing) else Pop(s).(worker := Busy(|s.popped|))
    case RunTask => s.(worker := Testing, ran := s.ran + [s.worker.k])
    case AddTask(caller, query) =>
      if s.threadState == Running then
        s.(tasks := s.tasks + [query], accepted := s.accepted + [query],
           owing := if s.tasks == [] then s.owing + {caller} else s.owing)
      else s
    case Notify(caller) => Notified(s).(owing := s.owing - {caller})
    case Flush(caller) => s.(flushers := s.flushers[caller := Flushing(false)])
    case Shutdown(caller) => s.(threadState := Terminated, flushers := s.flushers[caller := Flushing(true)])
    case FlushStep(caller) =>
      var f := s.flushers[caller];
      if s.tasks != [] then Pop(s).(flushers := s.flushers[caller := Draining(|s.popped|, f.shutdown)])
      else if f.shutdown then s.(flushers := s.flushers[caller := Notifying])
      else s.(flushers := s.flushers - {caller})
    case FlushRun(caller) =>
      var f := s.flushers[caller];
      s.(flushers := s.flushers[caller := Flushing(f.shutdown)], ran := s.ran + [f.k])
    case FinalNotify(caller) => Notified(s).(flushers := s.flushers - {caller})
    case Stop => s.(threadState := Closing)
  }

  // ----- Invariants ----------------------------------------------------------------------

  // What was accepted is what was popped followed by the queue: nothing is lost, doubled or
  // reordered.
  ghost predicate QueueIsFifo(s: State) {
    s.accepted == s.popped + s.tasks
  }

  datatype Thread = TheWorker | Caller(id: nat)

  // The popped query a thread has in its hands: popped, and not run yet.
  function Hand(s: State, t: Thread): Option<nat> {
    match t
    case TheWorker => if s.worker.Busy? then Some(s.worker.k) else None
    case Caller(id) => if id in s.flushers && s.flushers[id].Draining? then Some(s.flushers[id].k) else None
  }

  // Every popped query has been run once, or is in the hands of exactly one thread.
  ghost predicate RunOnce(s: State) {
    && (forall i, j :: 0 <= i < j < |s.ran| ==> s.ran[i] != s.ran[j])
    && (forall k :: k in s.ran ==> k < |s.popped|)
    && (forall t :: Hand(s, t).Some? ==> Hand(s, t).value < |s.popped| && Hand(s, t).value !in s.ran)
    && (forall t, u :: Hand(s, t).Some? && Hand(s, t) == Hand(s, u) ==> t == u)
    && (forall k: nat :: k < |s.popped| && k !in s.ran ==> exists t :: Hand(s, t) == Some(k))
  }

  // A worker in the wait set with work in the queue has a notify coming.
  ghost predicate NoLostWakeUp(s: State) {
    s.worker == Waiting && s.tasks != [] ==> s.owing != {}
  }

  // Once shutdown is past its flush, everything accepted has been popped, for good.
  ghost predicate ShutdownDrains(s: State) {
    && (forall f :: f in s.flushers && s.flushers[f] == Notifying ==> s.tasks == [] && s.threadState != Running)
    && (forall f :: f in s.flushers && s.flushers[f].Flushing? && s.flushers[f].shutdown ==> s.threadState != Running)
    && (forall f :: f in s.flushers && s.flushers[f].Draining? && s.flushers[f].shutdown ==> s.threadState != Running)
  }

  ghost predicate Inv(s: State) {
    QueueIsFifo(s) && RunOnce(s) && NoLostWakeUp(s) && ShutdownDrains(s)
  }

  lemma StepKeepsFifo(s: State, a: Action)
    requires Enabled(s, a) && QueueIsFifo(s)
    ensures QueueIsFifo(Next(s, a))
  {
    if s.tasks != [] {
      assert s.popped + s.tasks == (s.popped + [s.tasks[0]]) + s.tasks[1..];
    }
    if a.AddTask? {
      assert s.popped + s.tasks + [a.query] == s.popped + (s.tasks + [a.query]);
    }
  }

  lemma StepKeepsWakeUps(s: State, a: Action)
    requires Enabled(s, a) && NoLostWakeUp(s)
    ensures NoLostWakeUp(Next(s, a))
  {
  }

  lemma StepKeepsDrained(s: State, a: Action)
    requires Enabled(s, a) && ShutdownDrains(s)
    ensures ShutdownDrains(Next(s, a))
  {
  }

  // Only the hands of t may differ.
  ghost predicate OthersKeep(s: State, n: State, t: Thread) {
    forall u :: u != t ==> Hand(n, u) == Hand(s, u)
  }

  lemma IdleKeepsRunOnce(s: State, n: State, t: Thread)
    requires RunOnce(s) && OthersKeep(s, n, t) && Hand(n, t) == Hand(s, t)
    requires n.popped == s.popped && n.ran == s.ran
    ensures RunOnce(n)
  {
    forall k: nat | k < |n.popped| && k !in n.ran
      ensures exists u :: Hand(n, u) == Some(k)
    {
      var u :| Hand(s, u) == Some(k);
      assert Hand(n, u) == Some(k);
    }
  }

  lemma TakeKeepsRunOnce(s: State, n: State, t: Thread)
    requires RunOnce(s) && OthersKeep(s, n, t)
    requires Hand(s, t).None? && Hand(n, t) == Some(|s.popped|)
    requires |n.popped| == |s.popped| + 1 && n.ran == s.ran
    ensures RunOnce(n)
  {
    forall k: nat | k < |n.popped| && k !in n.ran
      ensures exists u :: Hand(n, u) == Some(k)
    {
      if k < |s.popped| {
        var u :| Hand(s, u) == Some(k);
        assert Hand(n, u) == Some(k);
      } else {
        assert Hand(n, t) == Some(k);
      }
    }
  }

  lemma RunKeepsRunOnce(s: State, n: State, t: Thread)
    requires RunOnce(s) && OthersKeep(s, n, t)
    requires Hand(s, t).Some? && Hand(n, t).None?
    requires n.popped == s.popped && n.ran == s.ran + [Hand(s, t).value]
    ensures RunOnce(n)
  {
    forall k: nat | k < |n.popped| && k !in n.ran
      ensures exists u :: Hand(n, u) == Some(k)
    {
      assert k != Hand(s, t).value by { assert n.ran[|s.ran|] == Hand(s, t).value; }
      assert forall x :: x in s.ran ==> x in n.ran;
      var u :| Hand(s, u) == Some(k);
      assert Hand(n, u) == Some(k);
    }
  }

  // The thread that takes a step.
  function Actor(a: Action): Thread {
    match a
    case Flush(caller) => Caller(caller)
    case Shutdown(caller) => Caller(caller)
    case FlushStep(caller) => Caller(caller)
    case FlushRun(caller) => Caller(caller)
    case FinalNotify(caller) => Caller(caller)
    case _ => TheWorker
  }

  lemma StepKeepsRunOnce(s: State, a: Action)
    requires Enabled(s, a) && RunOnce(s)
    ensures RunOnce(Next(s, a))
  {
    var n, t := Next(s, a), Actor(a);
    assert OthersKeep(s, n, t);
    if |n.ran| > |s.ran| {
      RunKeepsRunOnce(s, n, t);
    } else if |n.popped| > |s.popped| {
      TakeKeepsRunOnce(s, n, t);
    } else {
      IdleKeepsRunOnce(s, n, t);
    }
  }

  // ----- Runs ----------------------------------------------------------------------------

  predicate Possible(s: State, run: seq<Action>)
    decreases |run|
  {
    run == [] || (Enabled(s, run[0]) && Possible(Next(s, run[0]), run[1..]))
  }

  function After(s: State, run: seq<Action>): State
    requires Possible(s, run)
    decreases |run|
  {
    if run == [] then s else After(Next(s, run[0]), run[1..])
  }

  /** Every interleaving keeps the four invariants: the accepted queries are the popped ones
      followed by the queue, each popped query is run once or in the hands of one thread, the
      worker never waits on work without a notify owed, and a shutdown past its flush has
      left nothing behind. */
  lemma {:induction false} RunKeepsInv(s: State, run: seq<Action>)
    requires Inv(s) && Possible(s, run)
    ensures Inv(After(s, run))
    decreases |run|
  {
    if run != [] {
      StepKeepsFifo(s, run[0]);
      StepKeepsRunOnce(s, run[0]);
      StepKeepsWakeUps(s, run[0]);
      StepKeepsDrained(s, run[0]);
      RunKeepsInv(Next(s, run[0]), run[1..]);
    }
  }

  lemma ReachableIsInv(run: seq<Action>)
    requires Possible(INITIAL, run)
    ensures Inv(After(INITIAL, run))
  {
    RunKeepsInv(INITIAL, run);
  }

  ghost predicate AtRest(s: State) {
    forall t :: Hand(s, t).None?
  }

  function Indices(n: nat): (r: set<nat>)
    ensures |r| == n && forall k: nat :: k in r <==> k < n
  {
    if n == 0 then {} else Indices(n - 1) + {n - 1}
  }

  function Elements(xs: seq<nat>): (r: set<nat>)
    ensures forall x :: x in r <==> x in xs
  {
    if xs == [] then {} else Elements(xs[..|xs| - 1]) + {xs[|xs| - 1]}
  }

  lemma {:induction false} DistinctCount(xs: seq<nat>)
    requires forall i, j :: 0 <= i < j < |xs| ==> xs[i] != xs[j]
    ensures |Elements(xs)| == |xs|
  {
    if xs != [] {
      DistinctCount(xs[..|xs| - 1]);
      assert xs[|xs| - 1] !in xs[..|xs| - 1];
    }
  }

  /** With no query in anyone's hands, the popped queries have all been run, once each. */
  lemma AtRestAllRan(run: seq<Action>)
    requires Possible(INITIAL, run) && AtRest(After(INITIAL, run))
    ensures var s := After(INITIAL, run);
            |s.ran| == |s.popped| && forall k: nat :: k in s.ran <==> k < |s.popped|
  {
    ReachableIsInv(run);
    var s := After(INITIAL, run);
    forall k: nat | k < |s.popped|
      ensures k in s.ran
    {
      assert forall t :: Hand(s, t) != Some(k);
    }
    DistinctCount(s.ran);
    assert Elements(s.ran) == Indices(|s.popped|);
  }

  /** Once the flush of a shutdown has returned, every accepted query has been popped, and
      no run accepts or pops another. */
  lemma {:induction false} ShutdownIsFinal(run: seq<Action>, caller: nat, more: seq<Action>)
    requires Possible(INITIAL, run) && Enabled(After(INITIAL, run), FinalNotify(caller))
    requires Possible(After(INITIAL, run), more)
    ensures var s, n := After(INITIAL, run), After(After(INITIAL, run), more);
            s.popped == s.accepted && n.popped == s.popped && n.accepted == s.accepted && n.tasks == []
  {
    ReachableIsInv(run);
    ClosedStaysEmpty(After(INITIAL, run), more);
  }

  lemma {:induction false} ClosedStaysEmpty(s: State, run: seq<Action>)
    requires s.threadState != Running && s.tasks == [] && Possible(s, run)
    ensures var n := After(s, run);
            n.tasks == [] && n.popped == s.popped && n.accepted == s.accepted
    decreases |run|
  {
    if run != [] {
      ClosedStaysEmpty(Next(s, run[0]), run[1..]);
    }
  }

  // ----- What is accepted, and that the worker catches up ------------------------------------

  // The queries handed to addTask before the first shutdown or stop.
  function Submitted(run: seq<Action>): seq<Query> {
    if run == [] || run[0].Shutdown? || run[0].Stop? then []
    else (if run[0].AddTask? then [run[0].query] else []) + Submitted(run[1..])
  }

  lemma {:induction false} AcceptedFrom(s: State, run: seq<Action>)
    requires Possible(s, run)
    ensures After(s, run).accepted == s.accepted + if s.threadState == Running then Submitted(run) else []
    decreases |run|
  {
    if run != [] {
      var n := Next(s, run[0]);
      AcceptedFrom(n, run[1..]);
      if s.threadState == Running && run[0].AddTask? {
        assert n.accepted + Submitted(run[1..]) == s.accepted + ([run[0].query] + Submitted(run[1..]));
      }
    }
  }

  /** Over every run, what is accepted is exactly what was handed to addTask before the first
      shutdown or stop, in order; and that is what has been popped, followed by the queue. */
  lemma AcceptedIsSubmitted(run: seq<Action>)
    requires Possible(INITIAL, run)
    ensures var s := After(INITIAL, run); s.accepted == Submitted(run) == s.popped + s.tasks
  {
    AcceptedFrom(INITIAL, run);
    ReachableIsInv(run);
  }

  // A step of the worker, or a notify that is owed.
  predicate WorkerOrNotify(a: Action) {
    OwnStep(a) || a.Notify?
  }

  function StepsToWork(w: Worker): nat {
    match w
    case Busy(k) => 3
    case Testing => 2
    case Waiting => 2
    case _ => 1
  }

  lemma {:induction false} CatchUp(s: State) returns (run: seq<Action>)
    requires NoLostWakeUp(s) && QueueIsFifo(s) && s.threadState == Running && s.worker != Done
    ensures Possible(s, run) && forall i :: 0 <= i < |run| ==> WorkerOrNotify(run[i])
    ensures var n := After(s, run); n.tasks == [] && !n.worker.Busy? && n.popped == s.accepted == n.accepted
    decreases |s.tasks|, StepsToWork(s.worker)
  {
    if s.tasks == [] && !s.worker.Busy? {
      run := [];
    } else {
      var a := NextStep(s);
      StepKeepsWakeUps(s, a);
      StepKeepsFifo(s, a);
      var rest := CatchUp(Next(s, a));
      FirstStep(s, a, rest);
      run := [a] + rest;
    }
  }

  ghost function NextStep(s: State): (a: Action)
    requires NoLostWakeUp(s) && s.worker != Done && (s.tasks != [] || s.worker.Busy?)
    ensures Enabled(s, a) && WorkerOrNotify(a)
  {
    if s.worker == Testing then Test
    else if s.worker == Locking then Lock
    else if s.worker == Woken then Relock
    else if s.worker.Busy? then RunTask
    else
      var caller :| caller in s.owing;
      Notify(caller)
  }

  lemma {:induction false} RunningIsNotDone(s: State, run: seq<Action>)
    requires Possible(s, run) && (s.threadState == Running ==> s.worker != Done)
    ensures After(s, run).threadState == Running ==> After(s, run).worker != Done
    decreases |run|
  {
    if run != [] {
      RunningIsNotDone(Next(s, run[0]), run[1..]);
    }
  }

  /** From every reachable state of a running queue, steps of the worker and notifies that are owed
      suffice to empty it: everything submitted is popped, in order, and not left in the worker's
      hands. */
  lemma WorkerCanCatchUp(run: seq<Action>) returns (more: seq<Action>)
    requires Possible(INITIAL, run) && After(INITIAL, run).threadState == Running
    ensures Possible(After(INITIAL, run), more) && forall i :: 0 <= i < |more| ==> WorkerOrNotify(more[i])
    ensures var n := After(After(INITIAL, run), more);
            n.tasks == [] && !n.worker.Busy? && n.popped == Submitted(run)
  {
    ReachableIsInv(run);
    AcceptedIsSubmitted(run);
    RunningIsNotDone(INITIAL, run);
    more := CatchUp(After(INITIAL, run));
  }

  // ----- The worker may miss the last notify -----------------------------------------------

  // The steps the worker takes of itself; a wake-up of its own is not one of them.
  predicate OwnStep(a: Action) {
    a.Test? || a.Lock? || a.Relock? || a.RunTask?
  }

  ghost predicate CanFinishAlone(s: State) {
    exists run :: Possible(s, run) && (forall i :: 0 <= i < |run| ==> OwnStep(run[i])) && After(s, run).worker == Done
  }

  /** The thread state is tested outside the lock.  After the notify that ends a shutdown the
      worker can leave its loop by its own steps exactly when that notify did not fall between
      its test of the thread state and its taking the lock. */
  lemma FinishesAloneIff(s: State, caller: nat)
    requires ShutdownDrains(s) && s.threadState == Terminated && Enabled(s, FinalNotify(caller))
    ensures CanFinishAlone(Next(s, FinalNotify(caller))) <==> s.worker != Locking
  {
    var n := Next(s, FinalNotify(caller));
    if s.worker == Locking {
      forall run | Possible(n, run) && forall i :: 0 <= i < |run| ==> OwnStep(run[i])
        ensures After(n, run).worker != Done
      {
        LockingOnlyWaits(n, run);
      }
    } else {
      var run := match n.worker
        case Testing => [Test]
        case Woken => [Relock, Test]
        case Busy(k) => [RunTask, Test]
        case _ => [];
      WorkerSteps(n, run);
    }
  }

  lemma LockingOnlyWaits(n: State, run: seq<Action>)
    requires n.worker == Locking && n.tasks == [] && Possible(n, run)
    requires forall i :: 0 <= i < |run| ==> OwnStep(run[i])
    ensures After(n, run).worker != Done
  {
    if run != [] {
      assert OwnStep(run[0]);
      WaitingHasNoStep(Next(n, Lock), run[1..]);
    }
  }

  lemma WaitingHasNoStep(n: State, run: seq<Action>)
    requires n.worker == Waiting && Possible(n, run)
    requires forall i :: 0 <= i < |run| ==> OwnStep(run[i])
    ensures run == []
  {
  }

  lemma WorkerSteps(n: State, run: seq<Action>)
    requires n.threadState == Terminated && n.tasks == [] && n.worker != Locking && n.worker != Waiting
    requires run == match n.worker
      case Testing => [Test]
      case Woken => [Relock, Test]
      case Busy(k) => [RunTask, Test]
      case _ => []
    ensures CanFinishAlone(n)
  {
    if |run| == 2 {
      var m := Next(n, run[0]);
      assert run[1..] == [Test] && Possible(m, [Test]) && After(m, [Test]).worker == Done;
    }
    assert Possible(n, run) && After(n, run).worker == Done;
  }

  // The worker waits, nothing is queued and nobody is left who would notify it.
  ghost predicate Stranded(s: State) {
    && s.worker == Waiting && s.tasks == [] && s.threadState != Running && s.owing == {}
    && forall f :: f in s.flushers ==> !s.flushers[f].Notifying? && !s.flushers[f].shutdown
  }

  /** A stranded worker waits through every run without a wake-up of its own or another
      shutdown. */
  lemma {:induction false} StrandedStays(s: State, run: seq<Action>)
    requires Stranded(s) && Possible(s, run)
    requires forall i :: 0 <= i < |run| ==> !run[i].WakeUp? && !run[i].Shutdown?
    ensures Stranded(After(s, run))
    decreases |run|
  {
    if run != [] {
      assert !run[0].WakeUp? && !run[0].Shutdown?;
      StrandedStays(Next(s, run[0]), run[1..]);
    }
  }

  /** Such a run exists: the worker tests the state, a shutdown runs from start to end, and
      the worker then waits for a notify that has been and gone. */
  lemma WorkerCanBeStranded() returns (run: seq<Action>)
    ensures Possible(INITIAL, run) && Shutdown(0) in run && Stranded(After(INITIAL, run))
    ensures After(INITIAL, run).flushers == map[] && After(INITIAL, run).threadState == Terminated
  {
    var s1 := Next(INITIAL, Test);
    var s2 := Next(s1, Shutdown(0));
    var s3 := Next(s2, FlushStep(0));
    var s4 := Next(s3, FinalNotify(0));
    FirstStep(s4, Lock, []);
    FirstStep(s3, FinalNotify(0), [Lock] + []);
    FirstStep(s2, FlushStep(0), [FinalNotify(0)] + ([Lock] + []));
    FirstStep(s1, Shutdown(0), [FlushStep(0)] + ([FinalNotify(0)] + ([Lock] + [])));
    FirstStep(INITIAL, Test, [Shutdown(0)] + ([FlushStep(0)] + ([FinalNotify(0)] + ([Lock] + []))));
    run := [Test] + ([Shutdown(0)] + ([FlushStep(0)] + ([FinalNotify(0)] + ([Lock] + []))));
    assert run[1] == Shutdown(0);
    assert s4.flushers == map[];
  }

  lemma FirstStep(s: State, a: Action, rest: seq<Action>)
    requires Enabled(s, a) && Possible(Next(s, a), rest)
    ensures Possible(s, [a] + rest) && After(s, [a] + rest) == After(Next(s, a), rest)
  {
    assert ([a] + rest)[1..] == rest;
  }

  // ----- The critical sections -------------------------------------------------------------

  /** The fields that the mutex guards.  Each method is what one critical section does to
      them, and its contract is the step of the state machine it is. */
  class TaskQueue {
    var tasks: seq<Query>
    var threadState: ThreadState

    ghost predicate Shows(s: State)
      reads this
    {
      tasks == s.tasks && threadState == s.threadState
    }

    constructor ()
      ensures Shows(INITIAL)
    {
      tasks, threadState := [], Running;
    }

    /** addTask up to its unlock; the result says whether a notify is to follow. */
    method AddTask(query: Query, ghost s: State, ghost caller: nat) returns (signal: bool)
      requires Shows(s) && Enabled(s, Action.AddTask(caller, query))
      modifies this
      ensures Shows(Next(s, Action.AddTask(caller, query)))
      ensures signal <==> caller in Next(s, Action.AddTask(caller, query)).owing
      ensures old(threadState) == Running ==> tasks == old(tasks) + [query] && (signal <==> old(tasks) == [])
      ensures old(threadState) != Running ==> tasks == old(tasks) && !signal
      ensures threadState == old(threadState)
    {
      signal := false;
      if threadState == Running {
        signal := tasks == [];
        tasks := tasks + [query];
      }
    }

    /** The worker from taking the lock, or from waking up with it, to its unlock. */
    method Take(woken: bool, ghost s: State) returns (task: Option<Query>)
      requires Shows(s) && Enabled(s, if woken then Relock else Lock)
      modifies this
      ensures var n := Next(s, if woken then Relock else Lock);
              Shows(n) && (task.Some? <==> n.worker.Busy?) && (task.Some? ==> n.popped == s.popped + [task.value])
      ensures old(tasks) == [] ==> task == None && tasks == []
      ensures old(tasks) != [] ==> task == Some(old(tasks)[0]) && tasks == old(tasks)[1..]
    {
      task := None;
      if tasks != [] {
        task := Some(tasks[0]);
        tasks := tasks[1..];
      }
    }

    /** One turn of the loop of flush, up to the unlock or the end of the loop. */
    method FlushOne(ghost s: State, ghost caller: nat) returns (task: Option<Query>)
      requires Shows(s) && Enabled(s, FlushStep(caller))
      modifies this
      ensures var n := Next(s, FlushStep(caller));
              && Shows(n) && (task.Some? <==> Hand(n, Caller(caller)).Some?)
              && (task.Some? ==> n.popped == s.popped + [task.value])
      ensures old(tasks) == [] ==> task == None && tasks == []
      ensures old(tasks) != [] ==> task == Some(old(tasks)[0]) && tasks == old(tasks)[1..]
    {
      task := None;
      if tasks != [] {
        task := Some(tasks[0]);
        tasks := tasks[1..];
      }
    }

    /** shutdown up to its unlock. */
    method Terminate(ghost s: State, ghost caller: nat)
      requires Shows(s) && Enabled(s, Shutdown(caller))
      modifies this
      ensures Shows(Next(s, Shutdown(caller)))
      ensures threadState == Terminated && tasks == old(tasks)
    {
      threadState := Terminated;
    }
  }
}
