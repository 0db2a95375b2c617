/**
 * `SingleThreadExecutor`: a FIFO queue of tasks run one at a time by a single
 * worker, with a one-way shutdown flag.
 *
 * The worker thread is modelled as a sequence of explicit steps.  `Phase` is
 * its position in `ThreadMainLoop`: at the outer `while(!shutdownRequested)`
 * test, inside the wait loop, inside the drain loop, or past the loop.  Whether
 * the task being run throws is an input of each step.
 */
module Executor {

  import opened Wrappers
  import Native

  datatype Phase = AtLoopTop | Waiting | Draining | Exited

  /**
   * The executor's fields and the worker's position, with two logs that are
   * not fields of the source: the tasks run so far and those of them that
   * threw (and were logged).
   */
  datatype ExecutorState<T> = ExecutorState(
    queue: seq<T>,
    shutdownRequested: bool,
    shutdownCompleted: bool,
    phase: Phase,
    ran: seq<T>,
    failed: seq<T>)

  function Initial<T>(): ExecutorState<T>
  {
    ExecutorState([], false, false, AtLoopTop, [], [])
  }

  /** The worker has stopped exactly when completion has been signalled, and it stops only on request. */
  predicate Consistent<T>(s: ExecutorState<T>)
  {
    (s.shutdownCompleted <==> s.phase == Exited) && (s.phase == Exited ==> s.shutdownRequested)
  }

  /** `Shutdown` sets the flag and changes nothing else. */
  function RequestShutdown<T>(s: ExecutorState<T>): ExecutorState<T>
  {
    s.(shutdownRequested := true)
  }

  /** One step of the worker thread. */
  function Next<T>(s: ExecutorState<T>, throws: bool): (r: ExecutorState<T>)
    ensures r.shutdownRequested == s.shutdownRequested
    ensures Consistent(s) ==> Consistent(r)
    ensures s.shutdownCompleted ==> r.shutdownCompleted
    ensures r.shutdownCompleted && !s.shutdownCompleted ==> s.phase == AtLoopTop && s.shutdownRequested
    ensures r.ran + r.queue == s.ran + s.queue
    ensures s.phase == Exited ==> r == s
    ensures r.ran == s.ran || (s.queue != [] && r.ran == s.ran + [s.queue[0]])
  {
    match s.phase
    case AtLoopTop =>
      if s.shutdownRequested then s.(phase := Exited, shutdownCompleted := true)
      else s.(phase := Waiting)
    case Waiting =>
      if s.queue == [] && !s.shutdownRequested then s
      else s.(phase := Draining)
    case Draining =>
      if s.queue != [] then
        var task := s.queue[0];
        assert s.queue == [task] + s.queue[1..];
        s.(queue := s.queue[1..], ran := s.ran + [task],
           failed := if throws then s.failed + [task] else s.failed)
      else
        s.(phase := AtLoopTop)
    case Exited =>
      s
  }

  /** The worker taking one step per entry of `faults`, which says whether the task run in that step throws. */
  function Steps<T>(s: ExecutorState<T>, faults: seq<bool>): ExecutorState<T>
    decreases |faults|
  {
    if faults == [] then s else Steps(Next(s, faults[0]), faults[1..])
  }

  /** The queued tasks whose step was told to throw: those the worker logs. */
  function Throwing<T>(queue: seq<T>, faults: seq<bool>): seq<T>
    requires |faults| == |queue|
    decreases |queue|
  {
    if queue == [] then [] else (if faults[0] then [queue[0]] else []) + Throwing(queue[1..], faults[1..])
  }

  /**
   * Whatever the steps, tasks leave the queue only from its head and only
   * into the run log, the flag is untouched, and completion never reverts.
   */
  lemma {:induction false} StepsPreserve<T>(s: ExecutorState<T>, faults: seq<bool>)
    requires Consistent(s)
    ensures Consistent(Steps(s, faults))
    ensures Steps(s, faults).ran + Steps(s, faults).queue == s.ran + s.queue
    ensures Steps(s, faults).shutdownRequested == s.shutdownRequested
    ensures s.shutdownCompleted ==> Steps(s, faults).shutdownCompleted
    decreases |faults|
  {
    if faults != [] {
      StepsPreserve(Next(s, faults[0]), faults[1..]);
    }
  }

  /** Once the loop has exited the worker does nothing more: no task runs after it. */
  lemma {:induction false} ExitedIsFinal<T>(s: ExecutorState<T>, faults: seq<bool>)
    requires s.phase == Exited
    ensures Steps(s, faults) == s
    decreases |faults|
  {
    if faults != [] {
      ExitedIsFinal(Next(s, faults[0]), faults[1..]);
    }
  }

  /**
   * Draining runs every queued task, from the head, one per step; a task that
   * throws is logged and the worker goes on with the next one.
   */
  lemma {:induction false} DrainRunsQueueInOrder<T>(s: ExecutorState<T>, faults: seq<bool>)
    requires s.phase == Draining && |faults| == |s.queue|
    ensures Steps(s, faults) == s.(queue := [], ran := s.ran + s.queue, failed := s.failed + Throwing(s.queue, faults))
    decreases |faults|
  {
    if faults != [] {
      var task, logged := s.queue[0], if faults[0] then [s.queue[0]] else [];
      var n := Next(s, faults[0]);
      assert n == s.(queue := s.queue[1..], ran := s.ran + [task], failed := s.failed + logged);
      DrainRunsQueueInOrder(n, faults[1..]);
      assert s.queue == [task] + s.queue[1..];
      assert Throwing(s.queue, faults) == logged + Throwing(s.queue[1..], faults[1..]);
      assert n.ran + s.queue[1..] == s.ran + s.queue;
      Native.AppendAssoc(s.failed, logged, Throwing(s.queue[1..], faults[1..]));
    }
  }

  /**
   * A worker woken from the wait loop by a shutdown request still drains
   * what is queued, then sees the flag at the top of the loop and stops.
   */
  lemma WokenByShutdownDrains<T>(s: ExecutorState<T>, faults: seq<bool>)
    requires s.phase == Waiting && s.shutdownRequested
    requires |faults| == |s.queue|
    ensures
      var r := Steps(s, [false] + faults + [false, false]);
      r.phase == Exited && r.shutdownCompleted && r.queue == [] && r.ran == s.ran + s.queue
  {
    var d := Next(s, false);
    assert d == s.(phase := Draining);
    DrainRunsQueueInOrder(d, faults);
    StepsAppend(d, faults, [false, false]);
    var e := Steps(d, faults);
    assert Steps(e, [false, false]) == Next(Next(e, false), false);
    assert ([false] + faults + [false, false])[1..] == faults + [false, false];
  }

  lemma {:induction false} StepsAppend<T>(s: ExecutorState<T>, a: seq<bool>, b: seq<bool>)
    ensures Steps(s, a + b) == Steps(Steps(s, a), b)
    decreases |a|
  {
    if a == [] {
      assert a + b == b;
    } else {
      assert (a + b)[1..] == a[1..] + b;
      StepsAppend(Next(s, a[0]), a[1..], b);
    }
  }

  /**
   * A shutdown request that the worker sees at the top of its loop abandons
   * whatever is still queued: none of it ever runs.
   */
  lemma ShutdownAtTopAbandonsQueue<T>(s: ExecutorState<T>, faults: seq<bool>)
    requires s.phase == AtLoopTop && s.shutdownRequested
    ensures Steps(s, faults).ran == s.ran && Steps(s, faults).queue == s.queue
  {
    if faults != [] {
      ExitedIsFinal(Next(s, faults[0]), faults[1..]);
    }
  }

  /** Requesting shutdown twice is the same as requesting it once. */
  lemma ShutdownIdempotent<T>(s: ExecutorState<T>)
    ensures RequestShutdown(RequestShutdown(s)) == RequestShutdown(s)
  {
  }

  const SubmitAfterShutdown := "Can not submit a task when the queue has been shut down"

  class SingleThreadExecutor<T> {
    var queue: seq<T>
    var shutdownRequested: bool
    var shutdownCompleted: bool
    /** Where the worker thread is in `ThreadMainLoop`. */
    var phase: Phase
    ghost var ran: seq<T>
    ghost var failed: seq<T>

    ghost function State(): ExecutorState<T>
      reads this
    {
      ExecutorState(queue, shutdownRequested, shutdownCompleted, phase, ran, failed)
    }

    ghost predicate Valid()
      reads this
    {
      Consistent(State())
    }

    constructor ()
      ensures Valid() && State() == Initial()
    {
      queue := [];
      shutdownRequested := false;
      shutdownCompleted := false;
      phase := AtLoopTop;
      ran := [];
      failed := [];
    }

    /**
     * `Submit`: before shutdown the task joins the tail of the queue;
     * afterwards the call throws and nothing changes.
     */
    method Submit(task: T) returns (r: Outcome)
      requires Valid()
      modifies this
      ensures Valid()
      ensures !old(shutdownRequested) ==> r == Pass && State() == old(State()).(queue := old(queue) + [task])
      ensures old(shutdownRequested) ==> r == Fail(InvalidOperation(SubmitAfterShutdown)) && State() == old(State())
    {
      if !shutdownRequested {
        queue := queue + [task];
        r := Pass;
      } else {
        r := Fail(InvalidOperation(SubmitAfterShutdown));
      }
    }

    method Shutdown()
      requires Valid()
      modifies this
      ensures Valid() && State() == RequestShutdown(old(State()))
    {
      shutdownRequested := true;
    }

    method IsShutdownCompleted() returns (b: bool)
      requires Valid()
      ensures b <==> phase == Exited
      ensures b ==> shutdownRequested
    {
      b := shutdownCompleted;
    }

    /**
     * One step of the worker.  In the drain loop with work queued it takes the
     * head task and returns it as the task it runs now.
     */
    method Step(throws: bool) returns (task: Option<T>)
      requires Valid()
      modifies this
      ensures Valid() && State() == Next(old(State()), throws)
      ensures task.Some? <==> old(phase) == Draining && old(queue) != []
      ensures task.Some? ==> task.value == old(queue)[0]
    {
      task := None;
      match phase
      case AtLoopTop =>
        if shutdownRequested {
          phase := Exited;
          shutdownCompleted := true;
        } else {
          phase := Waiting;
        }
      case Waiting =>
        if queue != [] || shutdownRequested {
          phase := Draining;
        }
      case Draining =>
        if queue != [] {
          var t := queue[0];
          queue := queue[1..];
          ran := ran + [t];
          if throws {
            failed := failed + [t];
          }
          task := Some(t);
        } else {
          phase := AtLoopTop;
        }
      case Exited =>
    }

    /** The worker taking `|faults|` steps. */
    method RunWorker(faults: seq<bool>)
      requires Valid()
      modifies this
      ensures Valid() && State() == Steps(old(State()), faults)
    {
      for i := 0 to |faults|
        invariant Valid()
        invariant Steps(old(State()), faults) == Steps(State(), faults[i..])
      {
        assert faults[i..][1..] == faults[i + 1..];
        var _ := Step(faults[i]);
      }
    }
  }
}
