/**
 The queue between the game's threads and the coordinator's worker thread, as the steps
 its critical sections make, interleaved in any way (gc_shared.cpp).
 */
module WorkerQueue {
  import opened Prelude

  datatype EventData = EventData(kind: int, id: uint64, buffer: seq<byte>)

  type ThreadId = nat

  /** Where the worker is: about to take the lock, waiting on the condition variable, handling, or done. */
  datatype Worker = AtLoop | Sleeping | Handling | Exited

  /** Where the thread that stops the worker is. */
  datatype Stopper = Running | StopRequested | Joining

  /**
   `toNotify` are the threads that have pushed onto an empty queue and not notified yet.
   `posted` and `handled` record what was posted and handled, in order; `atExit` how much
   had been posted when the worker exited.
   */
  datatype State = State(
    queue: seq<EventData>, stopping: bool, worker: Worker, batch: seq<EventData>,
    toNotify: set<ThreadId>, stopper: Stopper,
    posted: seq<EventData>, handled: seq<EventData>, atExit: nat)

  datatype Step =
    | Push(thread: ThreadId, event: EventData)    // PostToGC, under the lock
    | Notify(thread: ThreadId)            // PostToGC, after it
    | RequestStop                         // StopThread, under the lock
    | NotifyStop                          // StopThread, after it
    | Spurious                            // a wake-up nobody asked for
    | Check                               // the worker takes the lock: sleeps, exits or takes the queue
    | Handle                              // the worker handles the next event, or is through with the batch

  function Initial(): State {
    State([], false, AtLoop, [], {}, Running, [], [], 0)
  }

  predicate Enabled(s: State, step: Step) {
    match step
    case Push(t, _) => t !in s.toNotify
    case Notify(t) => t in s.toNotify
    case RequestStop => s.stopper == Running
    case NotifyStop => s.stopper == StopRequested
    case Spurious => s.worker == Sleeping
    case Check => s.worker == AtLoop
    case Handle => s.worker == Handling
  }

  /** notify_one: wakes the worker if it is waiting, and is lost if it is not. */
  function Wake(w: Worker): Worker {
    if w == Sleeping then AtLoop else w
  }

  function Next(s: State, step: Step): State
    requires Enabled(s, step)
  {
    match step
    case Push(t, e) =>
      s.(queue := s.queue + [e], posted := s.posted + [e],
         toNotify := if s.queue == [] then s.toNotify + {t} else s.toNotify)
    case Notify(t) => s.(toNotify := s.toNotify - {t}, worker := Wake(s.worker))
    case RequestStop => s.(stopping := true, stopper := StopRequested)
    case NotifyStop => s.(stopper := Joining, worker := Wake(s.worker))
    case Spurious => s.(worker := AtLoop)
    case Check =>
      if s.queue == [] && !s.stopping then s.(worker := Sleeping)
      else if s.queue == [] then s.(worker := Exited, atExit := |s.posted|)
      else s.(worker := Handling, batch := s.queue, queue := [])
    case Handle =>
      if s.batch == [] then s.(worker := AtLoop)
      else s.(batch := s.batch[1..], handled := s.handled + [s.batch[0]])
  }

  // -------------------------------------------------------------- invariants

  predicate NotificationInFlight(s: State) {
    s.toNotify != {} || s.stopper == StopRequested
  }

  predicate HasWork(s: State) {
    s.queue != [] || s.stopping
  }

  /**
   Nothing is lost, repeated or reordered; a worker that sleeps although there is
   something to do is about to be notified; a worker that exited was asked to and had
   handled everything posted by then.
   */
  predicate Invariant(s: State) {
    && s.posted == s.handled + s.batch + s.queue
    && (s.batch != [] ==> s.worker == Handling)
    && (s.stopping <==> s.stopper != Running)
    && (s.worker == Sleeping && HasWork(s) ==> NotificationInFlight(s))
    && (s.worker == Exited ==> s.stopping && s.atExit <= |s.posted| && s.handled == s.posted[..s.atExit])
  }

  lemma StepKeepsInvariant(s: State, step: Step)
    requires Invariant(s) && Enabled(s, step)
    ensures Invariant(Next(s, step))
  {
    match step
    case Push(_, e) =>
      assert s.handled + s.batch + (s.queue + [e]) == s.handled + s.batch + s.queue + [e];
    case Check =>
      if s.queue == [] && s.stopping {
        assert s.posted == s.handled;
      } else if s.queue != [] {
        assert s.handled + s.queue + [] == s.posted;
      }
    case Handle =>
      if s.batch != [] {
        assert s.handled + [s.batch[0]] + s.batch[1..] + s.queue == s.handled + s.batch + s.queue;
      }
    case _ =>
  }

  predicate IsRun(states: seq<State>, steps: seq<Step>) {
    && |states| == |steps| + 1
    && forall i :: 0 <= i < |steps| ==> Enabled(states[i], steps[i]) && states[i + 1] == Next(states[i], steps[i])
  }

  lemma {:induction false} RunKeepsInvariant(states: seq<State>, steps: seq<Step>, n: nat)
    requires IsRun(states, steps) && states[0] == Initial() && n <= |steps|
    ensures Invariant(states[n])
  {
    if n > 0 {
      RunKeepsInvariant(states, steps, n - 1);
      StepKeepsInvariant(states[n - 1], steps[n - 1]);
    }
  }

  /** In every interleaving: handled exactly once in posting order, and never an unnoticed sleep. */
  lemma EveryInterleaving(states: seq<State>, steps: seq<Step>, n: nat)
    requires IsRun(states, steps) && states[0] == Initial() && n <= |steps|
    ensures states[n].handled <= states[n].posted
    ensures states[n].worker == Sleeping && HasWork(states[n]) ==> NotificationInFlight(states[n])
    ensures states[n].worker == Exited ==>
      states[n].stopping && states[n].atExit <= |states[n].posted| && states[n].handled == states[n].posted[..states[n].atExit]
  {
    RunKeepsInvariant(states, steps, n);
    assert states[n].handled + states[n].batch + states[n].queue == states[n].handled + (states[n].batch + states[n].queue);
  }

  // ---------------------------------------------------------------- progress

  /** Steps that only finish what has begun: the worker's own and the notifications owed to it. */
  predicate Finishes(step: Step) {
    step.Notify? || step.NotifyStop? || step.Check? || step.Handle?
  }

  ghost predicate Stuck(s: State) {
    forall step: Step :: Finishes(step) ==> !Enabled(s, step)
  }

  function Weight(w: Worker): nat {
    match w case Sleeping => 0 case Exited => 0 case AtLoop => 1 case Handling => 2
  }

  /** Bounds the steps left before everything is handled. */
  function Remaining(s: State): nat {
    3 * |s.queue| + |s.batch| + Weight(s.worker) + 2 * |s.toNotify| + if s.stopper == StopRequested then 2 else 0
  }

  lemma FinishingIsBounded(s: State, step: Step)
    requires Invariant(s) && Enabled(s, step) && Finishes(step)
    ensures Remaining(Next(s, step)) < Remaining(s) && Next(s, step).posted == s.posted
  {
    if step.Notify? {
      assert |s.toNotify - {step.thread}| == |s.toNotify| - 1;
    }
  }

  /** When nothing is left to finish, everything is handled, unless the worker has exited. */
  lemma StuckIsDone(s: State)
    requires Invariant(s) && Stuck(s)
    ensures s.worker == Sleeping || s.worker == Exited
    ensures s.worker == Sleeping ==> s.handled == s.posted && !s.stopping
    ensures s.worker == Exited ==> s.handled == s.posted[..s.atExit]
  {
    assert !Enabled(s, Check) && !Enabled(s, Handle) && !Enabled(s, NotifyStop);
    if s.toNotify != {} {
      var t :| t in s.toNotify;
      assert Finishes(Notify(t)) && Enabled(s, Notify(t));
    }
  }

  /**
   No wake-up is lost: once no more events are posted, the worker and the owed
   notifications run at most `Remaining` steps, and when none is left to run the worker
   sleeps with everything handled, or has exited.
   */
  lemma {:induction false} EverythingGetsHandled(states: seq<State>, steps: seq<Step>)
    requires IsRun(states, steps) && Invariant(states[0])
    requires forall i :: 0 <= i < |steps| ==> Finishes(steps[i])
    ensures Invariant(states[|steps|]) && states[|steps|].posted == states[0].posted
    ensures |steps| <= Remaining(states[0])
    ensures Stuck(states[|steps|]) && states[|steps|].worker != Exited ==> states[|steps|].handled == states[0].posted
    decreases |steps|
  {
    FinishingRun(states, steps, |steps|);
    if Stuck(states[|steps|]) {
      StuckIsDone(states[|steps|]);
    }
  }

  lemma {:induction false} FinishingRun(states: seq<State>, steps: seq<Step>, n: nat)
    requires IsRun(states, steps) && Invariant(states[0]) && n <= |steps|
    requires forall i :: 0 <= i < |steps| ==> Finishes(steps[i])
    ensures Invariant(states[n]) && states[n].posted == states[0].posted
    ensures Remaining(states[n]) + n <= Remaining(states[0])
  {
    hide Invariant, Remaining, Next, Enabled;
    if n > 0 {
      FinishingRun(states, steps, n - 1);
      StepKeepsInvariant(states[n - 1], steps[n - 1]);
      FinishingIsBounded(states[n - 1], steps[n - 1]);
    }
  }

  // ------------------------------------------------------------------ the class

  /** The fields of SharedGC; each method is one critical section or the step after it. */
  class SharedGC {
    var gcEvents: seq<EventData>
    var stopping: bool
    var hostEvents: seq<EventData>

    /** The worker's local vector, and where the threads are. */
    var events: seq<EventData>
    var worker: Worker
    var toNotify: set<ThreadId>
    var stopper: Stopper

    ghost var posted: seq<EventData>
    ghost var handled: seq<EventData>
    ghost var atExit: nat

    constructor ()
      ensures Now() == Initial() && hostEvents == []
    {
      gcEvents, stopping, hostEvents, events := [], false, [], [];
      worker, toNotify, stopper := AtLoop, {}, Running;
      posted, handled, atExit := [], [], 0;
    }

    ghost function Now(): State
      reads this
    {
      State(gcEvents, stopping, worker, events, toNotify, stopper, posted, handled, atExit)
    }

    method PostToGC(thread: ThreadId, event: EventData)
      requires thread !in toNotify
      modifies `gcEvents, `toNotify, `posted
      ensures Now() == Next(old(Now()), Push(thread, event))
    {
      var notify := gcEvents == [];
      gcEvents := gcEvents + [event];
      posted := posted + [event];
      if notify {
        toNotify := toNotify + {thread};
      }
    }

    method NotifyOne(thread: ThreadId)
      requires thread in toNotify
      modifies `toNotify, `worker
      ensures Now() == Next(old(Now()), Notify(thread))
    {
      toNotify := toNotify - {thread};
      if worker == Sleeping {
        worker := AtLoop;
      }
    }

    method StopThread()
      requires stopper == Running
      modifies `stopping, `stopper
      ensures Now() == Next(old(Now()), RequestStop)
    {
      stopping := true;
      stopper := StopRequested;
    }

    method NotifyStopped()
      requires stopper == StopRequested
      modifies `stopper, `worker
      ensures Now() == Next(old(Now()), NotifyStop)
    {
      stopper := Joining;
      if worker == Sleeping {
        worker := AtLoop;
      }
    }

    /** The locked part of the worker's loop. */
    method WaitForEvents()
      requires worker == AtLoop
      modifies `worker, `events, `gcEvents, `atExit
      ensures Now() == Next(old(Now()), Check)
    {
      if gcEvents == [] && !stopping {
        worker := Sleeping;
        return;
      }
      if gcEvents == [] && stopping {
        worker, atExit := Exited, |posted|;
        return;
      }
      worker, events, gcEvents := Handling, gcEvents, [];
    }

    method HandleNext()
      requires worker == Handling
      modifies `worker, `events, `handled
      ensures Now() == Next(old(Now()), Handle)
    {
      if events == [] {
        worker := AtLoop;
        return;
      }
      handled := handled + [events[0]];
      events := events[1..];
    }

    method PostToHost(event: EventData)
      modifies `hostEvents
      ensures hostEvents == old(hostEvents) + [event]
    {
      hostEvents := hostEvents + [event];
    }

    /** Takes everything posted to the host since the last time. */
    method GetHostEvents() returns (taken: seq<EventData>)
      modifies `hostEvents
      ensures taken == old(hostEvents) && hostEvents == []
    {
      taken := hostEvents;
      hostEvents := [];
    }
  }
}
