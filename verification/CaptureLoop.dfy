/**
  Capturing a suspended task and the event loop around it
  (src/pipeline/worker.rs, src/pipeline/capture_isolation.rs, src/event_loop.rs).
  Platform calls, helpers and deadlines may end either way at every point.
*/
module CaptureLoop {
  import opened Wrappers
  import opened TaskControl

  const HELPER_POLL_INTERVAL := 5_000_000
  const HELPER_REAP_GRACE := 2_000_000_000
  const CAPTURE_DEADLINE: nat := 5_000_000_000

  // The killable helper

  datatype IsolatedOutcome = Completed | TimedOut | Failed | CleanupUnproven

  datatype Reap = Exited(status: nat) | Signaled | StillRunning | OwnershipLost | ReapError

  datatype Spawn = Spawned | SpawnFailed | SpawnUnproven

  method SpawnCaptureHelper(platform: Platform, ghost m: Mode) returns (spawn: Spawn)
    requires platform.At(m) && m.helpers == 0 && !m.contained
    modifies platform`trace
    ensures platform.At(if spawn.SpawnFailed? then m else m.(helpers := 1)) && old(platform.trace) <= platform.trace
  {
    spawn := *;
    if !spawn.SpawnFailed? {
      platform.Note(SpawnHelper, m);
    }
  }

  /** Only an exit or a fatal signal collected by the wait proves that the helper is gone. */
  method PollReap(platform: Platform, ghost m: Mode) returns (reap: Reap)
    requires platform.At(m) && m.helpers == 1 && !m.contained
    modifies platform`trace
    ensures platform.At(if reap.Exited? || reap.Signaled? then m.(helpers := 0) else m) && old(platform.trace) <= platform.trace
  {
    reap := *;
    if reap.Exited? || reap.Signaled? {
      platform.Note(ReapHelper, m);
    }
  }

  /** Any outcome but an unproven cleanup leaves no helper behind. */
  ghost predicate LeftBy(outcome: IsolatedOutcome, m: Mode, after: Mode) {
    if outcome.CleanupUnproven? then after == m.(helpers := 1) else after == m.(helpers := 0)
  }

  method KillAndReapTimedOutHelper(platform: Platform, ghost m: Mode) returns (outcome: IsolatedOutcome, ghost after: Mode)
    requires platform.At(m) && m.helpers == 1 && !m.contained
    modifies platform`trace, platform`clock
    ensures platform.At(after) && LeftBy(outcome, m, after) && !outcome.Completed? && !outcome.Failed?
    ensures old(platform.trace) <= platform.trace
  {
    after := m;
    var killed: bool := *;
    if !killed {
      return CleanupUnproven, m;
    }
    var now := platform.Now();
    var cleanupDeadline := now + HELPER_REAP_GRACE;
    while true
      invariant platform.At(m) && old(platform.trace) <= platform.trace
      decreases if platform.clock < cleanupDeadline then cleanupDeadline - platform.clock else 0
    {
      var reap := PollReap(platform, m);
      if reap.Exited? || reap.Signaled? {
        return TimedOut, m.(helpers := 0);
      }
      if !reap.StillRunning? {
        return CleanupUnproven, m;
      }
      now := platform.Now();
      if now >= cleanupDeadline {
        return CleanupUnproven, m;
      }
      platform.Sleep(HELPER_POLL_INTERVAL);
    }
  }

  method RunIsolatedCapture(platform: Platform, deadline: nat, ghost m: Mode) returns (outcome: IsolatedOutcome, ghost after: Mode)
    requires platform.At(m) && m.helpers == 0 && !m.contained
    modifies platform`trace, platform`clock
    ensures platform.At(after) && LeftBy(outcome, m, after) && old(platform.trace) <= platform.trace
  {
    after := m;
    var now := platform.Now();
    if now >= deadline {
      return TimedOut, m;
    }
    var prepared: bool := *;
    if !prepared {
      return Failed, m;
    }
    var spawn := SpawnCaptureHelper(platform, m);
    if spawn.SpawnUnproven? {
      return CleanupUnproven, m.(helpers := 1);
    }
    if spawn.SpawnFailed? {
      return Failed, m;
    }
    while true
      invariant platform.At(m.(helpers := 1)) && old(platform.trace) <= platform.trace
      decreases if platform.clock < deadline then deadline - platform.clock else 0
    {
      var reap := PollReap(platform, m.(helpers := 1));
      if reap.Exited? {
        var decoded: bool := *;
        outcome := if reap.status == 0 && decoded then Completed else Failed;
        return outcome, m;
      }
      if reap.Signaled? {
        return Failed, m;
      }
      if !reap.StillRunning? {
        return CleanupUnproven, m.(helpers := 1);
      }
      now := platform.Now();
      if now >= deadline {
        outcome, after := KillAndReapTimedOutHelper(platform, m.(helpers := 1));
        return;
      }
      now := platform.Now();
      var left := if now < deadline then deadline - now else 0;
      platform.Sleep(if HELPER_POLL_INTERVAL < left then HELPER_POLL_INTERVAL else left);
    }
  }

  // The capture worker

  datatype Event = Event(enabled: bool, bailOnSuspendFailure: bool)

  /** What can be made before the suspension: the report context, and the helper's request if collectors need one. */
  datatype Setup = Setup(context: bool, built: bool, hasRequest: bool)

  datatype Payload = Skipped | Minimal | Complete

  /** What a capture hands on, with task-control failures drained into its diagnostics. */
  datatype CaptureOutcome = CaptureOutcome(payload: Payload, failures: seq<Failure>)

  /** Releasing the guard if there is one. */
  method FinishSuspend(guard: TaskSuspendGuard?, platform: Platform, sink: FailureSink, ghost m: Mode)
    returns (ghost after: Mode, ghost failures: seq<Failure>)
    requires platform.At(m)
    requires guard == null ==> m == FREE
    requires guard != null ==> guard.platform == platform && guard.sink == sink && guard.active && m == Mode(1, 0, false)
    modifies guard, platform`trace, platform`health, sink
    ensures platform.At(after) && Released(after) && Recorded(platform, sink, failures)
    ensures old(platform.trace) <= platform.trace
  {
    hide Track, Count, Attempts, Stops;
    after, failures := m, [];
    if guard != null {
      after, failures := guard.Finish();
    }
  }

  class CaptureWorker {
    const platform: Platform
    const isolated: bool
    var hasSender: bool
    var unavailable: bool

    constructor (platform: Platform, isolated: bool, started: bool)
      ensures this.platform == platform && this.isolated == isolated
      ensures hasSender == (!isolated && started) && unavailable == (!isolated && !started)
    {
      this.platform, this.isolated := platform, isolated;
      hasSender, unavailable := !isolated && started, !isolated && !started;
    }

    method Retire()
      modifies this
      ensures !hasSender && unavailable
    {
      hasSender, unavailable := false, true;
    }

    /**
      The isolated branch: the helper is reaped before the target is resumed, or the target is terminated.
    */
    method CaptureIsolated(guard: TaskSuspendGuard?, sink: FailureSink, deadline: nat, hasRequest: bool, ghost m: Mode)
      returns (payload: Payload, ghost after: Mode, ghost failures: seq<Failure>)
      requires platform.At(m)
      requires guard == null ==> m == FREE
      requires guard != null ==> guard.platform == platform && guard.sink == sink && guard.active && m == Mode(1, 0, false)
      modifies guard, platform`trace, platform`health, platform`clock, sink
      ensures platform.At(after) && Released(after) && Recorded(platform, sink, failures) && !payload.Skipped?
      ensures old(platform.trace) <= platform.trace
    {
      hide Track, Count, Attempts, Stops;
      var outcome := Completed;
      ghost var left := m;
      if hasRequest {
        outcome, left := RunIsolatedCapture(platform, deadline, m);
      }
      if outcome.CleanupUnproven? {
        payload := Minimal;
        if guard != null {
          failures := guard.ContainWithoutResume(left);
        } else {
          failures := ContainTaskWithoutResume(platform, sink, left);
        }
        after := left.(contained := true);
      } else {
        payload := if outcome.Completed? then Complete else Minimal;
        after, failures := FinishSuspend(guard, platform, sink, m);
      }
    }

    /** The in-process branch: a worker that does not answer in time is retired before it is used again. */
    method CaptureInProcess(guard: TaskSuspendGuard?, sink: FailureSink, deadline: nat, ghost m: Mode)
      returns (payload: Payload, ghost after: Mode, ghost failures: seq<Failure>)
      requires platform.At(m)
      requires guard == null ==> m == FREE
      requires guard != null ==> guard.platform == platform && guard.sink == sink && guard.active && m == Mode(1, 0, false)
      modifies this, guard, platform`trace, platform`health, platform`clock, sink
      ensures platform.At(after) && Released(after) && Recorded(platform, sink, failures)
      ensures old(platform.trace) <= platform.trace
      ensures !payload.Skipped?
      ensures payload.Complete? ==> !unavailable || old(unavailable)
      ensures payload.Minimal? ==> !hasSender
    {
      hide Track, Count, Attempts, Stops;
      if !hasSender {
        after, failures := FinishSuspend(guard, platform, sink, m);
        return Minimal, after, failures;
      }
      var sent: bool := *;
      if !sent {
        after, failures := FinishSuspend(guard, platform, sink, m);
        Retire();
        return Minimal, after, failures;
      }
      var now := platform.Now();
      var left := if now < deadline then deadline - now else 0;
      var answered: bool := *;
      platform.Sleep(if answered then 0 else left);
      after, failures := FinishSuspend(guard, platform, sink, m);
      if answered {
        payload := Complete;
      } else {
        Retire();
        payload := Minimal;
      }
    }

    /** Everything between the suspension and its release. */
    method CaptureSuspended(guard: TaskSuspendGuard?, sink: FailureSink, deadline: nat, hasRequest: bool, ghost m: Mode)
      returns (payload: Payload, ghost after: Mode, ghost failures: seq<Failure>)
      requires platform.At(m)
      requires guard == null ==> m == FREE
      requires guard != null ==> guard.platform == platform && guard.sink == sink && guard.active && m == Mode(1, 0, false)
      modifies this, guard, platform`trace, platform`health, platform`clock, sink
      ensures platform.At(after) && Released(after) && Recorded(platform, sink, failures) && !payload.Skipped?
      ensures old(platform.trace) <= platform.trace
    {
      hide Track, Count, Attempts, Stops;
      payload := Minimal;
      var now := platform.Now();
      if now >= deadline {
        after, failures := FinishSuspend(guard, platform, sink, m);
        return;
      }
      // The shared memory is copied here, while the target is suspended.
      now := platform.Now();
      if now >= deadline {
        after, failures := FinishSuspend(guard, platform, sink, m);
      } else if isolated {
        payload, after, failures := CaptureIsolated(guard, sink, deadline, hasRequest, m);
      } else {
        payload, after, failures := CaptureInProcess(guard, sink, deadline, m);
      }
    }

    /** Collection and release, with the failures of both drained into the diagnostics. */
    method CollectAndRelease(guard: TaskSuspendGuard?, sink: FailureSink, deadline: nat, hasRequest: bool, ghost m: Mode)
      returns (outcome: CaptureOutcome, ghost after: Mode)
      requires platform.At(m) && sink.failures == []
      requires guard == null ==> m == FREE
      requires guard != null ==> guard.platform == platform && guard.sink == sink && guard.active && m == Mode(1, 0, false)
      modifies this, guard, platform`trace, platform`health, platform`clock, sink
      ensures platform.At(after) && Released(after) && old(platform.trace) <= platform.trace
      ensures platform.health == old(platform.health) + outcome.failures && !outcome.payload.Skipped?
    {
      hide Track, Count, Attempts, Stops;
      ghost var failures: seq<Failure>;
      var payload: Payload;
      payload, after, failures := CaptureSuspended(guard, sink, deadline, hasRequest, m);
      assert sink.failures == failures;
      var drained := sink.Drain();
      outcome := CaptureOutcome(payload, drained);
    }

    /** The capture proper: suspension, collection, release, and the diagnostics of all three. */
    method CaptureTask(event: Event, deadline: nat, hasRequest: bool)
      returns (outcome: CaptureOutcome, suspended: bool, ghost after: Mode)
      requires platform.At(FREE)
      modifies this, platform`trace, platform`health, platform`clock, platform`suspends
      ensures platform.At(after) && Released(after) && old(platform.trace) <= platform.trace
      ensures platform.suspends == old(platform.suspends) + 1
      ensures platform.health == old(platform.health) + outcome.failures
      ensures outcome.payload.Skipped? <==> event.bailOnSuspendFailure && !suspended
      ensures outcome.payload.Skipped? ==> after == FREE && outcome.failures == []
    {
      hide Track, Count, Attempts, Stops;
      var sink := new FailureSink();
      var guard := Acquire(platform, sink);
      suspended := guard != null;
      if !suspended && event.bailOnSuspendFailure {
        return CaptureOutcome(Skipped, []), suspended, FREE;
      }
      outcome, after := CollectAndRelease(guard, sink, deadline, hasRequest, if suspended then Mode(1, 0, false) else FREE);
    }

    /**
      One capture from a free task. A suspension is attempted exactly when the report type is enabled, the
      report context and any helper request could be made, the deadline has not passed and the worker is
      available. Whatever fails, the target ends free again, or it was terminated or given up and the
      supervisor's health says so; every failure also reaches the diagnostics.
    */
    method Capture(event: Event, deadline: nat, setup: Setup)
      returns (outcome: CaptureOutcome, late: bool, suspended: Option<bool>, ghost after: Mode)
      requires platform.At(FREE)
      modifies this, platform`trace, platform`health, platform`clock, platform`captures, platform`suspends
      ensures platform.At(after) && Released(after) && old(platform.trace) <= platform.trace
      ensures platform.captures == old(platform.captures) + 1
      ensures platform.suspends == old(platform.suspends) + if suspended.Some? then 1 else 0
      ensures platform.health == old(platform.health) + outcome.failures
      ensures late ==> platform.clock >= deadline
      ensures suspended.Some? <==>
                event.enabled && setup.context && !late && !old(unavailable) && (isolated ==> setup.built)
      ensures outcome.payload.Skipped? <==>
                !event.enabled || !setup.context || (event.bailOnSuspendFailure && suspended == Some(false))
      ensures outcome.payload.Skipped? ==> after == FREE && outcome.failures == []
      ensures outcome.payload.Complete? ==> suspended.Some? && (event.bailOnSuspendFailure ==> suspended == Some(true))
    {
      hide Track, Count, Attempts, Stops;
      platform.BeginCapture();
      after, late, suspended := FREE, false, None;
      outcome := CaptureOutcome(Skipped, []);
      if !event.enabled || !setup.context {
        return;
      }
      outcome := CaptureOutcome(Minimal, []);
      var now := platform.Now();
      if now >= deadline {
        late := true;
        return;
      }
      if unavailable || (isolated && !setup.built) {
        return;
      }
      var ok;
      outcome, ok, after := CaptureTask(event, deadline, isolated && setup.hasRequest);
      suspended := Some(ok);
    }
  }

  // The event loop

  datatype MonitorEvent =
    | Crash(subscribed: bool, enabled: bool, receivedAt: nat)
    | Snapshot(enabled: bool)
    | Timeout(anrDetected: bool)
    | ShutdownSignal
    | ChildTerminated
    | ListenerFailure
    | MonitorFailure

  datatype LoopEnd = CrashDetected | ShutDown | ChildGone | MonitorFailed | StillWaiting

  predicate Ends(event: MonitorEvent) {
    event.ShutdownSignal? || event.ChildTerminated? || event.ListenerFailure? || event.MonitorFailure?
    || (event.Crash? && event.subscribed)
  }

  predicate CapturesFor(event: MonitorEvent) {
    match event
    case Crash(subscribed, enabled, _) => subscribed && enabled
    case Snapshot(enabled) => enabled
    case Timeout(anrDetected) => anrDetected
    case _ => false
  }

  function CapturesDue(events: seq<MonitorEvent>): nat {
    if events == [] then 0
    else CapturesDue(events[..|events| - 1]) + if CapturesFor(events[|events| - 1]) then 1 else 0
  }

  function RepliesDue(events: seq<MonitorEvent>): nat {
    if events == [] then 0
    else RepliesDue(events[..|events| - 1]) + if events[|events| - 1].Crash? then 1 else 0
  }

  /** How the loop may end at an event, given whether the target was terminated or lost. */
  predicate EndsRightly(end: LoopEnd, event: MonitorEvent, contained: bool) {
    match event
    case ShutdownSignal => end == ShutDown
    case ChildTerminated => end == ChildGone
    case ListenerFailure => end == MonitorFailed
    case MonitorFailure => end == MonitorFailed
    case Crash(subscribed, _, _) => end == MonitorFailed || (end == CrashDetected && subscribed && !contained)
    case Snapshot(enabled) => end == MonitorFailed && enabled && contained
    case Timeout(anrDetected) => end == MonitorFailed && anrDetected && contained
  }

  /** One capture for the loop, which then looks at the health record. */
  method CaptureFor(worker: CaptureWorker, bail: bool, deadline: nat) returns (stopped: bool, ghost m: Mode)
    requires worker.platform.At(FREE)
    modifies worker, worker.platform`trace, worker.platform`health, worker.platform`clock, worker.platform`captures, worker.platform`suspends
    ensures worker.platform.At(m) && Released(m) && (stopped <==> m.contained)
    ensures worker.platform.captures == old(worker.platform.captures) + 1
  {
    hide Track, Count, Attempts, Stops;
    var setup: Setup := *;
    var outcome, late, suspended;
    outcome, late, suspended, m := worker.Capture(Event(true, bail), deadline, setup);
    stopped := Stops(worker.platform.health);
  }

  /** What handling one event does: `None` to wait again. */
  method HandleEvent(worker: CaptureWorker, event: MonitorEvent) returns (end: Option<LoopEnd>, ghost m: Mode)
    requires worker.platform.At(FREE)
    modifies worker, worker.platform`trace, worker.platform`health, worker.platform`clock, worker.platform`waits,
             worker.platform`captures, worker.platform`replies, worker.platform`suspends
    ensures worker.platform.At(m)
    ensures end.None? ==> m == FREE && !Ends(event)
    ensures end.Some? ==> EndsRightly(end.value, event, m.contained)
    ensures m.contained ==> end == Some(MonitorFailed)
    ensures worker.platform.captures == old(worker.platform.captures) + if CapturesFor(event) then 1 else 0
    ensures worker.platform.replies == old(worker.platform.replies) + if event.Crash? then 1 else 0
    ensures worker.platform.waits == old(worker.platform.waits)
  {
    hide Track, Count, Attempts, Stops;
    m := FREE;
    var stopped := false;
    match event
    case Crash(subscribed, enabled, receivedAt) =>
      var replied: bool := *;
      if subscribed && enabled {
        stopped, m := CaptureFor(worker, false, receivedAt + CAPTURE_DEADLINE);
      }
      worker.platform.Announce(Reply, m);
      if !subscribed {
        return if replied then None else Some(MonitorFailed), m;
      }
      return Some(if stopped || !replied then MonitorFailed else CrashDetected), m;
    case Snapshot(enabled) =>
      if enabled {
        var now := worker.platform.Now();
        stopped, m := CaptureFor(worker, true, now + CAPTURE_DEADLINE);
      }
      return if stopped then Some(MonitorFailed) else None, m;
    case Timeout(anrDetected) =>
      if anrDetected {
        var now := worker.platform.Now();
        stopped, m := CaptureFor(worker, true, now + CAPTURE_DEADLINE);
      }
      return if stopped then Some(MonitorFailed) else None, m;
    case ShutdownSignal => return Some(ShutDown), FREE;
    case ChildTerminated => return Some(ChildGone), FREE;
    case ListenerFailure => return Some(MonitorFailed), FREE;
    case MonitorFailure => return Some(MonitorFailed), FREE;
  }

  /**
    The loop over any finite prefix of its events. Every action it takes is allowed, so the whole trace
    balances; it waits once per event, captures exactly for the events that call for it and replies to
    every exception; it goes on exactly until an event that ends it or a terminated or lost target.
  */
  method EventLoop(worker: CaptureWorker, events: seq<MonitorEvent>) returns (end: LoopEnd, handled: nat, ghost m: Mode)
    requires worker.platform.At(FREE)
    modifies worker, worker.platform
    ensures worker.platform.At(m) && handled <= |events|
    ensures end.StillWaiting? ==> m == FREE && handled == |events| && forall i :: 0 <= i < handled ==> !Ends(events[i])
    ensures !end.StillWaiting? ==> handled > 0 && EndsRightly(end, events[handled - 1], m.contained)
    ensures !end.StillWaiting? ==> forall i :: 0 <= i < handled - 1 ==> !Ends(events[i])
    ensures m.contained ==> end.MonitorFailed?
    ensures worker.platform.waits == old(worker.platform.waits) + handled
    ensures worker.platform.captures == old(worker.platform.captures) + CapturesDue(events[..handled])
    ensures worker.platform.replies == old(worker.platform.replies) + RepliesDue(events[..handled])
  {
    hide Track, Count, Attempts, Stops;
    m := FREE;
    handled := 0;
    while handled < |events|
      invariant handled <= |events| && worker.platform.At(FREE) && m == FREE
      invariant forall i :: 0 <= i < handled ==> !Ends(events[i])
      invariant worker.platform.waits == old(worker.platform.waits) + handled
      invariant worker.platform.captures == old(worker.platform.captures) + CapturesDue(events[..handled])
      invariant worker.platform.replies == old(worker.platform.replies) + RepliesDue(events[..handled])
    {
      worker.platform.Announce(Wait, FREE);
      assert events[..handled + 1][..handled] == events[..handled];
      var ended;
      ended, m := HandleEvent(worker, events[handled]);
      handled := handled + 1;
      if ended.Some? {
        return ended.value, handled, m;
      }
    }
    end := StillWaiting;
  }
}
