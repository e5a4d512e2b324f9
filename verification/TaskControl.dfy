/**
  Suspending and resuming the monitored task (src/platform/task_control.rs): what the
  platform was asked to do, in order, and the guard that owns one suspension.
  Whether a platform call succeeds is not decided here.
*/
module TaskControl {
  import opened Wrappers

  const RESUME_ATTEMPT_LIMIT := 3

  datatype Recovery = Resumed | Terminated | EscalationRequired

  datatype Failure = Failure(resumeAttempts: nat, resumeErrors: nat, recovery: Recovery, terminationFailed: bool)

  predicate PreventsMonitoring(failure: Failure) {
    failure.recovery.Terminated? || failure.recovery.EscalationRequired?
  }

  /** Some failure in the record, looking from the latest back, stops the monitor. */
  predicate Stops(health: seq<Failure>) {
    health != [] && (PreventsMonitoring(health[|health| - 1]) || Stops(health[..|health| - 1]))
  }

  lemma StopsWithLatest(health: seq<Failure>, failure: Failure)
    ensures Stops(health + [failure]) <==> PreventsMonitoring(failure) || Stops(health)
  {
    assert (health + [failure])[..|health|] == health;
  }

  // What happened, in order

  datatype Action =
    | Wait
    | Capture
    | Suspend(ok: bool)
    | Resume(ok: bool)
    | Terminate(ok: bool)
    | SpawnHelper
    | ReapHelper
    | Reply

  /** Suspensions owned, helpers that may still run, and whether the target was terminated or given up. */
  datatype Mode = Mode(owed: nat, helpers: nat, contained: bool)

  const FREE := Mode(0, 0, false)

  predicate Allowed(m: Mode, action: Action) {
    match action
    case Wait => m == FREE
    case Capture => m == FREE
    case Suspend(_) => m == FREE
    case Resume(_) => m == Mode(1, 0, false)
    case Terminate(_) => !m.contained
    case SpawnHelper => m.helpers == 0 && !m.contained
    case ReapHelper => m.helpers == 1 && !m.contained
    case Reply => m == FREE || m.contained
  }

  function Step(m: Mode, action: Action): Mode {
    match action
    case Suspend(ok) => if ok then m.(owed := m.owed + 1) else m
    case Resume(ok) => if ok && m.owed > 0 then m.(owed := m.owed - 1) else m
    case Terminate(_) => m.(contained := true)
    case SpawnHelper => m.(helpers := m.helpers + 1)
    case ReapHelper => if m.helpers > 0 then m.(helpers := m.helpers - 1) else m
    case _ => m
  }

  /** The mode a trace leads to, if every action in it was allowed. */
  function Track(trace: seq<Action>): Option<Mode> {
    if trace == [] then Some(FREE) else
      var m := Track(trace[..|trace| - 1]);
      var action := trace[|trace| - 1];
      if m.Some? && Allowed(m.value, action) then Some(Step(m.value, action)) else None
  }

  lemma OneMore(trace: seq<Action>, action: Action)
    requires Track(trace).Some? && Allowed(Track(trace).value, action)
    ensures Track(trace + [action]) == Some(Step(Track(trace).value, action))
    ensures Count(trace + [action], Wait) == Count(trace, Wait) + if action.Wait? then 1 else 0
    ensures Count(trace + [action], Capture) == Count(trace, Capture) + if action.Capture? then 1 else 0
    ensures Count(trace + [action], Reply) == Count(trace, Reply) + if action.Reply? then 1 else 0
    ensures Attempts(trace + [action]) == Attempts(trace) + if action.Suspend? then 1 else 0
  {
    assert (trace + [action])[..|trace|] == trace;
  }

  // The same, by counting

  function Count(trace: seq<Action>, action: Action): nat {
    if trace == [] then 0
    else Count(trace[..|trace| - 1], action) + if trace[|trace| - 1] == action then 1 else 0
  }

  /** The suspensions attempted, successful or not. */
  function Attempts(trace: seq<Action>): nat {
    if trace == [] then 0
    else Attempts(trace[..|trace| - 1]) + if trace[|trace| - 1].Suspend? then 1 else 0
  }

  lemma {:induction false} TrackCounts(trace: seq<Action>)
    requires Track(trace).Some?
    ensures var m := Track(trace).value;
            && Count(trace, Suspend(true)) == Count(trace, Resume(true)) + m.owed
            && Count(trace, SpawnHelper) == Count(trace, ReapHelper) + m.helpers
            && (m.contained <==> Count(trace, Terminate(true)) + Count(trace, Terminate(false)) > 0)
  {
    if trace != [] {
      TrackCounts(trace[..|trace| - 1]);
    }
  }

  lemma {:induction false} PrefixIsTracked(trace: seq<Action>, k: nat)
    requires Track(trace).Some? && k < |trace|
    ensures Track(trace[..k]).Some? && Allowed(Track(trace[..k]).value, trace[k])
  {
    if k < |trace| - 1 {
      PrefixIsTracked(trace[..|trace| - 1], k);
      assert trace[..|trace| - 1][..k] == trace[..k];
    }
  }

  /**
    In a tracked trace: at every wait, successful suspends equal successful resumes; a resume is only
    attempted while exactly one suspension is owned and every helper has been reaped; and after a
    termination, successful or not, nothing waits, captures, suspends or resumes.
  */
  lemma TrackedTracesBalance(trace: seq<Action>, k: nat)
    requires Track(trace).Some? && k < |trace|
    ensures var before := trace[..k];
            var suspends, resumes := Count(before, Suspend(true)), Count(before, Resume(true));
            var helpers := Count(before, SpawnHelper) - Count(before, ReapHelper);
            var terminations := Count(before, Terminate(true)) + Count(before, Terminate(false));
            && (trace[k].Wait? ==> suspends == resumes && helpers == 0 && terminations == 0)
            && (trace[k].Resume? ==> suspends == resumes + 1 && helpers == 0 && terminations == 0)
            && (trace[k].Capture? || trace[k].Suspend? ==> suspends == resumes && terminations == 0)
            && (trace[k].Reply? && terminations == 0 ==> suspends == resumes && helpers == 0)
  {
    PrefixIsTracked(trace, k);
    TrackCounts(trace[..k]);
  }

  class Platform {
    var clock: nat
    /** Failures the supervisor can see. */
    var health: seq<Failure>
    ghost var trace: seq<Action>
    /** How often the loop has waited and replied, and a capture begun and a suspension been attempted. */
    ghost var waits: nat
    ghost var captures: nat
    ghost var replies: nat
    ghost var suspends: nat

    constructor ()
      ensures At(FREE)
    {
      clock, health, trace := 0, [], [];
      waits, captures, replies, suspends := 0, 0, 0, 0;
    }

    /** Every action so far was allowed, and a terminated or lost task shows in the health record. */
    ghost predicate At(m: Mode)
      reads this
    {
      Traced(m) && (m.contained <==> Stops(health))
    }

    ghost predicate Traced(m: Mode)
      reads this`trace, this`waits, this`captures, this`replies, this`suspends
    {
      && Track(trace) == Some(m) && waits == Count(trace, Wait) && captures == Count(trace, Capture)
      && replies == Count(trace, Reply) && suspends == Attempts(trace)
    }

    /** A wait or a reply of the event loop. */
    ghost method Announce(action: Action, m: Mode)
      requires At(m) && Allowed(m, action) && (action.Wait? || action.Reply?)
      modifies this`trace, this`waits, this`replies
      ensures trace == old(trace) + [action] && At(m)
      ensures waits == old(waits) + if action.Wait? then 1 else 0
      ensures replies == old(replies) + if action.Reply? then 1 else 0
    {
      OneMore(trace, action);
      trace := trace + [action];
      waits := waits + if action.Wait? then 1 else 0;
      replies := replies + if action.Reply? then 1 else 0;
    }

    /** The beginning of a capture. */
    ghost method BeginCapture()
      requires At(FREE)
      modifies this`trace, this`captures
      ensures trace == old(trace) + [Action.Capture] && At(FREE) && captures == old(captures) + 1
    {
      OneMore(trace, Action.Capture);
      trace, captures := trace + [Action.Capture], captures + 1;
    }

    /** An action on the target or a helper. */
    ghost method Note(action: Action, m: Mode)
      requires At(m) && Allowed(m, action) && !action.Terminate? && !action.Wait? && !action.Capture? && !action.Reply? && !action.Suspend?
      modifies this`trace
      ensures trace == old(trace) + [action]
      ensures At(Step(m, action))
    {
      OneMore(trace, action);
      trace := trace + [action];
    }

    method SuspendTask() returns (ok: bool)
      requires At(FREE)
      modifies this`trace, this`suspends
      ensures trace == old(trace) + [Suspend(ok)] && suspends == old(suspends) + 1
      ensures At(if ok then Mode(1, 0, false) else FREE)
    {
      ok := *;
      OneMore(trace, Suspend(ok));
      trace, suspends := trace + [Suspend(ok)], suspends + 1;
    }

    method ResumeTask() returns (ok: bool)
      requires At(Mode(1, 0, false))
      modifies this`trace
      ensures trace == old(trace) + [Resume(ok)]
      ensures At(if ok then FREE else Mode(1, 0, false))
    {
      ok := *;
      Note(Resume(ok), Mode(1, 0, false));
    }

    method TerminateTask(ghost m: Mode) returns (ok: bool)
      requires Traced(m) && !m.contained
      modifies this`trace
      ensures trace == old(trace) + [Terminate(ok)] && Traced(m.(contained := true))
    {
      ok := *;
      OneMore(trace, Terminate(ok));
      trace := trace + [Terminate(ok)];
    }

    /** Terminating the target, with the record of it: both callers make the two together. */
    method TerminateAndRecord(resumeAttempts: nat, resumeErrors: nat, ghost m: Mode) returns (failure: Failure)
      requires At(m) && !m.contained
      modifies this`trace, this`health
      ensures health == old(health) + [failure] && PreventsMonitoring(failure)
      ensures failure.resumeAttempts == resumeAttempts && failure.resumeErrors == resumeErrors
      ensures trace == old(trace) + [Terminate(failure.recovery.Terminated?)]
      ensures failure.terminationFailed <==> failure.recovery.EscalationRequired?
      ensures At(m.(contained := true))
    {
      hide Track, Count, Attempts, Stops;
      var ok := TerminateTask(m);
      failure := Failure(resumeAttempts, resumeErrors, if ok then Terminated else EscalationRequired, !ok);
      StopsWithLatest(health, failure);
      health := health + [failure];
    }

    method Record(failure: Failure, ghost m: Mode)
      requires At(m) && !PreventsMonitoring(failure)
      modifies this`health
      ensures health == old(health) + [failure] && At(m)
    {
      StopsWithLatest(health, failure);
      health := health + [failure];
    }

    method Now() returns (t: nat)
      modifies this`clock
      ensures t == clock >= old(clock)
    {
      var passed: int :| passed >= 0;
      clock := clock + passed;
      t := clock;
    }

    method Sleep(duration: nat)
      modifies this`clock
      ensures clock >= old(clock) + duration
    {
      var extra: int :| extra >= 0;
      clock := clock + duration + extra;
    }
  }

  class FailureSink {
    var failures: seq<Failure>

    constructor ()
      ensures failures == []
    {
      failures := [];
    }

    method Record(failure: Failure)
      modifies this
      ensures failures == old(failures) + [failure]
    {
      failures := failures + [failure];
    }

    method Drain() returns (drained: seq<Failure>)
      modifies this
      ensures drained == old(failures) && failures == []
    {
      drained := failures;
      failures := [];
    }
  }

  /** The call added the same failures to the supervisor's health as to the sink. */
  twostate predicate Recorded(platform: Platform, sink: FailureSink, failures: seq<Failure>)
    reads platform, sink
  {
    sink.failures == old(sink.failures) + failures && platform.health == old(platform.health) + failures
  }

  method ContainTaskWithoutResume(platform: Platform, sink: FailureSink, ghost m: Mode) returns (ghost failures: seq<Failure>)
    requires platform.At(m) && !m.contained
    modifies platform`trace, platform`health, sink
    ensures platform.At(m.(contained := true)) && Recorded(platform, sink, failures)
    ensures old(platform.trace) <= platform.trace
  {
    hide Track, Count, Attempts, Stops;
    var failure := platform.TerminateAndRecord(0, 1, m);
    sink.Record(failure);
    failures := [failure];
  }

  /** The suspension is gone, or the target is. */
  predicate Released(m: Mode) {
    m == FREE || m.contained
  }

  /** Owns exactly one successful suspension; `active` says whether it still does. */
  class TaskSuspendGuard {
    const platform: Platform
    const sink: FailureSink
    var active: bool

    constructor (platform: Platform, sink: FailureSink)
      ensures this.platform == platform && this.sink == sink && active
    {
      this.platform, this.sink, active := platform, sink, true;
    }

    /**
      The release policy: at most three resume attempts, then termination. An inactive guard does
      nothing. Whatever fails is recorded once in the sink and once in the supervisor's health.
    */
    method Release(ghost m: Mode) returns (ghost after: Mode, ghost failures: seq<Failure>)
      requires platform.At(m) && (active ==> m == Mode(1, 0, false))
      modifies this`active, platform`trace, platform`health, sink
      ensures !active && platform.At(after) && Recorded(platform, sink, failures)
      ensures !old(active) ==> platform.trace == old(platform.trace) && failures == [] && after == m
      ensures old(active) ==> Released(after)
      ensures old(platform.trace) <= platform.trace && |platform.trace| <= |old(platform.trace)| + RESUME_ATTEMPT_LIMIT + 1
    {
      hide Track, Count, Attempts, Stops;
      after, failures := m, [];
      if !active {
        return;
      }
      active := false;
      var errors := 0;
      while errors < RESUME_ATTEMPT_LIMIT
        invariant errors <= RESUME_ATTEMPT_LIMIT && !active
        invariant platform.At(Mode(1, 0, false))
        invariant old(platform.trace) <= platform.trace && |platform.trace| == |old(platform.trace)| + errors
        invariant platform.health == old(platform.health) && sink.failures == old(sink.failures)
      {
        var ok := platform.ResumeTask();
        if ok {
          after := FREE;
          if errors > 0 {
            var failure := Failure(errors + 1, errors, Resumed, false);
            sink.Record(failure);
            platform.Record(failure, FREE);
            failures := [failure];
          }
          return;
        }
        errors := errors + 1;
      }
      var failure := platform.TerminateAndRecord(RESUME_ATTEMPT_LIMIT, errors, m);
      after, failures := m.(contained := true), [failure];
      sink.Record(failure);
    }

    /** Consuming the guard releases once; the drop that follows finds it inactive. */
    method Finish() returns (ghost after: Mode, ghost failures: seq<Failure>)
      requires active && platform.At(Mode(1, 0, false))
      modifies this`active, platform`trace, platform`health, sink
      ensures !active && platform.At(after) && Released(after) && Recorded(platform, sink, failures)
      ensures old(platform.trace) <= platform.trace && |platform.trace| <= |old(platform.trace)| + RESUME_ATTEMPT_LIMIT + 1
    {
      hide Track, Count, Attempts, Stops;
      after, failures := Release(Mode(1, 0, false));
      ghost var same, none := Release(after);
    }

    /** Consuming the guard without resuming; the drop that follows finds it inactive. */
    method ContainWithoutResume(ghost m: Mode) returns (ghost failures: seq<Failure>)
      requires active && platform.At(m) && !m.contained
      modifies this`active, platform`trace, platform`health, sink
      ensures !active && platform.At(m.(contained := true)) && Recorded(platform, sink, failures)
      ensures old(platform.trace) <= platform.trace && |platform.trace| == |old(platform.trace)| + 1
    {
      hide Track, Count, Attempts, Stops;
      active := false;
      var failure := platform.TerminateAndRecord(0, 1, m);
      sink.Record(failure);
      failures := [failure];
      ghost var same, none := Release(m.(contained := true));
    }
  }

  /** No guard after a failed suspend. */
  method Acquire(platform: Platform, sink: FailureSink) returns (guard: TaskSuspendGuard?)
    requires platform.At(FREE)
    modifies platform`trace, platform`suspends
    ensures platform.trace == old(platform.trace) + [Suspend(guard != null)] && platform.suspends == old(platform.suspends) + 1
    ensures guard == null ==> platform.At(FREE)
    ensures guard != null ==> fresh(guard) && guard.active && guard.platform == platform && guard.sink == sink
    ensures guard != null ==> platform.At(Mode(1, 0, false))
  {
    hide Track, Count, Attempts, Stops;
    var ok := platform.SuspendTask();
    guard := null;
    if ok {
      guard := new TaskSuspendGuard(platform, sink);
    }
  }
}
