/**
  How the monitor is woken (src/event_source.rs): signal handlers, the thread that
  bridges the exception listener, and the consumer share pending bits, two pipes
  watched by an edge-triggered kernel queue, and a channel. Each step is one atomic
  action of one of them, in any interleaving.
*/
module Wakeup {
  import opened Wrappers

  const PIPE_CAPACITY := 65_536

  datatype Signal = Term | Int | Usr1

  datatype MonitorEvent =
    | Crash(info: nat)
    | ListenerFailure
    | ChildTerminated
    | MonitorFailure
    | Shutdown(signal: Signal)
    | Snapshot

  datatype Listened = Info(info: nat) | Disconnected

  /** Where the bridge thread is. Its sender is dropped before its end of the wake pipe. */
  datatype Bridge = Receiving | Sent | Closing | Woken | SenderDropped | Closed

  datatype Consumer =
    | Outside
    | DrainingWake
    | TryingReceive
    | CheckingChild(listened: Option<Listened>)
    | DrainingSignals
    | Swapping
    | Popping
    | Delivered(event: MonitorEvent)
    | Blocked
    | Ended

  /** A pipe's bytes and whether the kernel queue will report it. */
  datatype Pipe = Pipe(bytes: nat, active: bool)

  datatype State = State(
    published: bool,
    bits: set<Signal>,
    handlers: nat,
    signalPipe: Pipe,
    pendingSignals: seq<Signal>,
    queue: seq<nat>,
    bridge: Bridge,
    wakePipe: Pipe,
    consumer: Consumer,
    /** Whether the present poll follows a wait, so that hearing nothing ends the call. */
    woken: bool,
    sent: seq<nat>,
    taken: seq<nat>,
    dropped: seq<nat>)

  const INITIAL := State(false, {}, 0, Pipe(0, false), [], [], Receiving, Pipe(0, false), Outside, false, [], [], [])

  datatype ChildStatus = Alive | Terminated | Failed

  datatype Step =
    | Publish
    | Raise(signal: Signal)
    | HandlerWrites
    | BridgeSends(info: nat)
    | BridgeWakes
    | BridgeEnds
    | BridgeDropsSender
    | BridgeCloses
    | Enter
    | ReadWake(count: nat)
    | WakeEmpty
    | TryReceive
    | CheckChild(status: ChildStatus)
    | ReadSignals(count: nat)
    | SignalsEmpty
    | Swap
    | Pop
    | Handle(goesOn: bool)
    | Wake(byChild: bool)
    | TimeOut
    | Interrupted
    | DrainFails
    | WaitFails

  /** Writing one byte; a full pipe refuses it, and reports nothing new. */
  function Written(p: Pipe): Pipe {
    if p.bytes < PIPE_CAPACITY then Pipe(p.bytes + 1, true) else p
  }

  /** The signals of a set of pending bits, in the order they are queued. */
  function InOrder(bits: set<Signal>): seq<Signal> {
    (if Term in bits then [Term] else []) + (if Int in bits then [Int] else []) + (if Usr1 in bits then [Usr1] else [])
  }

  function EventOf(listened: Listened): MonitorEvent {
    match listened
    case Info(info) => Crash(info)
    case Disconnected => ListenerFailure
  }

  function SignalEvent(signal: Signal): MonitorEvent {
    if signal.Usr1? then Snapshot else Shutdown(signal)
  }

  predicate EndsLoop(event: MonitorEvent) {
    event.ListenerFailure? || event.ChildTerminated? || event.MonitorFailure? || event.Shutdown?
  }

  /** Signal handlers and the bridge. */
  function Produce(s: State, step: Step): Option<State> {
    match step
    case Publish => Some(s.(published := true))
    case Raise(signal) => Some(s.(bits := s.bits + {signal}, handlers := s.handlers + 1))
    case HandlerWrites =>
      if s.handlers == 0 then None
      else Some(s.(handlers := s.handlers - 1, signalPipe := if s.published then Written(s.signalPipe) else s.signalPipe))
    case BridgeSends(info) =>
      if !s.bridge.Receiving? then None
      else Some(s.(bridge := Sent, queue := s.queue + [info], sent := s.sent + [info]))
    case BridgeWakes =>
      if s.bridge.Sent? then Some(s.(bridge := Receiving, wakePipe := Written(s.wakePipe)))
      else if s.bridge.Closing? then Some(s.(bridge := Woken, wakePipe := Written(s.wakePipe)))
      else None
    case BridgeEnds => if !s.bridge.Receiving? then None else Some(s.(bridge := Closing))
    case BridgeDropsSender => if !s.bridge.Woken? then None else Some(s.(bridge := SenderDropped))
    case BridgeCloses =>
      if !s.bridge.SenderDropped? then None else Some(s.(bridge := Closed, wakePipe := s.wakePipe.(active := true)))
    case _ => None
  }

  /** One poll: the wake pipe, the listener, the child, then the signals. */
  function Poll(s: State, step: Step): Option<State> {
    match (step, s.consumer)
    case (Enter, Outside) => if !s.published then None else Some(s.(consumer := DrainingWake, woken := false))
    case (ReadWake(count), DrainingWake) =>
      if count == 0 || s.wakePipe.bytes < count then None
      else Some(s.(wakePipe := s.wakePipe.(bytes := s.wakePipe.bytes - count)))
    case (WakeEmpty, DrainingWake) => if s.wakePipe.bytes > 0 then None else Some(s.(consumer := TryingReceive))
    case (TryReceive, TryingReceive) =>
      if s.queue != [] then
        Some(s.(consumer := CheckingChild(Some(Info(s.queue[0]))), queue := s.queue[1..]))
      else if s.bridge.SenderDropped? || s.bridge.Closed? then Some(s.(consumer := CheckingChild(Some(Disconnected))))
      else Some(s.(consumer := CheckingChild(None)))
    case (CheckChild(status), CheckingChild(listened)) =>
      if !status.Alive? then
        Some(s.(consumer := Delivered(if status.Terminated? then ChildTerminated else MonitorFailure),
                dropped := s.dropped + InfoOf(listened)))
      else if listened.Some? then
        Some(s.(consumer := Delivered(EventOf(listened.value)), taken := s.taken + InfoOf(listened)))
      else Some(s.(consumer := if s.pendingSignals == [] then DrainingSignals else Popping))
    case (ReadSignals(count), DrainingSignals) =>
      if count == 0 || s.signalPipe.bytes < count then None
      else Some(s.(signalPipe := s.signalPipe.(bytes := s.signalPipe.bytes - count)))
    case (SignalsEmpty, DrainingSignals) => if s.signalPipe.bytes > 0 then None else Some(s.(consumer := Swapping))
    case (DrainFails, DrainingSignals) => Some(s.(consumer := Delivered(MonitorFailure)))
    case (Swap, Swapping) => Some(s.(consumer := Popping, pendingSignals := InOrder(s.bits), bits := {}))
    case (Pop, Popping) =>
      if s.pendingSignals == [] then Some(s.(consumer := if s.woken then Outside else Blocked))
      else
        var signal := s.pendingSignals[0];
        Some(s.(consumer := Delivered(SignalEvent(signal)),
                pendingSignals := s.pendingSignals[1..]))
    case _ => None
  }

  function InfoOf(listened: Option<Listened>): seq<nat> {
    if listened.Some? && listened.value.Info? then [listened.value.info] else []
  }

  /**
    The loop's treatment of an event, and the wait on the kernel queue: it clears what it reports, times out
    when no reported pipe has anything to read, and may be interrupted past the deadline or fail at any time.
  */
  function Turn(s: State, step: Step): Option<State> {
    match (step, s.consumer)
    case (Handle(goesOn), Delivered(event)) =>
      if goesOn && EndsLoop(event) then None else Some(s.(consumer := if goesOn then Outside else Ended))
    case (Wake(byChild), Blocked) =>
      if !byChild && !s.signalPipe.active && !s.wakePipe.active then None
      else Some(s.(consumer := DrainingWake, woken := true,
                   signalPipe := s.signalPipe.(active := false), wakePipe := s.wakePipe.(active := false)))
    case (TimeOut, Blocked) =>
      if (s.signalPipe.active && s.signalPipe.bytes > 0) || (s.wakePipe.active && (s.wakePipe.bytes > 0 || s.bridge.Closed?)) then None
      else Some(s.(consumer := Outside))
    case (Interrupted, Blocked) => Some(s.(consumer := Outside))
    case (WaitFails, Blocked) => Some(s.(consumer := Delivered(MonitorFailure)))
    case _ => None
  }

  function Next(s: State, step: Step): Option<State> {
    if Produce(s, step).Some? then Produce(s, step)
    else if Poll(s, step).Some? then Poll(s, step)
    else Turn(s, step)
  }

  function Run(s: State, steps: seq<Step>): Option<State>
    decreases |steps|
  {
    if steps == [] then Some(s) else
      var next := Next(s, steps[0]);
      if next.None? then None else Run(next.value, steps[1..])
  }

  // The invariant

  /** Past the listener with nothing heard, and not yet woken. */
  predicate PastListener(c: Consumer) {
    c == CheckingChild(None) || c.DrainingSignals? || c.Swapping? || c.Popping? || c.Blocked?
  }

  predicate ListenerCovered(s: State) {
    && (s.consumer.TryingReceive? || PastListener(s.consumer) ==> s.wakePipe.bytes > 0 ==> s.wakePipe.active)
    && (PastListener(s.consumer) ==>
          && (s.queue != [] ==> s.bridge.Sent? || s.wakePipe.bytes > 0)
          && (s.bridge.Closed? ==> s.wakePipe.active))
  }

  /** Past the swap with nothing queued, and not yet woken. */
  predicate PastSwap(s: State) {
    s.consumer.Blocked? || (s.consumer.Popping? && s.pendingSignals == [])
  }

  predicate SignalsCovered(s: State) {
    && (s.consumer.Swapping? || PastSwap(s) ==> s.signalPipe.bytes > 0 ==> s.signalPipe.active)
    && (PastSwap(s) ==> s.bits != {} ==> s.handlers > 0 || s.signalPipe.bytes > 0)
    && (!s.consumer.Outside? ==> s.published)
    && (s.consumer.Blocked? || s.consumer.Swapping? || s.consumer.DrainingSignals? ==> s.pendingSignals == [])
  }

  function InHand(c: Consumer): seq<nat> {
    if c.CheckingChild? then InfoOf(c.listened) else []
  }

  /** Every listener event sent is taken, in hand, beaten by a child event, or still queued, in order. */
  predicate ListenerKept(s: State) {
    && s.sent == s.taken + InHand(s.consumer) + s.dropped + s.queue
    && |s.dropped| <= 1
    && (s.dropped != [] ==>
          s.consumer.Ended? || s.consumer == Delivered(ChildTerminated) || s.consumer == Delivered(MonitorFailure))
  }

  predicate Inv(s: State) {
    ListenerCovered(s) && SignalsCovered(s) && ListenerKept(s)
  }

  lemma ProduceKeeps(s: State, step: Step)
    requires Inv(s) && Produce(s, step).Some?
    ensures Inv(Produce(s, step).value)
  {
    if step.BridgeSends? {
      var after := Produce(s, step).value;
      assert after.taken + InHand(after.consumer) + after.dropped + after.queue ==
             s.taken + InHand(s.consumer) + s.dropped + s.queue + [step.info];
    }
  }

  lemma PollKeepsCover(s: State, step: Step)
    requires ListenerCovered(s) && SignalsCovered(s) && Poll(s, step).Some?
    ensures ListenerCovered(Poll(s, step).value) && SignalsCovered(Poll(s, step).value)
  {
  }

  lemma ReceiveKeepsListener(s: State)
    requires ListenerKept(s) && s.consumer.TryingReceive?
    ensures ListenerKept(Poll(s, TryReceive).value)
  {
    if s.queue != [] {
      assert s.dropped == [];
      assert s.queue == [s.queue[0]] + s.queue[1..];
      assert s.taken + [s.queue[0]] + [] + s.queue[1..] == s.taken + [] + [] + s.queue;
    }
  }

  lemma ChildKeepsListener(s: State, status: ChildStatus)
    requires ListenerKept(s) && s.consumer.CheckingChild?
    ensures ListenerKept(Poll(s, CheckChild(status)).value)
  {
    var hand := InHand(s.consumer);
    assert s.dropped == [];
    assert s.taken + [] + ([] + hand) + s.queue == s.taken + hand + [] + s.queue;
    assert (s.taken + hand) + [] + [] + s.queue == s.taken + hand + [] + s.queue;
  }

  lemma PollKeepsListener(s: State, step: Step)
    requires ListenerKept(s) && Poll(s, step).Some?
    ensures ListenerKept(Poll(s, step).value)
  {
    var after := Poll(s, step).value;
    if step.TryReceive? {
      ReceiveKeepsListener(s);
    } else if step.CheckChild? {
      ChildKeepsListener(s, step.status);
    } else {
      assert InHand(after.consumer) == InHand(s.consumer) && after.taken == s.taken;
      assert after.dropped == s.dropped && after.queue == s.queue && after.sent == s.sent;
    }
  }

  lemma PollKeeps(s: State, step: Step)
    requires Inv(s) && Poll(s, step).Some?
    ensures Inv(Poll(s, step).value)
  {
    PollKeepsCover(s, step);
    PollKeepsListener(s, step);
  }

  lemma TurnKeeps(s: State, step: Step)
    requires Inv(s) && Turn(s, step).Some?
    ensures Inv(Turn(s, step).value)
  {
  }

  lemma NextKeeps(s: State, step: Step)
    requires Inv(s) && Next(s, step).Some?
    ensures Inv(Next(s, step).value)
  {
    if Produce(s, step).Some? {
      ProduceKeeps(s, step);
    } else if Poll(s, step).Some? {
      PollKeeps(s, step);
    } else {
      TurnKeeps(s, step);
    }
  }

  lemma {:induction false} RunKeeps(s: State, steps: seq<Step>)
    requires Inv(s) && Run(s, steps).Some?
    ensures Inv(Run(s, steps).value)
    decreases |steps|
  {
    if steps != [] {
      NextKeeps(s, steps[0]);
      RunKeeps(Next(s, steps[0]).value, steps[1..]);
    }
  }

  // Theorems

  /**
    No lost wakeup. When the consumer blocks, a pending signal has its byte in the pipe and the pipe
    reported, or its handler is still to write; a queued listener event likewise; and a listener that has
    gone is reported, or its thread is still to close the pipe.
  */
  lemma NoLostWakeup(steps: seq<Step>)
    requires Run(INITIAL, steps).Some? && Run(INITIAL, steps).value.consumer.Blocked?
    ensures var s := Run(INITIAL, steps).value;
            && (s.bits != {} ==> s.handlers > 0 || (s.signalPipe.bytes > 0 && s.signalPipe.active))
            && (s.queue != [] ==> s.bridge.Sent? || (s.wakePipe.bytes > 0 && s.wakePipe.active))
            && (s.bridge.Closed? ==> s.wakePipe.active)
            && s.pendingSignals == []
  {
    RunKeeps(INITIAL, steps);
  }

  /** Once the producers have finished what they started, a consumer with anything to hear is woken, not timed out. */
  lemma SettledWorkWakes(steps: seq<Step>)
    requires Run(INITIAL, steps).Some?
    requires var s := Run(INITIAL, steps).value;
             s.consumer.Blocked? && s.handlers == 0 && !s.bridge.Sent? && (s.bits != {} || s.queue != [] || s.bridge.Closed?)
    ensures var s := Run(INITIAL, steps).value; Next(s, Wake(false)).Some? && Next(s, TimeOut).None?
  {
    NoLostWakeup(steps);
  }

  /**
    Listener events are delivered in the order they were sent; at most one is ever dropped, and only in
    the poll whose child event ends the loop.
  */
  lemma ListenerEventsAreKept(steps: seq<Step>)
    requires Run(INITIAL, steps).Some?
    ensures var s := Run(INITIAL, steps).value;
            && s.taken <= s.sent
            && |s.sent| == |s.taken| + |InHand(s.consumer)| + |s.dropped| + |s.queue|
            && (s.dropped != [] ==>
                  s.consumer.Ended? || s.consumer == Delivered(ChildTerminated) || s.consumer == Delivered(MonitorFailure))
            && |s.dropped| <= 1
  {
    RunKeeps(INITIAL, steps);
  }

  predicate Owed(s: State, signal: Signal) {
    signal in s.bits || signal in s.pendingSignals
  }

  lemma SwapKeepsOwed(s: State, signal: Signal)
    requires s.consumer.Swapping? && s.pendingSignals == [] && Owed(s, signal)
    ensures Owed(Poll(s, Swap).value, signal)
  {
    InOrderIsExact(s.bits, signal);
  }

  lemma PopKeepsOwed(s: State, signal: Signal)
    requires s.consumer.Popping? && Owed(s, signal)
    ensures var after := Poll(s, Pop).value; Owed(after, signal) || after.consumer == Delivered(SignalEvent(signal))
  {
    if s.pendingSignals != [] {
      assert s.pendingSignals == [s.pendingSignals[0]] + s.pendingSignals[1..];
    }
  }

  /** A raised signal stays owed through every step until the step that delivers it. */
  lemma SignalsStayOwed(s: State, step: Step, signal: Signal)
    requires Next(s, step).Some? && Owed(s, signal) && (s.consumer.Swapping? ==> s.pendingSignals == [])
    ensures var after := Next(s, step).value;
            Owed(after, signal) || (step.Pop? && after.consumer == Delivered(SignalEvent(signal)))
  {
    hide InOrder;
    var after := Next(s, step).value;
    if step.Swap? {
      SwapKeepsOwed(s, signal);
    } else if step.Pop? {
      PopKeepsOwed(s, signal);
    } else {
      assert s.bits <= after.bits && after.pendingSignals == s.pendingSignals;
    }
  }

  /** Some step of the run delivers the signal. */
  predicate Hears(s: State, steps: seq<Step>, signal: Signal)
    requires Run(s, steps).Some?
    decreases |steps|
  {
    steps != [] &&
    (Next(s, steps[0]).value.consumer == Delivered(SignalEvent(signal)) || Hears(Next(s, steps[0]).value, steps[1..], signal))
  }

  lemma {:induction false} OwedUntilHeard(s: State, steps: seq<Step>, signal: Signal)
    requires Inv(s) && Owed(s, signal) && Run(s, steps).Some?
    ensures Hears(s, steps, signal) || Owed(Run(s, steps).value, signal)
    decreases |steps|
  {
    if steps != [] {
      SignalsStayOwed(s, steps[0], signal);
      NextKeeps(s, steps[0]);
      var after := Next(s, steps[0]).value;
      if Owed(after, signal) {
        OwedUntilHeard(after, steps[1..], signal);
      }
    }
  }

  lemma {:induction false} RunAppends(s: State, first: seq<Step>, rest: seq<Step>)
    requires Run(s, first).Some?
    ensures Run(s, first + rest) == Run(Run(s, first).value, rest)
    decreases |first|
  {
    if first == [] {
      assert first + rest == rest;
    } else {
      RunAppends(Next(s, first[0]).value, first[1..], rest);
      assert (first + rest)[1..] == first[1..] + rest;
    }
  }

  lemma RaiseOwes(s: State, signal: Signal)
    ensures Next(s, Raise(signal)).Some? && Owed(Next(s, Raise(signal)).value, signal)
  {
  }

  lemma InitialHolds()
    ensures Inv(INITIAL)
  {
  }

  lemma OwedWakes(s: State, signal: Signal)
    requires Inv(s) && Owed(s, signal) && s.consumer.Blocked? && s.handlers == 0
    ensures Next(s, Wake(false)).Some? && Next(s, TimeOut).None?
  {
  }

  /**
    Whatever is interleaved, a signal raised at any point of any run is delivered later in the run or is
    still owed at its end; and then a consumer that has blocked is woken, not timed out, as soon as the
    handlers have written.
  */
  lemma RaisedSignalsAreHeard(before: seq<Step>, signal: Signal, after: seq<Step>)
    requires Run(INITIAL, before).Some? && Run(INITIAL, before + ([Raise(signal)] + after)).Some?
    ensures var raised := Next(Run(INITIAL, before).value, Raise(signal)).value;
            var s := Run(INITIAL, before + ([Raise(signal)] + after)).value;
            && Run(raised, after) == Some(s)
            && (Hears(raised, after, signal) || Owed(s, signal))
            && (Owed(s, signal) && s.consumer.Blocked? && s.handlers == 0 ==> Next(s, Wake(false)).Some? && Next(s, TimeOut).None?)
  {
    var ready := Run(INITIAL, before).value;
    RaiseOwes(ready, signal);
    hide Next, Inv;
    RunAppends(INITIAL, before, [Raise(signal)] + after);
    assert ([Raise(signal)] + after)[1..] == after;
    InitialHolds();
    RunKeeps(INITIAL, before);
    NextKeeps(ready, Raise(signal));
    OwedUntilHeard(Next(ready, Raise(signal)).value, after, signal);
    RunKeeps(INITIAL, before + ([Raise(signal)] + after));
    var s := Run(INITIAL, before + ([Raise(signal)] + after)).value;
    if Owed(s, signal) && s.consumer.Blocked? && s.handlers == 0 {
      OwedWakes(s, signal);
    }
  }

  /** The swap queues exactly the pending signals, termination first and snapshots last. */
  lemma InOrderIsExact(bits: set<Signal>, signal: Signal)
    ensures signal in InOrder(bits) <==> signal in bits
    ensures |InOrder(bits)| <= 3
    ensures Term in bits ==> InOrder(bits)[0] == Term
    ensures Usr1 in bits ==> InOrder(bits)[|InOrder(bits)| - 1] == Usr1
  {
  }

  /** The consumer blocks only straight after a call's first poll heard nothing; after a wait it never blocks again in the same call. */
  lemma BlocksOnlyAfterPolling(s: State, step: Step)
    requires Next(s, step).Some? && !s.consumer.Blocked? && Next(s, step).value.consumer.Blocked?
    ensures step.Pop? && s.consumer.Popping? && s.pendingSignals == [] && !s.woken
  {
  }
}
