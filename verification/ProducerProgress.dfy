/**
  A producer call that meets no other (producer/crash_monitor_producer.h): scheduled by
  itself on a quiet unit it publishes exactly its payload and returns success, or
  reports a full section and changes nothing.
*/
module ProducerProgress {
  import opened Wrappers
  import opened SharedRegion
  import opened Producer

  lemma Overwrites(threads: seq<Thread>, t: nat, p: Thread, q: Thread)
    requires t < |threads|
    ensures threads[t := p][t := q] == threads[t := q]
  {
  }

  /** Thread `t` scheduled alone. */
  function Play(s: State, t: nat, choices: seq<Choice>): (n: State)
    requires t < |s.threads|
    ensures |n.threads| == |s.threads|
    decreases |choices|
  {
    if choices == [] then s else Play(Next(s, t, choices[0]), t, choices[1..])
  }

  lemma {:induction false} PlayAppends(s: State, t: nat, first: seq<Choice>, rest: seq<Choice>)
    requires t < |s.threads|
    ensures Play(s, t, first + rest) == Play(Play(s, t, first), t, rest)
    decreases |first|
  {
    hide Next;
    if first == [] {
      assert first + rest == rest;
    } else {
      PlayAppends(Next(s, t, first[0]), t, first[1..], rest);
      assert (first + rest)[1..] == first[1..] + rest;
    }
  }

  function Alone(t: nat, choices: seq<Choice>): seq<Event> {
    if choices == [] then [] else Alone(t, choices[..|choices| - 1]) + [Event(t, choices[|choices| - 1])]
  }

  /** A thread scheduled alone is one of the schedules the safety results speak of. */
  lemma {:induction false} PlayIsASchedule(s: State, t: nat, choices: seq<Choice>)
    requires t < |s.threads|
    ensures Run(s, Alone(t, choices)) == Play(s, t, choices)
    decreases |choices|
  {
    if choices != [] {
      var rest, last := choices[..|choices| - 1], choices[|choices| - 1];
      PlayIsASchedule(s, t, rest);
      PlayAppends(s, t, rest, [last] + []);
      PlayOne(Play(s, t, rest), t, last, []);
      assert rest + ([last] + []) == choices;
      assert Alone(t, choices)[..|Alone(t, choices)| - 1] == Alone(t, rest);
    }
  }

  /** The same shared words and other threads; the unit's cells are as given. */
  ghost predicate WroteOnly(s: State, n: State, t: nat, p: Thread, u: Unit, cells: Memory)
    requires t < |s.threads|
  {
    && n == s.(memory := n.memory, threads := s.threads[t := p])
    && Cells(n.memory, u) == cells
    && forall v :: v != u ==> Cells(n.memory, v) == Cells(s.memory, v)
  }

  /** A writer with these stores still pending. */
  function Pausing(p: Thread, pending: Memory): Thread
    requires p.Write? || p.WriteCrumb?
  {
    if p.Write? then Write(p.call, p.odd, pending) else WriteCrumb(p.slot, p.crumb, p.count, p.registryOdd, p.odd, pending)
  }

  lemma StoreOne(s: State, t: nat, a: Address)
    requires t < |s.threads| && (s.threads[t].Write? || s.threads[t].WriteCrumb?) && a in s.threads[t].pending
    ensures var p, n := s.threads[t], Next(s, t, Store(a));
            && |p.pending - {a}| < |p.pending| && n.threads[t] == Pausing(p, p.pending - {a})
            && WroteOnly(s, n, t, Pausing(p, p.pending - {a}), WorkUnit(p), Cells(s.memory, WorkUnit(p))[a := p.pending[a]])
  {
    var p := s.threads[t];
    assert (p.pending - {a}).Keys == p.pending.Keys - {a};
  }

  lemma StoredFirst(cells: Memory, pending: Memory, a: Address)
    requires a in pending
    ensures cells[a := pending[a]] + (pending - {a}) == cells + pending
  {}

  /** One store and then the others are all of them. */
  lemma WroteThenWrote(s: State, n: State, m: State, t: nat, left: Thread, done: Thread, u: Unit, pending: Memory, a: Address)
    requires t < |s.threads| && a in pending && WroteOnly(s, n, t, left, u, Cells(s.memory, u)[a := pending[a]])
    requires WroteOnly(n, m, t, done, u, Cells(n.memory, u) + (pending - {a}))
    ensures WroteOnly(s, m, t, done, u, Cells(s.memory, u) + pending)
  {
    StoredFirst(Cells(s.memory, u), pending, a);
    Overwrites(s.threads, t, left, done);
  }

  lemma NothingToWrite(s: State, t: nat, u: Unit)
    requires t < |s.threads|
    ensures WroteOnly(s, s, t, s.threads[t], u, Cells(s.memory, u) + map[])
  {
    assert s.threads[t := s.threads[t]] == s.threads;
    assert Cells(s.memory, u) + map[] == Cells(s.memory, u);
  }

  /** A writer scheduled alone completes its pending stores. */
  lemma {:induction false} StoresComplete(s: State, t: nat) returns (choices: seq<Choice>)
    requires t < |s.threads| && (s.threads[t].Write? || s.threads[t].WriteCrumb?)
    ensures var p := s.threads[t];
            WroteOnly(s, Play(s, t, choices), t, Pausing(p, map[]), WorkUnit(p), Cells(s.memory, WorkUnit(p)) + p.pending)
    decreases |s.threads[t].pending|
  {
    hide Next, WroteOnly, Cells, UnitOf;
    var p := s.threads[t];
    if p.pending == map[] {
      choices := [];
      NothingToWrite(s, t, WorkUnit(p));
    } else {
      var a :| a in p.pending;
      var n, left := Next(s, t, Store(a)), Pausing(p, p.pending - {a});
      StoreOne(s, t, a);
      var rest := StoresComplete(n, t);
      choices := [Store(a)] + rest;
      PlayOne(s, t, Store(a), rest);
      WroteThenWrote(s, n, Play(n, t, rest), t, left, Pausing(p, map[]), WorkUnit(p), p.pending, a);
    }
  }

  lemma PlayOne(s: State, t: nat, c: Choice, rest: seq<Choice>)
    requires t < |s.threads|
    ensures Play(s, t, [c] + rest) == Play(Next(s, t, c), t, rest)
  {
    hide Next;
    assert ([c] + rest)[1..] == rest;
  }

  /** The observation, the claim, and the preparation of the payload. */
  const CLAIM := [Go, Go, Go]

  lemma ObservesQuietUnit(s: State, t: nat, call: Call)
    requires t < |s.threads| && s.threads[t].Returned? && Accepted(call) && !call.AddBreadcrumb?
    requires !Odd(Word(s.generation, UnitOf(call)))
    ensures Play(s, t, [Begin(call)] + ([Go] + [])) == SetThread(s, t, Claim(call, Word(s.generation, UnitOf(call))))
  {
    var s1 := SetThread(s, t, Observe(call));
    PlayOne(s, t, Begin(call), [Go] + []);
    PlayOne(s1, t, Go, []);
    Overwrites(s.threads, t, Observe(call), Claim(call, Word(s.generation, UnitOf(call))));
  }

  lemma ClaimSucceeds(s: State, t: nat)
    requires t < |s.threads| && s.threads[t].Claim? && s.threads[t].seen == Word(s.generation, UnitOf(s.threads[t].call))
    ensures var p := s.threads[t];
            Next(s, t, Go) == SetThread(Acquire(s, UnitOf(p.call), p.seen), t, Prepare(p.call, Wrap(p.seen + 1)))
  {}

  lemma PreparesPayload(s: State, t: nat)
    requires t < |s.threads| && s.threads[t].Prepare?
    ensures var p := s.threads[t];
            Next(s, t, Go) == SetThread(s, t, Prepared(p.call, p.odd, StoresOf(p.call, Cells(s.memory, UnitOf(p.call)))))
  {}

  /** A claimed unit with a payload to store, or with no room for it. */
  function Prepared(call: Call, odd: nat, stores: Option<Memory>): Thread {
    if stores.Some? then Write(call, odd, stores.value) else Refuse(call, odd)
  }

  lemma TakesQuietUnit(s: State, t: nat, call: Call)
    requires t < |s.threads| && s.threads[t] == Claim(call, Word(s.generation, UnitOf(call)))
    ensures var u := UnitOf(call);
            var odd := Wrap(Word(s.generation, u) + 1);
            Play(s, t, [Go] + ([Go] + [])) ==
            s.(generation := s.generation[u := odd], threads := s.threads[t := Prepared(call, odd, StoresOf(call, Cells(s.memory, u)))])
  {
    hide Next;
    var u := UnitOf(call);
    var odd := Wrap(Word(s.generation, u) + 1);
    var s1 := SetThread(Acquire(s, u, Word(s.generation, u)), t, Prepare(call, odd));
    ClaimSucceeds(s, t);
    PlayOne(s, t, Go, [Go] + []);
    PreparesPayload(s1, t);
    PlayOne(s1, t, Go, []);
    var p := Prepared(call, odd, StoresOf(call, Cells(s.memory, u)));
    Overwrites(s.threads, t, Prepare(call, odd), p);
  }

  lemma ClaimsQuietUnit(s: State, t: nat, call: Call)
    requires t < |s.threads| && s.threads[t].Returned? && Accepted(call) && !call.AddBreadcrumb?
    requires !Odd(Word(s.generation, UnitOf(call)))
    ensures var u := UnitOf(call);
            var odd := Wrap(Word(s.generation, u) + 1);
            Play(s, t, [Begin(call)] + CLAIM) ==
            s.(generation := s.generation[u := odd], threads := s.threads[t := Prepared(call, odd, StoresOf(call, Cells(s.memory, u)))])
  {
    hide Next;
    var seen := SetThread(s, t, Claim(call, Word(s.generation, UnitOf(call))));
    ObservesQuietUnit(s, t, call);
    TakesQuietUnit(seen, t, call);
    PlayAppends(s, t, [Begin(call)] + ([Go] + []), [Go] + ([Go] + []));
    assert ([Begin(call)] + ([Go] + [])) + ([Go] + ([Go] + [])) == [Begin(call)] + CLAIM;
    var p := Prepared(call, Wrap(Word(s.generation, UnitOf(call)) + 1), StoresOf(call, Cells(s.memory, UnitOf(call))));
    Overwrites(s.threads, t, seen.threads[t], p);
  }

  /** The last access releases the unit and completes the call. */
  function Finished(s: State, t: nat, call: Call, odd: nat): State
    requires t < |s.threads|
  {
    SetThread(Complete(Release(s, UnitOf(call), odd), UnitOf(call), call), t, Returned(0))
  }

  lemma WriterFinishes(s: State, t: nat) returns (choices: seq<Choice>, written: State)
    requires t < |s.threads| && s.threads[t].Write?
    ensures var p := s.threads[t];
            && WroteOnly(s, written, t, Write(p.call, p.odd, map[]), UnitOf(p.call), Cells(s.memory, UnitOf(p.call)) + p.pending)
            && Play(s, t, choices) == Finished(written, t, p.call, p.odd)
  {
    var writes := StoresComplete(s, t);
    written := Play(s, t, writes);
    choices := writes + ([Go] + []);
    PlayAppends(s, t, writes, [Go] + []);
    PlayOne(written, t, Go, []);
  }

  predicate Untouched(s: State, n: State, v: Unit) {
    Cells(n.memory, v) == Cells(s.memory, v) && Log(n.history, v) == Log(s.history, v) && Word(n.generation, v) == Word(s.generation, v)
  }

  /** The call's payload and nothing else was published, and the unit is quiet again. */
  ghost predicate PublishedOnly(s: State, n: State, t: nat, call: Call, payload: Memory)
    requires t < |n.threads|
  {
    var u := UnitOf(call);
    && n.threads[t] == Returned(0)
    && (n.ringCount, n.heartbeat, n.ready) == (s.ringCount, s.heartbeat, s.ready)
    && Log(n.history, u) == Log(s.history, u) + [call]
    && Cells(n.memory, u) == Cells(s.memory, u) + payload
    && Word(n.generation, u) == Wrap(Wrap(Word(s.generation, u) + 1) + 1)
    && forall v :: v != u ==> Untouched(s, n, v)
  }

  lemma ClaimedWrittenReleased(s: State, claimed: State, written: State, n: State, t: nat, call: Call, odd: nat, stores: Memory)
    requires t < |s.threads| && odd == Wrap(Word(s.generation, UnitOf(call)) + 1)
    requires claimed == s.(generation := s.generation[UnitOf(call) := odd], threads := s.threads[t := Write(call, odd, stores)])
    requires WroteOnly(claimed, written, t, Write(call, odd, map[]), UnitOf(call), Cells(claimed.memory, UnitOf(call)) + stores)
    requires n == Finished(written, t, call, odd)
    ensures PublishedOnly(s, n, t, call, stores)
  {
    forall v | v != UnitOf(call) ensures Untouched(s, n, v) {
      assert Untouched(s, claimed, v) && Untouched(claimed, written, v) && Untouched(written, n, v);
    }
  }

  /**
    On a quiet unit with room, a call scheduled alone returns success with its payload published: the
    history has grown by exactly this call, the cells by exactly its stores, and the generation is even again.
  */
  lemma SoloCallPublishes(s: State, t: nat, call: Call) returns (choices: seq<Choice>)
    requires t < |s.threads| && s.threads[t].Returned? && Accepted(call) && !call.AddBreadcrumb?
    requires !Odd(Word(s.generation, UnitOf(call))) && StoresOf(call, Cells(s.memory, UnitOf(call))).Some?
    ensures PublishedOnly(s, Play(s, t, choices), t, call, StoresOf(call, Cells(s.memory, UnitOf(call))).value)
  {
    hide Next;
    ClaimsQuietUnit(s, t, call);
    var claimed := Play(s, t, [Begin(call)] + CLAIM);
    var rest, written := WriterFinishes(claimed, t);
    PlayAppends(s, t, [Begin(call)] + CLAIM, rest);
    choices := ([Begin(call)] + CLAIM) + rest;
    ClaimedWrittenReleased(s, claimed, written, Play(claimed, t, rest), t, call,
      Wrap(Word(s.generation, UnitOf(call)) + 1), StoresOf(call, Cells(s.memory, UnitOf(call))).value);
  }

  lemma RefusalReleases(s: State, t: nat)
    requires t < |s.threads| && s.threads[t].Refuse?
    ensures var p := s.threads[t];
            Next(s, t, Go) == SetThread(Release(s, UnitOf(p.call), p.odd), t, Returned(-1))
  {}

  /** On a full section the call returns an error, and only the generation has moved, to the next even word. */
  lemma SoloCallRefused(s: State, t: nat, call: Call)
    requires t < |s.threads| && s.threads[t].Returned? && Accepted(call) && !call.AddBreadcrumb?
    requires !Odd(Word(s.generation, UnitOf(call))) && StoresOf(call, Cells(s.memory, UnitOf(call))).None?
    ensures var u := UnitOf(call);
            var n := Play(s, t, ([Begin(call)] + CLAIM) + ([Go] + []));
            && n.threads[t] == Returned(-1) && n.memory == s.memory && n.history == s.history
            && n.generation == s.generation[u := Wrap(Wrap(Word(s.generation, u) + 1) + 1)]
  {
    hide Next;
    ClaimsQuietUnit(s, t, call);
    var claimed := Play(s, t, [Begin(call)] + CLAIM);
    PlayAppends(s, t, [Begin(call)] + CLAIM, [Go] + []);
    PlayOne(claimed, t, Go, []);
    RefusalReleases(claimed, t);
    var u, odd := UnitOf(call), Wrap(Word(s.generation, UnitOf(call)) + 1);
    assert s.generation[u := odd][u := Wrap(odd + 1)] == s.generation[u := Wrap(odd + 1)];
  }

  /** On a unit another thread holds, the call gives up at once and changes nothing. */
  lemma BusyCallGivesUp(s: State, t: nat, call: Call)
    requires t < |s.threads| && s.threads[t].Returned? && Accepted(call) && !call.AddBreadcrumb?
    requires Odd(Word(s.generation, UnitOf(call)))
    ensures Play(s, t, [Begin(call)] + ([Go] + [])) == SetThread(s, t, Returned(1))
  {
    var s1 := SetThread(s, t, Observe(call));
    PlayOne(s, t, Begin(call), [Go] + []);
    PlayOne(s1, t, Go, []);
    Overwrites(s.threads, t, Observe(call), Returned(1));
  }
}
