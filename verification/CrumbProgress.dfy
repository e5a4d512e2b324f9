/**
  A breadcrumb added by a thread that meets no other (producer/crash_monitor_producer.h):
  with the slot registered the ring alone is claimed, otherwise the registry is claimed
  around it and the slot counted; either way exactly the crumb is published.
*/
module CrumbProgress {
  import opened Wrappers
  import opened SharedRegion
  import opened Producer
  import opened ProducerProgress

  const ONCE := [Go] + []
  const TWICE := [Go] + ONCE
  const THRICE := [Go] + TWICE

  lemma PlayOnce(s: State, t: nat, n: State)
    requires t < |s.threads| && Next(s, t, Go) == n
    ensures Play(s, t, ONCE) == n
  {
    hide Next;
    PlayOne(s, t, Go, []);
  }

  lemma PlayTwice(s: State, t: nat, s1: State, n: State)
    requires t < |s.threads| && Next(s, t, Go) == s1 && Next(s1, t, Go) == n
    ensures Play(s, t, TWICE) == n
  {
    hide Next;
    PlayOne(s, t, Go, ONCE);
    PlayOnce(s1, t, n);
  }

  lemma PlayThrice(s: State, t: nat, s1: State, s2: State, n: State)
    requires t < |s.threads| && Next(s, t, Go) == s1 && Next(s1, t, Go) == s2 && Next(s2, t, Go) == n
    ensures Play(s, t, THRICE) == n
  {
    hide Next;
    PlayOne(s, t, Go, TWICE);
    PlayTwice(s1, t, s2, n);
  }

  function CrumbStores(s: State, slot: nat, crumb: Crumb): Memory {
    StoresOf(AddBreadcrumb(slot, crumb), Cells(s.memory, Ring(slot))).value
  }

  /** The ring claimed, with the crumb's stores pending. */
  function Claimed(s: State, t: nat, slot: nat, crumb: Crumb, count: nat, registryOdd: nat): State
    requires t < |s.threads|
  {
    var odd := Wrap(Word(s.generation, Ring(slot)) + 1);
    SetThread(Acquire(s, Ring(slot), Word(s.generation, Ring(slot))), t,
              WriteCrumb(slot, crumb, count, registryOdd, odd, CrumbStores(s, slot, crumb)))
  }

  lemma ClaimsQuietRing(s: State, t: nat)
    requires t < |s.threads| && s.threads[t].ObserveRing? && !Odd(Word(s.generation, Ring(s.threads[t].slot)))
    ensures var p := s.threads[t];
            Play(s, t, THRICE) == Claimed(s, t, p.slot, p.crumb, p.count, p.registryOdd)
  {
    var p := s.threads[t];
    var seen := Word(s.generation, Ring(p.slot));
    var s1 := SetThread(s, t, ClaimRing(p.slot, p.crumb, p.count, p.registryOdd, seen));
    var s2 := SetThread(Acquire(s1, Ring(p.slot), seen), t, PrepareCrumb(p.slot, p.crumb, p.count, p.registryOdd, Wrap(seen + 1)));
    var s3 := Claimed(s, t, p.slot, p.crumb, p.count, p.registryOdd);
    Overwrites(s.threads, t, s1.threads[t], s2.threads[t]);
    Overwrites(s.threads, t, s2.threads[t], s3.threads[t]);
    PlayThrice(s, t, s1, s2, s3);
  }

  /** The crumb stored and its ring released, the registration still to be made. */
  function CrumbDone(s: State, t: nat, p: Thread): State
    requires t < |s.threads| && p.WriteCrumb?
  {
    SetThread(Complete(Release(s, Ring(p.slot), p.odd), Ring(p.slot), AddBreadcrumb(p.slot, p.crumb)), t,
              StoreCount(p.slot, p.count, p.registryOdd))
  }

  lemma RingReleases(s: State, t: nat, p: Thread)
    requires t < |s.threads| && p.WriteCrumb? && s.threads[t] == Pausing(p, map[])
    ensures Next(s, t, Go) == CrumbDone(s, t, p)
  {
  }

  lemma CrumbFinishes(s: State, t: nat) returns (choices: seq<Choice>, written: State)
    requires t < |s.threads| && s.threads[t].WriteCrumb?
    ensures var p := s.threads[t];
            && WroteOnly(s, written, t, Pausing(p, map[]), Ring(p.slot), Cells(s.memory, Ring(p.slot)) + p.pending)
            && Play(s, t, choices) == CrumbDone(written, t, p)
  {
    hide Next;
    var writes := StoresComplete(s, t);
    written := Play(s, t, writes);
    choices := writes + ONCE;
    PlayAppends(s, t, writes, ONCE);
    RingReleases(written, t, s.threads[t]);
    PlayOnce(written, t, CrumbDone(written, t, s.threads[t]));
  }

  /** From the observation of a quiet ring to its release: only the crumb is stored, and the ring's generation is even again. */
  ghost predicate CrumbOnly(s: State, n: State, t: nat, slot: nat, crumb: Crumb)
    requires t < |n.threads|
  {
    var u := Ring(slot);
    && (n.ringCount, n.heartbeat, n.ready) == (s.ringCount, s.heartbeat, s.ready)
    && Log(n.history, u) == Log(s.history, u) + [AddBreadcrumb(slot, crumb)]
    && Cells(n.memory, u) == Cells(s.memory, u) + CrumbStores(s, slot, crumb)
    && Word(n.generation, u) == Wrap(Wrap(Word(s.generation, u) + 1) + 1)
    && forall v :: v != u ==> Untouched(s, n, v)
  }

  lemma ClaimedThenDone(s: State, claimed: State, written: State, n: State, t: nat, p: Thread)
    requires t < |s.threads| && p.WriteCrumb?
    requires claimed == Claimed(s, t, p.slot, p.crumb, p.count, p.registryOdd) && p == claimed.threads[t]
    requires WroteOnly(claimed, written, t, Pausing(p, map[]), Ring(p.slot), Cells(claimed.memory, Ring(p.slot)) + p.pending)
    requires n == CrumbDone(written, t, p)
    ensures CrumbOnly(s, n, t, p.slot, p.crumb) && n.threads[t] == StoreCount(p.slot, p.count, p.registryOdd)
  {
    hide Next, CrumbStores;
    forall v | v != Ring(p.slot) ensures Untouched(s, n, v) {
      assert Untouched(s, claimed, v) && Untouched(claimed, written, v) && Untouched(written, n, v);
    }
  }

  lemma RingIsWritten(s: State, t: nat) returns (choices: seq<Choice>)
    requires t < |s.threads| && s.threads[t].ObserveRing? && !Odd(Word(s.generation, Ring(s.threads[t].slot)))
    ensures var p, n := s.threads[t], Play(s, t, choices);
            CrumbOnly(s, n, t, p.slot, p.crumb) && n.threads[t] == StoreCount(p.slot, p.count, p.registryOdd)
  {
    hide Next;
    ClaimsQuietRing(s, t);
    var claimed := Play(s, t, THRICE);
    var rest, written := CrumbFinishes(claimed, t);
    PlayAppends(s, t, THRICE, rest);
    choices := THRICE + rest;
    ClaimedThenDone(s, claimed, written, Play(claimed, t, rest), t, claimed.threads[t]);
  }

  // A registered slot

  lemma RegisteredStarts(s: State, t: nat, slot: nat, crumb: Crumb)
    requires t < |s.threads| && s.threads[t].Returned? && Accepted(AddBreadcrumb(slot, crumb)) && slot < s.ringCount
    ensures Play(s, t, [Begin(AddBreadcrumb(slot, crumb))] + ONCE) == SetThread(s, t, ObserveRing(slot, crumb, s.ringCount, 0))
  {
    var s1, s2 := SetThread(s, t, LoadCount(slot, crumb)), SetThread(s, t, ObserveRing(slot, crumb, s.ringCount, 0));
    PlayOne(s, t, Begin(AddBreadcrumb(slot, crumb)), ONCE);
    Overwrites(s.threads, t, s1.threads[t], s2.threads[t]);
    PlayOnce(s1, t, s2);
  }

  lemma RegisteredEnds(s: State, t: nat)
    requires t < |s.threads| && s.threads[t].StoreCount? && s.threads[t].registryOdd == 0 && s.threads[t].slot < s.threads[t].count
    ensures Play(s, t, ONCE) == SetThread(s, t, Returned(0))
  {
    PlayOnce(s, t, SetThread(s, t, Returned(0)));
  }

  lemma RingAlone(s: State, a: State, b: State, t: nat, slot: nat, crumb: Crumb)
    requires t < |s.threads| && |b.threads| == |s.threads| && a == s.(threads := a.threads) && CrumbOnly(a, b, t, slot, crumb)
    ensures PublishedOnly(s, SetThread(b, t, Returned(0)), t, AddBreadcrumb(slot, crumb), CrumbStores(s, slot, crumb))
  {
    hide Next;
    forall v | v != Ring(slot) ensures Untouched(s, SetThread(b, t, Returned(0)), v) {
      assert Untouched(a, b, v);
    }
  }

  /** With its slot registered and its ring quiet, a thread alone publishes its crumb, returns success and touches nothing else. */
  lemma RegisteredCrumbPublishes(s: State, t: nat, slot: nat, crumb: Crumb) returns (choices: seq<Choice>)
    requires t < |s.threads| && s.threads[t].Returned? && Accepted(AddBreadcrumb(slot, crumb))
    requires slot < s.ringCount && !Odd(Word(s.generation, Ring(slot)))
    ensures PublishedOnly(s, Play(s, t, choices), t, AddBreadcrumb(slot, crumb), CrumbStores(s, slot, crumb))
  {
    hide Next, CrumbOnly, PublishedOnly, Untouched;
    var start := [Begin(AddBreadcrumb(slot, crumb))] + ONCE;
    RegisteredStarts(s, t, slot, crumb);
    var a := Play(s, t, start);
    var middle := RingIsWritten(a, t);
    var b := Play(a, t, middle);
    RegisteredEnds(b, t);
    PlayAppends(a, t, middle, ONCE);
    PlayAppends(s, t, start, middle + ONCE);
    choices := start + (middle + ONCE);
    RingAlone(s, a, b, t, slot, crumb);
  }

  // A slot not yet registered

  lemma RegistryStarts(s: State, t: nat, slot: nat, crumb: Crumb)
    requires t < |s.threads| && s.threads[t].Returned? && Accepted(AddBreadcrumb(slot, crumb)) && s.ringCount <= slot
    ensures Play(s, t, [Begin(AddBreadcrumb(slot, crumb))] + ONCE) == SetThread(s, t, ObserveRegistry(slot, crumb))
  {
    var s1, s2 := SetThread(s, t, LoadCount(slot, crumb)), SetThread(s, t, ObserveRegistry(slot, crumb));
    PlayOne(s, t, Begin(AddBreadcrumb(slot, crumb)), ONCE);
    Overwrites(s.threads, t, s1.threads[t], s2.threads[t]);
    PlayOnce(s1, t, s2);
  }

  lemma RegistryClaims(s: State, t: nat)
    requires t < |s.threads| && s.threads[t].ObserveRegistry? && !Odd(Word(s.generation, Registry))
    ensures var p, odd := s.threads[t], Wrap(Word(s.generation, Registry) + 1);
            Play(s, t, THRICE) ==
            SetThread(Acquire(s, Registry, Word(s.generation, Registry)), t, ObserveRing(p.slot, p.crumb, s.ringCount, odd))
  {
    var p, seen := s.threads[t], Word(s.generation, Registry);
    var s1 := SetThread(s, t, ClaimRegistry(p.slot, p.crumb, seen));
    var s2 := SetThread(Acquire(s1, Registry, seen), t, ReloadCount(p.slot, p.crumb, Wrap(seen + 1)));
    var s3 := SetThread(Acquire(s, Registry, seen), t, ObserveRing(p.slot, p.crumb, s.ringCount, Wrap(seen + 1)));
    Overwrites(s.threads, t, s1.threads[t], s2.threads[t]);
    Overwrites(s.threads, t, s2.threads[t], s3.threads[t]);
    PlayThrice(s, t, s1, s2, s3);
  }

  lemma CountStores(s: State, t: nat, slot: nat, count: nat, odd: nat)
    requires t < |s.threads| && s.threads[t] == StoreCount(slot, count, odd) && odd != 0 && count <= slot
    ensures Next(s, t, Go) == SetThread(s.(ringCount := slot + 1), t, EndRegistry(odd, 0))
  {
  }

  lemma RegistryReleases(s: State, t: nat, odd: nat)
    requires t < |s.threads| && s.threads[t] == EndRegistry(odd, 0)
    ensures Next(s, t, Go) == SetThread(Release(s, Registry, odd), t, Returned(0))
  {
  }

  lemma CountThenRelease(s: State, t: nat, slot: nat, odd: nat)
    requires t < |s.threads|
    ensures SetThread(Release(SetThread(s.(ringCount := slot + 1), t, EndRegistry(odd, 0)), Registry, odd), t, Returned(0)) ==
            SetThread(Release(s.(ringCount := slot + 1), Registry, odd), t, Returned(0))
  {
    Overwrites(s.threads, t, EndRegistry(odd, 0), Returned(0));
  }

  lemma RegistryEnds(s: State, t: nat, slot: nat, count: nat, odd: nat)
    requires t < |s.threads| && s.threads[t] == StoreCount(slot, count, odd) && odd != 0 && count <= slot
    ensures Play(s, t, TWICE) == SetThread(Release(s.(ringCount := slot + 1), Registry, odd), t, Returned(0))
  {
    hide Next;
    CountStores(s, t, slot, count, odd);
    var s1 := Next(s, t, Go);
    RegistryReleases(s1, t, odd);
    CountThenRelease(s, t, slot, odd);
    PlayTwice(s, t, s1, Next(s1, t, Go));
  }

  /** The crumb published and its slot counted, both generations even again, and nothing else touched. */
  ghost predicate RegisteredAndPublished(s: State, n: State, t: nat, slot: nat, crumb: Crumb)
    requires t < |n.threads|
  {
    var u := Ring(slot);
    && n.threads[t] == Returned(0) && n.ringCount == slot + 1 && (n.heartbeat, n.ready) == (s.heartbeat, s.ready)
    && Log(n.history, u) == Log(s.history, u) + [AddBreadcrumb(slot, crumb)]
    && Cells(n.memory, u) == Cells(s.memory, u) + CrumbStores(s, slot, crumb)
    && Word(n.generation, u) == Wrap(Wrap(Word(s.generation, u) + 1) + 1)
    && Word(n.generation, Registry) == Wrap(Wrap(Word(s.generation, Registry) + 1) + 1)
    && forall v :: v != u && v != Registry ==> Untouched(s, n, v)
  }

  lemma RegistryAround(s: State, a: State, b: State, n: State, t: nat, slot: nat, crumb: Crumb)
    requires t < |s.threads| && |a.threads| == |b.threads| == |s.threads|
    requires a == Acquire(s, Registry, Word(s.generation, Registry)).(threads := a.threads)
    requires CrumbOnly(a, b, t, slot, crumb)
    requires n == SetThread(Release(b.(ringCount := slot + 1), Registry, Wrap(Word(s.generation, Registry) + 1)), t, Returned(0))
    ensures RegisteredAndPublished(s, n, t, slot, crumb)
  {
    hide Next, StoresOf;
    assert Untouched(a, b, Registry);
    forall v | v != Ring(slot) && v != Registry ensures Untouched(s, n, v) {
      assert Untouched(s, a, v) && Untouched(a, b, v) && Untouched(b, n, v);
    }
  }

  lemma PlayFour(s: State, t: nat, a: seq<Choice>, b: seq<Choice>, c: seq<Choice>, d: seq<Choice>)
    requires t < |s.threads|
    ensures Play(s, t, a + (b + (c + d))) == Play(Play(Play(Play(s, t, a), t, b), t, c), t, d)
  {
    hide Next;
    PlayAppends(s, t, a, b + (c + d));
    PlayAppends(Play(s, t, a), t, b, c + d);
    PlayAppends(Play(Play(s, t, a), t, b), t, c, d);
  }

  /** With the registry and the ring quiet, a thread alone registers its slot, publishes its crumb and returns success. */
  lemma UnregisteredCrumbPublishes(s: State, t: nat, slot: nat, crumb: Crumb) returns (choices: seq<Choice>)
    requires t < |s.threads| && s.threads[t].Returned? && Accepted(AddBreadcrumb(slot, crumb))
    requires s.ringCount <= slot && !Odd(Word(s.generation, Registry)) && !Odd(Word(s.generation, Ring(slot)))
    ensures RegisteredAndPublished(s, Play(s, t, choices), t, slot, crumb)
  {
    hide Next, CrumbOnly, RegisteredAndPublished, Untouched;
    var start := [Begin(AddBreadcrumb(slot, crumb))] + ONCE;
    RegistryStarts(s, t, slot, crumb);
    var s1 := Play(s, t, start);
    RegistryClaims(s1, t);
    var a := Play(s1, t, THRICE);
    assert Word(a.generation, Ring(slot)) == Word(s.generation, Ring(slot));
    var middle := RingIsWritten(a, t);
    var b := Play(a, t, middle);
    assert Wrap(Word(s.generation, Registry) + 1) != 0;
    RegistryEnds(b, t, slot, s.ringCount, Wrap(Word(s.generation, Registry) + 1));
    PlayFour(s, t, start, THRICE, middle, TWICE);
    choices := start + (THRICE + (middle + TWICE));
    RegistryAround(s, a, b, Play(b, t, TWICE), t, slot, crumb);
  }
}
