/** Every interleaving of producer threads keeps the invariant, and what that means for a snapshot. */
module ProducerSafety {
  import opened Wrappers
  import opened SharedRegion
  import opened Producer

  // ---- the ways a step touches a generation ---------------------------------

  function Own(tokens: map<Unit, nat>, u: Unit, odd: nat): map<Unit, nat> {
    tokens[u := odd]
  }

  lemma AcquireTokens(words: map<Unit, nat>, held: Holdings, t: nat, u: Unit, odd: nat)
    requires TokensCurrent(words, held) && t < |held| && !Odd(Word(words, u)) && Odd(odd)
    ensures TokensCurrent(words[u := odd], held[t := Own(held[t], u, odd)])
  {
    var more, owned := words[u := odd], held[t := Own(held[t], u, odd)];
    forall r, v | 0 <= r < |owned| && v in owned[r]
      ensures owned[r][v] == Word(more, v) && Odd(Word(more, v))
    {
      if v != u {
        assert v in held[r] && Word(more, v) == Word(words, v);
      }
    }
  }

  lemma AcquireOneHolder(words: map<Unit, nat>, held: Holdings, t: nat, u: Unit, odd: nat)
    requires TokensCurrent(words, held) && OneHolder(held) && t < |held| && !Odd(Word(words, u))
    ensures OneHolder(held[t := Own(held[t], u, odd)])
  {
    assert forall r :: 0 <= r < |held| ==> u !in held[r];
  }

  lemma AcquireGenerations(words: map<Unit, nat>, releases: map<Unit, nat>, held: Holdings, t: nat, u: Unit, odd: nat)
    requires GenerationsCount(words, releases, held) && t < |held| && !Odd(Word(words, u)) && odd == Word(words, u) + 1
    ensures odd < 0x1_0000_0000 && Odd(odd)
    ensures GenerationsCount(words[u := odd], releases, held[t := Own(held[t], u, odd)])
  {
    var more, owned := words[u := odd], held[t := Own(held[t], u, odd)];
    WrapOfEven(Word(words, u), Word(releases, u));
    forall v
      ensures Odd(Word(more, v)) ==> HasHolder(owned, v)
      ensures Word(more, v) == Wrap(2 * Word(releases, v) + (if Odd(Word(more, v)) then 1 else 0))
    {
      if v == u {
        assert u in owned[t];
      } else {
        assert Word(more, v) == Word(words, v);
        if HasHolder(held, v) {
          var r :| 0 <= r < |held| && v in held[r];
          assert v in owned[r];
        }
      }
    }
  }

  lemma WrapOfEven(even: nat, releases: nat)
    requires !Odd(even) && even == Wrap(2 * releases)
    ensures even + 1 < 0x1_0000_0000 && Odd(even + 1) && even + 1 == Wrap(2 * releases + 1)
  {
  }

  lemma AcquireKeepsLocks(words: map<Unit, nat>, releases: map<Unit, nat>, held: Holdings, t: nat, u: Unit)
    requires LockInv(words, releases, held) && t < |held| && !Odd(Word(words, u))
    ensures Wrap(Word(words, u) + 1) == Word(words, u) + 1
    ensures var odd: nat := Word(words, u) + 1; LockInv(words[u := odd], releases, held[t := Own(held[t], u, odd)])
  {
    var odd: nat := Word(words, u) + 1;
    AcquireGenerations(words, releases, held, t, u, odd);
    AcquireTokens(words, held, t, u, odd);
    AcquireOneHolder(words, held, t, u, odd);
  }

  lemma ReleaseKeepsLocks(words: map<Unit, nat>, releases: map<Unit, nat>, held: Holdings, t: nat, u: Unit)
    requires LockInv(words, releases, held) && t < |held| && u in held[t]
    ensures var next := Wrap(held[t][u] + 1);
            !Odd(next) && LockInv(words[u := next], releases[u := Word(releases, u) + 1], held[t := held[t] - {u}])
  {
    var next := Wrap(held[t][u] + 1);
    SuccessorOfOdd(held[t][u], Word(releases, u));
    var less := words[u := next];
    var left := held[t := held[t] - {u}];
    forall v | Odd(Word(less, v)) ensures HasHolder(left, v) {
      assert v != u && Word(less, v) == Word(words, v) && HasHolder(held, v);
      var r :| 0 <= r < |held| && v in held[r];
      assert v in left[r];
    }
    assert forall v :: v != u ==> Word(less, v) == Word(words, v);
  }

  lemma SuccessorOfOdd(odd: nat, releases: nat)
    requires Odd(odd) && odd == Wrap(2 * releases + 1)
    ensures !Odd(Wrap(odd + 1)) && Wrap(odd + 1) == Wrap(2 * (releases + 1))
  {
  }

  lemma HeldAfter(threads: seq<Thread>, t: nat, p: Thread)
    requires t < |threads|
    ensures Held(threads[t := p]) == Held(threads)[t := Tokens(p)]
  {
  }

  // ---- what a step leaves alone ---------------------------------------------

  /** Thread `t` changes a unit only while holding it, and the ring count only while holding the registry. */
  ghost predicate ActsOn(s: State, n: State, t: nat, v: Unit)
    requires t < |s.threads|
  {
    && |n.threads| == |s.threads|
    && (forall r :: 0 <= r < |s.threads| && r != t ==> n.threads[r] == s.threads[r])
    && (forall u :: u != v ==> Cells(n.memory, u) == Cells(s.memory, u) && Log(n.history, u) == Log(s.history, u))
    && (v in Tokens(s.threads[t]) || (Cells(n.memory, v) == Cells(s.memory, v) && Log(n.history, v) == Log(s.history, v)))
    && Log(s.history, v) <= Log(n.history, v)
    && s.ringCount <= n.ringCount
    && (Registry in Tokens(s.threads[t]) || n.ringCount == s.ringCount)
  }

  lemma WorkIsHeld(p: Thread)
    ensures Working(p) ==> WorkUnit(p) in Tokens(p)
    ensures Counting(p) && p.registryOdd != 0 ==> Registry in Tokens(p)
  {
  }

  lemma OthersUnaffected(s: State, n: State, t: nat, v: Unit, r: nat)
    requires Inv(s) && t < |s.threads| && r < |s.threads| && r != t && ActsOn(s, n, t, v)
    ensures ThreadInv(n, n.threads[r])
  {
    var p := s.threads[r];
    assert ThreadInv(s, p);
    WorkIsHeld(p);
    var held := Held(s.threads);
    assert forall u :: u in held[t] && u in held[r] ==> t == r;
    assert Log(s.history, v) <= Log(n.history, v);
    if Working(p) {
      assert WorkUnit(p) in held[r];
    }
  }

  lemma ThreadsKeep(s: State, n: State, t: nat, v: Unit)
    requires Inv(s) && t < |s.threads| && ActsOn(s, n, t, v) && ThreadInv(n, n.threads[t])
    ensures ThreadsInv(n)
  {
    forall r | 0 <= r < |n.threads| ensures ThreadInv(n, n.threads[r]) {
      if r != t {
        OthersUnaffected(s, n, t, v, r);
      }
    }
  }

  lemma RegistryKeeps(ringCount: nat, threads: seq<Thread>, history: map<Unit, seq<Call>>, t: nat, p: Thread)
    requires RegistryInv(ringCount, threads, history) && t < |threads|
    requires forall slot :: !Registers(threads[t], slot)
    ensures RegistryInv(ringCount, threads[t := p], history)
  {
    forall slot | 0 <= slot < MAX_THREADS && Log(history, Ring(slot)) != []
      ensures slot < ringCount || AboutToRegister(threads[t := p], slot)
    {
      if AboutToRegister(threads, slot) {
        var r :| 0 <= r < |threads| && Registers(threads[r], slot);
        assert Registers(threads[t := p][r], slot);
      }
    }
  }

  // ---- the four kinds of step ------------------------------------------------

  /** Only the thread's own position changes. */
  lemma ThreadHolds(s: State, t: nat)
    requires Inv(s) && t < |s.threads|
    ensures ThreadInv(s, s.threads[t])
  {
  }

  lemma QuietStep(s: State, t: nat, p: Thread)
    requires Inv(s) && t < |s.threads| && Tokens(p) == Tokens(s.threads[t])
    requires forall slot :: !Registers(s.threads[t], slot)
    requires ThreadInv(s, p)
    ensures Inv(SetThread(s, t, p))
  {
    var n := SetThread(s, t, p);
    HeldAfter(s.threads, t, p);
    assert Held(n.threads) == Held(s.threads);
    assert ThreadInv(n, p);
    ThreadsKeep(s, n, t, Registry);
    RegistryKeeps(s.ringCount, s.threads, s.history, t, p);
  }

  /** A call that owns nothing returns. */
  lemma ReturnStep(s: State, t: nat, code: int)
    requires Inv(s) && t < |s.threads| && Tokens(s.threads[t]) == map[] && !s.threads[t].StoreCount?
    ensures Inv(SetThread(s, t, Returned(code)))
  {
    QuietStep(s, t, Returned(code));
  }

  lemma AcquireLocks(s: State, t: nat, u: Unit, p: Thread)
    requires LockInv(s.generation, s.releases, Held(s.threads)) && t < |s.threads| && !Odd(Word(s.generation, u))
    requires Tokens(p) == Own(Tokens(s.threads[t]), u, Wrap(Word(s.generation, u) + 1))
    ensures var n := SetThread(Acquire(s, u, Word(s.generation, u)), t, p);
            LockInv(n.generation, n.releases, Held(n.threads)) && Odd(Word(n.generation, u))
  {
    AcquireKeepsLocks(s.generation, s.releases, Held(s.threads), t, u);
    HeldAfter(s.threads, t, p);
  }

  /** A successful compare-exchange. */
  lemma AcquireStep(s: State, t: nat, u: Unit, p: Thread)
    requires Inv(s) && t < |s.threads| && !Odd(Word(s.generation, u))
    requires Tokens(p) == Own(Tokens(s.threads[t]), u, Wrap(Word(s.generation, u) + 1))
    requires forall slot :: !Registers(s.threads[t], slot)
    requires ThreadInv(s, p)
    ensures Inv(SetThread(Acquire(s, u, Word(s.generation, u)), t, p))
  {
    var n := SetThread(Acquire(s, u, Word(s.generation, u)), t, p);
    AcquireLocks(s, t, u, p);
    assert ThreadsInv(n) by {
      assert ThreadInv(n, p);
      ThreadsKeep(s, n, t, Registry);
    }
    RegistryKeeps(s.ringCount, s.threads, s.history, t, p);
    assert StableUnits(n.generation, n.memory, n.history) by {
      StableAfter(s, n, u);
    }
  }

  lemma StableAfter(s: State, n: State, u: Unit)
    requires StableUnits(s.generation, s.memory, s.history)
    requires forall v :: v != u ==> Word(n.generation, v) == Word(s.generation, v)
    requires forall v :: v != u ==> Cells(n.memory, v) == Cells(s.memory, v) && Log(n.history, v) == Log(s.history, v)
    requires u == Registry || Odd(Word(n.generation, u)) || Shows(u, Cells(n.memory, u), Log(n.history, u))
    ensures StableUnits(n.generation, n.memory, n.history)
  {
  }

  lemma ReleaseLocks(s: State, t: nat, u: Unit, p: Thread)
    requires LockInv(s.generation, s.releases, Held(s.threads)) && t < |s.threads| && u in Tokens(s.threads[t])
    requires Tokens(p) == Tokens(s.threads[t]) - {u}
    ensures LockInv(s.generation[u := Wrap(Tokens(s.threads[t])[u] + 1)], s.releases[u := Word(s.releases, u) + 1],
                    Held(s.threads[t := p]))
  {
    ReleaseKeepsLocks(s.generation, s.releases, Held(s.threads), t, u);
    HeldAfter(s.threads, t, p);
  }

  /** Storing the token's successor, with or without completing a call. */
  lemma ReleaseStep(s: State, n: State, t: nat, u: Unit, p: Thread)
    requires Inv(s) && t < |s.threads| && u in Tokens(s.threads[t])
    requires n.threads == s.threads[t := p] && n.memory == s.memory && n.ringCount == s.ringCount
    requires n.generation == s.generation[u := Wrap(Tokens(s.threads[t])[u] + 1)]
    requires n.releases == s.releases[u := Word(s.releases, u) + 1]
    requires Tokens(p) == Tokens(s.threads[t]) - {u}
    requires forall v :: v != u ==> Log(n.history, v) == Log(s.history, v)
    requires Log(s.history, u) <= Log(n.history, u)
    requires u != Registry ==> Shows(u, Cells(n.memory, u), Log(n.history, u))
    requires ThreadInv(n, p) && RegistryInv(n.ringCount, n.threads, n.history)
    requires u.Screenshot? ==> |Log(n.history, u)| == |Log(s.history, u)| + 1
    ensures Inv(n)
  {
    hide Shows, ThreadInv, RegistryInv, LockInv;
    ReleaseLocks(s, t, u, p);
    assert ThreadsInv(n) by {
      ThreadsKeep(s, n, t, u);
    }
    assert StableUnits(n.generation, n.memory, n.history) by {
      StableAfter(s, n, u);
    }
    assert ScreenshotsCount(n.releases, n.history) by {
      assert forall v :: v != u ==> Word(n.releases, v) == Word(s.releases, v);
    }
  }

  /** The stores still pending, applied to the memory, are not affected by doing or tearing one of them. */
  lemma PokeCommutes(m: Memory, pending: Memory, a: Address, v: Value)
    requires a in pending
    ensures m[a := v] + pending == m + pending
    ensures v == pending[a] ==> m[a := v] + (pending - {a}) == m + pending
  {
  }

  lemma PokerKeeps(s: State, t: nat, a: Address, v: Value, p: Thread)
    requires t < |s.threads| && ThreadInv(s, s.threads[t]) && (s.threads[t].Write? || s.threads[t].WriteCrumb?)
    requires a in s.threads[t].pending
    requires p == s.threads[t] || (p == s.threads[t].(pending := s.threads[t].pending - {a}) && v == s.threads[t].pending[a])
    ensures ThreadInv(Poke(s, WorkUnit(s.threads[t]), a, v), p)
  {
    var u := WorkUnit(s.threads[t]);
    PokeCommutes(Cells(s.memory, u), s.threads[t].pending, a, v);
    assert Cells(Poke(s, u, a, v).memory, u) == Cells(s.memory, u)[a := v];
  }

  /** A pending store completes, or is torn. */
  ghost predicate Pokes(s: State, t: nat, a: Address, v: Value, p: Thread, n: State)
    requires t < |s.threads|
  {
    && (s.threads[t].Write? || s.threads[t].WriteCrumb?)
    && a in s.threads[t].pending
    && (p == s.threads[t] || (p == s.threads[t].(pending := s.threads[t].pending - {a}) && v == s.threads[t].pending[a]))
    && n == Poke(s, WorkUnit(s.threads[t]), a, v).(threads := s.threads[t := p])
  }

  lemma PokeThreads(s: State, t: nat, a: Address, v: Value, p: Thread, n: State)
    requires Inv(s) && t < |s.threads| && Pokes(s, t, a, v, p, n)
    ensures ThreadsInv(n)
  {
    var u := WorkUnit(s.threads[t]);
    WorkIsHeld(s.threads[t]);
    hide Inv;
    ThreadHolds(s, t);
    PokerKeeps(s, t, a, v, p);
    assert ThreadInv(n, p);
    ThreadsKeep(s, n, t, u);
  }

  lemma PokeStable(s: State, t: nat, a: Address, v: Value, p: Thread, n: State)
    requires Inv(s) && t < |s.threads| && Pokes(s, t, a, v, p, n)
    ensures StableUnits(n.generation, n.memory, n.history)
  {
    var u := WorkUnit(s.threads[t]);
    WorkIsHeld(s.threads[t]);
    assert Odd(Word(s.generation, u)) by {
      assert u in Held(s.threads)[t];
    }
    StableAfter(s, n, u);
  }

  lemma PokeStep(s: State, t: nat, a: Address, v: Value, p: Thread, n: State)
    requires Inv(s) && t < |s.threads| && Pokes(s, t, a, v, p, n)
    ensures Inv(n)
  {
    HeldAfter(s.threads, t, p);
    assert Tokens(p) == Tokens(s.threads[t]);
    assert Held(n.threads) == Held(s.threads);
    PokeThreads(s, t, a, v, p, n);
    RegistryKeeps(s.ringCount, s.threads, s.history, t, p);
    PokeStable(s, t, a, v, p, n);
  }

  // ---- the steps of add_breadcrumb ------------------------------------------

  lemma ClaimTokens(s: State, t: nat, u: Unit)
    requires Inv(s) && t < |s.threads| && !Odd(Word(s.generation, u))
    ensures Wrap(Word(s.generation, u) + 1) != 0 && u !in Tokens(s.threads[t])
  {
    AcquireKeepsLocks(s.generation, s.releases, Held(s.threads), t, u);
    assert u in Held(s.threads)[t] ==> Odd(Word(s.generation, u));
  }

  lemma ClaimRegistryStep(s: State, t: nat)
    requires Inv(s) && t < |s.threads| && s.threads[t].ClaimRegistry?
    ensures Inv(Advance(s, t))
  {
    if Word(s.generation, Registry) != s.threads[t].seen {
      ReturnStep(s, t, 1);
    } else {
      var p := s.threads[t];
      TakeRegistry(s, t, ReloadCount(p.slot, p.crumb, Wrap(p.seen + 1)));
    }
  }

  lemma TakeRegistry(s: State, t: nat, next: Thread)
    requires Inv(s) && t < |s.threads| && s.threads[t].ClaimRegistry? && Word(s.generation, Registry) == s.threads[t].seen
    requires var p := s.threads[t]; next == ReloadCount(p.slot, p.crumb, Wrap(p.seen + 1))
    ensures Inv(SetThread(Acquire(s, Registry, s.threads[t].seen), t, next))
  {
    var p := s.threads[t];
    hide Inv;
    ThreadHolds(s, t);
    ClaimTokens(s, t, Registry);
    assert Tokens(next) == Own(Tokens(p), Registry, Wrap(p.seen + 1));
    AcquireStep(s, t, Registry, next);
  }

  lemma ReloadCountStep(s: State, t: nat)
    requires Inv(s) && t < |s.threads| && s.threads[t].ReloadCount?
    ensures Inv(Advance(s, t))
  {
    var p := s.threads[t];
    hide Inv;
    ThreadHolds(s, t);
    QuietStep(s, t, ObserveRing(p.slot, p.crumb, s.ringCount, p.registryOdd));
  }

  lemma ObserveRingStep(s: State, t: nat)
    requires Inv(s) && t < |s.threads| && s.threads[t].ObserveRing?
    ensures Inv(Advance(s, t))
  {
    var p := s.threads[t];
    if Odd(Word(s.generation, Ring(p.slot))) {
      FailRing(s, t, AfterFailedRing(p.registryOdd));
    } else {
      SeeRing(s, t, ClaimRing(p.slot, p.crumb, p.count, p.registryOdd, Word(s.generation, Ring(p.slot))));
    }
  }

  lemma SeeRing(s: State, t: nat, next: Thread)
    requires Inv(s) && t < |s.threads| && s.threads[t].ObserveRing? && !Odd(Word(s.generation, Ring(s.threads[t].slot)))
    requires var p := s.threads[t]; next == ClaimRing(p.slot, p.crumb, p.count, p.registryOdd, Word(s.generation, Ring(p.slot)))
    ensures Inv(SetThread(s, t, next))
  {
    hide Inv;
    ThreadHolds(s, t);
    QuietStep(s, t, next);
  }

  lemma FailRing(s: State, t: nat, next: Thread)
    requires Inv(s) && t < |s.threads| && (s.threads[t].ClaimRing? || s.threads[t].ObserveRing?)
    requires next == AfterFailedRing(s.threads[t].registryOdd)
    ensures Inv(SetThread(s, t, next))
  {
    QuietStep(s, t, next);
  }

  lemma TakeRing(s: State, t: nat, next: Thread)
    requires Inv(s) && t < |s.threads| && s.threads[t].ClaimRing? && Word(s.generation, Ring(s.threads[t].slot)) == s.threads[t].seen
    requires var p := s.threads[t]; next == PrepareCrumb(p.slot, p.crumb, p.count, p.registryOdd, Wrap(p.seen + 1))
    ensures Inv(SetThread(Acquire(s, Ring(s.threads[t].slot), s.threads[t].seen), t, next))
  {
    var p := s.threads[t];
    hide Inv;
    ThreadHolds(s, t);
    AddNothing(s, Ring(p.slot));
    assert ThreadInv(s, next);
    AcquireStep(s, t, Ring(p.slot), next);
  }

  lemma AddNothing(s: State, u: Unit)
    ensures Cells(s.memory, u) + map[] == Cells(s.memory, u) && Log(s.history, u) + [] == Log(s.history, u)
  {
  }

  lemma PreparedCrumb(s: State, t: nat, next: Thread)
    requires Inv(s) && t < |s.threads| && s.threads[t].PrepareCrumb?
    requires var p := s.threads[t];
             next == WriteCrumb(p.slot, p.crumb, p.count, p.registryOdd, p.odd, StoresOf(AddBreadcrumb(p.slot, p.crumb), Cells(s.memory, Ring(p.slot))).value)
    ensures ThreadInv(s, next)
  {
    hide Inv, Shows;
    ThreadHolds(s, t);
    var p := s.threads[t];
    AddNothing(s, Ring(p.slot));
    StoresExtendHistory(Cells(s.memory, Ring(p.slot)), Log(s.history, Ring(p.slot)), AddBreadcrumb(p.slot, p.crumb));
  }

  lemma PrepareCrumbStep(s: State, t: nat)
    requires Inv(s) && t < |s.threads| && s.threads[t].PrepareCrumb?
    ensures Inv(Advance(s, t))
  {
    hide Inv, Shows, ThreadInv;
    var p := s.threads[t];
    var next := WriteCrumb(p.slot, p.crumb, p.count, p.registryOdd, p.odd, StoresOf(AddBreadcrumb(p.slot, p.crumb), Cells(s.memory, Ring(p.slot))).value);
    PreparedCrumb(s, t, next);
    QuietStep(s, t, next);
  }

  /** The state after releasing a ring that has just taken its crumb. */
  function CrumbDone(s: State, t: nat): State
    requires t < |s.threads| && s.threads[t].WriteCrumb?
  {
    var p := s.threads[t];
    SetThread(Complete(Release(s, Ring(p.slot), p.odd), Ring(p.slot), AddBreadcrumb(p.slot, p.crumb)), t,
              StoreCount(p.slot, p.count, p.registryOdd))
  }

  /** A ring that was not registered is now about to be. */
  lemma CrumbDoneRegistry(s: State, t: nat)
    requires Inv(s) && t < |s.threads| && s.threads[t].WriteCrumb?
    ensures RegistryInv(CrumbDone(s, t).ringCount, CrumbDone(s, t).threads, CrumbDone(s, t).history)
  {
    var p, n := s.threads[t], CrumbDone(s, t);
    hide Inv;
    ThreadHolds(s, t);
    RegistryKeeps(s.ringCount, s.threads, s.history, t, n.threads[t]);
    forall slot | 0 <= slot < MAX_THREADS && Log(n.history, Ring(slot)) != []
      ensures slot < n.ringCount || AboutToRegister(n.threads, slot)
    {
      if slot == p.slot {
        assert slot < n.ringCount || Registers(n.threads[t], slot);
      } else {
        assert Log(n.history, Ring(slot)) == Log(s.history, Ring(slot));
      }
    }
  }

  lemma CrumbDoneThread(s: State, t: nat)
    requires t < |s.threads| && s.threads[t].WriteCrumb? && s.threads[t].pending == map[] && ThreadInv(s, s.threads[t])
    ensures var p, n := s.threads[t], CrumbDone(s, t);
            && ThreadInv(n, n.threads[t])
            && Tokens(n.threads[t]) == Tokens(p) - {Ring(p.slot)}
            && Log(n.history, Ring(p.slot)) == Log(s.history, Ring(p.slot)) + [AddBreadcrumb(p.slot, p.crumb)]
            && Shows(Ring(p.slot), Cells(n.memory, Ring(p.slot)), Log(n.history, Ring(p.slot)))
  {
    AddNothing(s, Ring(s.threads[t].slot));
  }

  lemma CrumbDoneFrame(s: State, t: nat)
    requires t < |s.threads| && s.threads[t].WriteCrumb?
    ensures var p, n, u := s.threads[t], CrumbDone(s, t), Ring(s.threads[t].slot);
            && n.threads == s.threads[t := n.threads[t]] && n.memory == s.memory && n.ringCount == s.ringCount
            && u in Tokens(p) && n.generation == s.generation[u := Wrap(Tokens(p)[u] + 1)]
            && n.releases == s.releases[u := Word(s.releases, u) + 1]
            && forall v :: v != u ==> Log(n.history, v) == Log(s.history, v)
  {
  }

  lemma CrumbDoneThreads(s: State, t: nat)
    requires Inv(s) && t < |s.threads| && s.threads[t].WriteCrumb? && s.threads[t].pending == map[]
    ensures ThreadsInv(CrumbDone(s, t))
  {
    var n, u := CrumbDone(s, t), Ring(s.threads[t].slot);
    hide Inv;
    ThreadHolds(s, t);
    CrumbDoneThread(s, t);
    CrumbDoneFrame(s, t);
    assert ActsOn(s, n, t, u);
    ThreadsKeep(s, n, t, u);
  }

  lemma CrumbDoneUnits(s: State, t: nat)
    requires Inv(s) && t < |s.threads| && s.threads[t].WriteCrumb? && s.threads[t].pending == map[]
    ensures var n := CrumbDone(s, t);
            StableUnits(n.generation, n.memory, n.history) && ScreenshotsCount(n.releases, n.history)
  {
    var n := CrumbDone(s, t);
    hide Inv;
    ThreadHolds(s, t);
    CrumbDoneThread(s, t);
    CrumbDoneFrame(s, t);
    StableAfter(s, n, Ring(s.threads[t].slot));
  }

  lemma CrumbDoneKeepsInv(s: State, t: nat)
    requires Inv(s) && t < |s.threads| && s.threads[t].WriteCrumb? && s.threads[t].pending == map[]
    ensures Inv(CrumbDone(s, t))
  {
    CrumbDoneRegistry(s, t);
    CrumbDoneThreads(s, t);
    CrumbDoneUnits(s, t);
    CrumbDoneLocks(s, t);
  }

  lemma CrumbDoneLocks(s: State, t: nat)
    requires LockInv(s.generation, s.releases, Held(s.threads)) && t < |s.threads| && s.threads[t].WriteCrumb?
    ensures LockInv(CrumbDone(s, t).generation, CrumbDone(s, t).releases, Held(CrumbDone(s, t).threads))
  {
    hide LockInv;
    var next := CrumbDone(s, t).threads[t];
    assert Tokens(next) == Tokens(s.threads[t]) - {Ring(s.threads[t].slot)};
    ReleaseLocks(s, t, Ring(s.threads[t].slot), next);
  }

  lemma StoreCountKnows(s: State, t: nat)
    requires Inv(s) && t < |s.threads| && s.threads[t].StoreCount?
    ensures s.threads[t].count <= s.threads[t].slot ==> Registers(s.threads[t], s.threads[t].slot)
  {
    hide Inv;
    ThreadHolds(s, t);
  }

  lemma PassCount(s: State, t: nat, next: Thread)
    requires Inv(s) && t < |s.threads| && s.threads[t].StoreCount? && s.threads[t].count > s.threads[t].slot
    requires next == if s.threads[t].registryOdd != 0 then EndRegistry(s.threads[t].registryOdd, 0) else Returned(0)
    ensures Inv(SetThread(s, t, next))
  {
    QuietStep(s, t, next);
  }

  lemma RegisteredThreads(s: State, t: nat, n: State)
    requires Inv(s) && t < |s.threads| && s.threads[t].StoreCount? && Registers(s.threads[t], s.threads[t].slot)
    requires n == SetThread(s.(ringCount := s.threads[t].slot + 1), t, EndRegistry(s.threads[t].registryOdd, 0))
    ensures ThreadsInv(n)
  {
    hide Inv;
    ThreadHolds(s, t);
    assert ActsOn(s, n, t, Registry);
    ThreadsKeep(s, n, t, Registry);
  }

  /** Storing `slot + 1` raises the ring count, because the registry has been held since it was loaded. */
  lemma RegisteredKeepsInv(s: State, t: nat, next: Thread)
    requires Inv(s) && t < |s.threads| && s.threads[t].StoreCount? && Registers(s.threads[t], s.threads[t].slot)
    requires next == EndRegistry(s.threads[t].registryOdd, 0)
    ensures Inv(SetThread(s.(ringCount := s.threads[t].slot + 1), t, next))
  {
    var n := SetThread(s.(ringCount := s.threads[t].slot + 1), t, next);
    HeldAfter(s.threads, t, next);
    assert Tokens(next) == Tokens(s.threads[t]);
    assert Held(n.threads) == Held(s.threads);
    RegisteredThreads(s, t, n);
    RegisterKeepsRegistry(s, t, next);
  }

  lemma RegisterKeepsRegistry(s: State, t: nat, next: Thread)
    requires Inv(s) && t < |s.threads| && s.threads[t].StoreCount? && Registers(s.threads[t], s.threads[t].slot)
    ensures RegistryInv(s.threads[t].slot + 1, s.threads[t := next], s.history)
  {
    var own := s.threads[t].slot;
    hide Inv;
    ThreadHolds(s, t);
    forall slot | 0 <= slot < MAX_THREADS && Log(s.history, Ring(slot)) != [] ensures slot < own + 1 {
      OnlyOneRegisters(s, t, own, slot);
    }
  }

  lemma OnlyOneRegisters(s: State, t: nat, own: nat, slot: nat)
    requires Inv(s) && t < |s.threads| && Registers(s.threads[t], own)
    ensures AboutToRegister(s.threads, slot) ==> slot == own
  {
    if AboutToRegister(s.threads, slot) {
      var r :| 0 <= r < |s.threads| && Registers(s.threads[r], slot);
      var held := Held(s.threads);
      assert Registry in held[r] && Registry in held[t];
    }
  }

  lemma EndRegistryStep(s: State, t: nat)
    requires Inv(s) && t < |s.threads| && s.threads[t].EndRegistry?
    ensures Inv(Advance(s, t))
  {
    var p, n := s.threads[t], Advance(s, t);
    hide Inv;
    ThreadHolds(s, t);
    RegistryKeeps(s.ringCount, s.threads, s.history, t, Returned(p.code));
    ReleaseStep(s, n, t, Registry, Returned(p.code));
  }

  // ---- the steps of the single-unit calls ------------------------------------

  lemma TakeUnit(s: State, t: nat, next: Thread)
    requires Inv(s) && t < |s.threads| && s.threads[t].Claim?
    requires Word(s.generation, UnitOf(s.threads[t].call)) == s.threads[t].seen
    requires next == Prepare(s.threads[t].call, Wrap(s.threads[t].seen + 1))
    ensures Inv(SetThread(Acquire(s, UnitOf(s.threads[t].call), s.threads[t].seen), t, next))
  {
    var u := UnitOf(s.threads[t].call);
    hide Inv;
    ThreadHolds(s, t);
    AddNothing(s, u);
    assert ThreadInv(s, next);
    AcquireStep(s, t, u, next);
  }

  lemma PrepareStep(s: State, t: nat)
    requires Inv(s) && t < |s.threads| && s.threads[t].Prepare?
    ensures Inv(Advance(s, t))
  {
    var p := s.threads[t];
    PreparedThread(s, t);
    if StoresOf(p.call, Cells(s.memory, UnitOf(p.call))).Some? {
      QuietStep(s, t, Write(p.call, p.odd, StoresOf(p.call, Cells(s.memory, UnitOf(p.call))).value));
    } else {
      QuietStep(s, t, Refuse(p.call, p.odd));
    }
  }

  lemma PreparedThread(s: State, t: nat)
    requires Inv(s) && t < |s.threads| && s.threads[t].Prepare?
    ensures var p := s.threads[t];
            var stores := StoresOf(p.call, Cells(s.memory, UnitOf(p.call)));
            ThreadInv(s, if stores.Some? then Write(p.call, p.odd, stores.value) else Refuse(p.call, p.odd))
  {
    var p := s.threads[t];
    hide Inv;
    ThreadHolds(s, t);
    var u := UnitOf(p.call);
    AddNothing(s, u);
    if StoresOf(p.call, Cells(s.memory, u)).Some? {
      StoresExtendHistory(Cells(s.memory, u), Log(s.history, u), p.call);
    }
  }

  function WriteDone(s: State, t: nat): State
    requires t < |s.threads| && s.threads[t].Write?
  {
    var p := s.threads[t];
    SetThread(Complete(Release(s, UnitOf(p.call), p.odd), UnitOf(p.call), p.call), t, Returned(0))
  }

  lemma WriteDoneRegistry(s: State, t: nat)
    requires Inv(s) && t < |s.threads| && s.threads[t].Write?
    ensures RegistryInv(WriteDone(s, t).ringCount, WriteDone(s, t).threads, WriteDone(s, t).history)
  {
    var n := WriteDone(s, t);
    hide Inv;
    ThreadHolds(s, t);
    RegistryKeeps(s.ringCount, s.threads, s.history, t, Returned(0));
    assert forall slot :: Log(n.history, Ring(slot)) == Log(s.history, Ring(slot));
  }

  /** Released, the unit shows its history with the call added. */
  lemma WriteDoneShows(s: State, t: nat)
    requires Inv(s) && t < |s.threads| && s.threads[t].Write? && s.threads[t].pending == map[]
    ensures var u, n := UnitOf(s.threads[t].call), WriteDone(s, t);
            && Log(n.history, u) == Log(s.history, u) + [s.threads[t].call]
            && Shows(u, Cells(n.memory, u), Log(n.history, u)) && ThreadInv(n, Returned(0))
  {
    hide Inv, Shows, RegistryInv;
    ThreadHolds(s, t);
    AddNothing(s, UnitOf(s.threads[t].call));
  }

  lemma WriteDoneKeepsInv(s: State, t: nat)
    requires Inv(s) && t < |s.threads| && s.threads[t].Write? && s.threads[t].pending == map[]
    ensures Inv(WriteDone(s, t))
  {
    hide Inv, Shows, RegistryInv, ThreadInv;
    var p, n := s.threads[t], WriteDone(s, t);
    WriteDoneRegistry(s, t);
    WriteDoneShows(s, t);
    ReleaseStep(s, n, t, UnitOf(p.call), Returned(0));
  }

  lemma RefuseStep(s: State, t: nat)
    requires Inv(s) && t < |s.threads| && s.threads[t].Refuse?
    ensures Inv(Advance(s, t))
  {
    var p, n := s.threads[t], Advance(s, t);
    hide Inv;
    ThreadHolds(s, t);
    AddNothing(s, UnitOf(p.call));
    RegistryKeeps(s.ringCount, s.threads, s.history, t, Returned(-1));
    ReleaseStep(s, n, t, UnitOf(p.call), Returned(-1));
  }

  // ---- every step ------------------------------------------------------------

  /** Loads that claim nothing. */
  lemma LookStep(s: State, t: nat)
    requires Inv(s) && t < |s.threads|
    requires s.threads[t].LoadCount? || s.threads[t].ObserveRegistry? || s.threads[t].Observe?
    ensures Inv(Advance(s, t))
  {
    hide Inv;
    ThreadHolds(s, t);
    QuietStep(s, t, Position(s, s.threads[t]));
  }

  lemma StoreReadyStep(s: State, t: nat)
    requires Inv(s) && t < |s.threads| && s.threads[t].StoreReady?
    ensures Inv(Advance(s, t))
  {
    OtherWordsKeepInv(s, s.heartbeat, 1);
    ReturnStep(s.(ready := 1), t, 0);
  }

  lemma StayStep(s: State, t: nat)
    requires Inv(s) && t < |s.threads| && (s.threads[t].Returned? || Pending(s.threads[t]) != map[])
    ensures Inv(Advance(s, t))
  {
    assert s.threads[t := s.threads[t]] == s.threads;
    assert Advance(s, t) == s;
  }

  predicate Adding(p: Thread) {
    p.LoadCount? || p.ObserveRegistry? || p.ClaimRegistry? || p.ReloadCount? || p.ObserveRing? || p.ClaimRing?
    || p.PrepareCrumb? || p.WriteCrumb? || p.StoreCount? || p.EndRegistry?
  }

  lemma AddingKeepsInv(s: State, t: nat)
    requires Inv(s) && t < |s.threads| && Adding(s.threads[t])
    ensures Inv(Advance(s, t))
  {
    hide Inv, ThreadInv;
    match s.threads[t]
    case LoadCount(_, _) => LookStep(s, t);
    case ObserveRegistry(_, _) => LookStep(s, t);
    case ClaimRegistry(_, _, _) => ClaimRegistryStep(s, t);
    case ReloadCount(_, _, _) => ReloadCountStep(s, t);
    case ObserveRing(_, _, _, _) => ObserveRingStep(s, t);
    case ClaimRing(slot, crumb, count, registryOdd, seen) =>
      if Word(s.generation, Ring(slot)) != seen {
        FailRing(s, t, AfterFailedRing(registryOdd));
      } else {
        TakeRing(s, t, PrepareCrumb(slot, crumb, count, registryOdd, Wrap(seen + 1)));
      }
    case PrepareCrumb(_, _, _, _, _) => PrepareCrumbStep(s, t);
    case WriteCrumb(_, _, _, _, _, pending) => if pending == map[] { CrumbDoneKeepsInv(s, t); } else { StayStep(s, t); }
    case StoreCount(slot, count, registryOdd) =>
      StoreCountKnows(s, t);
      if count <= slot {
        RegisteredKeepsInv(s, t, EndRegistry(registryOdd, 0));
      } else {
        PassCount(s, t, if registryOdd != 0 then EndRegistry(registryOdd, 0) else Returned(0));
      }
    case EndRegistry(_, _) => EndRegistryStep(s, t);
  }

  lemma AdvanceKeepsInv(s: State, t: nat)
    requires Inv(s) && t < |s.threads|
    ensures Inv(Advance(s, t))
  {
    if Adding(s.threads[t]) {
      AddingKeepsInv(s, t);
    } else {
      match s.threads[t]
      case Returned(_) => StayStep(s, t);
      case Observe(_) => LookStep(s, t);
      case Claim(call, seen) =>
        if Word(s.generation, UnitOf(call)) != seen {
          ReturnStep(s, t, 1);
        } else {
          TakeUnit(s, t, Prepare(call, Wrap(seen + 1)));
        }
      case Prepare(_, _) => PrepareStep(s, t);
      case Write(_, _, pending) => if pending == map[] { WriteDoneKeepsInv(s, t); } else { StayStep(s, t); }
      case Refuse(_, _) => RefuseStep(s, t);
      case StoreReady => StoreReadyStep(s, t);
    }
  }

  /** The heartbeat and the ready flag belong to no publication unit. */
  lemma OtherWordsKeepInv(s: State, heartbeat: nat, ready: nat)
    requires Inv(s)
    ensures Inv(s.(heartbeat := heartbeat, ready := ready))
  {
    var n := s.(heartbeat := heartbeat, ready := ready);
    forall t | 0 <= t < |n.threads| ensures ThreadInv(n, n.threads[t]) {
      assert ThreadInv(s, s.threads[t]);
    }
  }

  lemma StoreKeepsInv(s: State, t: nat, a: Address)
    requires Inv(s) && t < |s.threads| && (s.threads[t].Write? || s.threads[t].WriteCrumb?) && a in s.threads[t].pending
    ensures Inv(Next(s, t, Store(a)))
  {
    var p := s.threads[t];
    PokeStep(s, t, a, p.pending[a], p.(pending := p.pending - {a}), Next(s, t, Store(a)));
  }

  lemma TearKeepsInv(s: State, t: nat, a: Address, junk: Value)
    requires Inv(s) && t < |s.threads| && (s.threads[t].Write? || s.threads[t].WriteCrumb?) && a in s.threads[t].pending
    ensures Inv(Poke(s, WorkUnit(s.threads[t]), a, junk))
  {
    assert s.threads[t := s.threads[t]] == s.threads;
    PokeStep(s, t, a, junk, s.threads[t], Poke(s, WorkUnit(s.threads[t]), a, junk));
  }

  /** Every step of every thread keeps the invariant. */
  lemma NextKeepsInv(s: State, t: nat, c: Choice)
    requires Inv(s) && t < |s.threads|
    ensures Inv(Next(s, t, c))
  {
    var p := s.threads[t];
    var beaten := (s.heartbeat + 1) % U64;
    match c
    case Begin(call) => if p.Returned? { QuietStep(s, t, Start(call)); }
    case Beat => OtherWordsKeepInv(s, beaten, s.ready);
    case BeginReady =>
      if p.Returned? {
        OtherWordsKeepInv(s, beaten, s.ready);
        QuietStep(s.(heartbeat := beaten), t, StoreReady);
      }
    case Go => AdvanceKeepsInv(s, t);
    case Store(a) => if (p.Write? || p.WriteCrumb?) && a in p.pending { StoreKeepsInv(s, t, a); }
    case Tear(a, junk) => if (p.Write? || p.WriteCrumb?) && a in p.pending { TearKeepsInv(s, t, a, junk); }
  }

  lemma InitialInv(s: State)
    requires Initial(s)
    ensures Inv(s)
  {
    forall u ensures Shows(u, Cells(s.memory, u), Log(s.history, u)) {
      ZeroedShowsNothing(u);
    }
  }

  lemma {:induction false} ReachableInv(s: State, events: seq<Event>)
    requires Initial(s)
    ensures Inv(Run(s, events))
  {
    if events == [] {
      InitialInv(s);
    } else {
      var before := Run(s, events[..|events| - 1]);
      var e := events[|events| - 1];
      ReachableInv(s, events[..|events| - 1]);
      if e.thread < |before.threads| {
        NextKeepsInv(before, e.thread, e.choice);
      }
    }
  }

  // ---- what a snapshot of the region shows -----------------------------------

  /**
    At every point where the target could be suspended: a unit with an even
    generation shows exactly its completed publications, and a unit with an odd
    generation has exactly one holder, whose token is that generation.
  */
  lemma SnapshotIsUntorn(s: State, events: seq<Event>, u: Unit)
    requires Initial(s)
    ensures var n := Run(s, events);
            && (u != Registry && !Odd(Word(n.generation, u)) ==> Shows(u, Cells(n.memory, u), Log(n.history, u)))
            && (Odd(Word(n.generation, u)) ==>
                  exists t :: 0 <= t < |n.threads| && SoleHolder(n, t, u) && Tokens(n.threads[t])[u] == Word(n.generation, u))
  {
    ReachableInv(s, events);
    var n := Run(s, events);
    if Odd(Word(n.generation, u)) {
      var held := Held(n.threads);
      assert HasHolder(held, u);
      var t :| 0 <= t < |held| && u in held[t];
      assert SoleHolder(n, t, u);
    }
  }

  ghost predicate SoleHolder(s: State, t: nat, u: Unit)
    requires t < |s.threads|
  {
    u in Tokens(s.threads[t]) && forall r :: 0 <= r < |s.threads| && u in Tokens(s.threads[r]) ==> r == t
  }

  lemma EvenRegistryHasNoPending(s: State, slot: nat)
    requires Inv(s) && !Odd(Word(s.generation, Registry))
    ensures !AboutToRegister(s.threads, slot)
  {
    forall t | 0 <= t < |s.threads| ensures !Registers(s.threads[t], slot) {
      assert Registry in Held(s.threads)[t] ==> Odd(Word(s.generation, Registry));
    }
  }

  /** Which rings a reader of the registry may trust. */
  ghost predicate RegistryConsistent(s: State) {
    && s.ringCount <= MAX_THREADS
    && (s.ringCount > 0 ==> Log(s.history, Ring(s.ringCount - 1)) != [])
    && (!Odd(Word(s.generation, Registry)) ==>
          forall slot :: 0 <= slot < MAX_THREADS && Log(s.history, Ring(slot)) != [] ==> slot < s.ringCount)
  }

  lemma InvMakesRegistryConsistent(s: State)
    requires Inv(s)
    ensures RegistryConsistent(s)
  {
    if !Odd(Word(s.generation, Registry)) {
      forall slot | 0 <= slot < MAX_THREADS && Log(s.history, Ring(slot)) != [] ensures slot < s.ringCount {
        EvenRegistryHasNoPending(s, slot);
      }
    }
  }

  /** While the registry is even, the registered rings are bounded by the last one that holds a crumb. */
  lemma EvenRegistryIsConsistent(s: State, events: seq<Event>)
    requires Initial(s)
    ensures RegistryConsistent(Run(s, events))
  {
    ReachableInv(s, events);
    InvMakesRegistryConsistent(Run(s, events));
  }

  /** Calls own nothing once they have returned: when every call has, no unit is left claimed. */
  lemma ReturnedCallsOwnNothing(s: State, events: seq<Event>, u: Unit)
    requires Initial(s)
    requires forall t :: 0 <= t < |Run(s, events).threads| ==> Run(s, events).threads[t].Returned?
    ensures !Odd(Word(Run(s, events).generation, u))
  {
    ReachableInv(s, events);
    var held := Held(Run(s, events).threads);
    assert Odd(Word(Run(s, events).generation, u)) ==> HasHolder(held, u);
  }

  /** A later state: no lower ring count, no completed publication taken back. */
  ghost predicate Grown(s: State, n: State) {
    s.ringCount <= n.ringCount && forall u :: Log(s.history, u) <= Log(n.history, u)
  }

  lemma EffectOnlyGrows(s: State, p: Thread)
    requires CountKnown(s.ringCount, p)
    ensures Grown(s, Effect(s, p))
  {
    var n := Effect(s, p);
    forall u ensures Log(s.history, u) <= Log(n.history, u) {
      assert p.WriteCrumb? || p.Write? || n.history == s.history;
    }
  }

  lemma NextOnlyGrows(s: State, t: nat, c: Choice)
    requires t < |s.threads| && CountKnown(s.ringCount, s.threads[t])
    ensures Grown(s, Next(s, t, c))
  {
    if c.Go? {
      EffectOnlyGrows(s, s.threads[t]);
    }
  }

  lemma StepOnlyGrows(s: State, t: nat, c: Choice)
    requires Inv(s) && t < |s.threads|
    ensures Grown(s, Next(s, t, c))
  {
    hide Inv;
    ThreadHolds(s, t);
    NextOnlyGrows(s, t, c);
  }

  /** Over any run the ring count never decreases and histories are only appended to. */
  lemma {:induction false} RunOnlyGrows(s: State, events: seq<Event>, more: seq<Event>)
    requires Initial(s)
    ensures Grown(Run(s, events), Run(s, events + more))
  {
    if more == [] {
      assert events + more == events;
    } else {
      var all, shorter := events + more, events + more[..|more| - 1];
      assert all[..|all| - 1] == shorter;
      RunOnlyGrows(s, events, more[..|more| - 1]);
      ReachableInv(s, shorter);
      LastEventOnlyGrows(s, all);
    }
  }

  lemma LastEventOnlyGrows(s: State, all: seq<Event>)
    requires all != [] && Inv(Run(s, all[..|all| - 1]))
    ensures Grown(Run(s, all[..|all| - 1]), Run(s, all))
  {
    var before, e := Run(s, all[..|all| - 1]), all[|all| - 1];
    if e.thread < |before.threads| {
      StepOnlyGrows(before, e.thread, e.choice);
    }
  }

  /**
    A published screenshot slot reads as unpublished exactly when its
    publications are a multiple of 2^31, where its generation wraps to zero.
  */
  lemma ScreenshotReadsUnpublished(s: State, events: seq<Event>, slot: nat)
    requires Initial(s) && !Odd(Word(Run(s, events).generation, Screenshot(slot)))
    ensures Word(Run(s, events).generation, Screenshot(slot)) == 0 <==>
            |Log(Run(s, events).history, Screenshot(slot))| % 0x8000_0000 == 0
  {
    ReachableInv(s, events);
    var n, u := Run(s, events), Screenshot(slot);
    var k := Word(n.releases, u);
    assert k == |Log(n.history, u)|;
    assert Word(n.generation, u) == Wrap(2 * k);
    HalvedModulus(k);
  }

  lemma HalvedModulus(k: nat)
    ensures Wrap(2 * k) == 0 <==> k % 0x8000_0000 == 0
  {
    var q, r := k / 0x8000_0000, k % 0x8000_0000;
    assert 2 * k == 0x1_0000_0000 * q + 2 * r;
  }

  /** Accesses a call still has to make, at most. */
  function Remaining(p: Thread): nat {
    match p
    case Returned(_) => 0
    case LoadCount(_, _) => 14
    case ObserveRegistry(_, _) => 13
    case ClaimRegistry(_, _, _) => 12
    case ReloadCount(_, _, _) => 11
    case ObserveRing(_, _, _, _) => 10
    case ClaimRing(_, _, _, _, _) => 9
    case PrepareCrumb(_, _, _, _, _) => 8
    case WriteCrumb(_, _, _, _, _, pending) => 3 + |pending|
    case StoreCount(_, _, _) => 2
    case EndRegistry(_, _) => 1
    case Observe(_) => 8
    case Claim(_, _) => 7
    case Prepare(_, _) => 6
    case Write(_, _, pending) => 1 + |pending|
    case Refuse(_, _) => 1
    case StoreReady => 1
  }

  lemma StoresAreFew(call: Call, m: Memory)
    ensures StoresOf(call, m).Some? ==> |StoresOf(call, m).value| <= if call.AddBreadcrumb? then 4 else 3
  {
    if StoresOf(call, m).Some? {
      var stores := StoresOf(call, m).value;
      match call
      case AddBreadcrumb(_, _) =>
        assert stores.Keys == {CrumbAt(Slot(Number(m, WriteIdx))), SharedRegion.ThreadId, WriteIdx, SharedRegion.Count};
      case PublishScreenshot(_, _, _, _) =>
        assert stores.Keys == {Pixels, SharedRegion.Timestamp, SharedRegion.Tier};
      case SetExtension(_, _) =>
        assert stores.Keys == {SchemaVersion, EntryCount, EntryAt(Number(m, EntryCount))};
      case _ =>
        assert stores.Keys == {EntryCount, EntryAt(Number(m, EntryCount))};
    }
  }

  lemma PositionMakesProgress(s: State, p: Thread)
    requires !p.Returned? && Pending(p) == map[]
    ensures Remaining(Position(s, p)) < Remaining(p)
  {
    if p.PrepareCrumb? {
      StoresAreFew(AddBreadcrumb(p.slot, p.crumb), Cells(s.memory, Ring(p.slot)));
    } else if p.Prepare? {
      StoresAreFew(p.call, Cells(s.memory, UnitOf(p.call)));
    }
  }

  lemma StoreMakesProgress(p: Thread, a: Address)
    requires (p.Write? || p.WriteCrumb?) && a in p.pending
    ensures Remaining(p.(pending := p.pending - {a})) < Remaining(p)
  {
    assert (p.pending - {a}).Keys == p.pending.Keys - {a};
  }

  /** No call waits or spins: each of its own accesses shortens it; the other threads cannot lengthen it. */
  lemma OwnAccessShortens(s: State, t: nat, c: Choice)
    requires t < |s.threads| && !s.threads[t].Returned?
    requires if Pending(s.threads[t]) == map[] then c == Go else c.Store? && c.address in Pending(s.threads[t])
    ensures Remaining(Next(s, t, c).threads[t]) < Remaining(s.threads[t])
  {
    if c.Go? {
      assert Next(s, t, c).threads[t] == Position(s, s.threads[t]);
      PositionMakesProgress(s, s.threads[t]);
    } else {
      StoreMakesProgress(s.threads[t], c.address);
    }
  }
}
