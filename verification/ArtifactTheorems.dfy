/**
  The promises of an artifact transaction over whole runs
  (src/pipeline/artifact.rs), for any number of reports, threads and passes.
*/
module ArtifactTheorems {
  import opened Wrappers
  import opened ArtifactPaths
  import opened ArtifactStore
  import opened ArtifactSafety

  lemma {:induction false} RunKeepsInv(e: Env, s: State, steps: seq<Step>)
    requires WellFormed(e.root) && Inv(e, s) && Run(e, s, steps).Some?
    ensures Inv(e, Run(e, s, steps).value)
    decreases |steps|
  {
    if steps != [] {
      NextKeepsInv(e, s, steps[0]);
      RunKeepsInv(e, Next(e, s, steps[0]).value, steps[1..]);
    }
  }

  // One report

  /**
    Whatever crashes, passes and outside writers do, a published report holds a manifest of its own
    identity that lists exactly its other files at their sizes; it is published in one place, and its
    staging directory is gone.
  */
  lemma PublishedReportsAreComplete(e: Env, steps: seq<Step>, at: Path)
    requires WellFormed(e.root) && Run(e, INITIAL, steps).Some?
    requires at in Run(e, INITIAL, steps).value.published
    ensures var s := Run(e, INITIAL, steps).value;
            Sound(e, s.published[at]) && s.published.Keys == {at} && s.staging.None?
  {
    InitialHolds(e);
    RunKeepsInv(e, INITIAL, steps);
  }

  lemma InitialHolds(e: Env)
    ensures Inv(e, INITIAL)
  {
    assert forall t :: At(INITIAL.threads, t).Idle?;
  }

  /** The same files with the same contents; only the manifest's final diagnostics may differ. */
  predicate SameReport(dir: Dir, other: Dir) {
    && dir.Keys == other.Keys
    && (forall n :: n in dir && n != MANIFEST_FILE_NAME ==> dir[n] == other[n])
    && MANIFEST_FILE_NAME in dir
    && dir[MANIFEST_FILE_NAME].manifest.Some? && other[MANIFEST_FILE_NAME].manifest.Some?
    && SameButDiagnostics(dir[MANIFEST_FILE_NAME].manifest.value, other[MANIFEST_FILE_NAME].manifest.value)
  }

  ghost predicate NothingReplaced(s: State, after: State) {
    && (forall p :: p in s.published ==> p in after.published && SameReport(s.published[p], after.published[p]))
    && (forall p :: p in s.occupied && p !in s.published ==> p in after.occupied && p !in after.published)
  }

  lemma AmendReplacesNothing(e: Env, s: State, t: nat, act: AmendAct)
    requires Inv(e, s) && Amend(e, s, t, act).Some?
    ensures NothingReplaced(s, Amend(e, s, t, act).value)
  {
    var after := Amend(e, s, t, act).value;
    assert AmendHolds(s.published, At(s.threads, t));
    forall p | p in s.published
      ensures p in after.published && SameReport(s.published[p], after.published[p])
    {
      assert Sound(e, s.published[p]);
    }
  }

  lemma PublishReplacesNothing(e: Env, s: State, t: nat, act: PlaceAct)
    requires Inv(e, s) && Place(s, t, act).Some?
    ensures NothingReplaced(s, Place(s, t, act).value)
  {
    assert forall p :: p in s.published ==> Sound(e, s.published[p]);
  }

  lemma PassReplacesNothing(e: Env, s: State, a: nat, deed: Deed)
    requires Inv(e, s) && PassNext(e, s, a, deed).Some?
    ensures NothingReplaced(s, PassNext(e, s, a, deed).value)
  {
    assert forall p :: p in s.published ==> Sound(e, s.published[p]);
  }

  lemma OtherStepsLeavePublished(e: Env, s: State, step: Step)
    requires !step.Pass? && (step.Thread? ==> !step.act.Places? && !step.act.Amends?) && Next(e, s, step).Some?
    ensures Next(e, s, step).value.published == s.published
    ensures s.occupied <= Next(e, s, step).value.occupied
  {
  }

  lemma UnchangedReplacesNothing(e: Env, s: State, after: State)
    requires Inv(e, s) && after.published == s.published && s.occupied <= after.occupied
    ensures NothingReplaced(s, after)
  {
    assert forall p :: p in s.published ==> Sound(e, s.published[p]);
  }

  lemma StepReplacesNothing(e: Env, s: State, step: Step)
    requires Inv(e, s) && Next(e, s, step).Some?
    ensures NothingReplaced(s, Next(e, s, step).value)
  {
    if step.Pass? {
      PassReplacesNothing(e, s, step.a, step.deed);
    } else if step.Thread? && step.act.Places? {
      PublishReplacesNothing(e, s, step.t, step.act.place);
    } else if step.Thread? && step.act.Amends? {
      AmendReplacesNothing(e, s, step.t, step.act.amend);
    } else {
      OtherStepsLeavePublished(e, s, step);
      UnchangedReplacesNothing(e, s, Next(e, s, step).value);
    }
  }

  /** No step of any run replaces an existing destination, whoever put it there. */
  lemma {:induction false} RunReplacesNothing(e: Env, s: State, steps: seq<Step>)
    requires WellFormed(e.root) && Inv(e, s) && Run(e, s, steps).Some?
    ensures NothingReplaced(s, Run(e, s, steps).value)
    decreases |steps|
  {
    if steps != [] {
      var next := Next(e, s, steps[0]).value;
      StepReplacesNothing(e, s, steps[0]);
      NextKeepsInv(e, s, steps[0]);
      RunReplacesNothing(e, next, steps[1..]);
    }
  }

  // Threads sharing a transaction

  function Rank(phase: Phase): nat {
    match phase
    case Open => 0
    case Preparing => 1
    case Prepared => 2
    case Committed => 3
  }

  predicate HasPlan(p: Position) {
    p.Built? || p.ManifestTmp? || p.ManifestWritten? || p.ManifestPlaced? || p.Ready? || p.Validated?
  }

  /**
    At most one thread is inside the transaction, at most one operation is active, at most one commit
    has returned a report, and a committing thread's manifest lists exactly the registry.
  */
  lemma OneThreadAtATime(e: Env, steps: seq<Step>, t: nat, u: nat)
    requires WellFormed(e.root) && Run(e, INITIAL, steps).Some?
    ensures var s := Run(e, INITIAL, steps).value;
            && (Engaged(At(s.threads, t)) && Engaged(At(s.threads, u)) ==> t == u)
            && (s.core.Some? ==> s.core.value.active <= 1)
            && s.commits <= 1
            && (HasPlan(At(s.threads, t)) ==>
                  && s.core.Some?
                  && Names(At(s.threads, t).plan.manifest) == s.core.value.artifacts.Keys
                  && KindsHold(At(s.threads, t).plan.manifest, s.core.value.artifacts))
  {
    InitialHolds(e);
    RunKeepsInv(e, INITIAL, steps);
    var s := Run(e, INITIAL, steps).value;
    assert Local(e, s.core, s.staging, s.seal, s.lock, At(s.threads, t));
  }

  /** No transaction, and none still to come. */
  ghost predicate Gone(s: State) {
    s.begun && s.core.None? && forall t :: !At(s.threads, t).Creating?
  }

  /** The phase has not gone back, and a sealed registry and destination are unchanged. */
  predicate CoreAdvances(core: Core, after: Core) {
    && Rank(core.phase) <= Rank(after.phase)
    && (!core.phase.Open? ==> after.artifacts == core.artifacts && after.destination == core.destination)
  }

  lemma NobodyCreates(e: Env, s: State, t: nat, act: Act)
    requires s.begun && ThreadNext(e, s, t, act).Some?
    ensures !At(ThreadNext(e, s, t, act).value.threads, t).Creating?
  {
  }

  lemma OperateAdvances(e: Env, s: State, t: nat, act: OperateAct)
    requires Inv(e, s) && Operate(e, s, t, act).Some?
    ensures CoreAdvances(s.core.value, Operate(e, s, t, act).value.core.value)
  {
    assert Local(e, s.core, s.staging, s.seal, s.lock, At(s.threads, t));
  }

  lemma CommitAdvances(e: Env, s: State, t: nat, act: CommitAct)
    requires Inv(e, s) && Commit(e, s, t, act).Some?
    ensures CoreAdvances(s.core.value, Commit(e, s, t, act).value.core.value)
  {
    assert Local(e, s.core, s.staging, s.seal, s.lock, At(s.threads, t));
  }

  /** Only taking the owner lock makes a transaction; only operations and commits change one. */
  lemma ThreadAdvances(e: Env, s: State, t: nat, act: Act)
    requires Inv(e, s) && ThreadNext(e, s, t, act).Some? && !At(s.threads, t).Creating?
    ensures var after := ThreadNext(e, s, t, act).value;
            after.core.Some? ==> s.core.Some? && CoreAdvances(s.core.value, after.core.value)
  {
    if act.Operates? {
      OperateAdvances(e, s, t, act.operate);
    } else if act.Commits? {
      CommitAdvances(e, s, t, act.commit);
    }
  }

  lemma NobodyIsCreating(e: Env, s: State)
    requires Inv(e, s) && (s.core.Some? || Gone(s))
    ensures s.begun && forall u :: !At(s.threads, u).Creating?
  {
    forall u
      ensures !At(s.threads, u).Creating?
    {
      assert Local(e, s.core, s.staging, s.seal, s.lock, At(s.threads, u));
    }
  }

  lemma StillNobodyCreating(s: State, after: State, t: nat)
    requires forall u :: !At(s.threads, u).Creating?
    requires after.threads == s.threads[t := At(after.threads, t)] && !At(after.threads, t).Creating?
    ensures forall u :: !At(after.threads, u).Creating?
  {
    assert forall u :: u != t ==> At(after.threads, u) == At(s.threads, u);
  }

  lemma ThreadFrame(e: Env, s: State, t: nat, act: Act)
    requires ThreadNext(e, s, t, act).Some? && s.begun
    ensures var after := ThreadNext(e, s, t, act).value;
            after.threads == s.threads[t := At(after.threads, t)] && after.begun
  {
  }

  lemma StepAdvances(e: Env, s: State, step: Step)
    requires Inv(e, s) && Next(e, s, step).Some?
    requires s.core.Some? || Gone(s)
    ensures var after := Next(e, s, step).value;
            || Gone(after)
            || (s.core.Some? && after.core.Some? && CoreAdvances(s.core.value, after.core.value))
  {
    var after := Next(e, s, step).value;
    NobodyIsCreating(e, s);
    if step.Thread? {
      ThreadAdvances(e, s, step.t, step.act);
      NobodyCreates(e, s, step.t, step.act);
      ThreadFrame(e, s, step.t, step.act);
      StillNobodyCreating(s, after, step.t);
    }
  }

  /** From the start of a commit on, the registry and the destination never change, and phases never go back. */
  lemma {:induction false} RegistryIsFrozen(e: Env, s: State, steps: seq<Step>)
    requires WellFormed(e.root) && Inv(e, s) && Run(e, s, steps).Some?
    requires s.core.Some? || Gone(s)
    ensures var after := Run(e, s, steps).value;
            || Gone(after)
            || (s.core.Some? && after.core.Some? && CoreAdvances(s.core.value, after.core.value))
    decreases |steps|
  {
    if steps != [] {
      StepAdvances(e, s, steps[0]);
      NextKeepsInv(e, s, steps[0]);
      RegistryIsFrozen(e, Next(e, s, steps[0]).value, steps[1..]);
    }
  }

  // A sealed report

  /** Steps of the protocol itself, short of scavenging. */
  predicate Protocol(step: Step) {
    !step.Foreign? && (step.Pass? ==> !step.deed.ClearChild? && !step.deed.ClearDir?)
  }

  /** The sealed directory is still staged untouched, or is published where its commit would have put it. */
  ghost predicate Kept(s: State, seal: Seal, dir: Dir) {
    && s.seal == Some(seal)
    && (|| (s.staging == Some(dir) && Holds(dir, seal.manifest))
        || (&& s.staging.None? && seal.destination in s.published
            && SameReport(dir, s.published[seal.destination])))
  }

  lemma SealResolves(e: Env, seal: Seal)
    requires SealHolds(e, seal)
    ensures DestinationFromPolicy(e.root, seal.manifest.destination) == Ok(seal.destination)
  {
    DestinationRoundTrip(e.root, seal.destination);
  }

  lemma ThreadKeepsSealed(e: Env, s: State, t: nat, act: Act, seal: Seal, dir: Dir)
    requires Inv(e, s) && s.seal == Some(seal) && s.staging == Some(dir) && Holds(dir, seal.manifest)
    requires ThreadNext(e, s, t, act).Some?
    ensures Kept(ThreadNext(e, s, t, act).value, seal, dir)
  {
    assert Local(e, s.core, s.staging, s.seal, s.lock, At(s.threads, t));
  }

  lemma PassKeepsSealed(e: Env, s: State, a: nat, deed: Deed, seal: Seal, dir: Dir)
    requires Inv(e, s) && s.seal == Some(seal) && s.staging == Some(dir) && Holds(dir, seal.manifest)
    requires PassNext(e, s, a, deed).Some? && !deed.ClearChild? && !deed.ClearDir?
    ensures Kept(PassNext(e, s, a, deed).value, seal, dir)
  {
    SealResolves(e, seal);
  }

  lemma {:induction false} SameReportTrans(a: Dir, b: Dir, c: Dir)
    requires SameReport(a, b) && SameReport(b, c)
    ensures SameReport(a, c)
  {
  }

  lemma OtherStepsLeaveSeal(e: Env, s: State, step: Step)
    requires (step.Thread? ==> !step.act.Places?) && Next(e, s, step).Some?
    ensures Next(e, s, step).value.seal == s.seal
  {
  }

  lemma SealIsPlacedOnce(e: Env, s: State, t: nat, act: PlaceAct)
    requires Inv(e, s) && s.seal.Some? && Place(s, t, act).Some?
    ensures Place(s, t, act).value.seal == s.seal
  {
    assert Local(e, s.core, s.staging, s.seal, s.lock, At(s.threads, t));
  }

  lemma StepKeepsSealed(e: Env, s: State, step: Step, seal: Seal, dir: Dir)
    requires WellFormed(e.root) && Inv(e, s) && Kept(s, seal, dir) && Protocol(step) && Next(e, s, step).Some?
    ensures Kept(Next(e, s, step).value, seal, dir)
  {
    var after := Next(e, s, step).value;
    if step.Thread? && step.act.Places? {
      SealIsPlacedOnce(e, s, step.t, step.act.place);
    } else {
      OtherStepsLeaveSeal(e, s, step);
    }
    if s.staging.None? {
      StepReplacesNothing(e, s, step);
      NextKeepsInv(e, s, step);
      SameReportTrans(dir, s.published[seal.destination], after.published[seal.destination]);
    } else if step.Thread? {
      ThreadKeepsSealed(e, s, step.t, step.act, seal, dir);
    } else if step.Pass? {
      PassKeepsSealed(e, s, step.a, step.deed, seal, dir);
    }
  }

  /**
    Once its manifest is staged, no failing commit, drop, crash or recovery loses a report: it stays
    staged untouched until it is published, with the same files, where its commit would have put it.
  */
  lemma {:induction false} SealedReportsSurvive(e: Env, s: State, steps: seq<Step>, seal: Seal, dir: Dir)
    requires WellFormed(e.root) && Inv(e, s) && Kept(s, seal, dir) && Run(e, s, steps).Some?
    requires forall i :: 0 <= i < |steps| ==> Protocol(steps[i])
    ensures Kept(Run(e, s, steps).value, seal, dir)
    decreases |steps|
  {
    if steps != [] {
      StepKeepsSealed(e, s, steps[0], seal, dir);
      NextKeepsInv(e, s, steps[0]);
      SealedReportsSurvive(e, Next(e, s, steps[0]).value, steps[1..], seal, dir);
    }
  }

  function RecoveryPass(a: nat): seq<Step> {
    [Pass(a, TryLock(false)), Pass(a, Inspect), Pass(a, Approve), Pass(a, Install), Pass(a, Leave)]
  }

  lemma LockPasses(e: Env, s: State, a: nat)
    requires s.begun && s.lock.None? && a !in s.agents
    ensures Next(e, s, Pass(a, TryLock(false))) == Some(s.(lock := Some(Agent(a)), agents := s.agents[a := Holding(false)]))
  {
  }

  lemma InspectPasses(e: Env, s: State, a: nat, dir: Dir, m: Manifest)
    requires a in s.agents && s.agents[a] == Holding(false) && s.staging == Some(dir) && Holds(dir, m)
    requires Identified(e, m) && |m.artifacts| <= MAX_RECOVERY_ARTIFACTS && ValidNames(Names(m)) && Distinct(m)
    ensures Next(e, s, Pass(a, Inspect)) == Some(s.(agents := s.agents[a := Inspected(m)]))
  {
  }

  lemma ApprovePasses(e: Env, s: State, a: nat, dir: Dir, m: Manifest, to: Path)
    requires a in s.agents && s.agents[a] == Inspected(m) && s.staging == Some(dir) && Exact(dir, m)
    requires |m.artifacts| <= MAX_RECOVERY_ARTIFACTS
    requires DestinationFromPolicy(e.root, m.destination) == Ok(to) && Free(s, to)
    ensures Next(e, s, Pass(a, Approve)) == Some(s.(agents := s.agents[a := Approved(m, to)]))
  {
    CrowdedExactly(dir, m);
    assert Revalidates(dir, Names(m), m);
  }

  lemma InstallPasses(e: Env, s: State, a: nat, dir: Dir, m: Manifest, to: Path)
    requires a in s.agents && s.agents[a] == Approved(m, to) && s.staging == Some(dir) && Free(s, to)
    ensures Next(e, s, Pass(a, Install)) ==
            Some(s.(agents := s.agents[a := Holding(false)], staging := None, published := s.published[to := dir]))
  {
  }

  lemma LeavePasses(e: Env, s: State, a: nat)
    requires a in s.agents
    ensures Next(e, s, Pass(a, Leave)) == Some(s.(agents := s.agents - {a}, lock := None))
  {
  }

  /** What a pass tests before it publishes a directory at `to`. */
  predicate Passes(e: Env, s: State, dir: Dir, m: Manifest, to: Path) {
    && Exact(dir, m) && Identified(e, m) && |m.artifacts| <= MAX_RECOVERY_ARTIFACTS && ValidNames(Names(m))
    && DestinationFromPolicy(e.root, m.destination) == Ok(to) && Free(s, to)
  }

  lemma RecoveryPasses(e: Env, s: State, a: nat, dir: Dir, m: Manifest, to: Path)
    requires s.begun && s.lock.None? && a !in s.agents && s.staging == Some(dir) && Passes(e, s, dir, m, to)
    ensures Run(e, s, RecoveryPass(a)) == Some(s.(staging := None, published := s.published[to := dir]))
  {
    hide Next;
    var s1 := s.(lock := Some(Agent(a)), agents := s.agents[a := Holding(false)]);
    var s2 := s1.(agents := s1.agents[a := Inspected(m)]);
    var s3 := s2.(agents := s2.agents[a := Approved(m, to)]);
    var s4 := s3.(agents := s3.agents[a := Holding(false)], staging := None, published := s.published[to := dir]);
    var s5 := s4.(agents := s4.agents - {a}, lock := None);
    LockPasses(e, s, a);
    InspectPasses(e, s1, a, dir, m);
    ApprovePasses(e, s2, a, dir, m, to);
    InstallPasses(e, s3, a, dir, m, to);
    LeavePasses(e, s4, a);
    assert s4.agents - {a} == s.agents;
    RunFive(e, s, s1, s2, s3, s4, s5, RecoveryPass(a));
  }

  /** A recovery pass over a sealed, unchanged and unowned report publishes it where its commit would have. */
  lemma RecoveryPublishes(e: Env, s: State, a: nat, dir: Dir)
    requires s.begun && s.seal.Some? && SealHolds(e, s.seal.value)
    requires s.staging == Some(dir) && Exact(dir, s.seal.value.manifest)
    requires s.lock.None? && a !in s.agents && Free(s, s.seal.value.destination)
    requires |s.seal.value.manifest.artifacts| <= MAX_RECOVERY_ARTIFACTS
    ensures Run(e, s, RecoveryPass(a)) ==
            Some(s.(staging := None, published := s.published[s.seal.value.destination := dir]))
  {
    SealResolves(e, s.seal.value);
    RecoveryPasses(e, s, a, dir, s.seal.value.manifest, s.seal.value.destination);
  }

  lemma {:induction false} RunFive(e: Env, s: State, s1: State, s2: State, s3: State, s4: State, s5: State, steps: seq<Step>)
    requires |steps| == 5
    requires Next(e, s, steps[0]) == Some(s1) && Next(e, s1, steps[1]) == Some(s2) && Next(e, s2, steps[2]) == Some(s3)
    requires Next(e, s3, steps[3]) == Some(s4) && Next(e, s4, steps[4]) == Some(s5)
    ensures Run(e, s, steps) == Some(s5)
  {
    assert Run(e, s5, steps[1..][1..][1..][1..][1..]) == Some(s5);
    assert Run(e, s4, steps[1..][1..][1..][1..]) == Some(s5);
    assert Run(e, s3, steps[1..][1..][1..]) == Some(s5);
    assert Run(e, s2, steps[1..][1..]) == Some(s5);
  }

  // Many reports under one output root

  /** The life of every report, by identity; one not yet begun is absent. */
  type Store = map<string, State>

  function Report(store: Store, id: string): State {
    if id in store then store[id] else INITIAL
  }

  ghost function StoreRun(root: Path, store: Store, steps: seq<(string, Step)>): Option<Store>
    decreases |steps|
  {
    if steps == [] then Some(store) else
      var (id, step) := steps[0];
      var next := Next(Env(id, root), Report(store, id), step);
      if next.None? then None else StoreRun(root, store[id := next.value], steps[1..])
  }

  ghost predicate StoreHolds(root: Path, store: Store) {
    forall id :: Inv(Env(id, root), Report(store, id))
  }

  lemma {:induction false} StoreRunKeeps(root: Path, store: Store, steps: seq<(string, Step)>)
    requires WellFormed(root) && StoreHolds(root, store) && StoreRun(root, store, steps).Some?
    ensures StoreHolds(root, StoreRun(root, store, steps).value)
    decreases |steps|
  {
    if steps != [] {
      var (id, step) := steps[0];
      var next := Next(Env(id, root), Report(store, id), step).value;
      NextKeepsInv(Env(id, root), Report(store, id), step);
      var after := store[id := next];
      forall other
        ensures Inv(Env(other, root), Report(after, other))
      {
        assert other != id ==> Report(after, other) == Report(store, other);
      }
      StoreRunKeeps(root, after, steps[1..]);
    }
  }

  /** In every reachable state of the whole store, every published report directory is complete and its own. */
  lemma EveryPublishedReportIsComplete(root: Path, steps: seq<(string, Step)>, id: string, at: Path)
    requires WellFormed(root) && StoreRun(root, map[], steps).Some?
    requires at in Report(StoreRun(root, map[], steps).value, id).published
    ensures Sound(Env(id, root), Report(StoreRun(root, map[], steps).value, id).published[at])
  {
    forall other
      ensures Inv(Env(other, root), Report(map[], other))
    {
      InitialHolds(Env(other, root));
    }
    StoreRunKeeps(root, map[], steps);
  }
}
