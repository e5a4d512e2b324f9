/**
  Runs in which only the protocol writes (src/pipeline/artifact.rs): the directory a
  commit seals is already complete, so a later recovery pass finishes that commit;
  and what a scavenging pass may take away instead.
*/
module ArtifactRecovery {
  import opened Wrappers
  import opened ArtifactPaths
  import opened ArtifactStore
  import opened ArtifactSafety
  import opened ArtifactTheorems

  predicate Listed(dir: Dir, plan: Plan, extra: set<string>) {
    && MANIFEST_FILE_NAME !in plan.registered
    && extra !! plan.registered.Keys
    && dir.Keys == plan.registered.Keys + extra
    && SizesHold(dir, plan.manifest)
  }

  /** What a committing thread knows of the directory while nothing else writes to it. */
  predicate CleanLocal(staging: Option<Dir>, seal: Option<Seal>, p: Position) {
    match p
    case Built(plan) => staging.Some? ==> Listed(staging.value, plan, {})
    case ManifestTmp(plan, tmp) => staging.Some? ==> tmp != MANIFEST_FILE_NAME && Listed(staging.value, plan, {tmp})
    case ManifestWritten(plan, tmp) =>
      staging.Some? ==>
        && tmp != MANIFEST_FILE_NAME && Listed(staging.value, plan, {tmp})
        && staging.value[tmp].manifest == Some(plan.manifest)
    case ManifestPlaced(plan) => seal.Some?
    case _ => true
  }

  ghost predicate CleanHolds(s: State) {
    && (forall t :: CleanLocal(s.staging, s.seal, At(s.threads, t)))
    && (s.seal.Some? && s.staging.Some? ==> Exact(s.staging.value, s.seal.value.manifest))
    && (s.core.Some? && (s.core.value.phase.Prepared? || s.core.value.phase.Committed?) ==> s.seal.Some?)
  }

  lemma CleanAfterThread(e: Env, s: State, after: State, t: nat, p: Position)
    requires Inv(e, s) && after.threads == s.threads[t := p]
    requires Engaged(At(s.threads, t)) || NobodyEngaged(s.threads)
    requires CleanLocal(after.staging, after.seal, p)
    ensures forall u :: CleanLocal(after.staging, after.seal, At(after.threads, u))
  {
    assert forall u :: u != t ==> At(after.threads, u) == At(s.threads, u) && !Engaged(At(s.threads, u));
    assert At(after.threads, t) == p;
  }

  lemma BeginStaysClean(e: Env, s: State, t: nat, act: BeginAct)
    requires Inv(e, s) && CleanHolds(s) && Begin(e, s, t, act).Some?
    ensures CleanHolds(Begin(e, s, t, act).value)
  {
    var after := Begin(e, s, t, act).value;
    assert Local(e, s.core, s.staging, s.seal, s.lock, At(s.threads, t));
    CleanAfterThread(e, s, after, t, At(after.threads, t));
  }

  lemma WriteStaysClean(e: Env, s: State, t: nat, act: WriteAct)
    requires Inv(e, s) && CleanHolds(s) && Write(s, t, act).Some?
    ensures CleanHolds(Write(s, t, act).value)
  {
    var after := Write(s, t, act).value;
    assert Local(e, s.core, s.staging, s.seal, s.lock, At(s.threads, t));
    CleanAfterThread(e, s, after, t, At(after.threads, t));
  }

  lemma OperateStaysClean(e: Env, s: State, t: nat, act: OperateAct)
    requires Inv(e, s) && CleanHolds(s) && Operate(e, s, t, act).Some?
    ensures CleanHolds(Operate(e, s, t, act).value)
  {
    var after := Operate(e, s, t, act).value;
    assert Local(e, s.core, s.staging, s.seal, s.lock, At(s.threads, t));
    CleanAfterThread(e, s, after, t, At(after.threads, t));
  }

  lemma BuiltIsListed(e: Env, dir: Dir, registered: map<string, Kind>, order: seq<string>, to: Destination, at: Path)
    requires ValidNames(registered.Keys) && dir.Keys == registered.Keys && Orders(order, registered.Keys)
    ensures Listed(dir, Plan(BuildManifest(e, dir, registered, order, to), registered, at), {})
  {
    assert !ValidArtifactName(MANIFEST_FILE_NAME);
  }

  lemma CommitStaysClean(e: Env, s: State, t: nat, act: CommitAct)
    requires Inv(e, s) && CleanHolds(s) && Commit(e, s, t, act).Some?
    ensures CleanHolds(Commit(e, s, t, act).value)
  {
    hide DestinationPolicy, TotalSize, ValidArtifactName, Listed;
    var after := Commit(e, s, t, act).value;
    var p := At(s.threads, t);
    assert Local(e, s.core, s.staging, s.seal, s.lock, p) && CleanLocal(s.staging, s.seal, p);
    if act.Build? {
      BuiltIsListed(e, s.staging.value, p.registered, act.order, DestinationPolicy(e.root, p.to).value, p.to);
    }
    CleanAfterThread(e, s, after, t, At(after.threads, t));
  }

  lemma PlacedIsExact(e: Env, dir: Dir, plan: Plan, tmp: string)
    requires PlanHolds(e, plan) && tmp != MANIFEST_FILE_NAME && Listed(dir, plan, {tmp})
    requires dir[tmp].manifest == Some(plan.manifest)
    ensures Exact((dir - {tmp})[MANIFEST_FILE_NAME := dir[tmp]], plan.manifest)
  {
    var placed := (dir - {tmp})[MANIFEST_FILE_NAME := dir[tmp]];
    forall i | 0 <= i < |plan.manifest.artifacts|
      ensures SizeHolds(placed, plan.manifest.artifacts[i])
    {
      assert SizeHolds(dir, plan.manifest.artifacts[i]) && plan.manifest.artifacts[i].path in Names(plan.manifest);
    }
  }

  lemma TmpKeepsListed(e: Env, dir: Dir, plan: Plan, tmp: string, content: Content)
    requires PlanHolds(e, plan) && tmp !in plan.registered && (Listed(dir, plan, {}) || Listed(dir, plan, {tmp}))
    ensures Listed(dir[tmp := content], plan, {tmp})
  {
    forall i | 0 <= i < |plan.manifest.artifacts|
      ensures SizeHolds(dir[tmp := content], plan.manifest.artifacts[i])
    {
      assert SizeHolds(dir, plan.manifest.artifacts[i]) && plan.manifest.artifacts[i].path in Names(plan.manifest);
    }
  }

  lemma PlaceStaysClean(e: Env, s: State, t: nat, act: PlaceAct)
    requires Inv(e, s) && CleanHolds(s) && Place(s, t, act).Some?
    ensures CleanHolds(Place(s, t, act).value)
  {
    var after := Place(s, t, act).value;
    var p := At(s.threads, t);
    assert Local(e, s.core, s.staging, s.seal, s.lock, p) && CleanLocal(s.staging, s.seal, p);
    if act.StartManifest? {
      TmpKeepsListed(e, s.staging.value, p.plan, act.tmp, Content(0, None));
    } else if act.FillManifest? {
      TmpKeepsListed(e, s.staging.value, p.plan, p.tmp, Content(act.size, Some(p.plan.manifest)));
    } else if act.PlaceManifest? {
      PlacedIsExact(e, s.staging.value, p.plan, p.tmp);
    }
    CleanAfterThread(e, s, after, t, At(after.threads, t));
  }

  lemma DropStaysClean(e: Env, s: State, t: nat, act: DropAct)
    requires Inv(e, s) && CleanHolds(s) && DropNext(s, t, act).Some?
    ensures CleanHolds(DropNext(s, t, act).value)
  {
    var after := DropNext(s, t, act).value;
    assert Local(e, s.core, s.staging, s.seal, s.lock, At(s.threads, t));
    CleanAfterThread(e, s, after, t, At(after.threads, t));
  }

  lemma AmendStaysClean(e: Env, s: State, t: nat, act: AmendAct)
    requires CleanHolds(s) && Amend(e, s, t, act).Some?
    ensures CleanHolds(Amend(e, s, t, act).value)
  {
    var after := Amend(e, s, t, act).value;
    assert forall u :: u != t ==> At(after.threads, u) == At(s.threads, u);
    assert !Engaged(At(after.threads, t));
  }

  lemma PassStaysClean(e: Env, s: State, a: nat, deed: Deed)
    requires CleanHolds(s) && PassNext(e, s, a, deed).Some? && !deed.ClearChild? && !deed.ClearDir?
    ensures CleanHolds(PassNext(e, s, a, deed).value)
  {
    var after := PassNext(e, s, a, deed).value;
    forall t
      ensures CleanLocal(after.staging, after.seal, At(after.threads, t))
    {
      assert CleanLocal(s.staging, s.seal, At(s.threads, t));
    }
  }

  lemma StepStaysClean(e: Env, s: State, step: Step)
    requires Inv(e, s) && CleanHolds(s) && Protocol(step) && Next(e, s, step).Some?
    ensures CleanHolds(Next(e, s, step).value)
  {
    match step
    case Pass(a, deed) => PassStaysClean(e, s, a, deed);
    case Thread(t, act) => ThreadStaysClean(e, s, t, act);
    case Crash =>
      assert forall t :: At(Next(e, s, step).value.threads, t).Idle?;
    case Occupy(_) =>
  }

  lemma ThreadStaysClean(e: Env, s: State, t: nat, act: Act)
    requires Inv(e, s) && CleanHolds(s) && ThreadNext(e, s, t, act).Some?
    ensures CleanHolds(ThreadNext(e, s, t, act).value)
  {
    match act
    case Begins(a) => BeginStaysClean(e, s, t, a);
    case Writes(a) => WriteStaysClean(e, s, t, a);
    case Operates(a) => OperateStaysClean(e, s, t, a);
    case Commits(a) => CommitStaysClean(e, s, t, a);
    case Places(a) => PlaceStaysClean(e, s, t, a);
    case Amends(a) => AmendStaysClean(e, s, t, a);
    case Drops(a) => DropStaysClean(e, s, t, a);
  }

  lemma {:induction false} RunStaysClean(e: Env, s: State, steps: seq<Step>)
    requires WellFormed(e.root) && Inv(e, s) && CleanHolds(s) && Run(e, s, steps).Some?
    requires forall i :: 0 <= i < |steps| ==> Protocol(steps[i])
    ensures Inv(e, Run(e, s, steps).value) && CleanHolds(Run(e, s, steps).value)
    decreases |steps|
  {
    if steps != [] {
      StepStaysClean(e, s, steps[0]);
      NextKeepsInv(e, s, steps[0]);
      RunStaysClean(e, Next(e, s, steps[0]).value, steps[1..]);
    }
  }

  /**
    However a run of the protocol was interrupted, a report that reached its manifest and has lost its
    owner is published by the next recovery pass, complete, at the path its own commit would have used.
  */
  lemma InterruptedCommitsAreFinished(e: Env, steps: seq<Step>, a: nat)
    requires WellFormed(e.root) && Run(e, INITIAL, steps).Some?
    requires forall i :: 0 <= i < |steps| ==> Protocol(steps[i])
    requires var s := Run(e, INITIAL, steps).value;
             && s.seal.Some? && s.staging.Some? && s.lock.None? && a !in s.agents
             && Free(s, s.seal.value.destination)
             && |s.seal.value.manifest.artifacts| <= MAX_RECOVERY_ARTIFACTS
    ensures var s := Run(e, INITIAL, steps).value;
            && Exact(s.staging.value, s.seal.value.manifest)
            && DestinationPolicy(e.root, s.seal.value.destination) == Ok(s.seal.value.manifest.destination)
            && Run(e, s, RecoveryPass(a)) ==
               Some(s.(staging := None, published := map[s.seal.value.destination := s.staging.value]))
  {
    InitialHolds(e);
    assert forall t :: At(INITIAL.threads, t).Idle?;
    RunStaysClean(e, INITIAL, steps);
    var s := Run(e, INITIAL, steps).value;
    RecoveryPublishes(e, s, a, s.staging.value);
    assert s.published == map[];
  }

  // Scavenging

  function ClearEach(a: nat, names: seq<string>): seq<Step> {
    seq(|names|, i requires 0 <= i < |names| => Pass(a, ClearChild(names[i])))
  }

  lemma {:induction false} ClearEachRemoves(e: Env, s: State, a: nat, names: seq<string>, rest: seq<Step>)
    requires a in s.agents && s.agents[a].Clearing? && s.staging.Some?
    requires forall n :: n in names ==> n in s.agents[a].children
    ensures Run(e, s, ClearEach(a, names) + rest) ==
            Run(e, s.(staging := Some(s.staging.value - (set n | n in names))), rest)
    decreases |names|
  {
    if names == [] {
      assert ClearEach(a, names) + rest == rest;
      assert s.staging.value - (set n | n in names) == s.staging.value;
      assert s.(staging := Some(s.staging.value)) == s;
    } else {
      var next := s.(staging := Some(s.staging.value - {names[0]}));
      var steps := ClearEach(a, names) + rest;
      assert steps[0] == Pass(a, ClearChild(names[0])) && Next(e, s, steps[0]) == Some(next);
      assert steps[1..] == ClearEach(a, names[1..]) + rest;
      ClearEachRemoves(e, next, a, names[1..], rest);
      assert next.staging.value - (set n | n in names[1..]) == s.staging.value - (set n | n in names);
    }
  }

  function ScavengingPass(a: nat, names: seq<string>): seq<Step> {
    [Pass(a, TryLock(true)), Pass(a, Scan)] + (ClearEach(a, names) + [Pass(a, ClearDir), Pass(a, Leave)])
  }

  /**
    A scavenging pass that gets the lock takes the whole directory, sealed or not, exactly when it has no more
    entries than the pass will list; otherwise it takes nothing.
  */
  lemma ScavengingTakesAnything(e: Env, s: State, a: nat, names: seq<string>)
    requires s.begun && s.lock.None? && a !in s.agents && s.staging.Some?
    requires (set n | n in names) == s.staging.value.Keys
    ensures Run(e, s, ScavengingPass(a, names)) == if Crowded(s.staging.value) then None else Some(s.(staging := None))
    ensures Run(e, s, [Pass(a, TryLock(true)), Pass(a, Leave)]) == Some(s)
  {
    var dir := s.staging.value;
    var steps := ScavengingPass(a, names);
    var s1 := s.(lock := Some(Agent(a)), agents := s.agents[a := Holding(true)]);
    assert Next(e, s, steps[0]) == Some(s1);
    assert steps[1..][0] == Pass(a, Scan) && Next(e, s1, Pass(a, Scan)).None? <==> Crowded(dir);
    GivesUp(e, s, s1, a);
    if !Crowded(dir) {
      ScavengingClears(e, s, s1, a, names);
    }
  }

  lemma GivesUp(e: Env, s: State, s1: State, a: nat)
    requires s.begun && s.lock.None? && a !in s.agents
    requires s1 == s.(lock := Some(Agent(a)), agents := s.agents[a := Holding(true)])
    ensures Run(e, s, [Pass(a, TryLock(true)), Pass(a, Leave)]) == Some(s)
  {
    var steps := [Pass(a, TryLock(true)), Pass(a, Leave)];
    assert s1.agents - {a} == s.agents;
    assert Next(e, s, steps[0]) == Some(s1) && Next(e, s1, steps[1..][0]) == Some(s);
    assert Run(e, s, steps[1..][1..]) == Some(s);
    assert Run(e, s1, steps[1..]) == Some(s);
  }

  lemma ScavengingClears(e: Env, s: State, s1: State, a: nat, names: seq<string>)
    requires s.begun && s.lock.None? && a !in s.agents && s.staging.Some? && !Crowded(s.staging.value)
    requires (set n | n in names) == s.staging.value.Keys
    requires s1 == s.(lock := Some(Agent(a)), agents := s.agents[a := Holding(true)])
    ensures Run(e, s, ScavengingPass(a, names)) == Some(s.(staging := None))
  {
    var dir := s.staging.value;
    var steps := ScavengingPass(a, names);
    var tail := [Pass(a, ClearDir), Pass(a, Leave)];
    assert Next(e, s, steps[0]) == Some(s1);
    var s2 := s1.(agents := s1.agents[a := Clearing(dir.Keys)]);
    assert Next(e, s1, steps[1..][0]) == Some(s2);
    assert steps[1..][1..] == ClearEach(a, names) + tail;
    ClearEachRemoves(e, s2, a, names, tail);
    var s3 := s2.(staging := Some(dir - (set n | n in names)));
    assert dir - (set n | n in names) == map[];
    ClearedLeaves(e, s3, a);
    assert s3.agents - {a} == s.agents;
  }

  lemma ClearedLeaves(e: Env, s: State, a: nat)
    requires a in s.agents && s.agents[a].Clearing? && s.staging == Some(map[])
    ensures Run(e, s, [Pass(a, ClearDir), Pass(a, Leave)]) == Some(s.(staging := None, agents := s.agents - {a}, lock := None))
  {
    var steps := [Pass(a, ClearDir), Pass(a, Leave)];
    var s1 := s.(staging := None);
    var s2 := s1.(agents := s.agents - {a}, lock := None);
    assert Next(e, s, steps[0]) == Some(s1) && Next(e, s1, steps[1..][0]) == Some(s2);
    assert Run(e, s2, steps[1..][1..]) == Some(s2);
    assert Run(e, s1, steps[1..]) == Some(s2);
  }
}
