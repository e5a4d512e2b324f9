/**
  What the steps of an artifact transaction achieve when nothing interrupts them
  (src/pipeline/artifact.rs): a written artifact is staged and registered, and a
  commit publishes exactly the staged files with their manifest.
*/
module ArtifactProgress {
  import opened Wrappers
  import opened ArtifactPaths
  import opened ArtifactStore
  import opened ArtifactSafety
  import opened ArtifactTheorems

  lemma {:induction false} RunAppends(e: Env, s: State, first: seq<Step>, rest: seq<Step>)
    requires Run(e, s, first).Some?
    ensures Run(e, s, first + rest) == Run(e, Run(e, s, first).value, rest)
    decreases |first|
  {
    hide Next;
    if first == [] {
      assert first + rest == rest;
    } else {
      RunAppends(e, Next(e, s, first[0]).value, first[1..], rest);
      assert (first + rest)[1..] == first[1..] + rest;
    }
  }

  /** One thread's acts as steps. */
  function By(t: nat, acts: seq<Act>): seq<Step> {
    seq(|acts|, i requires 0 <= i < |acts| => Thread(t, acts[i]))
  }

  lemma {:induction false} RunThree(e: Env, s: State, s1: State, s2: State, s3: State, t: nat, a: Act, b: Act, c: Act)
    requires Next(e, s, Thread(t, a)) == Some(s1) && Next(e, s1, Thread(t, b)) == Some(s2) && Next(e, s2, Thread(t, c)) == Some(s3)
    ensures Run(e, s, By(t, [a, b, c])) == Some(s3)
  {
    hide Next;
    var steps := By(t, [a, b, c]);
    assert Run(e, s3, steps[1..][1..][1..]) == Some(s3);
    assert Run(e, s2, steps[1..][1..]) == Some(s3);
    assert Run(e, s1, steps[1..]) == Some(s3);
  }

  lemma RunBoth(e: Env, s: State, mid: State, after: State, t: nat, first: seq<Act>, rest: seq<Act>)
    requires Run(e, s, By(t, first)) == Some(mid) && Run(e, mid, By(t, rest)) == Some(after)
    ensures Run(e, s, By(t, first + rest)) == Some(after)
  {
    hide Next;
    RunAppends(e, s, By(t, first), By(t, rest));
    assert By(t, first + rest) == By(t, first) + By(t, rest);
  }

  // Writing one artifact

  function StartActs(name: string, kind: Kind, tmp: string, content: Content): seq<Act> {
    [Operates(BeginOperation), Writes(StartWrite(name, kind, tmp)), Writes(Fill(content))]
  }

  const FINISH_ACTS := [Writes(Rename), Operates(Insert), Operates(EndOperation)]

  function BeingWritten(s: State, t: nat, name: string, kind: Kind, tmp: string, content: Content): State
    requires s.core.Some? && s.staging.Some?
  {
    s.(threads := s.threads[t := Writing(name, kind, tmp)], staging := Some(s.staging.value[tmp := content]),
       core := Some(s.core.value.(active := 1)))
  }

  lemma WriteStarts(e: Env, s: State, t: nat, name: string, kind: Kind, tmp: string, content: Content)
    requires s.core.Some? && Admission(s.core.value).None? && At(s.threads, t).Idle? && s.staging.Some?
    requires ValidArtifactName(name) && name !in s.staging.value
    requires tmp != "" && tmp[0] == '.' && tmp !in s.staging.value
    ensures Run(e, s, By(t, StartActs(name, kind, tmp, content))) == Some(BeingWritten(s, t, name, kind, tmp, content))
  {
    var dir, core := s.staging.value, s.core.value;
    var s1 := Move(s, t, Operating).(core := Some(core.(active := 1)));
    var s2 := Move(s1, t, Writing(name, kind, tmp)).(staging := Some(dir[tmp := Content(0, None)]));
    var s3 := BeingWritten(s, t, name, kind, tmp, content);
    assert dir[tmp := Content(0, None)][tmp := content] == dir[tmp := content];
    assert Move(s2, t, Writing(name, kind, tmp)).threads == s3.threads;
    RunThree(e, s, s1, s2, s3, t, Operates(BeginOperation), Writes(StartWrite(name, kind, tmp)), Writes(Fill(content)));
  }

  lemma WriteFinishes(e: Env, s: State, t: nat, name: string, kind: Kind, tmp: string)
    requires At(s.threads, t) == Writing(name, kind, tmp) && s.core.Some? && s.core.value.active == 1
    requires s.staging.Some? && tmp in s.staging.value && name !in s.staging.value && name != tmp
    ensures Run(e, s, By(t, FINISH_ACTS)) ==
            Some(s.(threads := s.threads[t := Idle],
                    staging := Some((s.staging.value - {tmp})[name := s.staging.value[tmp]]),
                    core := Some(s.core.value.(artifacts := s.core.value.artifacts[name := kind], active := 0))))
  {
    var dir, core := s.staging.value, s.core.value;
    var s1 := Move(s, t, Renamed(name, kind)).(staging := Some((dir - {tmp})[name := dir[tmp]]));
    var s2 := Move(s1, t, Operating).(core := Some(core.(artifacts := core.artifacts[name := kind])));
    var s3 := s.(threads := s.threads[t := Idle], staging := s1.staging,
                 core := Some(core.(artifacts := core.artifacts[name := kind], active := 0)));
    assert Move(s2, t, Idle).threads == s3.threads;
    RunThree(e, s, s1, s2, s3, t, Writes(Rename), Operates(Insert), Operates(EndOperation));
  }

  /** An uninterrupted write stages the content under its name, registers it, and changes nothing else. */
  lemma WritesAreRegistered(e: Env, s: State, t: nat, name: string, kind: Kind, tmp: string, content: Content)
    requires s.core.Some? && Admission(s.core.value).None? && At(s.threads, t).Idle? && s.staging.Some?
    requires ValidArtifactName(name) && name !in s.staging.value
    requires tmp != "" && tmp[0] == '.' && tmp !in s.staging.value
    ensures Run(e, s, By(t, StartActs(name, kind, tmp, content) + FINISH_ACTS)) ==
            Some(s.(threads := s.threads[t := Idle], staging := Some(s.staging.value[name := content]),
                    core := Some(s.core.value.(artifacts := s.core.value.artifacts[name := kind]))))
  {
    hide Next;
    var mid := BeingWritten(s, t, name, kind, tmp, content);
    var after := s.(threads := s.threads[t := Idle], staging := Some(s.staging.value[name := content]),
                    core := Some(s.core.value.(artifacts := s.core.value.artifacts[name := kind])));
    WriteStarts(e, s, t, name, kind, tmp, content);
    WriteFinishes(e, mid, t, name, kind, tmp);
    assert (mid.staging.value - {tmp})[name := content] == s.staging.value[name := content];
    assert mid.threads[t := Idle] == after.threads;
    RunBoth(e, s, mid, after, t, StartActs(name, kind, tmp, content), FINISH_ACTS);
  }

  // Committing

  function SealActs(order: seq<string>, budget: nat, tmp: string): seq<Act> {
    [Commits(BeginCommit), Commits(Build(order, budget)), Places(StartManifest(tmp))]
  }

  function PlaceActs(size: nat): seq<Act> {
    [Places(FillManifest(size)), Places(PlaceManifest), Commits(MarkPrepared)]
  }

  const PUBLISH_ACTS := [Commits(Validate), Places(Publish), Commits(MarkCommitted)]

  /** The plan a commit of the staged directory seals. */
  function PlanFor(e: Env, s: State, order: seq<string>): Plan
    requires s.core.Some? && s.staging.Some? && s.staging.value.Keys == s.core.value.artifacts.Keys
    requires Orders(order, s.core.value.artifacts.Keys) && DestinationPolicy(e.root, s.core.value.destination).Ok?
  {
    var core := s.core.value;
    Plan(BuildManifest(e, s.staging.value, core.artifacts, order, DestinationPolicy(e.root, core.destination).value),
         core.artifacts, core.destination)
  }

  /** An open transaction whose staged files are exactly its registry, within the limits that building the manifest heeds. */
  ghost predicate Committable(e: Env, s: State, t: nat, order: seq<string>, budget: nat, tmp: string) {
    && s.core.Some? && Admission(s.core.value).None? && At(s.threads, t).Idle?
    && s.staging.Some? && s.staging.value.Keys == s.core.value.artifacts.Keys
    && Orders(order, s.core.value.artifacts.Keys)
    && CoreHolds(e, s.core.value)
    && |order| <= MAX_RECOVERY_REPORT_ENTRIES && TotalSize(PlanFor(e, s, order).manifest.artifacts) <= budget
    && tmp != "" && tmp[0] == '.'
  }

  lemma {:induction false} OrderLength(order: seq<string>, names: set<string>)
    requires Orders(order, names)
    ensures |names| == |order|
  {
    if order != [] {
      var n := |order| - 1;
      OrderLength(order[..n], names - {order[n]});
    }
  }

  lemma DottedNamesAreFree(names: set<string>, tmp: string)
    requires ValidNames(names) && tmp != "" && tmp[0] == '.'
    ensures tmp !in names && MANIFEST_FILE_NAME !in names && tmp != MANIFEST_FILE_NAME
  {
  }

  /** The manifest of a sealed transaction is built exactly within the limit on entries and the byte budget. */
  lemma BuildsExactly(e: Env, s: State, t: nat, registered: map<string, Kind>, to: Path, order: seq<string>, budget: nat)
    requires s.core.Some? && At(s.threads, t) == Sealing(registered, to) && DestinationPolicy(e.root, to).Ok?
    requires s.staging.Some? && s.staging.value.Keys == registered.Keys && Orders(order, registered.Keys)
    ensures var m := BuildManifest(e, s.staging.value, registered, order, DestinationPolicy(e.root, to).value);
            Next(e, s, Thread(t, Commits(Build(order, budget)))) ==
            if |order| <= MAX_RECOVERY_REPORT_ENTRIES && TotalSize(m.artifacts) <= budget
            then Some(Move(s, t, Built(Plan(m, registered, to)))) else None
  {
    hide DestinationPolicy, TotalSize, ValidArtifactName;
    OrderLength(order, s.staging.value.Keys);
    assert |s.staging.value| == |s.staging.value.Keys|;
  }

  lemma CommitSeals(e: Env, s: State, t: nat, order: seq<string>, budget: nat, tmp: string)
    requires Committable(e, s, t, order, budget, tmp)
    ensures Run(e, s, By(t, SealActs(order, budget, tmp))) ==
            Some(s.(threads := s.threads[t := ManifestTmp(PlanFor(e, s, order), tmp)],
                    staging := Some(s.staging.value[tmp := Content(0, None)]),
                    core := Some(s.core.value.(phase := Preparing))))
  {
    hide TotalSize;
    var dir, core, plan := s.staging.value, s.core.value, PlanFor(e, s, order);
    DottedNamesAreFree(core.artifacts.Keys, tmp);
    var s1 := Move(s, t, Sealing(core.artifacts, core.destination)).(core := Some(core.(phase := Preparing)));
    BuildsExactly(e, s1, t, core.artifacts, core.destination, order, budget);
    var s2 := Move(s1, t, Built(plan));
    var s3 := Move(s2, t, ManifestTmp(plan, tmp)).(staging := Some(dir[tmp := Content(0, None)]));
    assert s3.threads == s.threads[t := ManifestTmp(plan, tmp)];
    RunThree(e, s, s1, s2, s3, t, Commits(BeginCommit), Commits(Build(order, budget)), Places(StartManifest(tmp)));
  }

  lemma CommitPlaces(e: Env, s: State, t: nat, plan: Plan, tmp: string, size: nat)
    requires At(s.threads, t) == ManifestTmp(plan, tmp) && s.core.Some? && s.staging.Some? && size <= MAX_MANIFEST_BYTES
    requires tmp in s.staging.value && MANIFEST_FILE_NAME !in s.staging.value && tmp != MANIFEST_FILE_NAME
    ensures Run(e, s, By(t, PlaceActs(size))) ==
            Some(s.(threads := s.threads[t := Ready(plan)],
                    staging := Some((s.staging.value - {tmp})[MANIFEST_FILE_NAME := Content(size, Some(plan.manifest))]),
                    core := Some(s.core.value.(phase := Prepared)),
                    seal := Some(Seal(plan.manifest, plan.destination, t))))
  {
    var dir, content := s.staging.value, Content(size, Some(plan.manifest));
    var s1 := Move(s, t, ManifestWritten(plan, tmp)).(staging := Some(dir[tmp := content]));
    var s2 := Move(s1, t, ManifestPlaced(plan)).(staging := Some((dir[tmp := content] - {tmp})[MANIFEST_FILE_NAME := content]),
                                                 seal := Some(Seal(plan.manifest, plan.destination, t)));
    var s3 := s.(threads := s.threads[t := Ready(plan)], staging := Some((dir - {tmp})[MANIFEST_FILE_NAME := content]),
                 core := Some(s.core.value.(phase := Prepared)), seal := s2.seal);
    assert dir[tmp := content] - {tmp} == dir - {tmp};
    assert Move(s2, t, Ready(plan)).threads == s3.threads;
    RunThree(e, s, s1, s2, s3, t, Places(FillManifest(size)), Places(PlaceManifest), Commits(MarkPrepared));
  }

  /** A sealed, unchanged report goes on to publication exactly when its place is free and it has at most 10,000 artifacts. */
  lemma ValidatesExactly(e: Env, s: State, t: nat, plan: Plan)
    requires At(s.threads, t) == Ready(plan) && s.core.Some? && s.staging.Some?
    requires Exact(s.staging.value, plan.manifest) && Names(plan.manifest) == plan.registered.Keys
    ensures Next(e, s, Thread(t, Commits(Validate))).Some? <==>
            Free(s, plan.destination) && |plan.manifest.artifacts| <= MAX_RECOVERY_ARTIFACTS
  {
    CrowdedExactly(s.staging.value, plan.manifest);
    assert Revalidates(s.staging.value, plan.registered.Keys, plan.manifest);
  }

  lemma ValidatePasses(e: Env, s: State, t: nat, plan: Plan)
    requires At(s.threads, t) == Ready(plan) && s.core.Some? && s.staging.Some? && !Crowded(s.staging.value)
    requires Revalidates(s.staging.value, plan.registered.Keys, plan.manifest) && Free(s, plan.destination)
    ensures Next(e, s, Thread(t, Commits(Validate))) == Some(Move(s, t, Validated(plan)))
  {
    hide DestinationPolicy, TotalSize, ValidArtifactName;
  }

  lemma CommittedPasses(e: Env, s: State, t: nat, to: Path)
    requires At(s.threads, t) == Moved(to) && s.core.Some?
    ensures Next(e, s, Thread(t, Commits(MarkCommitted))) ==
            Some(Move(s, t, Idle).(core := Some(s.core.value.(phase := Committed)), commits := s.commits + 1, committed := Some(to)))
  {
    hide DestinationPolicy, TotalSize, ValidArtifactName, Revalidates, Crowded;
  }

  lemma CommitPublishes(e: Env, s: State, t: nat, plan: Plan)
    requires At(s.threads, t) == Ready(plan) && s.core.Some? && s.staging.Some? && !Crowded(s.staging.value)
    requires Revalidates(s.staging.value, plan.registered.Keys, plan.manifest) && Free(s, plan.destination)
    ensures Run(e, s, By(t, PUBLISH_ACTS)) ==
            Some(s.(threads := s.threads[t := Idle], staging := None,
                    published := s.published[plan.destination := s.staging.value],
                    core := Some(s.core.value.(phase := Committed)), commits := s.commits + 1, committed := Some(plan.destination)))
  {
    hide Commit, Revalidates, Crowded;
    ValidatePasses(e, s, t, plan);
    var s1 := Move(s, t, Validated(plan));
    var s2 := Move(s1, t, Moved(plan.destination)).(staging := None, published := s.published[plan.destination := s.staging.value]);
    var s3 := s.(threads := s.threads[t := Idle], staging := None, published := s2.published,
                 core := Some(s.core.value.(phase := Committed)), commits := s.commits + 1, committed := Some(plan.destination));
    assert Move(s2, t, Idle).threads == s3.threads;
    CommittedPasses(e, s2, t, plan.destination);
    RunThree(e, s, s1, s2, s3, t, Commits(Validate), Places(Publish), Commits(MarkCommitted));
  }

  /** The transaction once its manifest is placed. */
  function PreparedState(e: Env, s: State, t: nat, order: seq<string>, size: nat): State
    requires s.core.Some? && s.staging.Some? && s.staging.value.Keys == s.core.value.artifacts.Keys
    requires Orders(order, s.core.value.artifacts.Keys) && DestinationPolicy(e.root, s.core.value.destination).Ok?
  {
    var plan := PlanFor(e, s, order);
    s.(threads := s.threads[t := Ready(plan)],
       staging := Some(s.staging.value[MANIFEST_FILE_NAME := Content(size, Some(plan.manifest))]),
       core := Some(s.core.value.(phase := Prepared)), seal := Some(Seal(plan.manifest, plan.destination, t)))
  }

  /** What is sealed is complete, with one file more than the registry. */
  lemma PreparedIsExact(e: Env, s: State, t: nat, order: seq<string>, budget: nat, tmp: string, size: nat)
    requires Committable(e, s, t, order, budget, tmp)
    ensures var plan, placed := PlanFor(e, s, order), PreparedState(e, s, t, order, size).staging.value;
            && Exact(placed, plan.manifest) && Names(plan.manifest) == plan.registered.Keys
            && |plan.manifest.artifacts| == |order|
  {
    hide DestinationPolicy, TotalSize, ValidArtifactName;
    var plan, placed := PlanFor(e, s, order), PreparedState(e, s, t, order, size).staging.value;
    var m := plan.manifest;
    DottedNamesAreFree(plan.registered.Keys, tmp);
    assert forall i :: 0 <= i < |order| ==> m.artifacts[i].path == order[i];
    assert Names(m) == (set n | n in order);
    assert placed.Keys == s.staging.value.Keys + {MANIFEST_FILE_NAME};
    forall i | 0 <= i < |m.artifacts|
      ensures SizeHolds(placed, m.artifacts[i])
    {
      assert order[i] in (set n | n in order);
    }
  }

  lemma CommitPrepares(e: Env, s: State, t: nat, order: seq<string>, budget: nat, tmp: string, size: nat)
    requires Committable(e, s, t, order, budget, tmp) && size <= MAX_MANIFEST_BYTES
    ensures Run(e, s, By(t, SealActs(order, budget, tmp) + PlaceActs(size))) == Some(PreparedState(e, s, t, order, size))
  {
    hide Next, TotalSize;
    var dir, plan := s.staging.value, PlanFor(e, s, order);
    var s1 := s.(threads := s.threads[t := ManifestTmp(plan, tmp)], staging := Some(dir[tmp := Content(0, None)]),
                 core := Some(s.core.value.(phase := Preparing)));
    var s2 := PreparedState(e, s, t, order, size);
    DottedNamesAreFree(plan.registered.Keys, tmp);
    assert dir[tmp := Content(0, None)] - {tmp} == dir;
    assert s1.threads[t := Ready(plan)] == s2.threads;
    CommitSeals(e, s, t, order, budget, tmp);
    CommitPlaces(e, s1, t, plan, tmp, size);
    RunBoth(e, s, s1, s2, t, SealActs(order, budget, tmp), PlaceActs(size));
  }

  /**
    An uninterrupted commit of a transaction whose staged files are its registry, of at most 10,000 artifacts,
    publishes those files with a manifest that lists them, at the destination chosen before, and nothing stays staged.
  */
  lemma UninterruptedCommitPublishes(e: Env, s: State, t: nat, order: seq<string>, budget: nat, tmp: string, size: nat)
    requires Committable(e, s, t, order, budget, tmp) && size <= MAX_MANIFEST_BYTES && Free(s, s.core.value.destination)
    requires |order| <= MAX_RECOVERY_ARTIFACTS
    ensures var to, placed := s.core.value.destination, PreparedState(e, s, t, order, size);
            Run(e, s, By(t, (SealActs(order, budget, tmp) + PlaceActs(size)) + PUBLISH_ACTS)) ==
            Some(placed.(threads := placed.threads[t := Idle], staging := None,
                         published := s.published[to := placed.staging.value],
                         core := Some(s.core.value.(phase := Committed)), commits := s.commits + 1, committed := Some(to)))
  {
    hide Next, TotalSize;
    var to, placed, plan := s.core.value.destination, PreparedState(e, s, t, order, size), PlanFor(e, s, order);
    var after := placed.(threads := placed.threads[t := Idle], staging := None,
                         published := s.published[to := placed.staging.value],
                         core := Some(s.core.value.(phase := Committed)), commits := s.commits + 1, committed := Some(to));
    CommitPrepares(e, s, t, order, budget, tmp, size);
    PreparedIsExact(e, s, t, order, budget, tmp, size);
    CrowdedExactly(placed.staging.value, plan.manifest);
    assert Revalidates(placed.staging.value, plan.registered.Keys, plan.manifest);
    CommitPublishes(e, placed, t, plan);
    RunBoth(e, s, placed, after, t, SealActs(order, budget, tmp) + PlaceActs(size), PUBLISH_ACTS);
  }

  // One artifact too many

  /**
    The limit is heeded before the manifest is there, so a transaction of 10,001 artifacts is sealed like any
    other, and its own commit then refuses to publish it.
  */
  lemma OneTooManyIsSealed(e: Env, s: State, t: nat, order: seq<string>, budget: nat, tmp: string, size: nat)
    requires Committable(e, s, t, order, budget, tmp) && size <= MAX_MANIFEST_BYTES
    requires |order| == MAX_RECOVERY_ARTIFACTS + 1
    ensures var prepared := PreparedState(e, s, t, order, size);
            && Run(e, s, By(t, SealActs(order, budget, tmp) + PlaceActs(size))) == Some(prepared)
            && Next(e, prepared, Thread(t, Commits(Validate))).None?
            && Crowded(prepared.staging.value) && Holds(prepared.staging.value, prepared.seal.value.manifest)
  {
    hide Next, TotalSize;
    var prepared, plan := PreparedState(e, s, t, order, size), PlanFor(e, s, order);
    CommitPrepares(e, s, t, order, budget, tmp, size);
    PreparedIsExact(e, s, t, order, budget, tmp, size);
    CrowdedExactly(prepared.staging.value, plan.manifest);
    ValidatesExactly(e, prepared, t, plan);
  }

  /** Sealed with too many entries, and nobody past the checks that would refuse it. */
  ghost predicate Stuck(s: State, seal: Seal, dir: Dir) {
    && s.seal == Some(seal) && s.staging == Some(dir) && Holds(dir, seal.manifest) && Crowded(dir)
    && NobodyValidated(s) && forall a :: a in s.agents ==> !s.agents[a].Clearing?
  }

  lemma ThreadStaysStuck(e: Env, s: State, t: nat, act: Act, seal: Seal, dir: Dir)
    requires Inv(e, s) && Stuck(s, seal, dir) && ThreadNext(e, s, t, act).Some?
    ensures Stuck(ThreadNext(e, s, t, act).value, seal, dir)
  {
    hide DestinationPolicy, ValidArtifactName, TotalSize, Crowded, Holds, Revalidates;
    var after := ThreadNext(e, s, t, act).value;
    ThreadKeepsSealed(e, s, t, act, seal, dir);
    assert !At(s.threads, t).Validated?;
    assert forall u :: u != t ==> At(after.threads, u) == At(s.threads, u);
  }

  lemma PassStaysStuck(e: Env, s: State, a: nat, deed: Deed, seal: Seal, dir: Dir)
    requires Stuck(s, seal, dir) && PassNext(e, s, a, deed).Some?
    ensures Stuck(PassNext(e, s, a, deed).value, seal, dir)
  {
    hide DestinationFromPolicy, ValidNames, Holds, Revalidates;
  }

  lemma StepStaysStuck(e: Env, s: State, step: Step, seal: Seal, dir: Dir)
    requires Inv(e, s) && Stuck(s, seal, dir) && !step.Foreign? && Next(e, s, step).Some?
    ensures Stuck(Next(e, s, step).value, seal, dir)
  {
    match step
    case Thread(t, act) => ThreadStaysStuck(e, s, t, act, seal, dir);
    case Pass(a, deed) => PassStaysStuck(e, s, a, deed, seal, dir);
    case Crash => assert forall u :: At(Next(e, s, step).value.threads, u).Idle?;
    case Occupy(_) =>
  }

  lemma {:induction false} RunStaysStuck(e: Env, s: State, steps: seq<Step>, seal: Seal, dir: Dir)
    requires WellFormed(e.root) && Inv(e, s) && Stuck(s, seal, dir) && Run(e, s, steps).Some?
    requires forall i :: 0 <= i < |steps| ==> !steps[i].Foreign?
    ensures Inv(e, Run(e, s, steps).value) && Stuck(Run(e, s, steps).value, seal, dir)
    decreases |steps|
  {
    hide Next, Inv, Stuck;
    if steps != [] {
      StepStaysStuck(e, s, steps[0], seal, dir);
      NextKeepsInv(e, s, steps[0]);
      RunStaysStuck(e, Next(e, s, steps[0]).value, steps[1..], seal, dir);
    }
  }

  lemma PreparedIsStuck(e: Env, s: State, t: nat, order: seq<string>, budget: nat, tmp: string, size: nat)
    requires Inv(e, s) && Committable(e, s, t, order, budget, tmp)
    requires var p := PreparedState(e, s, t, order, size); Crowded(p.staging.value) && Holds(p.staging.value, p.seal.value.manifest)
    ensures var p := PreparedState(e, s, t, order, size); Stuck(p, p.seal.value, p.staging.value)
  {
    hide DestinationPolicy, ValidArtifactName, TotalSize, Crowded, Holds;
    var p := PreparedState(e, s, t, order, size);
    forall u
      ensures !At(p.threads, u).Validated?
    {
      assert Local(e, s.core, s.staging, s.seal, s.lock, At(s.threads, u));
    }
  }

  /**
    From then on nothing that follows the protocol, no commit, drop, crash, recovery or scavenging, in any
    interleaving, publishes the report or takes any of it away: it stays staged for good.
  */
  lemma OneTooManyIsNeverPublished(e: Env, s: State, t: nat, order: seq<string>, budget: nat, tmp: string, size: nat, steps: seq<Step>)
    requires WellFormed(e.root) && Inv(e, s) && Committable(e, s, t, order, budget, tmp) && size <= MAX_MANIFEST_BYTES
    requires |order| == MAX_RECOVERY_ARTIFACTS + 1
    requires Run(e, PreparedState(e, s, t, order, size), steps).Some?
    requires forall i :: 0 <= i < |steps| ==> !steps[i].Foreign?
    ensures var prepared := PreparedState(e, s, t, order, size);
            var after := Run(e, prepared, steps).value;
            after.staging == prepared.staging && after.published == map[]
  {
    hide Next, TotalSize;
    var prepared := PreparedState(e, s, t, order, size);
    OneTooManyIsSealed(e, s, t, order, budget, tmp, size);
    RunKeepsInv(e, s, By(t, SealActs(order, budget, tmp) + PlaceActs(size)));
    PreparedIsStuck(e, s, t, order, budget, tmp, size);
    RunStaysStuck(e, prepared, steps, prepared.seal.value, prepared.staging.value);
  }
}
