/**
  What every step of a report's life keeps, and what follows for whole runs: a
  published report is complete and never replaced, a sealed one is never lost by
  its own process, and recovery publishes it where its commit would have.
*/
module ArtifactSafety {
  import opened Wrappers
  import opened ArtifactPaths
  import opened ArtifactStore

  // The invariant

  predicate KindsHold(m: Manifest, registered: map<string, Kind>) {
    forall i :: 0 <= i < |m.artifacts| ==> m.artifacts[i].path in registered && registered[m.artifacts[i].path] == m.artifacts[i].kind
  }

  predicate PlanHolds(e: Env, plan: Plan) {
    && Identified(e, plan.manifest)
    && Distinct(plan.manifest)
    && Names(plan.manifest) == plan.registered.Keys
    && KindsHold(plan.manifest, plan.registered)
    && ValidNames(plan.registered.Keys)
    && WellFormed(plan.destination)
    && DestinationPolicy(e.root, plan.destination) == Ok(plan.manifest.destination)
  }

  predicate CoreHolds(e: Env, core: Core) {
    && ValidNames(core.artifacts.Keys)
    && WellFormed(core.destination)
    && DestinationPolicy(e.root, core.destination).Ok?
    && (core.phase.Open? ==> core.active <= 1)
    && (!core.phase.Open? ==> core.active == 0)
  }

  predicate Frozen(core: Core, plan: Plan) {
    plan.registered == core.artifacts && plan.destination == core.destination
  }

  predicate SealMatches(seal: Option<Seal>, plan: Plan) {
    seal.Some? ==> seal.value.manifest == plan.manifest && seal.value.destination == plan.destination
  }

  /** What a thread at an engaged position knows of the transaction. */
  predicate Local(e: Env, core: Option<Core>, staging: Option<Dir>, seal: Option<Seal>, lock: Option<Holder>, p: Position) {
    match p
    case Idle => true
    case Amending(_, _) => true
    case Creating => core.None? && seal.None?
    case Dropping(removing) => core.None? && lock == Some(Owner) && (removing ==> seal.None?)
    case Operating => core.Some? && core.value.phase.Open? && core.value.active == 1
    case Writing(name, _, _) => core.Some? && core.value.phase.Open? && core.value.active == 1 && ValidArtifactName(name)
    case Renamed(name, _) => core.Some? && core.value.phase.Open? && core.value.active == 1 && ValidArtifactName(name)
    case Sealing(registered, to) =>
      core.Some? && core.value.phase.Preparing? && seal.None? && registered == core.value.artifacts && to == core.value.destination
    case Built(plan) =>
      core.Some? && core.value.phase.Preparing? && seal.None? && PlanHolds(e, plan) && Frozen(core.value, plan)
    case ManifestTmp(plan, _) =>
      core.Some? && core.value.phase.Preparing? && seal.None? && PlanHolds(e, plan) && Frozen(core.value, plan)
    case ManifestWritten(plan, _) =>
      core.Some? && core.value.phase.Preparing? && seal.None? && PlanHolds(e, plan) && Frozen(core.value, plan)
    case ManifestPlaced(plan) =>
      core.Some? && core.value.phase.Preparing? && PlanHolds(e, plan) && Frozen(core.value, plan) && SealMatches(seal, plan)
    case Ready(plan) =>
      core.Some? && core.value.phase.Prepared? && PlanHolds(e, plan) && Frozen(core.value, plan) && SealMatches(seal, plan)
    case Validated(plan) =>
      && core.Some? && core.value.phase.Prepared? && PlanHolds(e, plan) && Frozen(core.value, plan) && SealMatches(seal, plan)
      && (staging.Some? ==> Exact(staging.value, plan.manifest))
    case Moved(_) => core.Some? && core.value.phase.Prepared?
  }

  predicate AmendHolds(published: map<Path, Dir>, p: Position) {
    p.Amending? ==>
      && p.at in published
      && MANIFEST_FILE_NAME in published[p.at]
      && published[p.at][MANIFEST_FILE_NAME].manifest.Some?
      && SameButDiagnostics(published[p.at][MANIFEST_FILE_NAME].manifest.value, p.manifest)
  }

  ghost predicate Exclusive(threads: map<nat, Position>) {
    forall t, u :: Engaged(At(threads, t)) && Engaged(At(threads, u)) ==> t == u
  }

  ghost predicate ThreadsHold(e: Env, s: State) {
    && Exclusive(s.threads)
    && (forall t :: Local(e, s.core, s.staging, s.seal, s.lock, At(s.threads, t)))
    && (forall t :: AmendHolds(s.published, At(s.threads, t)))
  }

  /** An open transaction with no active operation has no thread inside it. */
  ghost predicate QuietHolds(s: State) {
    s.core.Some? && Admission(s.core.value).None? ==> NobodyEngaged(s.threads)
  }

  predicate JobHolds(e: Env, staging: Option<Dir>, job: Job) {
    match job
    case Holding(_) => true
    case Clearing(_) => true
    case Inspected(m) => Identified(e, m) && Distinct(m) && ValidNames(Names(m))
    case Approved(m, to) =>
      && Identified(e, m) && Distinct(m) && ValidNames(Names(m))
      && DestinationFromPolicy(e.root, m.destination) == Ok(to)
      && (staging.Some? ==> Exact(staging.value, m))
  }

  ghost predicate AgentsHold(e: Env, s: State) {
    forall a :: a in s.agents ==> s.lock == Some(Agent(a)) && JobHolds(e, s.staging, s.agents[a])
  }

  predicate SealHolds(e: Env, seal: Seal) {
    && Identified(e, seal.manifest)
    && Distinct(seal.manifest)
    && ValidNames(Names(seal.manifest))
    && WellFormed(seal.destination)
    && DestinationPolicy(e.root, seal.destination) == Ok(seal.manifest.destination)
  }

  ghost predicate CoreInv(e: Env, s: State) {
    s.core.Some? ==>
      && CoreHolds(e, s.core.value)
      && s.lock == Some(Owner)
      && (!s.core.value.phase.Committed? ==> s.commits == 0)
      && (s.core.value.phase.Open? ==> s.seal.None?)
      && (s.core.value.phase.Preparing? && s.seal.Some? ==> At(s.threads, s.seal.value.sealer).ManifestPlaced?)
  }

  ghost predicate HistoryHolds(e: Env, s: State) {
    && s.commits <= 1
    && (s.committed.Some? ==> s.commits == 1)
    && (s.seal.Some? ==> SealHolds(e, s.seal.value))
    && (forall t :: At(s.threads, t).Creating? ==> s.commits == 0)
    && (!s.begun ==> s == INITIAL.(occupied := s.occupied))
  }

  ghost predicate PublishedHold(e: Env, s: State) {
    && (s.published != map[] ==> s.staging.None?)
    && (forall p, q :: p in s.published && q in s.published ==> p == q)
    && (forall p :: p in s.published ==> Sound(e, s.published[p]))
  }

  ghost predicate Inv(e: Env, s: State) {
    && ThreadsHold(e, s)
    && QuietHolds(s)
    && AgentsHold(e, s)
    && CoreInv(e, s)
    && HistoryHolds(e, s)
    && PublishedHold(e, s)
  }

  // Threads

  /** A step by a thread that is alone inside the transaction, or that stays outside it. */
  lemma ThreadMoves(e: Env, s: State, after: State, t: nat, p: Position)
    requires ThreadsHold(e, s)
    requires after.threads == s.threads[t := p]
    requires Engaged(At(s.threads, t)) || NobodyEngaged(s.threads)
    requires Local(e, after.core, after.staging, after.seal, after.lock, p)
    requires AmendHolds(after.published, p)
    requires forall u :: AmendHolds(s.published, At(s.threads, u)) ==> AmendHolds(after.published, At(s.threads, u))
    ensures ThreadsHold(e, after)
  {
    assert forall u :: u != t ==> At(after.threads, u) == At(s.threads, u) && !Engaged(At(s.threads, u));
    assert At(after.threads, t) == p;
  }

  lemma OutsiderMoves(e: Env, s: State, after: State, t: nat, p: Position)
    requires ThreadsHold(e, s)
    requires after.threads == s.threads[t := p] && !Engaged(p)
    requires after.core == s.core && after.staging == s.staging && after.seal == s.seal && after.lock == s.lock
    requires AmendHolds(after.published, p)
    requires forall u :: AmendHolds(s.published, At(s.threads, u)) ==> AmendHolds(after.published, At(s.threads, u))
    ensures ThreadsHold(e, after)
  {
    assert forall u :: u != t ==> At(after.threads, u) == At(s.threads, u);
    assert At(after.threads, t) == p;
  }

  lemma PlanIsExact(e: Env, dir: Dir, plan: Plan)
    requires PlanHolds(e, plan) && Revalidates(dir, plan.registered.Keys, plan.manifest)
    ensures Exact(dir, plan.manifest)
  {
  }

  lemma BuiltPlanHolds(e: Env, dir: Dir, registered: map<string, Kind>, order: seq<string>, to: Path)
    requires Orders(order, registered.Keys) && dir.Keys == registered.Keys
    requires ValidNames(registered.Keys) && WellFormed(to) && DestinationPolicy(e.root, to).Ok?
    ensures PlanHolds(e, Plan(BuildManifest(e, dir, registered, order, DestinationPolicy(e.root, to).value), registered, to))
  {
    var m := BuildManifest(e, dir, registered, order, DestinationPolicy(e.root, to).value);
    assert Names(m) == registered.Keys by {
      forall n | n in registered.Keys
        ensures n in Names(m)
      {
        var i :| 0 <= i < |order| && order[i] == n;
        assert m.artifacts[i].path == n;
      }
    }
  }

  /** The invariant after a step of thread `t`, from what the step makes of the shared parts and of `t` itself. */
  lemma InvAfterThread(e: Env, s: State, after: State, t: nat, p: Position)
    requires Inv(e, s)
    requires after.threads == s.threads[t := p]
    requires Engaged(At(s.threads, t)) || NobodyEngaged(s.threads)
    requires Local(e, after.core, after.staging, after.seal, after.lock, p)
    requires AmendHolds(after.published, p)
    requires forall u :: AmendHolds(s.published, At(s.threads, u)) ==> AmendHolds(after.published, At(s.threads, u))
    requires Engaged(p) && after.core.Some? ==> Admission(after.core.value).Some?
    requires AgentsHold(e, after) && CoreInv(e, after) && PublishedHold(e, after)
    requires CountsHold(e, after) && (p.Creating? ==> after.commits == 0)
    ensures Inv(e, after)
  {
    ThreadMoves(e, s, after, t, p);
    assert forall u :: u != t ==> At(after.threads, u) == At(s.threads, u) && !Engaged(At(s.threads, u));
    assert At(after.threads, t) == p;
  }

  ghost predicate CountsHold(e: Env, s: State) {
    && s.begun
    && s.commits <= 1
    && (s.committed.Some? ==> s.commits == 1)
    && (s.seal.Some? ==> SealHolds(e, s.seal.value))
  }

  lemma BeginKeepsInv(e: Env, s: State, t: nat, act: BeginAct)
    requires WellFormed(e.root) && Inv(e, s) && Begin(e, s, t, act).Some?
    ensures Inv(e, Begin(e, s, t, act).value)
  {
    var after := Begin(e, s, t, act).value;
    assert Local(e, s.core, s.staging, s.seal, s.lock, At(s.threads, t));
    InvAfterThread(e, s, after, t, At(after.threads, t));
  }

  lemma WriteKeepsInv(e: Env, s: State, t: nat, act: WriteAct)
    requires Inv(e, s) && Write(s, t, act).Some?
    ensures Inv(e, Write(s, t, act).value)
  {
    var after := Write(s, t, act).value;
    assert Local(e, s.core, s.staging, s.seal, s.lock, At(s.threads, t));
    InvAfterThread(e, s, after, t, At(after.threads, t));
  }

  lemma OperateKeepsInv(e: Env, s: State, t: nat, act: OperateAct)
    requires Inv(e, s) && Operate(e, s, t, act).Some?
    ensures Inv(e, Operate(e, s, t, act).value)
  {
    var after := Operate(e, s, t, act).value;
    assert Local(e, s.core, s.staging, s.seal, s.lock, At(s.threads, t));
    InvAfterThread(e, s, after, t, At(after.threads, t));
  }

  lemma CommitKeepsInv(e: Env, s: State, t: nat, act: CommitAct)
    requires Inv(e, s) && Commit(e, s, t, act).Some?
    ensures Inv(e, Commit(e, s, t, act).value)
  {
    var after := Commit(e, s, t, act).value;
    var p := At(s.threads, t);
    assert Local(e, s.core, s.staging, s.seal, s.lock, p);
    if act.Build? {
      BuiltPlanHolds(e, s.staging.value, p.registered, act.order, p.to);
    } else if act.Validate? {
      PlanIsExact(e, s.staging.value, p.plan);
    }
    InvAfterThread(e, s, after, t, At(after.threads, t));
  }

  lemma PublishKeepsInv(e: Env, s: State, t: nat)
    requires Inv(e, s) && Place(s, t, Publish).Some?
    ensures Inv(e, Place(s, t, Publish).value)
  {
    var after := Place(s, t, Publish).value;
    assert Local(e, s.core, s.staging, s.seal, s.lock, At(s.threads, t));
    assert s.published == map[];
    InvAfterThread(e, s, after, t, At(after.threads, t));
  }

  lemma PlaceManifestKeepsInv(e: Env, s: State, t: nat)
    requires Inv(e, s) && Place(s, t, PlaceManifest).Some?
    ensures Inv(e, Place(s, t, PlaceManifest).value)
  {
    var after := Place(s, t, PlaceManifest).value;
    assert Local(e, s.core, s.staging, s.seal, s.lock, At(s.threads, t));
    InvAfterThread(e, s, after, t, At(after.threads, t));
  }

  lemma PlaceKeepsInv(e: Env, s: State, t: nat, act: PlaceAct)
    requires Inv(e, s) && !act.Publish? && !act.PlaceManifest? && Place(s, t, act).Some?
    ensures Inv(e, Place(s, t, act).value)
  {
    var after := Place(s, t, act).value;
    assert Local(e, s.core, s.staging, s.seal, s.lock, At(s.threads, t));
    InvAfterThread(e, s, after, t, At(after.threads, t));
  }

  lemma DropKeepsInv(e: Env, s: State, t: nat, act: DropAct)
    requires Inv(e, s) && DropNext(s, t, act).Some?
    ensures Inv(e, DropNext(s, t, act).value)
  {
    var after := DropNext(s, t, act).value;
    assert Local(e, s.core, s.staging, s.seal, s.lock, At(s.threads, t));
    InvAfterThread(e, s, after, t, At(after.threads, t));
  }

  // Final diagnostics

  lemma AmendedIsSound(e: Env, dir: Dir, m: Manifest, size: nat)
    requires Sound(e, dir) && SameButDiagnostics(dir[MANIFEST_FILE_NAME].manifest.value, m)
    ensures Sound(e, dir[MANIFEST_FILE_NAME := Content(size, Some(m))])
    ensures Exact(dir[MANIFEST_FILE_NAME := Content(size, Some(m))], m)
  {
    var before := dir[MANIFEST_FILE_NAME].manifest.value;
    var amended := dir[MANIFEST_FILE_NAME := Content(size, Some(m))];
    assert m.artifacts == before.artifacts && Names(m) == Names(before);
    forall i | 0 <= i < |m.artifacts|
      ensures SizeHolds(amended, m.artifacts[i])
    {
      assert SizeHolds(dir, before.artifacts[i]) && m.artifacts[i].path in Names(m);
    }
  }

  lemma AmendKeepsInv(e: Env, s: State, t: nat, act: AmendAct)
    requires Inv(e, s) && Amend(e, s, t, act).Some?
    ensures Inv(e, Amend(e, s, t, act).value)
  {
    var after := Amend(e, s, t, act).value;
    var p := At(s.threads, t);
    assert Local(e, s.core, s.staging, s.seal, s.lock, p) && AmendHolds(s.published, p);
    if act.EndAmend? {
      AmendedIsSound(e, s.published[p.at], p.manifest, act.size);
    }
    OutsiderMoves(e, s, after, t, At(after.threads, t));
    assert forall u :: u != t ==> At(after.threads, u) == At(s.threads, u);
    assert !Engaged(At(after.threads, t));
  }

  // Passes of other processes, crashes and outside writers

  lemma ApprovedIsExact(e: Env, dir: Dir, m: Manifest)
    requires Distinct(m) && ValidNames(Names(m)) && Revalidates(dir, Names(m), m)
    ensures Exact(dir, m)
  {
  }

  /** A step that leaves the threads alone, while no transaction is open. */
  lemma InvAfterPass(e: Env, s: State, after: State)
    requires Inv(e, s)
    requires after.threads == s.threads && after.core == s.core && after.seal == s.seal && after.begun == s.begun
    requires after.commits == s.commits && after.committed == s.committed
    requires s.begun && s.core.None? && forall t :: !At(s.threads, t).Dropping?
    requires forall t :: AmendHolds(s.published, At(s.threads, t)) ==> AmendHolds(after.published, At(s.threads, t))
    requires AgentsHold(e, after) && PublishedHold(e, after)
    ensures Inv(e, after)
  {
    forall t
      ensures Local(e, after.core, after.staging, after.seal, after.lock, At(after.threads, t))
    {
      assert Local(e, s.core, s.staging, s.seal, s.lock, At(s.threads, t));
    }
  }

  lemma PassKeepsJob(e: Env, s: State, a: nat, deed: Deed)
    requires PassNext(e, s, a, deed).Some? && (a in s.agents ==> JobHolds(e, s.staging, s.agents[a]))
    ensures var after := PassNext(e, s, a, deed).value;
            a in after.agents ==> JobHolds(e, after.staging, after.agents[a])
  {
    hide DestinationPolicy, DestinationFromPolicy, ValidArtifactName, Exact, SizesHold, Holds;
    if deed.Approve? {
      ApprovedIsExact(e, s.staging.value, s.agents[a].manifest);
    }
  }

  lemma PassKeepsAgents(e: Env, s: State, a: nat, deed: Deed)
    requires AgentsHold(e, s) && PassNext(e, s, a, deed).Some?
    ensures AgentsHold(e, PassNext(e, s, a, deed).value)
  {
    hide DestinationPolicy, DestinationFromPolicy, ValidArtifactName, JobHolds, Revalidates, ValidNames, Distinct;
    PassKeepsJob(e, s, a, deed);
  }

  lemma PassKeepsPublished(e: Env, s: State, a: nat, deed: Deed)
    requires AgentsHold(e, s) && PublishedHold(e, s) && PassNext(e, s, a, deed).Some?
    ensures var after := PassNext(e, s, a, deed).value;
            PublishedHold(e, after) && forall p :: p in s.published ==> p in after.published && after.published[p] == s.published[p]
  {
    hide DestinationPolicy, DestinationFromPolicy, ValidArtifactName;
  }

  lemma PassKeepsInv(e: Env, s: State, a: nat, deed: Deed)
    requires Inv(e, s) && PassNext(e, s, a, deed).Some?
    ensures Inv(e, PassNext(e, s, a, deed).value)
  {
    hide DestinationPolicy, DestinationFromPolicy, ValidArtifactName, JobHolds, Sound;
    var after := PassNext(e, s, a, deed).value;
    forall t
      ensures !At(s.threads, t).Dropping?
    {
      assert Local(e, s.core, s.staging, s.seal, s.lock, At(s.threads, t));
    }
    PassKeepsAgents(e, s, a, deed);
    PassKeepsPublished(e, s, a, deed);
    InvAfterPass(e, s, after);
  }

  lemma OutsideKeepsInv(e: Env, s: State, step: Step)
    requires Inv(e, s) && (step.Crash? || step.Foreign? || step.Occupy?) && Next(e, s, step).Some?
    ensures Inv(e, Next(e, s, step).value)
  {
    var after := Next(e, s, step).value;
    if step.Crash? {
      assert forall t :: At(after.threads, t).Idle?;
    } else {
      forall t
        ensures Local(e, after.core, after.staging, after.seal, after.lock, At(after.threads, t))
      {
        assert Local(e, s.core, s.staging, s.seal, s.lock, At(s.threads, t));
      }
    }
  }

  lemma NextKeepsInv(e: Env, s: State, step: Step)
    requires WellFormed(e.root) && Inv(e, s) && Next(e, s, step).Some?
    ensures Inv(e, Next(e, s, step).value)
  {
    match step
    case Pass(a, deed) => PassKeepsInv(e, s, a, deed);
    case Thread(t, act) => ThreadKeepsInv(e, s, t, act);
    case _ => OutsideKeepsInv(e, s, step);
  }

  lemma ThreadKeepsInv(e: Env, s: State, t: nat, act: Act)
    requires WellFormed(e.root) && Inv(e, s) && ThreadNext(e, s, t, act).Some?
    ensures Inv(e, ThreadNext(e, s, t, act).value)
  {
    match act
    case Begins(a) => BeginKeepsInv(e, s, t, a);
    case Writes(a) => WriteKeepsInv(e, s, t, a);
    case Operates(a) => OperateKeepsInv(e, s, t, a);
    case Commits(a) => CommitKeepsInv(e, s, t, a);
    case Places(a) =>
      if a.Publish? {
        PublishKeepsInv(e, s, t);
      } else if a.PlaceManifest? {
        PlaceManifestKeepsInv(e, s, t);
      } else {
        PlaceKeepsInv(e, s, t, a);
      }
    case Amends(a) => AmendKeepsInv(e, s, t, a);
    case Drops(a) => DropKeepsInv(e, s, t, a);
  }
}
