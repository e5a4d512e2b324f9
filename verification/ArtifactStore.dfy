/**
  One report's life on disk (src/pipeline/artifact.rs): the threads of the process
  that owns its transaction, recovery and scavenging passes of other processes,
  writers outside the protocol, and a crash between any two steps.

  A report's files lie only under its own staging name and its own report name,
  so the steps of different reports never touch the same file.
*/
module ArtifactStore {
  import opened Wrappers
  import opened ArtifactPaths

  const MANIFEST_SCHEMA_VERSION := 1
  const MAX_RECOVERY_ARTIFACTS := 10_000
  const MAX_RECOVERY_REPORT_ENTRIES := 10_001
  const MAX_MANIFEST_BYTES := 1024 * 1024

  // Directories and manifests

  type Kind = nat

  datatype Entry = Entry(path: string, kind: Kind, size: nat)

  datatype Manifest = Manifest(
    schema: nat, id: string, destination: Destination, artifacts: seq<Entry>, diagnostics: Option<nat>)

  /** A file's length, and the manifest read from it within the size limit, if any. */
  datatype Content = Content(size: nat, manifest: Option<Manifest>)

  type Dir = map<string, Content>

  datatype Env = Env(id: string, root: Path)

  function Names(m: Manifest): set<string> {
    set i | 0 <= i < |m.artifacts| :: m.artifacts[i].path
  }

  predicate Distinct(m: Manifest) {
    forall i, j :: 0 <= i < j < |m.artifacts| ==> m.artifacts[i].path != m.artifacts[j].path
  }

  predicate SizeHolds(dir: Dir, entry: Entry) {
    entry.path in dir && dir[entry.path].size == entry.size
  }

  predicate SizesHold(dir: Dir, m: Manifest) {
    forall i :: 0 <= i < |m.artifacts| ==> SizeHolds(dir, m.artifacts[i])
  }

  predicate Holds(dir: Dir, m: Manifest) {
    MANIFEST_FILE_NAME in dir && dir[MANIFEST_FILE_NAME].manifest == Some(m)
  }

  /** The directory holds the manifest, and its other files are exactly the listed ones at the listed sizes. */
  predicate Exact(dir: Dir, m: Manifest) {
    && Holds(dir, m)
    && Distinct(m)
    && MANIFEST_FILE_NAME !in Names(m)
    && dir.Keys == Names(m) + {MANIFEST_FILE_NAME}
    && SizesHold(dir, m)
  }

  predicate Identified(e: Env, m: Manifest) {
    m.schema == MANIFEST_SCHEMA_VERSION && m.id == e.id
  }

  predicate Sound(e: Env, dir: Dir) {
    && MANIFEST_FILE_NAME in dir
    && dir[MANIFEST_FILE_NAME].manifest.Some?
    && Exact(dir, dir[MANIFEST_FILE_NAME].manifest.value)
    && Identified(e, dir[MANIFEST_FILE_NAME].manifest.value)
  }

  predicate SameButDiagnostics(m: Manifest, n: Manifest) {
    m.(diagnostics := None) == n.(diagnostics := None)
  }

  predicate ValidNames(names: set<string>) {
    forall n :: n in names ==> ValidArtifactName(n)
  }

  /** The comparison made just before a directory is published. */
  predicate Revalidates(dir: Dir, names: set<string>, m: Manifest) {
    && Holds(dir, m)
    && dir.Keys - {MANIFEST_FILE_NAME} == names
    && SizesHold(dir, m)
  }

  /** A directory with more entries than any scan of it accepts. */
  predicate Crowded(dir: Dir) {
    |dir| > MAX_RECOVERY_REPORT_ENTRIES
  }

  lemma {:induction false} NamesCount(m: Manifest)
    requires Distinct(m)
    ensures |Names(m)| == |m.artifacts|
    decreases |m.artifacts|
  {
    if m.artifacts != [] {
      var n := |m.artifacts| - 1;
      var shorter := m.(artifacts := m.artifacts[..n]);
      NamesCount(shorter);
      assert Names(m) == Names(shorter) + {m.artifacts[n].path};
    }
  }

  /** A complete report directory is too large to publish exactly when it has more artifacts than recovery accepts. */
  lemma CrowdedExactly(dir: Dir, m: Manifest)
    requires Exact(dir, m)
    ensures Crowded(dir) <==> |m.artifacts| > MAX_RECOVERY_ARTIFACTS
  {
    NamesCount(m);
    assert |dir| == |dir.Keys| == |Names(m)| + 1;
  }

  function TotalSize(artifacts: seq<Entry>): nat {
    if artifacts == [] then 0 else TotalSize(artifacts[..|artifacts| - 1]) + artifacts[|artifacts| - 1].size
  }

  predicate Orders(order: seq<string>, names: set<string>) {
    && (forall i, j :: 0 <= i < j < |order| ==> order[i] != order[j])
    && (set n | n in order) == names
  }

  function BuildManifest(e: Env, dir: Dir, registered: map<string, Kind>, order: seq<string>, to: Destination): Manifest
    requires Orders(order, registered.Keys) && registered.Keys <= dir.Keys
  {
    assert forall i :: 0 <= i < |order| ==> order[i] in (set n | n in order);
    Manifest(MANIFEST_SCHEMA_VERSION, e.id, to,
             seq(|order|, i requires 0 <= i < |order| => Entry(order[i], registered[order[i]], dir[order[i]].size)), None)
  }

  // The transaction core

  datatype Phase = Open | Preparing | Prepared | Committed

  datatype Core = Core(phase: Phase, active: nat, artifacts: map<string, Kind>, destination: Path)

  datatype Refusal = OperationActive | IsPreparing | AlreadyPrepared | AlreadyCommitted

  /** The test that both operations and the commit pass before they change the core. */
  function Admission(core: Core): Option<Refusal> {
    match core.phase
    case Open => if core.active == 0 then None else Some(OperationActive)
    case Preparing => Some(IsPreparing)
    case Prepared => Some(AlreadyPrepared)
    case Committed => Some(AlreadyCommitted)
  }

  // Threads of the owner process, and passes of other processes

  datatype Plan = Plan(manifest: Manifest, registered: map<string, Kind>, destination: Path)

  datatype Position =
    | Idle
    | Creating
    | Operating
    | Writing(name: string, kind: Kind, tmp: string)
    | Renamed(name: string, kind: Kind)
    | Sealing(registered: map<string, Kind>, to: Path)
    | Built(plan: Plan)
    | ManifestTmp(plan: Plan, tmp: string)
    | ManifestWritten(plan: Plan, tmp: string)
    | ManifestPlaced(plan: Plan)
    | Ready(plan: Plan)
    | Validated(plan: Plan)
    | Moved(to: Path)
    | Dropping(removing: bool)
    | Amending(at: Path, manifest: Manifest)

  datatype Job =
    | Holding(scavenging: bool)
    | Inspected(manifest: Manifest)
    | Approved(manifest: Manifest, destination: Path)
    | Clearing(children: set<string>)

  datatype Holder = Owner | Agent(a: nat)

  /** The manifest a commit placed in staging, where that commit would publish it, and the thread that placed it. */
  datatype Seal = Seal(manifest: Manifest, destination: Path, sealer: nat)

  datatype State = State(
    staging: Option<Dir>,
    published: map<Path, Dir>,
    occupied: set<Path>,
    lock: Option<Holder>,
    core: Option<Core>,
    threads: map<nat, Position>,
    agents: map<nat, Job>,
    begun: bool,
    seal: Option<Seal>,
    commits: nat,
    committed: Option<Path>)

  const INITIAL := State(None, map[], {}, None, None, map[], map[], false, None, 0, None)

  function At(threads: map<nat, Position>, t: nat): Position {
    if t in threads then threads[t] else Idle
  }

  predicate Free(s: State, at: Path) {
    at !in s.published && at !in s.occupied
  }

  predicate Engaged(p: Position) {
    !p.Idle? && !p.Amending?
  }

  ghost predicate NobodyEngaged(threads: map<nat, Position>) {
    forall t :: !Engaged(At(threads, t))
  }

  ghost predicate NobodyValidated(s: State) {
    && (forall t :: !At(s.threads, t).Validated?)
    && (forall a :: a in s.agents ==> !s.agents[a].Approved?)
  }

  datatype BeginAct = Create | TakeLock | GiveUp(removed: bool)

  datatype WriteAct =
    | StartWrite(name: string, kind: Kind, tmp: string)
    | Fill(content: Content)
    | Rename
    | AbandonWrite(removed: bool)

  datatype OperateAct =
    | BeginOperation
    | Insert
    | Register(name: string, kind: Kind)
    | Unregister(name: string)
    | SetDestination(to: Path)
    | EndOperation

  /** Building the manifest lists the registry in order and heeds the byte budget of the report's policy. */
  datatype CommitAct = BeginCommit | Build(order: seq<string>, budget: nat) | MarkPrepared | Validate | MarkCommitted | AbandonCommit

  datatype PlaceAct =
    | StartManifest(tmp: string)
    | FillManifest(size: nat)
    | PlaceManifest
    | AbandonManifest(removed: bool)
    | Publish

  datatype AmendAct = StartAmend(diagnostics: nat) | EndAmend(size: nat) | AbandonAmend

  datatype DropAct = Drop | RemoveChild(name: string) | RemoveDir | EndDrop

  datatype Act =
    | Begins(begin: BeginAct)
    | Writes(write: WriteAct)
    | Operates(operate: OperateAct)
    | Commits(commit: CommitAct)
    | Places(place: PlaceAct)
    | Amends(amend: AmendAct)
    | Drops(drop: DropAct)

  datatype Deed = TryLock(scavenging: bool) | Inspect | Approve | Install | Scan | ClearChild(name: string) | ClearDir | Leave

  datatype Step =
    | Thread(t: nat, act: Act)
    | Pass(a: nat, deed: Deed)
    | Crash
    | Foreign(dir: Option<Dir>)
    | Occupy(at: Path)

  function Move(s: State, t: nat, p: Position): State {
    s.(threads := s.threads[t := p])
  }

  /** Creating the hidden directory and taking its owner lock. */
  function Begin(e: Env, s: State, t: nat, act: BeginAct): (r: Option<State>)
    ensures r.Some? ==> r.value == Move(s, t, At(r.value.threads, t)).(staging := r.value.staging, core := r.value.core, lock := r.value.lock, begun := r.value.begun)
  {
    match (act, At(s.threads, t))
    case (Create, Idle) =>
      if s.begun then None else Some(Move(s, t, Creating).(begun := true, staging := Some(map[])))
    case (TakeLock, Creating) =>
      if s.lock.Some? then None
      else Some(Move(s, t, Idle).(lock := Some(Owner), core := Some(Core(Open, 0, map[], e.root))))
    case (GiveUp(removed), Creating) =>
      Some(Move(s, t, Idle).(staging := if removed && s.staging == Some(map[]) then None else s.staging))
    case _ => None
  }

  /** Writing one artifact beside its final name and renaming it there. */
  function Write(s: State, t: nat, act: WriteAct): (r: Option<State>)
    ensures r.Some? ==> r.value == Move(s, t, At(r.value.threads, t)).(staging := r.value.staging)
  {
    if s.staging.None? then
      if act.AbandonWrite? && At(s.threads, t).Writing? then Some(Move(s, t, Operating)) else None
    else
      var dir := s.staging.value;
      match (act, At(s.threads, t))
      case (StartWrite(name, kind, tmp), Operating) =>
        if !ValidArtifactName(name) || name in dir || tmp in dir || tmp == "" || tmp[0] != '.' then None
        else Some(Move(s, t, Writing(name, kind, tmp)).(staging := Some(dir[tmp := Content(0, None)])))
      case (Fill(content), Writing(name, kind, tmp)) =>
        if tmp !in dir then None
        else Some(Move(s, t, Writing(name, kind, tmp)).(staging := Some(dir[tmp := content])))
      case (Rename, Writing(name, kind, tmp)) =>
        if tmp !in dir || name in dir then None
        else Some(Move(s, t, Renamed(name, kind)).(staging := Some((dir - {tmp})[name := dir[tmp]])))
      case (AbandonWrite(removed), Writing(_, _, tmp)) =>
        Some(Move(s, t, Operating).(staging := Some(if removed then dir - {tmp} else dir)))
      case _ => None
  }

  /** The changes made to the core under its mutex while an operation is active. */
  function Operate(e: Env, s: State, t: nat, act: OperateAct): (r: Option<State>)
    ensures r.Some? ==> r.value == Move(s, t, At(r.value.threads, t)).(core := r.value.core)
  {
    if s.core.None? then None else
      var core := s.core.value;
      match (act, At(s.threads, t))
      case (BeginOperation, Idle) =>
        if Admission(core).Some? then None
        else Some(Move(s, t, Operating).(core := Some(core.(active := 1))))
      case (Insert, Renamed(name, kind)) =>
        Some(Move(s, t, Operating).(core := Some(core.(artifacts := core.artifacts[name := kind]))))
      case (Register(name, kind), Operating) =>
        if s.staging.None? || !ValidArtifactName(name) || name !in s.staging.value then None
        else Some(Move(s, t, Operating).(core := Some(core.(artifacts := core.artifacts[name := kind]))))
      case (Unregister(name), Operating) =>
        if !ValidArtifactName(name) then None
        else Some(Move(s, t, Operating).(core := Some(core.(artifacts := core.artifacts - {name}))))
      case (SetDestination(to), Operating) =>
        if !WellFormed(to) || DestinationPolicy(e.root, to).Err? then None
        else Some(Move(s, t, Operating).(core := Some(core.(destination := to))))
      case (EndOperation, Operating) =>
        Some(Move(s, t, Idle).(core := Some(core.(active := if core.active == 0 then 0 else core.active - 1))))
      case _ => None
  }

  /** Sealing the registry, and the phases and checks of a commit. */
  function Commit(e: Env, s: State, t: nat, act: CommitAct): (r: Option<State>)
    ensures r.Some? ==> r.value == Move(s, t, At(r.value.threads, t)).(core := r.value.core, commits := r.value.commits, committed := r.value.committed)
  {
    if s.core.None? then None else
      var core := s.core.value;
      match (act, At(s.threads, t))
      case (BeginCommit, Idle) =>
        if Admission(core).Some? then None
        else Some(Move(s, t, Sealing(core.artifacts, core.destination)).(core := Some(core.(phase := Preparing))))
      case (Build(order, budget), Sealing(registered, to)) =>
        if s.staging.None? || Crowded(s.staging.value) || s.staging.value.Keys != registered.Keys
           || !Orders(order, registered.Keys) || DestinationPolicy(e.root, to).Err? then None
        else
          var m := BuildManifest(e, s.staging.value, registered, order, DestinationPolicy(e.root, to).value);
          if TotalSize(m.artifacts) > budget then None else Some(Move(s, t, Built(Plan(m, registered, to))))
      case (MarkPrepared, ManifestPlaced(plan)) =>
        Some(Move(s, t, Ready(plan)).(core := Some(core.(phase := Prepared))))
      case (Validate, Ready(plan)) =>
        if s.staging.None? || !Free(s, plan.destination) || Crowded(s.staging.value)
           || !Revalidates(s.staging.value, plan.registered.Keys, plan.manifest) then None
        else Some(Move(s, t, Validated(plan)))
      case (MarkCommitted, Moved(to)) =>
        Some(Move(s, t, Idle).(core := Some(core.(phase := Committed)), commits := s.commits + 1, committed := Some(to)))
      case (AbandonCommit, Sealing(_, _)) => Some(Move(s, t, Idle))
      case (AbandonCommit, Built(_)) => Some(Move(s, t, Idle))
      case (AbandonCommit, Ready(_)) => Some(Move(s, t, Idle))
      case (AbandonCommit, Validated(_)) => Some(Move(s, t, Idle))
      case _ => None
  }

  /** Writing the manifest beside its final name, renaming it there, and renaming the whole directory. */
  function Place(s: State, t: nat, act: PlaceAct): (r: Option<State>)
    ensures r.Some? ==> r.value == Move(s, t, At(r.value.threads, t)).(staging := r.value.staging, published := r.value.published, seal := r.value.seal)
  {
    if s.staging.None? then
      if act.AbandonManifest? && (At(s.threads, t).ManifestTmp? || At(s.threads, t).ManifestWritten?) then Some(Move(s, t, Idle)) else None
    else
      var dir := s.staging.value;
      match (act, At(s.threads, t))
      case (StartManifest(tmp), Built(plan)) =>
        if tmp in dir || tmp == "" || tmp[0] != '.' then None
        else Some(Move(s, t, ManifestTmp(plan, tmp)).(staging := Some(dir[tmp := Content(0, None)])))
      case (FillManifest(size), ManifestTmp(plan, tmp)) =>
        if tmp !in dir || size > MAX_MANIFEST_BYTES then None
        else Some(Move(s, t, ManifestWritten(plan, tmp)).(staging := Some(dir[tmp := Content(size, Some(plan.manifest))])))
      case (PlaceManifest, ManifestWritten(plan, tmp)) =>
        if tmp !in dir || MANIFEST_FILE_NAME in dir then None
        else Some(Move(s, t, ManifestPlaced(plan)).(
                    staging := Some((dir - {tmp})[MANIFEST_FILE_NAME := dir[tmp]]),
                    seal := if dir[tmp].manifest == Some(plan.manifest)
                            then Some(Seal(plan.manifest, plan.destination, t)) else s.seal))
      case (AbandonManifest(removed), ManifestTmp(_, tmp)) =>
        Some(Move(s, t, Idle).(staging := Some(if removed then dir - {tmp} else dir)))
      case (AbandonManifest(removed), ManifestWritten(_, tmp)) =>
        Some(Move(s, t, Idle).(staging := Some(if removed then dir - {tmp} else dir)))
      case (Publish, Validated(plan)) =>
        if !Free(s, plan.destination) then None
        else Some(Move(s, t, Moved(plan.destination)).(staging := None, published := s.published[plan.destination := dir]))
      case _ => None
  }

  /** Rewriting the published manifest with final diagnostics, through a file beside the report directory. */
  function Amend(e: Env, s: State, t: nat, act: AmendAct): (r: Option<State>)
    ensures r.Some? ==> r.value == Move(s, t, At(r.value.threads, t)).(published := r.value.published)
  {
    match (act, At(s.threads, t))
    case (StartAmend(diagnostics), Idle) =>
      if s.committed.None? || s.committed.value !in s.published then None
      else
        var dir := s.published[s.committed.value];
        if MANIFEST_FILE_NAME !in dir || dir[MANIFEST_FILE_NAME].manifest.None? then None
        else
          var m := dir[MANIFEST_FILE_NAME].manifest.value;
          if !Identified(e, m) then None
          else Some(Move(s, t, Amending(s.committed.value, m.(diagnostics := Some(diagnostics)))))
    case (EndAmend(size), Amending(at, m)) =>
      if at !in s.published || size > MAX_MANIFEST_BYTES then None
      else Some(Move(s, t, Idle).(
                  published := s.published[at := s.published[at][MANIFEST_FILE_NAME := Content(size, Some(m))]]))
    case (AbandonAmend, Amending(_, _)) => Some(Move(s, t, Idle))
    case _ => None
  }

  /** Dropping the last reference to the transaction. */
  ghost function DropNext(s: State, t: nat, act: DropAct): (r: Option<State>)
    ensures r.Some? ==> r.value == Move(s, t, At(r.value.threads, t)).(staging := r.value.staging, core := r.value.core, lock := r.value.lock)
  {
    match (act, At(s.threads, t))
    case (Drop, Idle) =>
      if s.core.None? || !NobodyEngaged(s.threads) then None
      else Some(Move(s, t, Dropping(s.core.value.phase.Open? || s.core.value.phase.Preparing?)).(core := None))
    case (RemoveChild(name), Dropping(removing)) =>
      if !removing || s.staging.None? then None
      else Some(Move(s, t, Dropping(removing)).(staging := Some(s.staging.value - {name})))
    case (RemoveDir, Dropping(removing)) =>
      if !removing || s.staging != Some(map[]) then None
      else Some(Move(s, t, Dropping(removing)).(staging := None))
    case (EndDrop, Dropping(_)) => Some(Move(s, t, Idle).(lock := None))
    case _ => None
  }

  /** Recovery and scavenging by another process. Leaving early, finishing and dying all release the lock. */
  function PassNext(e: Env, s: State, a: nat, deed: Deed): (r: Option<State>)
    ensures r.Some? ==> r.value == s.(agents := r.value.agents, staging := r.value.staging, published := r.value.published, lock := r.value.lock)
  {
    if deed.TryLock? then
      if a in s.agents || s.lock.Some? || !s.begun then None
      else Some(s.(lock := Some(Agent(a)), agents := s.agents[a := Holding(deed.scavenging)]))
    else if a !in s.agents then None
    else match (deed, s.agents[a])
      case (Inspect, Holding(false)) =>
        if s.staging.None? || MANIFEST_FILE_NAME !in s.staging.value
           || s.staging.value[MANIFEST_FILE_NAME].manifest.None? then None
        else
          var m := s.staging.value[MANIFEST_FILE_NAME].manifest.value;
          if !Identified(e, m) || |m.artifacts| > MAX_RECOVERY_ARTIFACTS || !ValidNames(Names(m)) || !Distinct(m) then None
          else Some(s.(agents := s.agents[a := Inspected(m)]))
      case (Approve, Inspected(m)) =>
        if s.staging.None? || Crowded(s.staging.value) || !Revalidates(s.staging.value, Names(m), m)
           || DestinationFromPolicy(e.root, m.destination).Err?
           || !Free(s, DestinationFromPolicy(e.root, m.destination).value) then None
        else Some(s.(agents := s.agents[a := Approved(m, DestinationFromPolicy(e.root, m.destination).value)]))
      case (Install, Approved(m, to)) =>
        if s.staging.None? || !Free(s, to) then None
        else Some(s.(agents := s.agents[a := Holding(false)], staging := None, published := s.published[to := s.staging.value]))
      case (Scan, Holding(true)) =>
        if s.staging.None? || Crowded(s.staging.value) then None
        else Some(s.(agents := s.agents[a := Clearing(s.staging.value.Keys)]))
      case (ClearChild(name), Clearing(children)) =>
        if s.staging.None? || name !in children then None
        else Some(s.(staging := Some(s.staging.value - {name})))
      case (ClearDir, Clearing(_)) =>
        if s.staging != Some(map[]) then None else Some(s.(staging := None))
      case (Leave, _) => Some(s.(agents := s.agents - {a}, lock := None))
      case _ => None
  }

  ghost function ThreadNext(e: Env, s: State, t: nat, act: Act): Option<State> {
    match act
    case Begins(a) => Begin(e, s, t, a)
    case Writes(a) => Write(s, t, a)
    case Operates(a) => Operate(e, s, t, a)
    case Commits(a) => Commit(e, s, t, a)
    case Places(a) => Place(s, t, a)
    case Amends(a) => Amend(e, s, t, a)
    case Drops(a) => DropNext(s, t, a)
  }

  ghost function Next(e: Env, s: State, step: Step): Option<State> {
    match step
    case Thread(t, act) => ThreadNext(e, s, t, act)
    case Pass(a, deed) => PassNext(e, s, a, deed)
    case Crash =>
      Some(s.(core := None, threads := map[], committed := None,
              lock := if s.lock == Some(Owner) then None else s.lock))
    case Foreign(dir) =>
      if s.staging.None? || !NobodyValidated(s) then None else Some(s.(staging := dir))
    case Occupy(at) =>
      if Free(s, at) then Some(s.(occupied := s.occupied + {at})) else None
  }

  ghost function Run(e: Env, s: State, steps: seq<Step>): Option<State>
    decreases |steps|
  {
    if steps == [] then Some(s) else
      var next := Next(e, s, steps[0]);
      if next.None? then None else Run(e, next.value, steps[1..])
  }
}
