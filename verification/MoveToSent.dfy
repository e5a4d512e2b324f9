/**
  Moving a report's files to the sent directory (src/postprocessors/move_to_sent.rs):
  at every interruption point each file's bytes are whole at its source or at its
  destination, and the report's paths follow the files.
*/
module MoveToSent {
  import opened Wrappers
  import opened Evidence
  import opened ArtifactTransaction
  import ArtifactPaths
  import ArtifactStore

  const MAX_MOVE_FILE_BYTES := 576 * 1024 * 1024

  datatype Path = Path(dir: string, name: string)

  /** A move that happened, one the file system's state rules out, or one that an error or interruption stopped. */
  datatype Outcome = Moved | Refused | Stopped

  type Bytes = seq<nat>
  type Files = map<Path, Bytes>

  /** The state of a move of `src` to `dst` begun at `f0`: nothing lost, nothing partial or replaced at `dst`. */
  predicate MoveState(f0: Files, f: Files, src: Path, dst: Path) {
    && (src in f0 ==> (src in f && f[src] == f0[src]) || (dst in f && f[dst] == f0[src]))
    && (dst in f0 ==> dst in f && f[dst] == f0[dst])
    && (dst in f && dst !in f0 ==> src in f0 && f[dst] == f0[src])
    && (forall p :: p in f0 && p != src ==> p in f && f[p] == f0[p])
  }

  /** Every state since `from` is a state of the move. */
  ghost predicate MovesOnly(f0: Files, history: seq<Files>, from: nat, src: Path, dst: Path) {
    forall k :: from <= k < |history| ==> MoveState(f0, history[k], src, dst)
  }

  /** Writing the copy piece by piece; until it is complete it has no other name. */
  method CopyToTemporary(disk: Disk<Path, Bytes>, src: Path, dst: Path, tmp: Path) returns (complete: bool, ghost written: Bytes)
    requires src in disk.files && tmp !in disk.files && tmp != dst
    modifies disk
    ensures old(disk.history) <= disk.history
    ensures MovesOnly(old(disk.files), disk.history, |old(disk.history)|, src, dst)
    ensures disk.files == old(disk.files)[tmp := written]
    ensures complete ==> written == old(disk.files)[src]
  {
    var source := disk.files[src];
    disk.Put(tmp, []);
    written := [];
    var copied := 0;
    while copied < |source|
      invariant copied <= |source| && written == source[..copied]
      invariant disk.files == old(disk.files)[tmp := written]
      invariant old(disk.history) <= disk.history
      invariant MovesOnly(old(disk.files), disk.history, |old(disk.history)|, src, dst)
    {
      var interrupted: bool := *;
      if interrupted {
        return false, written;
      }
      var count: int :| 1 <= count <= |source| - copied;
      copied := copied + count;
      written := source[..copied];
      disk.Put(tmp, source[..copied]);
      assert disk.files == old(disk.files)[tmp := written];
    }
    complete := true;
  }

  /** What a call that moves `src` to `dst` promises, whatever its outcome. */
  twostate predicate MovesFile(disk: Disk<Path, Bytes>, src: Path, dst: Path, outcome: Outcome)
    reads disk
  {
    var f0, f := old(disk.files), disk.files;
    && old(disk.history) <= disk.history
    && MovesOnly(f0, disk.history, |old(disk.history)|, src, dst)
    && MoveState(f0, f, src, dst)
    && (outcome.Moved? ==> src in f0 && dst !in f0 && dst in f && f[dst] == f0[src])
    && (!outcome.Moved? ==> (src in f <==> src in f0) && (dst in f <==> dst in f0))
    && (!outcome.Moved? && src in f0 ==> f[src] == f0[src])
  }

  /**
    Copying through a temporary file that only a complete copy leaves, by an exclusive rename. `clean` says
    that the source could be removed afterwards.
  */
  method CopyAcrossFilesystems(disk: Disk<Path, Bytes>, src: Path, dst: Path) returns (outcome: Outcome, clean: bool)
    requires src in disk.files
    modifies disk
    ensures MovesFile(disk, src, dst, outcome)
    ensures outcome.Refused? ==> dst in old(disk.files)
    ensures outcome.Moved? && clean ==> disk.files == (old(disk.files) - {src})[dst := old(disk.files)[src]]
  {
    clean := false;
    var tmp: Path := *;
    if tmp in disk.files || tmp == dst {
      return Stopped, false;
    }
    ghost var written;
    var complete;
    complete, written := CopyToTemporary(disk, src, dst, tmp);
    var interrupted: bool := *;
    if !complete || interrupted || dst in disk.files {
      outcome := if dst in disk.files then Refused else Stopped;
      var removed: bool := *;
      if removed {
        disk.Remove(tmp);
      }
      return outcome, false;
    }
    disk.Rename(tmp, dst);
    assert disk.files == old(disk.files)[dst := old(disk.files)[src]];
    clean := *;
    if clean {
      disk.Remove(src);
    }
    outcome := Moved;
  }

  method MoveFile(disk: Disk<Path, Bytes>, src: Path, dst: Path) returns (outcome: Outcome, clean: bool)
    modifies disk
    ensures MovesFile(disk, src, dst, outcome)
    ensures outcome.Refused? ==>
              src !in old(disk.files) || dst in old(disk.files) || |old(disk.files)[src]| > MAX_MOVE_FILE_BYTES
    ensures outcome.Moved? && clean ==> disk.files == (old(disk.files) - {src})[dst := old(disk.files)[src]]
    ensures src !in old(disk.files) ==> disk.files == old(disk.files)
  {
    clean := false;
    if src !in disk.files || |disk.files[src]| > MAX_MOVE_FILE_BYTES {
      return Refused, false;
    }
    var checked, sameDevice: bool := *, *;
    if !checked {
      return Stopped, false;
    }
    if !sameDevice {
      outcome, clean := CopyAcrossFilesystems(disk, src, dst);
      return;
    }
    if dst in disk.files {
      return Refused, false;
    }
    disk.Rename(src, dst);
    return Moved, true;
  }

  // The whole report

  function Dest(sent: string, p: Path): Path {
    Path(sent, p.name)
  }

  /** Every file there was at `f0` is whole at its own path or at its place in the sent directory. */
  ghost predicate Kept(f0: Files, f: Files, sent: string) {
    forall p :: p in f0 ==> (p in f && f[p] == f0[p]) || (Dest(sent, p) in f && f[Dest(sent, p)] == f0[p])
  }

  ghost predicate KeptThroughout(f0: Files, history: seq<Files>, from: nat, sent: string) {
    forall k :: from <= k < |history| ==> Kept(f0, history[k], sent)
  }

  lemma MoveKeeps(f0: Files, before: Files, f: Files, sent: string, src: Path)
    requires Kept(f0, before, sent) && MoveState(before, f, src, Dest(sent, src))
    ensures Kept(f0, f, sent)
  {
    forall p | p in f0
      ensures (p in f && f[p] == f0[p]) || (Dest(sent, p) in f && f[Dest(sent, p)] == f0[p])
    {
      if p != src && !(p in before && before[p] == f0[p]) {
        assert Dest(sent, p) == src ==> Dest(sent, src) == src;
      }
    }
  }

  /** The path kept for `original` names a whole copy of what it named at `f0`. */
  predicate Names(f0: Files, f: Files, sent: string, original: Path, current: Path) {
    && (current == original || current == Dest(sent, original))
    && (original in f0 ==> current in f && f[current] == f0[original])
  }

  predicate OptionNames(f0: Files, f: Files, sent: string, original: Option<Path>, current: Option<Path>) {
    && (original.Some? <==> current.Some?)
    && (original.Some? ==> Names(f0, f, sent, original.value, current.value))
  }

  predicate AllName(f0: Files, f: Files, sent: string, originals: seq<Path>, current: seq<Path>) {
    |current| == |originals| && forall i :: 0 <= i < |current| ==> Names(f0, f, sent, originals[i], current[i])
  }

  predicate DistinctPaths(paths: seq<Path>) {
    forall i, j :: 0 <= i < j < |paths| ==> paths[i] != paths[j]
  }

  /** The first matching path is replaced, and only that one. */
  function ReplaceFirst(paths: seq<Path>, from: Path, to: Path): (r: seq<Path>)
    ensures |r| == |paths|
  {
    if paths == [] then [] else if paths[0] == from then [to] + paths[1..] else [paths[0]] + ReplaceFirst(paths[1..], from, to)
  }

  lemma {:induction false} ReplaceFirstAt(paths: seq<Path>, from: Path, to: Path, i: nat)
    requires i < |paths| && paths[i] == from && forall k :: 0 <= k < i ==> paths[k] != from
    ensures ReplaceFirst(paths, from, to) == paths[i := to]
  {
    if i > 0 {
      ReplaceFirstAt(paths[1..], from, to, i - 1);
    }
  }

  /** How one path of the report follows a successful move. */
  lemma MovedIsNamed(f0: Files, before: Files, f: Files, sent: string, src: Path, original: Path, current: Path)
    requires Names(f0, before, sent, original, current) && MoveState(before, f, src, Dest(sent, src))
    requires src in before && Dest(sent, src) !in before && Dest(sent, src) in f && f[Dest(sent, src)] == before[src]
    ensures Names(f0, f, sent, original, if original == src then Dest(sent, src) else current)
    ensures original != src ==> current != src
  {
  }

  lemma UnmovedIsNamed(f0: Files, before: Files, f: Files, sent: string, src: Path, original: Path, current: Path)
    requires Names(f0, before, sent, original, current) && MoveState(before, f, src, Dest(sent, src))
    requires src in before ==> src in f && f[src] == before[src]
    ensures Names(f0, f, sent, original, current)
  {
  }

  /** The artifact list while its entries are moved one after another. */
  predicate InStep(f0: Files, f: Files, sent: string, originals: seq<Path>, current: seq<Path>, done: nat) {
    && AllName(f0, f, sent, originals, current)
    && forall k :: done <= k < |current| ==> current[k] == originals[k]
  }

  lemma ArtifactMoved(f0: Files, before: Files, f: Files, sent: string, originals: seq<Path>, current: seq<Path>, i: nat)
    requires DistinctPaths(originals) && i < |originals| && InStep(f0, before, sent, originals, current, i)
    requires var src := originals[i];
             && MoveState(before, f, src, Dest(sent, src)) && src in before && Dest(sent, src) !in before
             && Dest(sent, src) in f && f[Dest(sent, src)] == before[src]
    ensures InStep(f0, f, sent, originals, ReplaceFirst(current, originals[i], Dest(sent, originals[i])), i + 1)
  {
    var src, dst := originals[i], Dest(sent, originals[i]);
    forall k | 0 <= k < |current|
      ensures Names(f0, f, sent, originals[k], current[i := dst][k]) && (k < i ==> current[k] != src)
    {
      assert k != i ==> originals[k] != src;
      MovedIsNamed(f0, before, f, sent, src, originals[k], current[k]);
    }
    ReplaceFirstAt(current, src, dst, i);
  }

  lemma ArtifactUnmoved(f0: Files, before: Files, f: Files, sent: string, originals: seq<Path>, current: seq<Path>, i: nat)
    requires i < |originals| && InStep(f0, before, sent, originals, current, i)
    requires MoveState(before, f, originals[i], Dest(sent, originals[i]))
    requires originals[i] in before ==> originals[i] in f && f[originals[i]] == before[originals[i]]
    ensures InStep(f0, f, sent, originals, current, i + 1)
  {
    forall k | 0 <= k < |current|
      ensures Names(f0, f, sent, originals[k], current[k])
    {
      UnmovedIsNamed(f0, before, f, sent, originals[i], originals[k], current[k]);
    }
  }

  function AfterMove(original: Option<Path>, current: Option<Path>, src: Path, dst: Path): Option<Path> {
    if original == Some(src) then Some(dst) else current
  }

  /** The paths a report holds. */
  datatype ReportPaths = Paths(json: Option<Path>, raw: Option<Path>, artifacts: seq<Path>)

  function Updated(originals: ReportPaths, current: ReportPaths, src: Path, dst: Path): ReportPaths {
    Paths(AfterMove(originals.json, current.json, src, dst), AfterMove(originals.raw, current.raw, src, dst),
          ReplaceFirst(current.artifacts, src, dst))
  }

  ghost predicate ReportFollows(f0: Files, f: Files, sent: string, originals: ReportPaths, current: ReportPaths, done: nat) {
    && OptionNames(f0, f, sent, originals.json, current.json)
    && OptionNames(f0, f, sent, originals.raw, current.raw)
    && (originals.artifacts == [] ==> current.artifacts == [])
    && (originals.artifacts != [] && DistinctPaths(originals.artifacts) ==>
          InStep(f0, f, sent, originals.artifacts, current.artifacts, done))
  }

  lemma ReportStep(f0: Files, before: Files, f: Files, sent: string, src: Path, originals: ReportPaths, current: ReportPaths,
                   i: nat, ok: bool)
    requires ReportFollows(f0, before, sent, originals, current, i) && MoveState(before, f, src, Dest(sent, src))
    requires originals.artifacts != [] ==> i < |originals.artifacts| && originals.artifacts[i] == src
    requires ok ==> src in before && Dest(sent, src) !in before && Dest(sent, src) in f && f[Dest(sent, src)] == before[src]
    requires !ok && src in before ==> src in f && f[src] == before[src]
    ensures ReportFollows(f0, f, sent, originals, if ok then Updated(originals, current, src, Dest(sent, src)) else current, i + 1)
  {
    FieldFollows(f0, before, f, sent, src, originals.json, current.json, ok);
    FieldFollows(f0, before, f, sent, src, originals.raw, current.raw, ok);
    if originals.artifacts != [] && DistinctPaths(originals.artifacts) {
      if ok {
        ArtifactMoved(f0, before, f, sent, originals.artifacts, current.artifacts, i);
      } else {
        ArtifactUnmoved(f0, before, f, sent, originals.artifacts, current.artifacts, i);
      }
    }
  }

  class Report {
    var json: Option<Path>
    var raw: Option<Path>
    var artifacts: seq<Path>

    function View(): ReportPaths
      reads this
    {
      Paths(json, raw, artifacts)
    }

    constructor (json: Option<Path>, raw: Option<Path>, artifacts: seq<Path>)
      ensures View() == Paths(json, raw, artifacts)
    {
      this.json, this.raw, this.artifacts := json, raw, artifacts;
    }
  }

  function PathsToMove(json: Path, raw: Option<Path>, artifacts: seq<Path>): seq<Path> {
    if artifacts != [] then artifacts else [json] + if raw.Some? then [raw.value] else []
  }

  /** One path: the file is moved and every field that named it follows, or nothing in the report changes. */
  method MoveOne(disk: Disk<Path, Bytes>, report: Report, sent: string, src: Path, json0: Option<Path>, raw0: Option<Path>)
    returns (outcome: Outcome, clean: bool)
    modifies disk, report
    ensures MovesFile(disk, src, Dest(sent, src), outcome)
    ensures outcome.Refused? ==>
              src !in old(disk.files) || Dest(sent, src) in old(disk.files) || |old(disk.files)[src]| > MAX_MOVE_FILE_BYTES
    ensures outcome.Moved? && clean ==> disk.files == (old(disk.files) - {src})[Dest(sent, src) := old(disk.files)[src]]
    ensures src !in old(disk.files) ==> disk.files == old(disk.files)
    ensures report.View() == if outcome.Moved? then Updated(Paths(json0, raw0, []), old(report.View()), src, Dest(sent, src))
                             else old(report.View())
  {
    var dst := Dest(sent, src);
    outcome, clean := MoveFile(disk, src, dst);
    if outcome.Moved? {
      if json0 == Some(src) {
        report.json := Some(dst);
      }
      if raw0 == Some(src) {
        report.raw := Some(dst);
      }
      report.artifacts := ReplaceFirst(report.artifacts, src, dst);
    }
  }

  /**
    Moving everything. In every state passed through, each file is whole at its source or in the sent
    directory; on return, interrupted or not, each path of the report names a whole file, the artifact
    list included when it names no file twice. When nothing stopped a move, every file that could be moved
    was, and then an entry of the artifact list names its file exactly when it is no repetition.
  */
  method MoveAll(disk: Disk<Path, Bytes>, report: Report, sent: string) returns (completed: bool)
    modifies disk, report
    ensures old(disk.history) <= disk.history && KeptThroughout(old(disk.files), disk.history, |old(disk.history)|, sent)
    ensures Carries(old(disk.files), disk.files, sent, old(report.View()), report.View())
    ensures completed && old(report.json).Some? ==> Finishes(old(disk.files), disk.files, sent, old(report.View()), report.View())
  {
    hide Movable, Underway, Delivered, NamesExactly, MovesOnly;
    if report.json.None? {
      return true;
    }
    completed := true;
    ghost var f0 := disk.files;
    var json0, raw0 := report.json, report.raw;
    ghost var originals := Paths(json0, raw0, report.artifacts);
    var paths := PathsToMove(json0.value, raw0, report.artifacts);
    UnderwayStarts(f0, paths, sent, report.artifacts);
    for i := 0 to |paths|
      invariant old(disk.history) <= disk.history
      invariant KeptThroughout(f0, disk.history, |old(disk.history)|, sent) && Kept(f0, disk.files, sent)
      invariant ReportFollows(f0, disk.files, sent, originals, report.View(), i)
      invariant completed && Movable(f0, paths, sent) ==> Underway(f0, disk.files, paths, i, sent, originals.artifacts, report.artifacts)
    {
      var interrupted: bool := *;
      if interrupted {
        return false;
      }
      ghost var before, past := disk.files, disk.history;
      var src := paths[i];
      ghost var current := report.View();
      var outcome, clean := MoveOne(disk, report, sent, src, json0, raw0);
      completed := completed && !outcome.Stopped? && (outcome.Moved? ==> clean);
      if completed && Movable(f0, paths, sent) {
        UnderwayNext(f0, before, disk.files, paths, i, sent, originals.artifacts, current.artifacts, report.artifacts, outcome.Moved?);
      }
      MoveKeeps(f0, before, disk.files, sent, src);
      ThroughMove(f0, before, past, disk.history, |old(disk.history)|, sent, src);
      ReportStep(f0, before, disk.files, sent, src, originals, current, i, outcome.Moved?);
    }
    if completed && Movable(f0, paths, sent) {
      SettledExactly(f0, disk.files, paths, sent, originals.artifacts, report.artifacts);
    }
  }

  /**
    Moving a report. Inside a transaction nothing is moved yet: the transaction's destination becomes the sent
    directory, exactly if it is open, idle and accepts it. Otherwise everything is moved now.
  */
  method Process(disk: Disk<Path, Bytes>, report: Report, sent: string, tx: TransactionCore?, destination: ArtifactPaths.Path)
    returns (completed: bool)
    requires ArtifactPaths.WellFormed(destination)
    modifies disk, report, tx
    ensures tx != null || old(report.json).None? ==>
              disk.files == old(disk.files) && disk.history == old(disk.history) && report.View() == old(report.View())
    ensures tx != null && old(report.json).Some? ==>
              var accepted := ArtifactStore.Admission(old(tx.View())).None? && ArtifactPaths.DestinationPolicy(tx.root, destination).Ok?;
              && (completed ==> accepted)
              && tx.View() == if accepted then old(tx.View()).(destination := destination) else old(tx.View())
    ensures tx != null && old(report.json).None? ==> tx.View() == old(tx.View())
    ensures Carries(old(disk.files), disk.files, sent, old(report.View()), report.View())
    ensures old(disk.history) <= disk.history && KeptThroughout(old(disk.files), disk.history, |old(disk.history)|, sent)
    ensures tx == null && completed && old(report.json).Some? ==> Finishes(old(disk.files), disk.files, sent, old(report.View()), report.View())
  {
    if report.json.None? {
      return true;
    }
    if tx != null {
      var accepted := tx.SetDestinationRoot(destination);
      var inTime: bool := *;
      return accepted && inTime;
    }
    completed := MoveAll(disk, report, sent);
  }

  /** No file is lost and every path of the report names a whole file, those of the artifact list if none is listed twice. */
  ghost predicate Carries(f0: Files, f: Files, sent: string, originals: ReportPaths, current: ReportPaths) {
    && Kept(f0, f, sent)
    && OptionNames(f0, f, sent, originals.json, current.json)
    && OptionNames(f0, f, sent, originals.raw, current.raw)
    && (DistinctPaths(originals.artifacts) ==> AllName(f0, f, sent, originals.artifacts, current.artifacts))
  }

  /** If all files could be moved, all are delivered, and an entry names its file exactly when it repeats no earlier one. */
  ghost predicate Finishes(f0: Files, f: Files, sent: string, originals: ReportPaths, current: ReportPaths)
    requires originals.json.Some?
  {
    var paths := PathsToMove(originals.json.value, originals.raw, originals.artifacts);
    Movable(f0, paths, sent) ==>
      && Delivered(f0, f, paths, |paths|, sent)
      && NamesExactly(f0, f, sent, originals.artifacts, current.artifacts)
      && (AllName(f0, f, sent, originals.artifacts, current.artifacts) <==> DistinctPaths(originals.artifacts))
  }

  /** Existing files, none too large, whose places in the sent directory are free and not shared. */
  ghost predicate Movable(f0: Files, paths: seq<Path>, sent: string) {
    && (forall i, j :: 0 <= i < |paths| && 0 <= j < |paths| && paths[i] != paths[j] ==> paths[i].name != paths[j].name)
    && (forall i :: 0 <= i < |paths| ==>
          paths[i] in f0 && |f0[paths[i]]| <= MAX_MOVE_FILE_BYTES && Dest(sent, paths[i]) !in f0)
  }

  predicate Gone(f0: Files, f: Files, p: Path, sent: string) {
    p in f0 && p !in f && Dest(sent, p) in f && f[Dest(sent, p)] == f0[p]
  }

  predicate Waiting(f0: Files, f: Files, p: Path, sent: string) {
    p in f0 && p in f && f[p] == f0[p] && Dest(sent, p) !in f
  }

  /** The first `done` files are in the sent directory and nowhere else; the others are still untouched. */
  ghost predicate Delivered(f0: Files, f: Files, paths: seq<Path>, done: nat, sent: string)
    requires done <= |paths|
  {
    forall i :: 0 <= i < |paths| ==>
      if paths[i] in paths[..done] then Gone(f0, f, paths[i], sent) else Waiting(f0, f, paths[i], sent)
  }

  /** A list whose first `done` entries follow their files, except where they repeat an earlier entry. */
  function Settled(paths: seq<Path>, done: nat, sent: string): (r: seq<Path>)
    ensures |r| == |paths|
  {
    seq(|paths|, k requires 0 <= k < |paths| => if k < done && paths[k] !in paths[..k] then Dest(sent, paths[k]) else paths[k])
  }

  ghost predicate Underway(f0: Files, f: Files, paths: seq<Path>, done: nat, sent: string, originals: seq<Path>, current: seq<Path>)
    requires done <= |paths|
  {
    && Delivered(f0, f, paths, done, sent)
    && (originals != [] ==> originals == paths && current == Settled(paths, done, sent))
    && (originals == [] ==> current == [])
  }

  /** An entry names its file exactly when it repeats no earlier one. */
  ghost predicate NamesExactly(f0: Files, f: Files, sent: string, originals: seq<Path>, current: seq<Path>) {
    && |current| == |originals|
    && forall k :: 0 <= k < |originals| ==> (Names(f0, f, sent, originals[k], current[k]) <==> originals[k] !in originals[..k])
  }

  lemma RepeatedNext(paths: seq<Path>, i: nat, k: nat)
    requires i < |paths| && k < |paths|
    ensures paths[k] in paths[..i + 1] <==> paths[k] in paths[..i] || paths[k] == paths[i]
  {
    assert paths[..i + 1] == paths[..i] + [paths[i]];
  }

  lemma DeliveredNext(f0: Files, before: Files, f: Files, paths: seq<Path>, i: nat, sent: string)
    requires Movable(f0, paths, sent) && i < |paths| && Delivered(f0, before, paths, i, sent)
    requires f == if paths[i] in paths[..i] then before else (before - {paths[i]})[Dest(sent, paths[i]) := f0[paths[i]]]
    ensures Delivered(f0, f, paths, i + 1, sent)
  {
    var src, dst := paths[i], Dest(sent, paths[i]);
    forall k | 0 <= k < |paths|
      ensures if paths[k] in paths[..i + 1] then Gone(f0, f, paths[k], sent) else Waiting(f0, f, paths[k], sent)
    {
      RepeatedNext(paths, i, k);
      if paths[k] != src {
        assert paths[k].name != src.name && paths[k] in f0 && src in f0;
        assert Dest(sent, paths[k]) != dst && paths[k] != dst && Dest(sent, paths[k]) != src;
      }
    }
  }

  lemma SettledNext(f0: Files, paths: seq<Path>, i: nat, sent: string)
    requires Movable(f0, paths, sent) && i < |paths|
    ensures Settled(paths, i + 1, sent) ==
            if paths[i] in paths[..i] then Settled(paths, i, sent) else ReplaceFirst(Settled(paths, i, sent), paths[i], Dest(sent, paths[i]))
  {
    var current := Settled(paths, i, sent);
    if paths[i] !in paths[..i] {
      forall k | 0 <= k < i
        ensures current[k] != paths[i]
      {
        assert paths[k] == paths[..i][k];
      }
      ReplaceFirstAt(current, paths[i], Dest(sent, paths[i]), i);
    }
  }

  lemma UnderwayStarts(f0: Files, paths: seq<Path>, sent: string, originals: seq<Path>)
    requires originals != [] ==> originals == paths
    ensures Movable(f0, paths, sent) ==> Underway(f0, f0, paths, 0, sent, originals, originals)
  {
    assert Settled(paths, 0, sent) == paths;
  }

  lemma UnderwayNext(f0: Files, before: Files, f: Files, paths: seq<Path>, i: nat, sent: string,
                     originals: seq<Path>, current: seq<Path>, after: seq<Path>, moved: bool)
    requires Movable(f0, paths, sent) && i < |paths| && Underway(f0, before, paths, i, sent, originals, current)
    requires moved ==> paths[i] in before && f == (before - {paths[i]})[Dest(sent, paths[i]) := before[paths[i]]]
    requires !moved ==> paths[i] !in before || Dest(sent, paths[i]) in before || |before[paths[i]]| > MAX_MOVE_FILE_BYTES
    requires paths[i] !in before ==> f == before
    requires after == if moved then ReplaceFirst(current, paths[i], Dest(sent, paths[i])) else current
    ensures Underway(f0, f, paths, i + 1, sent, originals, after)
  {
    assert moved <==> paths[i] !in paths[..i];
    DeliveredNext(f0, before, f, paths, i, sent);
    SettledNext(f0, paths, i, sent);
  }

  lemma SettledExactly(f0: Files, f: Files, paths: seq<Path>, sent: string, originals: seq<Path>, current: seq<Path>)
    requires Movable(f0, paths, sent) && Underway(f0, f, paths, |paths|, sent, originals, current)
    ensures Delivered(f0, f, paths, |paths|, sent) && NamesExactly(f0, f, sent, originals, current)
    ensures AllName(f0, f, sent, originals, current) <==> DistinctPaths(originals)
  {
    forall k | 0 <= k < |originals|
      ensures Names(f0, f, sent, originals[k], current[k]) <==> originals[k] !in originals[..k]
    {
      assert paths[k] in paths[..|paths|];
    }
    forall i, j | 0 <= i < j < |originals| && originals[i] == originals[j]
      ensures !AllName(f0, f, sent, originals, current)
    {
      assert originals[j] == originals[..j][i];
    }
    if DistinctPaths(originals) {
      forall k | 0 <= k < |originals|
        ensures originals[k] !in originals[..k]
      {
      }
    }
  }

  /** Listed twice, a file leaves the second entry naming a path that is gone. */
  lemma DuplicateGoesStale(p: Path, bytes: Bytes, sent: string) returns (f0: Files, f: Files, current: seq<Path>)
    requires p.dir != sent && |bytes| <= MAX_MOVE_FILE_BYTES
    ensures f0 == map[p := bytes] && f == map[Dest(sent, p) := bytes] && current == [Dest(sent, p), p]
    ensures Movable(f0, [p, p], sent) && Underway(f0, f, [p, p], 2, sent, [p, p], current)
    ensures !Names(f0, f, sent, p, current[1]) && !AllName(f0, f, sent, [p, p], current)
  {
    f0, f, current := map[p := bytes], map[Dest(sent, p) := bytes], [Dest(sent, p), p];
    assert [p, p][..1] == [p] && [p, p][..0] == [];
    assert Settled([p, p], 2, sent) == current;
  }

  lemma ThroughMove(f0: Files, before: Files, past: seq<Files>, history: seq<Files>, from: nat, sent: string, src: Path)
    requires KeptThroughout(f0, past, from, sent) && Kept(f0, before, sent) && past <= history
    requires MovesOnly(before, history, |past|, src, Dest(sent, src))
    ensures KeptThroughout(f0, history, from, sent)
  {
    forall k | from <= k < |history|
      ensures Kept(f0, history[k], sent)
    {
      if k < |past| {
        assert history[k] == past[k];
      } else {
        MoveKeeps(f0, before, history[k], sent, src);
      }
    }
  }

  lemma FieldFollows(f0: Files, before: Files, f: Files, sent: string, src: Path, original: Option<Path>, current: Option<Path>, ok: bool)
    requires OptionNames(f0, before, sent, original, current) && MoveState(before, f, src, Dest(sent, src))
    requires ok ==> src in before && Dest(sent, src) !in before && Dest(sent, src) in f && f[Dest(sent, src)] == before[src]
    requires !ok && src in before ==> src in f && f[src] == before[src]
    ensures OptionNames(f0, f, sent, original, if ok then AfterMove(original, current, src, Dest(sent, src)) else current)
  {
    if original.Some? {
      if ok {
        MovedIsNamed(f0, before, f, sent, src, original.value, current.value);
      } else {
        UnmovedIsNamed(f0, before, f, sent, src, original.value, current.value);
      }
    }
  }
}
