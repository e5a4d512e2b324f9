/**
  The two passes a monitor makes over its output root at startup
  (src/pipeline/artifact.rs, src/pipeline/mod.rs): recovery of prepared reports,
  then scavenging of old ones. The scavenger looks only at age and lock, so the
  documented promise that it takes no report with a manifest fails exactly for
  the old, unheld reports that recovery declined or never reached.
*/
module ArtifactStartup {
  import opened Wrappers
  import opened ArtifactPaths
  import opened ArtifactStore
  import opened ArtifactSafety
  import opened ArtifactTheorems
  import opened ArtifactRecovery

  const MAX_RECOVERY_ROOT_ENTRIES := 10_000

  datatype Site = Site(root: Path, id: string)

  datatype ScavengeError = RootEntryLimit | ReportEntryLimit | Unreadable | RemovalFailed | SyncFailed

  /**
    A listing of the output root: for each entry the report staged under its name, or nothing for a
    file or another name. Recovery leaves an entry it cannot read, open or rename and goes on, so for
    its pass such an entry counts as nothing too.
  */
  type Listing = seq<Option<string>>

  /** The reports named by the first `n` entries of a listing. */
  function Named(listing: Listing, n: nat): set<string>
    requires n <= |listing|
  {
    if n == 0 then {}
    else Named(listing, n - 1) + if listing[n - 1].Some? then {listing[n - 1].value} else {}
  }

  /** A fresh listing names each staging directory at most once, and only existing ones. */
  ghost predicate Lists(listing: Listing, staged: map<string, Dir>) {
    && (forall k :: 0 <= k < |listing| && listing[k].Some? ==> listing[k].value in staged)
    && (forall j, k :: 0 <= j < k < |listing| && listing[j].Some? ==> listing[j] != listing[k])
  }

  function Least(a: nat, b: nat): nat {
    if a < b then a else b
  }

  /** The output root as far as the passes see it. */
  datatype Disk = Disk(root: Path, staged: map<string, Dir>, published: map<Site, Dir>, locked: set<string>, aged: set<string>)

  /** Where the contents of a staged directory say it belongs, if they pass every test recovery makes of them. */
  function Target(root: Path, id: string, dir: Dir): Option<Path> {
    if MANIFEST_FILE_NAME !in dir || dir[MANIFEST_FILE_NAME].manifest.None? then None else
      var m := dir[MANIFEST_FILE_NAME].manifest.value;
      if !Identified(Env(id, root), m) || |m.artifacts| > MAX_RECOVERY_ARTIFACTS || !ValidNames(Names(m)) || !Distinct(m)
         || Crowded(dir) || !Revalidates(dir, Names(m), m)
         || DestinationFromPolicy(root, m.destination).Err? then None
      else Some(DestinationFromPolicy(root, m.destination).value)
  }

  predicate Recoverable(d: Disk, id: string) {
    && id in d.staged && id !in d.locked
    && Target(d.root, id, d.staged[id]).Some?
    && Site(Target(d.root, id, d.staged[id]).value, id) !in d.published
  }

  function GoesTo(d: Disk, id: string): Site
    requires Recoverable(d, id)
  {
    Site(Target(d.root, id, d.staged[id]).value, id)
  }

  /** One candidate: published if it passes, left alone otherwise. */
  function RecoverOne(d: Disk, id: string): Disk {
    if !Recoverable(d, id) then d
    else d.(staged := d.staged - {id}, published := d.published[GoesTo(d, id) := d.staged[id]])
  }

  function RecoverFirst(d: Disk, listing: Listing, n: nat): Disk
    requires n <= |listing|
  {
    if n == 0 then d else
      var before := RecoverFirst(d, listing, n - 1);
      if listing[n - 1].None? then before else RecoverOne(before, listing[n - 1].value)
  }

  /** The reports a recovery pass over the first `n` entries publishes. */
  function Recovered(d: Disk, listing: Listing, n: nat): set<string>
    requires n <= |listing|
  {
    set id | id in Named(listing, n) && Recoverable(d, id)
  }

  predicate Stale(d: Disk, id: string) {
    id in d.staged && id in d.aged && id !in d.locked
  }

  /** The reports a scavenging pass over the first `n` entries removes. */
  function Scavenged(d: Disk, listing: Listing, n: nat): set<string>
    requires n <= |listing|
  {
    set id | id in Named(listing, n) && Stale(d, id)
  }

  function ScavengeOne(d: Disk, id: string): Disk {
    if Stale(d, id) then d.(staged := d.staged - {id}) else d
  }

  function ScavengeFirst(d: Disk, listing: Listing, n: nat): Disk
    requires n <= |listing|
  {
    if n == 0 then d else
      var before := ScavengeFirst(d, listing, n - 1);
      if listing[n - 1].None? then before else ScavengeOne(before, listing[n - 1].value)
  }

  class OutputRoot {
    const root: Path
    var staged: map<string, Dir>
    var published: map<Site, Dir>
    /** Reports whose directory lock a live process holds. */
    var locked: set<string>
    /** Reports last modified longer ago than the scavenging age. */
    var aged: set<string>

    function View(): Disk
      reads this
    {
      Disk(root, staged, published, locked, aged)
    }

    constructor (root: Path)
      ensures View() == Disk(root, map[], map[], {}, {})
    {
      this.root := root;
      staged, published, locked, aged := map[], map[], {}, {};
    }

    method RecoverEntry(id: string) returns (recovered: bool)
      requires id in staged
      modifies this`staged, this`published
      ensures recovered == Recoverable(old(View()), id)
      ensures View() == RecoverOne(old(View()), id)
      ensures recovered ==> Sound(Env(id, root), old(staged)[id])
    {
      ghost var d := View();
      if id in locked {
        return false;
      }
      var dir := staged[id];
      if MANIFEST_FILE_NAME !in dir || dir[MANIFEST_FILE_NAME].manifest.None? {
        return false;
      }
      var m := dir[MANIFEST_FILE_NAME].manifest.value;
      if !Identified(Env(id, root), m) || |m.artifacts| > MAX_RECOVERY_ARTIFACTS || !ValidNames(Names(m)) || !Distinct(m) {
        return false;
      }
      if Crowded(dir) || !Revalidates(dir, Names(m), m) {
        return false;
      }
      var to := DestinationFromPolicy(root, m.destination);
      if to.Err? || Site(to.value, id) in published {
        return false;
      }
      published := published[Site(to.value, id) := dir];
      staged := staged - {id};
      RecoverableExactly(d, id);
      return true;
    }

    /**
      The recovery pass; `inTime` is how many entries are reached before the deadline. Exactly the
      inspected candidates that pass are published, each under its own report name; nothing else moves.
    */
    method RecoverReports(listing: Listing, inTime: nat) returns (recovered: nat, inspected: nat)
      requires Lists(listing, staged)
      modifies this`staged, this`published
      ensures inspected == Least(Least(inTime, MAX_RECOVERY_ROOT_ENTRIES), |listing|)
      ensures View() == RecoverFirst(old(View()), listing, inspected)
      ensures Publishes(old(View()), View(), Recovered(old(View()), listing, inspected))
      ensures recovered == |Recovered(old(View()), listing, inspected)|
      ensures forall p :: p in published && p !in old(published) ==> Sound(Env(p.id, root), published[p])
    {
      hide RecoverFirst, Recovered, Recoverable, RecoverOne, Publishes, Lists, Sound;
      ghost var d := View();
      recovered := 0;
      var i := 0;
      var stop := Least(Least(inTime, MAX_RECOVERY_ROOT_ENTRIES), |listing|);
      NothingRecovered(d, listing);
      while i < stop
        invariant i <= stop
        invariant View() == RecoverFirst(d, listing, i)
        invariant recovered == |Recovered(d, listing, i)|
      {
        RecoverStep(d, listing, i);
        var id := listing[i];
        if id.Some? {
          var ok := RecoverEntry(id.value);
          recovered := if ok then recovered + 1 else recovered;
        }
        i := i + 1;
      }
      inspected := stop;
      RecoverFirstExactly(d, listing, stop);
      PublishesSound(d, View(), Recovered(d, listing, stop));
    }

    /**
      One directory: removed if it is old and nobody holds it. Too many entries, or one that cannot be read or
      is not a plain file, are an error before anything is removed; a removal that fails has taken the files `torn`.
    */
    method ScavengeEntry(id: string) returns (removed: Result<bool, ScavengeError>, torn: set<string>)
      requires id in staged
      modifies this`staged
      ensures removed.Ok? ==> removed.value == Stale(old(View()), id)
      ensures removed.Ok? ==> View() == ScavengeOne(old(View()), id) && torn == {}
      ensures removed.Err? ==> staged == Tear(old(staged), Some(id), torn)
      ensures torn != {} ==> removed == Err(RemovalFailed) && Stale(old(View()), id) && torn <= old(staged)[id].Keys
      ensures removed.Err? ==> removed.error.Unreadable? || removed.error.RemovalFailed? || removed.error.ReportEntryLimit?
      ensures removed == Err(ReportEntryLimit) ==> Stale(old(View()), id) && Crowded(old(staged)[id])
      ensures Stale(old(View()), id) && Crowded(old(staged)[id]) ==> removed == Err(ReportEntryLimit) || removed == Err(Unreadable)
    {
      var inspected: bool := *;
      if !inspected {
        return Err(Unreadable), {};
      }
      if id !in aged || id in locked {
        return Ok(false), {};
      }
      if Crowded(staged[id]) {
        return Err(ReportEntryLimit), {};
      }
      var plain: bool := *;
      if !plain {
        return Err(Unreadable), {};
      }
      var gone: set<string> := *;
      torn := gone * staged[id].Keys;
      var failed: bool := *;
      if failed || torn < staged[id].Keys {
        staged := Tear(staged, Some(id), torn);
        return Err(RemovalFailed), torn;
      }
      staged := staged - {id};
      return Ok(true), {};
    }

    /** The next entry of a scavenging pass. */
    method ScavengeNext(listing: Listing, n: nat, ghost d: Disk) returns (removed: Result<bool, ScavengeError>, torn: set<string>)
      requires n < |listing| && Lists(listing, d.staged) && View() == ScavengeFirst(d, listing, n) && GotPast(d, listing, n)
      modifies this`staged
      ensures removed.Ok? ==> View() == ScavengeFirst(d, listing, n + 1) && torn == {} && GotPast(d, listing, n + 1)
      ensures removed.Ok? ==> |Scavenged(d, listing, n + 1)| == |Scavenged(d, listing, n)| + if removed.value then 1 else 0
      ensures removed.Err? ==> staged == Left(d, listing, n, torn) && StopsAt(d, listing, n, Some(removed.error), torn)
      ensures Blocks(d, listing[n]) ==> removed == Err(ReportEntryLimit) || removed == Err(Unreadable)
    {
      ScavengeFirstExactly(d, listing, n);
      ScavengeStep(d, listing, n);
      var read: bool := *;
      if !read {
        return Err(Unreadable), {};
      }
      if listing[n].None? {
        return Ok(false), {};
      }
      removed, torn := ScavengeEntry(listing[n].value);
    }

    /** The entries of a scavenging pass, up to the one that stops it. */
    method ScavengeEntries(listing: Listing) returns (stop: Option<ScavengeError>, removed: nat, scanned: nat, torn: set<string>)
      requires Lists(listing, staged)
      modifies this`staged
      ensures scanned <= |listing| && staged == Left(old(View()), listing, scanned, torn)
      ensures StopsAt(old(View()), listing, scanned, stop, torn)
      ensures stop.None? ==> removed == |Scavenged(old(View()), listing, scanned)|
    {
      ghost var d := View();
      removed, scanned, torn := 0, 0, {};
      assert Scavenged(d, listing, 0) == {} && View() == ScavengeFirst(d, listing, 0) && GotPast(d, listing, 0);
      hide Scavenged, ScavengeFirst, GotPast, Lists, StopsAt, Left, Blocks;
      while scanned < |listing|
        invariant scanned <= |listing| && scanned <= MAX_RECOVERY_ROOT_ENTRIES && torn == {}
        invariant View() == ScavengeFirst(d, listing, scanned) && GotPast(d, listing, scanned)
        invariant removed == |Scavenged(d, listing, scanned)|
      {
        if scanned >= MAX_RECOVERY_ROOT_ENTRIES {
          StopsUntorn(d, listing, scanned);
          return Some(RootEntryLimit), removed, scanned, {};
        }
        var entry;
        entry, torn := ScavengeNext(listing, scanned, d);
        if entry.Err? {
          return Some(entry.error), removed, scanned, torn;
        }
        removed := if entry.value then removed + 1 else removed;
        scanned := scanned + 1;
      }
      StopsUntorn(d, listing, scanned);
      stop := None;
    }

    /**
      The scavenging pass. It stops with an error at the entry limits and at the first failure; up to there
      it removes exactly the old directories nobody holds, whatever they contain. It never gets past an old,
      unheld directory with too many entries. The closing sync may fail after everything is done.
    */
    method ScavengePending(listing: Listing) returns (result: Result<nat, ScavengeError>, scanned: nat, torn: set<string>)
      requires Lists(listing, staged)
      modifies this`staged
      ensures scanned <= |listing| && staged == Left(old(View()), listing, scanned, torn)
      ensures result.Ok? ==> StopsAt(old(View()), listing, scanned, None, torn) && result.value == |Scavenged(old(View()), listing, scanned)|
      ensures result.Err? ==> if result.error.SyncFailed? then StopsAt(old(View()), listing, scanned, None, torn)
                              else StopsAt(old(View()), listing, scanned, Some(result.error), torn)
    {
      ghost var d := View();
      var rootRead: bool := *;
      if !rootRead {
        assert GotPast(d, listing, 0);
        StopsUntorn(d, listing, 0);
        return Err(Unreadable), 0, {};
      }
      var stop, removed;
      stop, removed, scanned, torn := ScavengeEntries(listing);
      if stop.Some? {
        return Err(stop.value), scanned, torn;
      }
      var synced: bool := *;
      result := if synced then Ok(removed) else Err(SyncFailed);
    }

    /** The second pass, over what the first left; in between owners may have died or appeared and directories aged. */
    method ScavengeLater(listing: Listing, inspected: nat, relisting: Listing, lockedLater: set<string>, agedLater: set<string>, ghost d: Disk)
      returns (result: Result<nat, ScavengeError>, scanned: nat, torn: set<string>)
      requires inspected <= |listing| && Lists(listing, d.staged) && View() == RecoverFirst(d, listing, inspected)
      requires Lists(relisting, staged)
      modifies this`staged, this`locked, this`aged
      ensures scanned <= |relisting| && (result.Ok? ==> scanned == |relisting| && torn == {})
      ensures torn != {} ==> scanned < |relisting|
      ensures LosesExactly(d, View(), Recovered(d, listing, inspected), agedLater - lockedLater, relisting, scanned, torn)
      ensures CrowdedStay(d, View())
    {
      locked, aged := lockedLater, agedLater;
      ghost var mid := View();
      result, scanned, torn := ScavengePending(relisting);
      StartupLosesExactly(d, mid, View(), listing, inspected, relisting, scanned, torn);
      CrowdedReportsStay(d, mid, View(), listing, inspected, relisting, scanned, torn);
    }

    /**
      Startup recovery: both passes, unless the first cannot read the root. However either is cut short,
      exactly these reports are lost: the ones the first pass did not publish that the second reached old
      and unheld, and one it was removing when it failed. A report with too many entries always stays.
    */
    method RecoverStartup(listing: Listing, inTime: nat, relisting: Listing, lockedLater: set<string>, agedLater: set<string>)
      returns (recovered: nat, result: Result<nat, ScavengeError>, inspected: nat, scanned: nat, torn: set<string>)
      requires Lists(listing, staged)
      requires Lists(relisting, RecoverFirst(View(), listing, Least(Least(inTime, MAX_RECOVERY_ROOT_ENTRIES), |listing|)).staged)
      modifies this
      ensures inspected == Least(Least(inTime, MAX_RECOVERY_ROOT_ENTRIES), |listing|)
              || (result == Err(Unreadable) && inspected == scanned == 0 && View() == old(View()))
      ensures scanned <= |relisting| && (result.Ok? ==> scanned == |relisting| && torn == {})
      ensures torn != {} ==> scanned < |relisting|
      ensures recovered == |Recovered(old(View()), listing, inspected)|
      ensures published == RecoverFirst(old(View()), listing, inspected).published
      ensures Publishes(old(View()), RecoverFirst(old(View()), listing, inspected), Recovered(old(View()), listing, inspected))
      ensures LosesExactly(old(View()), View(), Recovered(old(View()), listing, inspected), agedLater - lockedLater, relisting, scanned, torn)
      ensures CrowdedStay(old(View()), View())
    {
      ghost var d := View();
      var rootRead: bool := *;
      if !rootRead {
        RecoverFirstExactly(d, listing, 0);
        NothingRecovered(d, listing);
        return 0, Err(Unreadable), 0, 0, {};
      }
      recovered, inspected := RecoverReports(listing, inTime);
      result, scanned, torn := ScavengeLater(listing, inspected, relisting, lockedLater, agedLater, d);
    }
  }

  // Startup

  /** What is left staged when a removal failed after taking the files `torn` of one report. */
  function Tear(staged: map<string, Dir>, id: Option<string>, torn: set<string>): map<string, Dir> {
    if torn == {} || id.None? || id.value !in staged then staged else staged[id.value := staged[id.value] - torn]
  }

  /** What a scavenging pass leaves staged when it stops at entry `n`. */
  function Left(d: Disk, listing: Listing, n: nat, torn: set<string>): map<string, Dir>
    requires n <= |listing|
  {
    Tear(ScavengeFirst(d, listing, n).staged, if n < |listing| then listing[n] else None, torn)
  }

  /** Files are torn only from an old, unheld report the pass had reached. */
  predicate TearsOnly(d: Disk, listing: Listing, n: nat, torn: set<string>) {
    torn != {} ==> n < |listing| && listing[n].Some? && Stale(d, listing[n].value) && torn <= d.staged[listing[n].value].Keys
  }

  /** An entry no scavenging pass gets past: an old, unheld directory with more entries than a pass will list. */
  predicate Blocks(d: Disk, entry: Option<string>) {
    entry.Some? && Stale(d, entry.value) && Crowded(d.staged[entry.value])
  }

  /**
    Where a scavenging pass stops: at the end, at an entry limit that is met there, or at a failure, only one of
    which tears a report. No entry it got past, and none it was removing, has too many entries.
  */
  ghost predicate StopsAt(d: Disk, listing: Listing, n: nat, stop: Option<ScavengeError>, torn: set<string>)
    requires n <= |listing|
  {
    && TearsOnly(d, listing, n, torn) && (torn != {} ==> stop == Some(RemovalFailed))
    && (stop.None? ==> n == |listing|)
    && (stop.Some? ==> !stop.value.SyncFailed? && (n < |listing| || stop.value.Unreadable?))
    && (stop == Some(RootEntryLimit) ==> n == MAX_RECOVERY_ROOT_ENTRIES)
    && (stop == Some(ReportEntryLimit) ==> n < |listing| && Blocks(d, listing[n]))
    && (stop == Some(RemovalFailed) ==> n < |listing| && !Blocks(d, listing[n]))
    && GotPast(d, listing, n)
  }

  /** No entry before `n` has too many entries for the pass. */
  ghost predicate GotPast(d: Disk, listing: Listing, n: nat)
    requires n <= |listing|
  {
    forall k :: 0 <= k < n ==> !Blocks(d, listing[k])
  }

  lemma StopsUntorn(d: Disk, listing: Listing, n: nat)
    requires n <= |listing| && GotPast(d, listing, n)
    ensures Left(d, listing, n, {}) == ScavengeFirst(d, listing, n).staged && StopsAt(d, listing, n, Some(Unreadable), {})
    ensures n == |listing| ==> StopsAt(d, listing, n, None, {})
    ensures n == MAX_RECOVERY_ROOT_ENTRIES < |listing| ==> StopsAt(d, listing, n, Some(RootEntryLimit), {})
  {
  }

  /** Every report with too many entries is still staged, whole. */
  ghost predicate CrowdedStay(d: Disk, after: Disk) {
    forall id :: id in d.staged && Crowded(d.staged[id]) ==> id in after.staged && after.staged[id] == d.staged[id]
  }

  /** Neither pass touches a report with too many entries: recovery refuses it and the scavenger stops at it. */
  lemma CrowdedReportsStay(d: Disk, mid: Disk, after: Disk, listing: Listing, n: nat, relisting: Listing, m: nat, torn: set<string>)
    requires n <= |listing| && m <= |relisting| && Lists(listing, d.staged) && Lists(relisting, mid.staged)
    requires mid == RecoverFirst(d, listing, n).(locked := mid.locked, aged := mid.aged)
    requires TearsOnly(mid, relisting, m, torn) && after == mid.(staged := Left(mid, relisting, m, torn))
    requires GotPast(mid, relisting, m) && (torn != {} ==> !Blocks(mid, relisting[m]))
    ensures CrowdedStay(d, after)
  {
    RecoverFirstExactly(d, listing, n);
    forall id | id in d.staged && Crowded(d.staged[id])
      ensures id in after.staged && after.staged[id] == d.staged[id]
    {
      assert !Recoverable(d, id);
      assert id in mid.staged && mid.staged[id] == d.staged[id];
      LeftIsWhole(mid, relisting, m, torn, id);
      if Stale(mid, id) && id in Named(relisting, m) {
        var k := NamedComesFrom(relisting, m, id);
        assert Blocks(mid, relisting[k]);
      }
    }
  }

  ghost predicate PublishedSince(d: Disk, after: Disk, id: string) {
    exists p :: p in after.published && p !in d.published && p.id == id
  }

  /** A report no longer staged whole that was not published instead. */
  ghost predicate Lost(d: Disk, after: Disk, id: string) {
    id in d.staged && !(id in after.staged && after.staged[id] == d.staged[id]) && !PublishedSince(d, after, id)
  }

  /** The lost reports are those not recovered that were scavengeable and reached by the second pass, or torn by it. */
  ghost predicate LosesExactly(d: Disk, after: Disk, recovered: set<string>, scavengeable: set<string>,
                               relisting: Listing, m: nat, torn: set<string>)
    requires m <= |relisting| && (torn != {} ==> m < |relisting|)
  {
    forall id :: id in d.staged ==>
      (Lost(d, after, id) <==>
       id !in recovered && id in scavengeable && (id in Named(relisting, m) || (torn != {} && relisting[m] == Some(id))))
  }

  /**
    Wherever the two passes stop, startup loses exactly the reports that the first did not publish and the
    second found old and unheld; whether they hold a manifest makes no difference.
  */
  lemma StartupLosesExactly(d: Disk, mid: Disk, after: Disk, listing: Listing, n: nat, relisting: Listing, m: nat, torn: set<string>)
    requires n <= |listing| && m <= |relisting| && Lists(listing, d.staged) && Lists(relisting, mid.staged)
    requires mid == RecoverFirst(d, listing, n).(locked := mid.locked, aged := mid.aged)
    requires TearsOnly(mid, relisting, m, torn) && after == mid.(staged := Left(mid, relisting, m, torn))
    ensures LosesExactly(d, after, Recovered(d, listing, n), mid.aged - mid.locked, relisting, m, torn)
    ensures forall id :: id in Recovered(d, listing, n) ==> PublishedSince(d, after, id)
  {
    RecoverFirstExactly(d, listing, n);
    forall id | id in Recovered(d, listing, n)
      ensures PublishedSince(d, after, id)
    {
      assert GoesTo(d, id) in after.published && GoesTo(d, id).id == id;
    }
    forall id | id in d.staged && id !in Recovered(d, listing, n)
      ensures Lost(d, after, id) <==>
              id in mid.aged - mid.locked && (id in Named(relisting, m) || (torn != {} && relisting[m] == Some(id)))
    {
      assert !PublishedSince(d, after, id);
      LeftIsWhole(mid, relisting, m, torn, id);
    }
  }

  lemma LeftIsWhole(mid: Disk, relisting: Listing, m: nat, torn: set<string>, id: string)
    requires m <= |relisting| && Lists(relisting, mid.staged) && id in mid.staged && TearsOnly(mid, relisting, m, torn)
    ensures var left := Left(mid, relisting, m, torn);
            id in left && left[id] == mid.staged[id] <==>
            !(Stale(mid, id) && (id in Named(relisting, m) || (torn != {} && relisting[m] == Some(id))))
  {
    ScavengeFirstExactly(mid, relisting, m);
    if torn != {} && relisting[m] == Some(id) {
      var name :| name in torn;
      assert name in mid.staged[id] && name !in mid.staged[id] - torn;
    }
  }

  /** A report recovery would accept is lost all the same when the pass ends before reaching it. */
  lemma UnreachedReportsAreScavenged(d: Disk, id: string)
    requires Recoverable(d, id) && id in d.aged
    ensures Lost(d, ScavengeFirst(RecoverFirst(d, [Some(id)], 0), [Some(id)], 1), id)
  {
    assert RecoverFirst(d, [Some(id)], 0) == d;
    assert ScavengeFirst(d, [Some(id)], 0) == d;
  }

  // What recovery accepts

  /** The tests of recovery accept exactly the free, unheld, complete reports of at most 10,000 artifacts with a place to go. */
  lemma RecoverableExactly(d: Disk, id: string)
    ensures Recoverable(d, id) <==>
            && id in d.staged && id !in d.locked && Sound(Env(id, d.root), d.staged[id])
            && var m := d.staged[id][MANIFEST_FILE_NAME].manifest.value;
               && |m.artifacts| <= MAX_RECOVERY_ARTIFACTS && ValidNames(Names(m))
               && DestinationFromPolicy(d.root, m.destination).Ok?
               && Site(DestinationFromPolicy(d.root, m.destination).value, id) !in d.published
  {
    if id in d.staged && MANIFEST_FILE_NAME in d.staged[id] && d.staged[id][MANIFEST_FILE_NAME].manifest.Some? {
      var dir := d.staged[id];
      var m := dir[MANIFEST_FILE_NAME].manifest.value;
      ExactRevalidates(dir, m);
    }
  }

  lemma ExactRevalidates(dir: Dir, m: Manifest)
    ensures Exact(dir, m) <==> Distinct(m) && MANIFEST_FILE_NAME !in Names(m) && Revalidates(dir, Names(m), m)
    ensures Exact(dir, m) && |m.artifacts| <= MAX_RECOVERY_ARTIFACTS ==> !Crowded(dir)
    ensures ValidNames(Names(m)) ==> MANIFEST_FILE_NAME !in Names(m)
  {
    assert !ValidArtifactName(MANIFEST_FILE_NAME);
    if Exact(dir, m) {
      CrowdedExactly(dir, m);
    } else if Revalidates(dir, Names(m), m) && MANIFEST_FILE_NAME !in Names(m) {
      assert dir.Keys == Names(m) + {MANIFEST_FILE_NAME};
    }
  }

  lemma PublishesSound(d: Disk, after: Disk, moved: set<string>)
    requires Publishes(d, after, moved)
    ensures forall p :: p in after.published && p !in d.published ==> Sound(Env(p.id, d.root), after.published[p])
  {
    forall p | p in after.published && p !in d.published
      ensures Sound(Env(p.id, d.root), after.published[p])
    {
      RecoverableExactly(d, p.id);
    }
  }

  /** The disk shows report `id` as the protocol left it. */
  ghost predicate Shows(d: Disk, id: string, s: State) {
    && s.staging == (if id in d.staged then Some(d.staged[id]) else None)
    && (id in d.locked <==> s.lock.Some?)
    && forall at :: Site(at, id) in d.published <==> !Free(s, at)
  }

  /** One candidate of the startup pass is one pass of the protocol: it goes through exactly when the tests accept it. */
  lemma StartupRunsThePass(d: Disk, id: string, s: State, a: nat)
    requires Shows(d, id, s) && s.begun && a !in s.agents
    ensures Recoverable(d, id) <==> Run(Env(id, d.root), s, RecoveryPass(a)).Some?
    ensures Recoverable(d, id) ==>
            Run(Env(id, d.root), s, RecoveryPass(a)) ==
            Some(s.(staging := None, published := s.published[GoesTo(d, id).root := d.staged[id]]))
  {
    RecoverableExactly(d, id);
    if Recoverable(d, id) {
      var m := d.staged[id][MANIFEST_FILE_NAME].manifest.value;
      RecoveryPasses(Env(id, d.root), s, a, d.staged[id], m, GoesTo(d, id).root);
    } else if Run(Env(id, d.root), s, RecoveryPass(a)).Some? {
      PassImpliesTests(Env(id, d.root), s, a);
      var m := d.staged[id][MANIFEST_FILE_NAME].manifest.value;
      ExactRevalidates(d.staged[id], m);
    }
  }

  /** A pass that goes through has made all its tests. */
  lemma PassImpliesTests(e: Env, s: State, a: nat)
    requires a !in s.agents && Run(e, s, RecoveryPass(a)).Some?
    ensures s.lock.None? && s.staging.Some?
    ensures MANIFEST_FILE_NAME in s.staging.value && s.staging.value[MANIFEST_FILE_NAME].manifest.Some?
    ensures var m := s.staging.value[MANIFEST_FILE_NAME].manifest.value;
            && Identified(e, m) && |m.artifacts| <= MAX_RECOVERY_ARTIFACTS && ValidNames(Names(m)) && Distinct(m)
            && !Crowded(s.staging.value) && Revalidates(s.staging.value, Names(m), m)
            && DestinationFromPolicy(e.root, m.destination).Ok? && Free(s, DestinationFromPolicy(e.root, m.destination).value)
  {
    var steps := RecoveryPass(a);
    var s1 := Next(e, s, steps[0]).value;
    assert Run(e, s1, steps[1..]).Some?;
    var s2 := Next(e, s1, steps[1..][0]).value;
    assert Run(e, s2, steps[1..][1..]).Some?;
    assert Next(e, s2, steps[1..][1..][0]).Some?;
  }

  /**
    The promise that does hold: a report whose commit reached its manifest, however interrupted, is accepted
    by recovery once its owner is gone, and goes where its commit would have put it.
  */
  lemma InterruptedCommitsAreRecoverable(d: Disk, id: string, steps: seq<Step>)
    requires WellFormed(d.root) && Run(Env(id, d.root), INITIAL, steps).Some?
    requires forall i :: 0 <= i < |steps| ==> Protocol(steps[i])
    requires var s := Run(Env(id, d.root), INITIAL, steps).value;
             && Shows(d, id, s) && s.seal.Some? && s.staging.Some? && s.lock.None? && Free(s, s.seal.value.destination)
             && |s.seal.value.manifest.artifacts| <= MAX_RECOVERY_ARTIFACTS
    ensures Recoverable(d, id)
    ensures GoesTo(d, id) == Site(Run(Env(id, d.root), INITIAL, steps).value.seal.value.destination, id)
  {
    var e := Env(id, d.root);
    InitialHolds(e);
    assert forall t :: At(INITIAL.threads, t).Idle?;
    RunStaysClean(e, INITIAL, steps);
    var s := Run(e, INITIAL, steps).value;
    SealResolves(e, s.seal.value);
    RecoverableExactly(d, id);
  }

  /** So a startup pass that reaches such a report publishes it there, whole, and the scavenger finds nothing to take. */
  lemma StartupFinishesCommits(d: Disk, id: string, steps: seq<Step>, listing: Listing, n: nat)
    requires WellFormed(d.root) && Run(Env(id, d.root), INITIAL, steps).Some?
    requires forall i :: 0 <= i < |steps| ==> Protocol(steps[i])
    requires var s := Run(Env(id, d.root), INITIAL, steps).value;
             && Shows(d, id, s) && s.seal.Some? && s.staging.Some? && s.lock.None? && Free(s, s.seal.value.destination)
             && |s.seal.value.manifest.artifacts| <= MAX_RECOVERY_ARTIFACTS
    requires n <= |listing| && Lists(listing, d.staged) && id in Named(listing, n)
    ensures var after := RecoverFirst(d, listing, n);
            var at := Site(Run(Env(id, d.root), INITIAL, steps).value.seal.value.destination, id);
            id !in after.staged && at in after.published && after.published[at] == d.staged[id]
  {
    InterruptedCommitsAreRecoverable(d, id, steps);
    RecoverFirstExactly(d, listing, n);
  }

  /** The documented promise fails: an old prepared report whose destination is taken is deleted. */
  lemma PreparedReportsAreScavenged(root: Path, id: string) returns (d: Disk, m: Manifest)
    ensures id in d.staged && Exact(d.staged[id], m) && Identified(Env(id, root), m)
    ensures Lost(d, ScavengeFirst(RecoverFirst(d, [Some(id)], 1), [Some(id)], 1), id)
  {
    m := Manifest(MANIFEST_SCHEMA_VERSION, id, OutputRoot, [], None);
    var dir: Dir := map[MANIFEST_FILE_NAME := Content(1, Some(m))];
    d := Disk(root, map[id := dir], map[Site(root, id) := dir], {}, {id});
    assert !Recoverable(d, id);
    assert RecoverFirst(d, [Some(id)], 0) == d;
    assert RecoverFirst(d, [Some(id)], 1) == d;
    assert ScavengeFirst(d, [Some(id)], 0) == d;
    assert ScavengeFirst(d, [Some(id)], 1) == d.(staged := map[]);
  }

  /** The disk differs only in that the named reports have moved, whole, to where their manifests say. */
  ghost predicate Publishes(d: Disk, after: Disk, moved: set<string>) {
    && after == d.(staged := d.staged - moved, published := after.published)
    && (forall id :: id in moved ==> Recoverable(d, id) && GoesTo(d, id) in after.published)
    && (forall p :: p in d.published ==> p in after.published && after.published[p] == d.published[p])
    && (forall p :: p in after.published && p !in d.published ==>
          p.id in moved && p == GoesTo(d, p.id) && after.published[p] == d.staged[p.id])
  }

  lemma {:induction false} NamedComesFrom(listing: Listing, n: nat, id: string) returns (k: nat)
    requires n <= |listing| && id in Named(listing, n)
    ensures k < n && listing[k] == Some(id)
  {
    if listing[n - 1] == Some(id) {
      k := n - 1;
    } else {
      k := NamedComesFrom(listing, n - 1, id);
    }
  }

  lemma NewestIsUnnamed(listing: Listing, staged: map<string, Dir>, n: nat)
    requires n < |listing| && Lists(listing, staged) && listing[n].Some?
    ensures listing[n].value !in Named(listing, n) && listing[n].value in staged
  {
    if listing[n].value in Named(listing, n) {
      var k := NamedComesFrom(listing, n, listing[n].value);
    }
  }

  lemma RecoveredNext(d: Disk, listing: Listing, n: nat)
    requires n < |listing| && Lists(listing, d.staged)
    requires Publishes(d, RecoverFirst(d, listing, n), Recovered(d, listing, n))
    ensures var id := listing[n];
            && (id.Some? ==> id.value in RecoverFirst(d, listing, n).staged)
            && (id.Some? && Recoverable(RecoverFirst(d, listing, n), id.value)
                ==> Recoverable(d, id.value) && id.value !in Recovered(d, listing, n)
                    && Recovered(d, listing, n + 1) == Recovered(d, listing, n) + {id.value})
            && (id.None? || !Recoverable(RecoverFirst(d, listing, n), id.value)
                ==> Recovered(d, listing, n + 1) == Recovered(d, listing, n))
  {
    var id := listing[n];
    if id.Some? {
      NewestIsUnnamed(listing, d.staged, n);
      assert Recoverable(RecoverFirst(d, listing, n), id.value) <==> Recoverable(d, id.value);
    }
  }

  lemma NothingRecovered(d: Disk, listing: Listing)
    ensures RecoverFirst(d, listing, 0) == d && |Recovered(d, listing, 0)| == 0
  {
    assert Recovered(d, listing, 0) == {};
  }

  lemma RecoverStep(d: Disk, listing: Listing, n: nat)
    requires n < |listing| && Lists(listing, d.staged)
    ensures var before, after := RecoverFirst(d, listing, n), RecoverFirst(d, listing, n + 1);
            && after == (if listing[n].None? then before else RecoverOne(before, listing[n].value))
            && (listing[n].Some? ==> listing[n].value in before.staged)
            && |Recovered(d, listing, n + 1)| ==
               |Recovered(d, listing, n)| + if listing[n].Some? && Recoverable(before, listing[n].value) then 1 else 0
  {
    RecoverFirstExactly(d, listing, n);
    RecoveredNext(d, listing, n);
  }

  lemma {:induction false} RecoverFirstExactly(d: Disk, listing: Listing, n: nat)
    requires n <= |listing| && Lists(listing, d.staged)
    ensures Publishes(d, RecoverFirst(d, listing, n), Recovered(d, listing, n))
  {
    if n == 0 {
      assert Recovered(d, listing, 0) == {};
    } else {
      RecoverFirstExactly(d, listing, n - 1);
      RecoveredNext(d, listing, n - 1);
      var id := listing[n - 1];
      var before, moved := RecoverFirst(d, listing, n - 1), Recovered(d, listing, n - 1);
      if id.Some? && Recoverable(before, id.value) {
        PublishesOneMore(d, before, moved, id.value);
      } else {
        assert RecoverFirst(d, listing, n) == before && Recovered(d, listing, n) == moved;
      }
    }
  }

  lemma RemoveOneMore(staged: map<string, Dir>, gone: set<string>, id: string)
    requires id in staged && id !in gone
    ensures id in staged - gone && (staged - gone)[id] == staged[id]
    ensures (staged - gone) - {id} == staged - (gone + {id})
  {
  }

  lemma PublishesOneMore(d: Disk, mid: Disk, moved: set<string>, id: string)
    requires Publishes(d, mid, moved) && id !in moved && Recoverable(d, id) && Recoverable(mid, id)
    ensures Publishes(d, RecoverOne(mid, id), moved + {id})
  {
    RemoveOneMore(d.staged, moved, id);
    assert GoesTo(mid, id) == GoesTo(d, id);
  }

  lemma {:induction false} ScavengeFirstExactly(d: Disk, listing: Listing, n: nat)
    requires n <= |listing| && Lists(listing, d.staged)
    ensures ScavengeFirst(d, listing, n) == d.(staged := d.staged - Scavenged(d, listing, n))
    ensures n < |listing| && listing[n].Some? ==>
            var id := listing[n].value;
            && id in ScavengeFirst(d, listing, n).staged && ScavengeFirst(d, listing, n).staged[id] == d.staged[id]
            && (Stale(ScavengeFirst(d, listing, n), id) <==> Stale(d, id))
  {
    if n == 0 {
      assert Scavenged(d, listing, 0) == {};
    } else {
      ScavengeFirstExactly(d, listing, n - 1);
      ScavengedNext(d, listing, n - 1);
      var id := listing[n - 1];
      if id.Some? && Stale(d, id.value) {
        RemoveOneMore(d.staged, Scavenged(d, listing, n - 1), id.value);
      }
    }
    if n < |listing| {
      ScavengedNext(d, listing, n);
    }
  }

  lemma ScavengeStep(d: Disk, listing: Listing, n: nat)
    requires n < |listing| && Lists(listing, d.staged)
    ensures var before, after := ScavengeFirst(d, listing, n), ScavengeFirst(d, listing, n + 1);
            && after == (if listing[n].None? then before else ScavengeOne(before, listing[n].value))
            && |Scavenged(d, listing, n + 1)| ==
               |Scavenged(d, listing, n)| + if listing[n].Some? && Stale(before, listing[n].value) then 1 else 0
  {
    ScavengeFirstExactly(d, listing, n);
    ScavengedNext(d, listing, n);
  }

  lemma ScavengedNext(d: Disk, listing: Listing, n: nat)
    requires n < |listing| && Lists(listing, d.staged)
    ensures var id := listing[n];
            && (id.Some? ==> id.value in d.staged && id.value !in Scavenged(d, listing, n))
            && Scavenged(d, listing, n + 1) ==
               Scavenged(d, listing, n) + if id.Some? && Stale(d, id.value) then {id.value} else {}
  {
    if listing[n].Some? {
      NewestIsUnnamed(listing, d.staged, n);
    }
  }
}
