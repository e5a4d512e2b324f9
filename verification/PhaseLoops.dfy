/**
  The four post-processor loops of `finalize_captured` (src/pipeline/mod.rs).
  Each walks the whole list and runs the plugins of one phase; a failed commit
  ends the run after the first loop.
*/
module PhaseLoops {
  import opened Wrappers
  import opened PluginGraph
  import opened PluginOrder
  import opened PluginRegistry

  datatype Verdict = Completed | Failed | Unavailable | DependencyNotMet

  datatype Visit = Visit(id: PluginId, verdict: Verdict)

  predicate Succeeded(log: seq<Visit>, id: PluginId) {
    exists k :: 0 <= k < |log| && log[k].id == id && log[k].verdict == Completed
  }

  predicate DepsSatisfied(deps: seq<PluginId>, log: seq<Visit>) {
    forall k :: 0 <= k < |deps| ==> Succeeded(log, deps[k])
  }

  function Judge(p: Plugin, log: seq<Visit>, available: PluginId -> bool, completes: PluginId -> bool): Verdict {
    if !available(p.id) then Unavailable
    else if !DepsSatisfied(p.hard, log) then DependencyNotMet
    else if completes(p.id) then Completed else Failed
  }

  /** How many leading plugins have a phase rank below `rank`. */
  ghost function Below(ps: seq<Plugin>, rank: nat): (n: nat)
    ensures n <= |ps|
    ensures forall i :: 0 <= i < n ==> PhaseRank(ps[i].phase) < rank
    ensures n < |ps| ==> PhaseRank(ps[n].phase) >= rank
  {
    if ps == [] || PhaseRank(ps[0].phase) >= rank then 0 else 1 + Below(ps[1..], rank)
  }

  lemma BelowSplits(ps: seq<Plugin>, rank: nat, i: nat)
    requires PhasesAscend(ps) && i < |ps|
    ensures i < Below(ps, rank) <==> PhaseRank(ps[i].phase) < rank
  {
    var n := Below(ps, rank);
    if n < i {
      assert PhaseRank(ps[n].phase) <= PhaseRank(ps[i].phase);
    }
  }

  /** The log follows the list from the front: one visit per plugin, judged on the visits before it. */
  ghost predicate Follows(ps: seq<Plugin>, log: seq<Visit>, available: PluginId -> bool, completes: PluginId -> bool) {
    && |log| <= |ps|
    && forall i :: 0 <= i < |log| ==> log[i] == Visit(ps[i].id, Judge(ps[i], log[..i], available, completes))
  }

  method RunPhase(ps: seq<Plugin>, phase: Phase, log: seq<Visit>, available: PluginId -> bool, completes: PluginId -> bool)
    returns (after: seq<Visit>)
    requires PhasesAscend(ps) && Follows(ps, log, available, completes) && |log| == Below(ps, PhaseRank(phase))
    ensures Follows(ps, after, available, completes) && |after| == Below(ps, PhaseRank(phase) + 1)
    ensures log <= after
  {
    after := log;
    ghost var lo, hi := Below(ps, PhaseRank(phase)), Below(ps, PhaseRank(phase) + 1);
    assert lo <= hi;
    for i := 0 to |ps|
      invariant |after| == (if i < lo then lo else if i < hi then i else hi)
      invariant Follows(ps, after, available, completes) && log <= after
    {
      BelowSplits(ps, PhaseRank(phase), i);
      BelowSplits(ps, PhaseRank(phase) + 1, i);
      if PhaseRank(ps[i].phase) == PhaseRank(phase) {
        var before := after;
        after := after + [Visit(ps[i].id, Judge(ps[i], after, available, completes))];
        assert forall k :: 0 <= k < |before| ==> after[..k] == before[..k];
        assert after[..|before|] == before;
      }
    }
  }

  /** Every hard dependency of the visited plugin already has its own, only, verdict. */
  ghost predicate DependencyDecided(ps: seq<Plugin>, log: seq<Visit>, i: nat)
    requires i < |log| && |log| <= |ps|
  {
    forall d :: d in ps[i].hard ==> Decided(log, i, d)
  }

  ghost predicate Decided(log: seq<Visit>, i: nat, d: PluginId)
    requires i <= |log|
  {
    exists j :: 0 <= j < i && log[j].id == d
  }

  /** A skip for an unmet dependency is always due to a dependency that was visited and did not complete. */
  ghost predicate SkipExplained(ps: seq<Plugin>, log: seq<Visit>, i: nat)
    requires i < |log| && |log| <= |ps|
  {
    log[i].verdict == DependencyNotMet ==>
      exists j :: 0 <= j < i && log[j].id in ps[i].hard && log[j].verdict != Completed
  }

  lemma VisitsAreDecided(ps: seq<Plugin>, log: seq<Visit>, available: PluginId -> bool, completes: PluginId -> bool, i: nat)
    requires Follows(ps, log, available, completes) && i < |log|
    requires UniqueIds(ps) && HardPresent(ps) && DependenciesFirst(ps)
    ensures DependencyDecided(ps, log, i) && SkipExplained(ps, log, i)
  {
    forall d | d in ps[i].hard ensures Decided(log, i, d) {
      assert ps[i] in ps && Registered(ps, d);
      var provider :| provider in ps && provider.id == d;
      var j :| 0 <= j < |ps| && ps[j] == provider;
      assert d in Deps(ps[i]) && j < i;
    }
    if log[i].verdict == DependencyNotMet {
      var k :| 0 <= k < |ps[i].hard| && !Succeeded(log[..i], ps[i].hard[k]);
      assert ps[i].hard[k] in ps[i].hard && Decided(log, i, ps[i].hard[k]);
      var j :| 0 <= j < i && log[j].id == ps[i].hard[k];
      assert log[..i][j] == log[j];
    }
  }

  lemma EveryPhaseIsVisited(ps: seq<Plugin>)
    ensures Below(ps, 0) == 0 && Below(ps, 4) == |ps|
  {
  }

  /** What the visits of a log mean: decided dependencies, explained skips, satisfied runs. */
  ghost predicate Sound(ps: seq<Plugin>, log: seq<Visit>, i: nat)
    requires i < |log| && |log| <= |ps|
  {
    && DependencyDecided(ps, log, i)
    && SkipExplained(ps, log, i)
    && (log[i].verdict in {Completed, Failed} ==> DepsSatisfied(ps[i].hard, log[..i]))
  }

  lemma FollowedLogIsSound(ps: seq<Plugin>, log: seq<Visit>, available: PluginId -> bool, completes: PluginId -> bool)
    requires UniqueIds(ps) && HardPresent(ps) && DependenciesFirst(ps) && Follows(ps, log, available, completes)
    ensures forall i :: 0 <= i < |log| ==> Sound(ps, log, i)
  {
    forall i | 0 <= i < |log| ensures Sound(ps, log, i) {
      VisitsAreDecided(ps, log, available, completes, i);
    }
  }

  /** The loops together: one visit per plugin in list order, or the first phase only when the commit fails. */
  method RunLoops(ps: seq<Plugin>, commits: bool, available: PluginId -> bool, completes: PluginId -> bool)
    returns (log: seq<Visit>)
    requires PhasesAscend(ps)
    ensures Follows(ps, log, available, completes)
    ensures |log| == if commits then |ps| else Below(ps, 1)
  {
    EveryPhaseIsVisited(ps);
    log := RunPhase(ps, BeforeCommit, [], available, completes);
    if commits {
      log := RunPhase(ps, AfterCommit, log, available, completes);
      log := RunPhase(ps, AfterNotify, log, available, completes);
      log := RunPhase(ps, FinalCleanup, log, available, completes);
    }
  }

  /**
    The post-processors of a registered pipeline are visited in list order, each
    once if the commit succeeds; dependencies are decided before dependents.
  */
  method RunPostProcessors(ps: seq<Plugin>, commits: bool, available: PluginId -> bool, completes: PluginId -> bool)
    returns (log: seq<Visit>)
    requires UniqueIds(ps) && HardPresent(ps) && DependenciesFirst(ps) && PhasesAscend(ps)
    ensures |log| == if commits then |ps| else Below(ps, 1)
    ensures forall i :: 0 <= i < |log| ==> log[i].id == ps[i].id
    ensures forall i :: 0 <= i < |log| ==> Sound(ps, log, i)
  {
    log := RunLoops(ps, commits, available, completes);
    FollowedLogIsSound(ps, log, available, completes);
  }

  /** What registration gives is what the phase loops need. */
  lemma RegisteredIsRunnable(p: Pipeline, q: Pipeline)
    requires Registrable(p) && Arranged(p, q)
    ensures UniqueIds(q.postProcessors) && HardPresent(q.postProcessors)
    ensures DependenciesFirst(q.postProcessors) && PhasesAscend(q.postProcessors)
  {
    RegistrableUnderPermutation(p, q);
    assert Sections(q)[3].plugins == q.postProcessors;
  }

  /** Registration and the phase loops together: whatever the insertion order, a registrable pipeline runs soundly. */
  method RegisterAndRun(p: Pipeline, commits: bool, available: PluginId -> bool, completes: PluginId -> bool)
    returns (r: Result<(seq<Plugin>, seq<Visit>), ConfigError>)
    ensures r.Ok? <==> Registrable(p)
    ensures r.Ok? ==>
              var (ps, log) := r.value;
              && multiset(ps) == multiset(p.postProcessors)
              && |log| == (if commits then |ps| else Below(ps, 1))
              && forall i :: 0 <= i < |log| ==> log[i].id == ps[i].id && Sound(ps, log, i)
  {
    var q := FinishRegistration(p);
    if q.Err? {
      return Err(q.error);
    }
    RegisteredIsRunnable(p, q.value);
    assert Sections(q.value)[3].plugins == q.value.postProcessors && Sections(p)[3].plugins == p.postProcessors;
    var log := RunPostProcessors(q.value.postProcessors, commits, available, completes);
    return Ok((q.value.postProcessors, log));
  }
}
