/**
  The stable, dependency-aware priority order of one plugin category
  (`stable_plugin_order`, src/pipeline/mod.rs).

  The loop is specified by the schedule it follows: at each step the plugin it
  moves is ready and is the least ready one by (phase rank, priority, insertion
  index). The order properties are then facts about such schedules.
*/
module PluginOrder {
  import opened Wrappers
  import opened PluginGraph

  function PhaseRank(phase: Phase): nat {
    match phase
    case BeforeCommit => 0
    case AfterCommit => 1
    case AfterNotify => 2
    case FinalCleanup => 3
  }

  /** Only post-processors are ranked by phase; the other categories rank everything 0. */
  function Rank(p: Plugin, phased: bool): nat {
    if phased then PhaseRank(p.phase) else 0
  }

  datatype Entry = Entry(index: nat, plugin: Plugin)

  predicate KeyLess(a: Entry, b: Entry, phased: bool) {
    var ra, rb := Rank(a.plugin, phased), Rank(b.plugin, phased);
    ra < rb || (ra == rb && (a.plugin.priority < b.plugin.priority ||
                             (a.plugin.priority == b.plugin.priority && a.index < b.index)))
  }

  ghost function Members(s: seq<Entry>): (r: set<Entry>) {
    set e | e in s
  }

  ghost predicate Ascending(s: seq<Entry>) {
    forall i, j :: 0 <= i < j < |s| ==> s[i].index < s[j].index
  }

  ghost predicate ReadyIn(p: Plugin, pending: set<Entry>) {
    forall e :: e in pending ==> e.plugin.id !in Deps(p)
  }

  function Plugins(s: seq<Entry>): (r: seq<Plugin>)
    ensures |r| == |s| && forall k :: 0 <= k < |s| ==> r[k] == s[k].plugin
  {
    seq(|s|, k requires 0 <= k < |s| => s[k].plugin)
  }

  function Enumerate(ps: seq<Plugin>): (r: seq<Entry>)
    ensures |r| == |ps| && forall k :: 0 <= k < |ps| ==> r[k] == Entry(k, ps[k])
  {
    seq(|ps|, k requires 0 <= k < |ps| => Entry(k, ps[k]))
  }

  /** `done[i]` was ready, and least among the ready, when everything before it had been moved. */
  ghost predicate GreedyAt(all: set<Entry>, done: seq<Entry>, i: nat, phased: bool)
    requires i < |done|
  {
    var pending := all - Members(done[..i]);
    && done[i] in pending
    && ReadyIn(done[i].plugin, pending)
    && forall e :: e in pending && e != done[i] && ReadyIn(e.plugin, pending) ==> KeyLess(done[i], e, phased)
  }

  ghost predicate Greedy(all: set<Entry>, done: seq<Entry>, phased: bool) {
    forall i :: 0 <= i < |done| ==> GreedyAt(all, done, i, phased)
  }

  ghost predicate NoneReady(pending: seq<Entry>) {
    forall e {:trigger ReadyIn(e.plugin, Members(pending))} :: e in pending ==> !ReadyIn(e.plugin, Members(pending))
  }

  /** The greedy part of a schedule, then whatever was left when nothing was ready. */
  ghost predicate Schedule(ps: seq<Plugin>, done: seq<Entry>, stuck: seq<Entry>, phased: bool) {
    var all := Members(Enumerate(ps));
    && Members(done) + Members(stuck) == all
    && Members(done) !! Members(stuck)
    && Ascending(stuck)
    && Greedy(all, done, phased)
    && NoneReady(stuck)
  }

  method IsReady(p: Plugin, remaining: seq<Entry>) returns (ready: bool)
    ensures ready == ReadyIn(p, Members(remaining))
  {
    var k := 0;
    while k < |remaining|
      invariant k <= |remaining|
      invariant forall m :: 0 <= m < k ==> remaining[m].plugin.id !in Deps(p)
    {
      if remaining[k].plugin.id in Deps(p) {
        assert remaining[k] in Members(remaining);
        return false;
      }
      k := k + 1;
    }
    return true;
  }

  /** The first least ready entry, as `filter(..).min_by_key(..)` picks it. */
  method PickCandidate(remaining: seq<Entry>, phased: bool) returns (candidate: Option<nat>)
    requires Ascending(remaining)
    ensures candidate.None? ==> NoneReady(remaining)
    ensures candidate.Some? ==> candidate.value < |remaining| &&
                                ReadyIn(remaining[candidate.value].plugin, Members(remaining))
    ensures candidate.Some? ==>
              forall e :: e in remaining && e != remaining[candidate.value] && ReadyIn(e.plugin, Members(remaining))
                          ==> KeyLess(remaining[candidate.value], e, phased)
  {
    candidate := None;
    var k := 0;
    while k < |remaining|
      invariant k <= |remaining|
      invariant candidate.None? ==> forall m :: 0 <= m < k ==> !ReadyIn(remaining[m].plugin, Members(remaining))
      invariant candidate.Some? ==> candidate.value < k && ReadyIn(remaining[candidate.value].plugin, Members(remaining))
      invariant candidate.Some? ==>
                  forall m :: 0 <= m < k && m != candidate.value && ReadyIn(remaining[m].plugin, Members(remaining))
                              ==> KeyLess(remaining[candidate.value], remaining[m], phased)
    {
      var ready := IsReady(remaining[k].plugin, remaining);
      if ready && (candidate.None? || KeyLess(remaining[k], remaining[candidate.value], phased)) {
        candidate := Some(k);
      }
      k := k + 1;
    }
  }

  lemma PluginsOfSum(a: seq<Entry>, b: seq<Entry>)
    ensures multiset(Plugins(a + b)) == multiset(Plugins(a)) + multiset(Plugins(b))
  {
    assert Plugins(a + b) == Plugins(a) + Plugins(b);
  }

  lemma RemoveKeepsPlugins(r: seq<Entry>, k: nat)
    requires k < |r|
    ensures multiset(Plugins(r)) == multiset(Plugins(r[..k] + r[k + 1..])) + multiset{r[k].plugin}
  {
    assert r == (r[..k] + [r[k]]) + r[k + 1..];
    PluginsOfSum(r[..k] + [r[k]], r[k + 1..]);
    PluginsOfSum(r[..k], [r[k]]);
    PluginsOfSum(r[..k], r[k + 1..]);
    assert Plugins([r[k]]) == [r[k].plugin];
  }

  lemma RemoveOne(r: seq<Entry>, k: nat)
    requires k < |r| && Ascending(r)
    ensures Ascending(r[..k] + r[k + 1..])
    ensures Members(r[..k] + r[k + 1..]) == Members(r) - {r[k]}
  {
    var rest := r[..k] + r[k + 1..];
    forall e ensures e in Members(rest) <==> e in Members(r) && e != r[k] {
      if e in Members(r) && e != r[k] {
        var i :| 0 <= i < |r| && r[i] == e;
        assert i < k || rest[i - 1] == e;
        assert i >= k || rest[i] == e;
      }
    }
  }

  lemma GreedyExtends(all: set<Entry>, done: seq<Entry>, next: Entry, phased: bool)
    requires Greedy(all, done, phased)
    requires var pending := all - Members(done);
             next in pending && ReadyIn(next.plugin, pending) &&
             forall e :: e in pending && e != next && ReadyIn(e.plugin, pending) ==> KeyLess(next, e, phased)
    ensures Greedy(all, done + [next], phased)
  {
    var longer := done + [next];
    forall i | 0 <= i < |longer| ensures GreedyAt(all, longer, i, phased) {
      assert longer[..i] == done[..i];
      if i < |done| {
        assert GreedyAt(all, done, i, phased);
      } else {
        assert done[..i] == done;
      }
    }
  }

  ghost predicate Progress(all: set<Entry>, done: seq<Entry>, remaining: seq<Entry>, phased: bool) {
    && Ascending(remaining)
    && Members(done) + Members(remaining) == all
    && Members(done) !! Members(remaining)
    && Greedy(all, done, phased)
  }

  lemma MoveKeepsProgress(all: set<Entry>, done: seq<Entry>, remaining: seq<Entry>, k: nat, phased: bool)
    requires Progress(all, done, remaining, phased) && k < |remaining|
    requires ReadyIn(remaining[k].plugin, Members(remaining))
    requires forall e :: e in remaining && e != remaining[k] && ReadyIn(e.plugin, Members(remaining))
                         ==> KeyLess(remaining[k], e, phased)
    ensures Progress(all, done + [remaining[k]], remaining[..k] + remaining[k + 1..], phased)
  {
    var moved := remaining[k];
    assert all - Members(done) == Members(remaining);
    GreedyExtends(all, done, moved, phased);
    RemoveOne(remaining, k);
    assert Members(done + [moved]) == Members(done) + {moved};
  }

  /** Nothing is lost or duplicated while plugins move over. */
  ghost predicate Conserved(ps: seq<Plugin>, done: seq<Entry>, remaining: seq<Entry>) {
    multiset(Plugins(done)) + multiset(Plugins(remaining)) == multiset(ps)
  }

  lemma MoveConserves(ps: seq<Plugin>, done: seq<Entry>, remaining: seq<Entry>, k: nat)
    requires Conserved(ps, done, remaining) && k < |remaining|
    ensures Conserved(ps, done + [remaining[k]], remaining[..k] + remaining[k + 1..])
    ensures Plugins(done + [remaining[k]]) == Plugins(done) + [remaining[k].plugin]
  {
    RemoveKeepsPlugins(remaining, k);
    PluginsOfSum(done, [remaining[k]]);
    assert Plugins([remaining[k]]) == [remaining[k].plugin];
  }

  lemma RestConserves(ps: seq<Plugin>, done: seq<Entry>, rest: seq<Entry>)
    requires Conserved(ps, done, rest)
    ensures multiset(Plugins(done + rest)) == multiset(ps) && Plugins(done + rest) == Plugins(done) + Plugins(rest)
  {
    PluginsOfSum(done, rest);
  }

  /** Moves plugins one by one; a rest in which nothing is ready is appended unchanged. */
  method StablePluginOrder(ps: seq<Plugin>, phased: bool)
    returns (ordered: seq<Plugin>, ghost done: seq<Entry>, ghost stuck: seq<Entry>)
    ensures multiset(ordered) == multiset(ps)
    ensures ordered == Plugins(done + stuck)
    ensures Schedule(ps, done, stuck, phased)
  {
    var remaining := Enumerate(ps);
    ghost var all := Members(remaining);
    ordered, done, stuck := [], [], [];
    assert Plugins(remaining) == ps;
    while remaining != []
      invariant Progress(all, done, remaining, phased)
      invariant Conserved(ps, done, remaining)
      invariant ordered == Plugins(done)
      decreases |remaining|
    {
      var candidate := PickCandidate(remaining, phased);
      if candidate.None? {
        RestConserves(ps, done, remaining);
        ordered := ordered + Plugins(remaining);
        stuck := remaining;
        return;
      }
      var k := candidate.value;
      MoveKeepsProgress(all, done, remaining, k, phased);
      MoveConserves(ps, done, remaining, k);
      done := done + [remaining[k]];
      ordered := ordered + [remaining[k].plugin];
      remaining := remaining[..k] + remaining[k + 1..];
    }
    RestConserves(ps, done, []);
    assert Plugins([]) == [];
  }

  /** No plugin names, as a dependency, itself or a plugin placed after it. */
  ghost predicate DependenciesFirst(ps: seq<Plugin>) {
    forall i, j :: 0 <= i <= j < |ps| ==> ps[j].id !in Deps(ps[i])
  }

  lemma DistinctFits(w: seq<PluginId>, s: set<PluginId>)
    requires PathIn(s, w)
    ensures |w| <= |s|
  {
    if w != [] {
      var last := w[|w| - 1];
      DistinctFits(w[..|w| - 1], s - {last});
    }
  }

  lemma WalkExtends(ps: seq<Plugin>, w: seq<PluginId>, b: PluginId)
    requires |w| >= 1 && Walk(ps, w) && DependsOn(ps, w[|w| - 1], b)
    ensures Walk(ps, w + [b])
  {
    var longer := w + [b];
    forall k | 0 <= k < |longer| - 1 ensures DependsOn(ps, longer[k], longer[k + 1]) {
      assert k == |w| - 1 || DependsOn(ps, w[k], w[k + 1]);
    }
  }

  lemma WalkDrops(ps: seq<Plugin>, w: seq<PluginId>, n: nat)
    requires Walk(ps, w) && n <= |w|
    ensures Walk(ps, w[n..])
  {
    forall k | 0 <= k < |w[n..]| - 1 ensures DependsOn(ps, w[n..][k], w[n..][k + 1]) {
      assert DependsOn(ps, w[n + k], w[n + k + 1]);
    }
  }

  ghost predicate PathIn(s: set<PluginId>, w: seq<PluginId>) {
    && (forall i :: 0 <= i < |w| ==> w[i] in s)
    && (forall i, j :: 0 <= i < j < |w| ==> w[i] != w[j])
  }

  ghost predicate GoesOn(ps: seq<Plugin>, s: set<PluginId>, a: PluginId) {
    exists b :: b in s && DependsOn(ps, a, b)
  }

  ghost predicate NeverEnds(ps: seq<Plugin>, s: set<PluginId>) {
    forall a {:trigger GoesOn(ps, s, a)} :: a in s ==> GoesOn(ps, s, a)
  }

  /** In a finite set in which every id depends on another of the set, some walk closes. */
  lemma {:induction false} EndlessWalkCloses(ps: seq<Plugin>, s: set<PluginId>, w: seq<PluginId>) returns (c: seq<PluginId>)
    requires NeverEnds(ps, s) && |w| >= 1 && Walk(ps, w) && PathIn(s, w)
    ensures Cycle(ps, c)
    decreases |s| - |w|
  {
    assert GoesOn(ps, s, w[|w| - 1]);
    var b :| b in s && DependsOn(ps, w[|w| - 1], b);
    WalkExtends(ps, w, b);
    if b in w {
      var k :| 0 <= k < |w| && w[k] == b;
      WalkDrops(ps, w + [b], k);
      c := (w + [b])[k..];
    } else {
      DistinctFits(w + [b], s);
      c := EndlessWalkCloses(ps, s, w + [b]);
    }
  }

  lemma MemberOfEnumerate(ps: seq<Plugin>, e: Entry)
    requires e in Members(Enumerate(ps))
    ensures e.plugin in ps
  {
    var k :| 0 <= k < |ps| && Enumerate(ps)[k] == e;
    assert ps[k] == e.plugin;
  }

  lemma StuckEntryWaits(ps: seq<Plugin>, stuck: seq<Entry>, e: Entry) returns (b: PluginId)
    requires Members(stuck) <= Members(Enumerate(ps)) && e in stuck && !ReadyIn(e.plugin, Members(stuck))
    ensures DependsOn(ps, e.plugin.id, b) && exists f :: f in stuck && f.plugin.id == b
  {
    var f :| f in Members(stuck) && f.plugin.id in Deps(e.plugin);
    assert e in Members(stuck);
    MemberOfEnumerate(ps, e);
    MemberOfEnumerate(ps, f);
    b := f.plugin.id;
  }

  ghost function StuckIds(stuck: seq<Entry>): (r: set<PluginId>) {
    set e | e in stuck :: e.plugin.id
  }

  lemma StuckNeverEnds(ps: seq<Plugin>, stuck: seq<Entry>)
    requires Members(stuck) <= Members(Enumerate(ps))
    requires NoneReady(stuck)
    ensures NeverEnds(ps, StuckIds(stuck))
  {
    forall a | a in StuckIds(stuck) ensures GoesOn(ps, StuckIds(stuck), a) {
      var e :| e in stuck && e.plugin.id == a;
      var b := StuckEntryWaits(ps, stuck, e);
      assert b in StuckIds(stuck);
    }
  }

  /** The loop gets stuck only on a cycle. */
  lemma AcyclicIsNeverStuck(ps: seq<Plugin>, done: seq<Entry>, stuck: seq<Entry>, phased: bool)
    requires Schedule(ps, done, stuck, phased) && Acyclic(ps)
    ensures stuck == []
  {
    if stuck != [] {
      assert stuck[0] in stuck && stuck[0].plugin.id in StuckIds(stuck);
      StuckNeverEnds(ps, stuck);
      var c := EndlessWalkCloses(ps, StuckIds(stuck), [stuck[0].plugin.id]);
      assert false;
    }
  }

  /** A greedy schedule never takes the same entry twice. */
  lemma LaterIsPending(all: set<Entry>, done: seq<Entry>, i: nat, j: nat, phased: bool)
    requires Greedy(all, done, phased) && i <= j < |done|
    ensures done[j] in all - Members(done[..i])
  {
    assert GreedyAt(all, done, j, phased);
    assert forall e :: e in done[..i] ==> e in done[..j];
  }

  /** A complete schedule of an acyclic category puts every dependency before its dependents. */
  lemma ScheduleIsTopological(ps: seq<Plugin>, done: seq<Entry>, stuck: seq<Entry>, phased: bool)
    requires Schedule(ps, done, stuck, phased) && Acyclic(ps)
    ensures DependenciesFirst(Plugins(done + stuck))
  {
    AcyclicIsNeverStuck(ps, done, stuck, phased);
    assert done + stuck == done;
    var all := Members(Enumerate(ps));
    forall i, j | 0 <= i <= j < |done| ensures Plugins(done)[j].id !in Deps(Plugins(done)[i]) {
      assert GreedyAt(all, done, i, phased);
      LaterIsPending(all, done, i, j, phased);
    }
  }

  /** No plugin depends on one of a later phase. */
  ghost predicate PhasesRespected(ps: seq<Plugin>) {
    forall p, q :: p in ps && q in ps && q.id in Deps(p) ==> PhaseRank(q.phase) <= PhaseRank(p.phase)
  }

  ghost predicate PhasesAscend(ps: seq<Plugin>) {
    forall i, j :: 0 <= i < j < |ps| ==> PhaseRank(ps[i].phase) <= PhaseRank(ps[j].phase)
  }

  lemma NeighboursAscend(ps: seq<Plugin>, done: seq<Entry>, stuck: seq<Entry>, i: nat)
    requires Schedule(ps, done, stuck, true) && PhasesRespected(ps) && i + 1 < |done|
    ensures PhaseRank(done[i].plugin.phase) <= PhaseRank(done[i + 1].plugin.phase)
  {
    var all := Members(Enumerate(ps));
    var pending := all - Members(done[..i]);
    var after := all - Members(done[..i + 1]);
    var p, q := done[i], done[i + 1];
    assert GreedyAt(all, done, i, true) && GreedyAt(all, done, i + 1, true);
    assert done[..i + 1] == done[..i] + [p];
    assert Members(done[..i + 1]) == Members(done[..i]) + {p};
    if q.plugin.id in Deps(q.plugin) || ReadyIn(q.plugin, pending) {
      assert KeyLess(p, q, true);
    } else {
      // q waited for p alone, so it names p as a dependency
      var e :| e in pending && e.plugin.id in Deps(q.plugin);
      assert e == p;
      MemberOfEnumerate(ps, p);
      MemberOfEnumerate(ps, q);
    }
  }

  lemma {:induction false} PhasesAscendFrom(ps: seq<Plugin>, done: seq<Entry>, stuck: seq<Entry>, i: nat, j: nat)
    requires Schedule(ps, done, stuck, true) && PhasesRespected(ps) && i <= j < |done|
    ensures PhaseRank(done[i].plugin.phase) <= PhaseRank(done[j].plugin.phase)
    decreases j - i
  {
    if i < j {
      PhasesAscendFrom(ps, done, stuck, i, j - 1);
      NeighboursAscend(ps, done, stuck, j - 1);
    }
  }

  /** Among acyclic plugins that respect phases, the schedule never steps back to an earlier phase. */
  lemma ScheduleAscends(ps: seq<Plugin>, done: seq<Entry>, stuck: seq<Entry>)
    requires Schedule(ps, done, stuck, true) && Acyclic(ps) && PhasesRespected(ps)
    ensures PhasesAscend(Plugins(done + stuck))
  {
    AcyclicIsNeverStuck(ps, done, stuck, true);
    assert done + stuck == done;
    forall i, j | 0 <= i < j < |done| ensures PhaseRank(done[i].plugin.phase) <= PhaseRank(done[j].plugin.phase) {
      PhasesAscendFrom(ps, done, stuck, i, j);
    }
  }

  /** A schedule is determined by the category: two complete greedy schedules agree entry by entry. */
  lemma {:induction false} ScheduleIsUnique(ps: seq<Plugin>, a: seq<Entry>, b: seq<Entry>, phased: bool, n: nat)
    requires Greedy(Members(Enumerate(ps)), a, phased) && Greedy(Members(Enumerate(ps)), b, phased)
    requires n <= |a| && n <= |b|
    ensures a[..n] == b[..n]
  {
    if n > 0 {
      ScheduleIsUnique(ps, a, b, phased, n - 1);
      var all := Members(Enumerate(ps));
      assert GreedyAt(all, a, n - 1, phased) && GreedyAt(all, b, n - 1, phased);
      assert a[n - 1] == b[n - 1];
      assert a[..n] == a[..n - 1] + [a[n - 1]] && b[..n] == b[..n - 1] + [b[n - 1]];
    }
  }

  /** Between plugins that are both ready, equal phase and priority keep the insertion order. */
  lemma EqualKeysKeepInsertionOrder(ps: seq<Plugin>, done: seq<Entry>, i: nat, j: nat, phased: bool)
    requires Greedy(Members(Enumerate(ps)), done, phased) && i < j < |done|
    requires ReadyIn(done[j].plugin, Members(Enumerate(ps)) - Members(done[..i]))
    requires Rank(done[i].plugin, phased) == Rank(done[j].plugin, phased)
    requires done[i].plugin.priority == done[j].plugin.priority
    ensures done[i].index < done[j].index
  {
    var all := Members(Enumerate(ps));
    assert GreedyAt(all, done, i, phased);
    LaterIsPending(all, done, i, j, phased);
    LaterIsPending(all, done, i + 1, j, phased);
    assert done[i] in done[..i + 1];
  }
}
