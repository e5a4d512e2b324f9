/**
  Validation of the assembled plugin registry (src/config.rs) and the
  registration step that sorts every category and then validates it
  (`finish_registration`, src/pipeline/mod.rs).
*/
module PluginRegistry {
  import opened Wrappers
  import opened PluginGraph
  import opened PluginOrder

  datatype Category = Filter | Collector | PreProcessor | PostProcessor | Notifier

  datatype DependencyKind = Hard | OrderOnly

  datatype ConfigError =
    | DuplicatePluginId(id: PluginId, first: Category, second: Category)
    | MissingDependency(category: Category, id: PluginId, dependency: PluginId, kind: DependencyKind)
    | DependencyCycle(category: Category, cycle: seq<PluginId>)
    | InvalidDependencyOrder(category: Category, id: PluginId, dependency: PluginId, kind: DependencyKind)

  function KindOf(p: Plugin, k: nat): DependencyKind {
    if k < |p.hard| then Hard else OrderOnly
  }

  ghost predicate HardPresent(ps: seq<Plugin>) {
    forall p, d :: p in ps && d in p.hard ==> Registered(ps, d)
  }

  ghost predicate OrderPresent(ps: seq<Plugin>) {
    forall p, d :: p in ps && d in p.order ==> Registered(ps, d)
  }

  /** What one category must satisfy as it stands. */
  ghost predicate GraphValid(ps: seq<Plugin>, requireOrder: bool) {
    && UniqueIds(ps)
    && HardPresent(ps)
    && (requireOrder ==> OrderPresent(ps))
    && Acyclic(ps)
    && DependenciesFirst(ps)
  }

  ghost predicate GraphErrorJustified(category: Category, ps: seq<Plugin>, requireOrder: bool, e: ConfigError) {
    match e
    case DuplicatePluginId(id, first, second) =>
      first == second == category && exists i, j :: 0 <= i < j < |ps| && ps[i].id == ps[j].id == id
    case MissingDependency(c, id, d, kind) =>
      c == category && (kind.OrderOnly? ==> requireOrder) && !Registered(ps, d) &&
      exists p :: p in ps && p.id == id && (if kind.Hard? then d in p.hard else d in p.order)
    case DependencyCycle(c, cycle) =>
      c == category && Cycle(ps, cycle)
    case InvalidDependencyOrder(c, id, d, _) =>
      c == category && Acyclic(ps) &&
      exists i, j :: 0 <= i <= j < |ps| && ps[i].id == id && ps[j].id == d && d in Deps(ps[i])
  }

  method BuildIndexes(category: Category, ps: seq<Plugin>) returns (r: Result<map<PluginId, nat>, ConfigError>)
    ensures r.Ok? <==> UniqueIds(ps)
    ensures r.Ok? ==> Indexes(ps, r.value)
    ensures r.Err? ==> GraphErrorJustified(category, ps, true, r.error) && r.error.DuplicatePluginId?
  {
    var indexes: map<PluginId, nat> := map[];
    var i := 0;
    while i < |ps|
      invariant i <= |ps|
      invariant forall k :: 0 <= k < i ==> ps[k].id in indexes && indexes[ps[k].id] == k
      invariant forall id :: id in indexes ==> indexes[id] < i && ps[indexes[id]].id == id
    {
      if ps[i].id in indexes {
        ghost var j := indexes[ps[i].id];
        assert ps[j].id == ps[i].id;
        return Err(DuplicatePluginId(ps[i].id, category, category));
      }
      indexes := indexes[ps[i].id := i];
      i := i + 1;
    }
    return Ok(indexes);
  }

  lemma IndexedMeansRegistered(ps: seq<Plugin>, ix: map<PluginId, nat>, id: PluginId)
    requires Indexes(ps, ix)
    ensures id in ix <==> Registered(ps, id)
  {
    if id in ix {
      assert ps[ix[id]] in ps;
    }
    if Registered(ps, id) {
      var p :| p in ps && p.id == id;
      var i :| 0 <= i < |ps| && ps[i] == p;
      assert ps[i].id in ix;
    }
  }

  /** The first listed dependency that is not among the known ids. */
  method FirstUnknown(deps: seq<PluginId>, known: set<PluginId>) returns (missing: Option<PluginId>)
    ensures missing.None? <==> forall d :: d in deps ==> d in known
    ensures missing.Some? ==> missing.value in deps && missing.value !in known
  {
    var k := 0;
    while k < |deps|
      invariant k <= |deps| && forall m :: 0 <= m < k ==> deps[m] in known
    {
      if deps[k] !in known {
        return Some(deps[k]);
      }
      k := k + 1;
    }
    return None;
  }

  method CheckPresence(category: Category, ps: seq<Plugin>, indexes: map<PluginId, nat>, requireOrder: bool)
    returns (r: Result<(), ConfigError>)
    requires Indexes(ps, indexes)
    ensures r.Ok? <==> HardPresent(ps) && (requireOrder ==> OrderPresent(ps))
    ensures r.Err? ==> GraphErrorJustified(category, ps, requireOrder, r.error) && r.error.MissingDependency?
  {
    forall id ensures id in indexes <==> Registered(ps, id) {
      IndexedMeansRegistered(ps, indexes, id);
    }
    var i := 0;
    while i < |ps|
      invariant i <= |ps|
      invariant forall k, d :: 0 <= k < i && d in ps[k].hard ==> d in indexes
      invariant forall k, d :: 0 <= k < i && requireOrder && d in ps[k].order ==> d in indexes
    {
      assert ps[i] in ps;
      var missing := FirstUnknown(ps[i].hard, indexes.Keys);
      if missing.Some? {
        return Err(MissingDependency(category, ps[i].id, missing.value, Hard));
      }
      if requireOrder {
        missing := FirstUnknown(ps[i].order, indexes.Keys);
        if missing.Some? {
          return Err(MissingDependency(category, ps[i].id, missing.value, OrderOnly));
        }
      }
      i := i + 1;
    }
    return Ok(());
  }

  method CheckOrder(category: Category, ps: seq<Plugin>, indexes: map<PluginId, nat>) returns (r: Result<(), ConfigError>)
    requires Indexes(ps, indexes) && Acyclic(ps)
    ensures r.Ok? <==> DependenciesFirst(ps)
    ensures r.Err? ==> GraphErrorJustified(category, ps, true, r.error) && r.error.InvalidDependencyOrder?
  {
    var i := 0;
    while i < |ps|
      invariant i <= |ps|
      invariant forall m, j :: 0 <= m < i && m <= j < |ps| ==> ps[j].id !in Deps(ps[m])
    {
      var deps := Deps(ps[i]);
      var k := 0;
      while k < |deps|
        invariant k <= |deps|
        invariant forall m :: 0 <= m < k && deps[m] in indexes ==> indexes[deps[m]] < i
      {
        if deps[k] in indexes && indexes[deps[k]] >= i {
          ghost var j := indexes[deps[k]];
          assert ps[j].id == deps[k];
          return Err(InvalidDependencyOrder(category, ps[i].id, deps[k], KindOf(ps[i], k)));
        }
        k := k + 1;
      }
      forall j | i <= j < |ps| ensures ps[j].id !in deps {
        assert indexes[ps[j].id] == j;
      }
      i := i + 1;
    }
    return Ok(());
  }

  /** One category is accepted exactly when it is valid; a refusal names a real fault. */
  method ValidatePluginGraph(category: Category, ps: seq<Plugin>, requireOrder: bool) returns (r: Result<(), ConfigError>)
    ensures r.Ok? <==> GraphValid(ps, requireOrder)
    ensures r.Err? ==> GraphErrorJustified(category, ps, requireOrder, r.error)
  {
    var indexes := BuildIndexes(category, ps);
    if indexes.Err? {
      return Err(indexes.error);
    }
    r := CheckPresence(category, ps, indexes.value, requireOrder);
    if r.Err? {
      return;
    }
    var cycle := FindDependencyCycle(ps, indexes.value);
    if cycle.Some? {
      return Err(DependencyCycle(category, cycle.value));
    }
    r := CheckOrder(category, ps, indexes.value);
  }

  // ---- the whole registry -------------------------------------------------

  datatype Section = Section(category: Category, plugins: seq<Plugin>)

  ghost predicate Shared(a: seq<Plugin>, b: seq<Plugin>, id: PluginId) {
    Registered(a, id) && Registered(b, id)
  }

  ghost predicate GloballyUnique(sections: seq<Section>) {
    && (forall k :: 0 <= k < |sections| ==> UniqueIds(sections[k].plugins))
    && (forall k, m, id :: 0 <= k < m < |sections| ==> !Shared(sections[k].plugins, sections[m].plugins, id))
  }

  /** Some other category registers `id`. */
  ghost predicate Foreign(sections: seq<Section>, category: Category, id: PluginId) {
    exists k :: 0 <= k < |sections| && sections[k].category != category && Registered(sections[k].plugins, id)
  }

  ghost predicate NoForeignDeps(sections: seq<Section>, k: nat)
    requires k < |sections|
  {
    forall p, d :: p in sections[k].plugins && d in Deps(p) ==> !Foreign(sections, sections[k].category, d)
  }

  ghost predicate RegistryValid(sections: seq<Section>, requireOrder: bool) {
    && GloballyUnique(sections)
    && forall k :: 0 <= k < |sections| ==> NoForeignDeps(sections, k) && GraphValid(sections[k].plugins, requireOrder)
  }

  ghost predicate Owns(sections: seq<Section>, n: nat, ids: map<PluginId, Category>)
    requires n <= |sections|
  {
    && (forall k, id :: 0 <= k < n && Registered(sections[k].plugins, id) ==> id in ids && ids[id] == sections[k].category)
    && (forall id :: id in ids ==> exists k :: 0 <= k < n && Registered(sections[k].plugins, id))
  }

  method InsertIds(category: Category, ps: seq<Plugin>, ids: map<PluginId, Category>)
    returns (r: Result<map<PluginId, Category>, ConfigError>)
    ensures r.Ok? <==> UniqueIds(ps) && forall p :: p in ps ==> p.id !in ids
    ensures r.Ok? ==> forall id :: id in r.value <==> id in ids || Registered(ps, id)
    ensures r.Ok? ==> forall id :: id in r.value ==> r.value[id] == if id in ids then ids[id] else category
    ensures r.Err? ==> r.error.DuplicatePluginId? && Registered(ps, r.error.id)
  {
    var grown := ids;
    var i := 0;
    while i < |ps|
      invariant i <= |ps|
      invariant forall k :: 0 <= k < i ==> ps[k].id !in ids && ps[k].id in grown
      invariant forall k, m :: 0 <= k < m < i ==> ps[k].id != ps[m].id
      invariant forall id :: id in ids ==> id in grown
      invariant forall id :: id in grown ==> grown[id] == if id in ids then ids[id] else category
      invariant forall id :: id in grown && id !in ids ==> exists k :: 0 <= k < i && ps[k].id == id
    {
      if ps[i].id in grown {
        assert ps[i] in ps;
        return Err(DuplicatePluginId(ps[i].id, grown[ps[i].id], category));
      }
      grown := grown[ps[i].id := category];
      i := i + 1;
    }
    forall id ensures id in grown <==> id in ids || Registered(ps, id) {
      assert forall k :: 0 <= k < |ps| ==> ps[k] in ps;
    }
    return Ok(grown);
  }

  method CollectIds(sections: seq<Section>) returns (r: Result<map<PluginId, Category>, ConfigError>)
    ensures r.Ok? <==> GloballyUnique(sections)
    ensures r.Ok? ==> Owns(sections, |sections|, r.value)
    ensures r.Err? ==> r.error.DuplicatePluginId?
  {
    var ids: map<PluginId, Category> := map[];
    var k := 0;
    while k < |sections|
      invariant k <= |sections| && Owns(sections, k, ids) && GloballyUnique(sections[..k])
    {
      var ps := sections[k].plugins;
      var grown := InsertIds(sections[k].category, ps, ids);
      if grown.Err? {
        NotUnique(sections, k, ids);
        return Err(grown.error);
      }
      SectionJoins(sections, k, ids, grown.value);
      ids := grown.value;
      k := k + 1;
    }
    assert sections[..k] == sections;
    return Ok(ids);
  }

  lemma NotUnique(sections: seq<Section>, k: nat, ids: map<PluginId, Category>)
    requires k < |sections| && Owns(sections, k, ids)
    requires !(UniqueIds(sections[k].plugins) && forall p :: p in sections[k].plugins ==> p.id !in ids)
    ensures !GloballyUnique(sections)
  {
    if UniqueIds(sections[k].plugins) {
      var p :| p in sections[k].plugins && p.id in ids;
      var m :| 0 <= m < k && Registered(sections[m].plugins, p.id);
      assert Shared(sections[m].plugins, sections[k].plugins, p.id);
    }
  }

  lemma SectionJoins(sections: seq<Section>, k: nat, ids: map<PluginId, Category>, grown: map<PluginId, Category>)
    requires k < |sections| && Owns(sections, k, ids) && GloballyUnique(sections[..k])
    requires UniqueIds(sections[k].plugins) && forall p :: p in sections[k].plugins ==> p.id !in ids
    requires forall id :: id in grown <==> id in ids || Registered(sections[k].plugins, id)
    requires forall id :: id in grown ==> grown[id] == if id in ids then ids[id] else sections[k].category
    ensures Owns(sections, k + 1, grown) && GloballyUnique(sections[..k + 1])
  {
    var longer := sections[..k + 1];
    forall a, b, id | 0 <= a < b < |longer| ensures !Shared(longer[a].plugins, longer[b].plugins, id) {
      if b < k {
        assert !Shared(sections[..k][a].plugins, sections[..k][b].plugins, id);
      } else if Shared(longer[a].plugins, longer[b].plugins, id) {
        assert false;
      }
    }
    forall a | 0 <= a < |longer| ensures UniqueIds(longer[a].plugins) {
      assert a == k || UniqueIds(sections[..k][a].plugins);
    }
  }

  method CheckForeign(sections: seq<Section>, k: nat, ids: map<PluginId, Category>) returns (r: Result<(), ConfigError>)
    requires k < |sections| && GloballyUnique(sections) && Owns(sections, |sections|, ids)
    ensures r.Ok? <==> NoForeignDeps(sections, k)
    ensures r.Err? ==> r.error.MissingDependency? && r.error.category == sections[k].category &&
                       Foreign(sections, sections[k].category, r.error.dependency)
  {
    var c, ps := sections[k].category, sections[k].plugins;
    forall d ensures (d in ids && ids[d] != c) <==> Foreign(sections, c, d) {
      if d in ids {
        var m :| 0 <= m < |sections| && Registered(sections[m].plugins, d);
      }
    }
    var i := 0;
    while i < |ps|
      invariant i <= |ps|
      invariant forall m, d :: 0 <= m < i && d in Deps(ps[m]) ==> !Foreign(sections, c, d)
    {
      var deps := Deps(ps[i]);
      var n := 0;
      while n < |deps|
        invariant n <= |deps| && forall m :: 0 <= m < n ==> !Foreign(sections, c, deps[m])
      {
        if deps[n] in ids && ids[deps[n]] != c {
          assert ps[i] in ps && deps[n] in Deps(ps[i]);
          return Err(MissingDependency(c, ps[i].id, deps[n], KindOf(ps[i], n)));
        }
        n := n + 1;
      }
      i := i + 1;
    }
    return Ok(());
  }

  /** The registry is accepted exactly when it is valid. */
  method ValidatePluginRegistry(sections: seq<Section>, requireOrder: bool) returns (r: Result<(), ConfigError>)
    ensures r.Ok? <==> RegistryValid(sections, requireOrder)
    ensures r.Err? && r.error.InvalidDependencyOrder? ==>
              exists k :: 0 <= k < |sections| && Acyclic(sections[k].plugins) && !DependenciesFirst(sections[k].plugins)
    ensures r.Err? && r.error.DependencyCycle? ==>
              exists k :: 0 <= k < |sections| && sections[k].category == r.error.category && Cycle(sections[k].plugins, r.error.cycle)
  {
    var ids := CollectIds(sections);
    if ids.Err? {
      return Err(ids.error);
    }
    var k := 0;
    while k < |sections|
      invariant k <= |sections|
      invariant forall m :: 0 <= m < k ==> NoForeignDeps(sections, m) && GraphValid(sections[m].plugins, requireOrder)
    {
      r := CheckForeign(sections, k, ids.value);
      if r.Err? {
        return;
      }
      r := ValidatePluginGraph(sections[k].category, sections[k].plugins, requireOrder);
      if r.Err? {
        return;
      }
      k := k + 1;
    }
    return Ok(());
  }

  // ---- registration -------------------------------------------------------

  datatype Pipeline = Pipeline(filters: seq<Plugin>, collectors: seq<Plugin>, preProcessors: seq<Plugin>,
                               postProcessors: seq<Plugin>, notifiers: seq<Plugin>)

  function Sections(p: Pipeline): seq<Section> {
    [Section(Filter, p.filters), Section(Collector, p.collectors), Section(PreProcessor, p.preProcessors),
     Section(PostProcessor, p.postProcessors), Section(Notifier, p.notifiers)]
  }

  /** What registration demands, stated without reference to any order of insertion. */
  ghost predicate Registrable(p: Pipeline) {
    var sections := Sections(p);
    && GloballyUnique(sections)
    && (forall k :: 0 <= k < |sections| ==>
                      NoForeignDeps(sections, k) && HardPresent(sections[k].plugins) && Acyclic(sections[k].plugins))
    && PhasesRespected(p.postProcessors)
  }

  /** Each list is a rearrangement in which dependencies come first; post-processors also ascend by phase. */
  ghost predicate Arranged(p: Pipeline, q: Pipeline) {
    && Rearranged(p, q)
    && (forall k :: 0 <= k < 5 ==> DependenciesFirst(Sections(q)[k].plugins))
    && PhasesAscend(q.postProcessors)
  }

  ghost predicate Rearranged(p: Pipeline, q: Pipeline) {
    forall k :: 0 <= k < 5 ==> multiset(Sections(q)[k].plugins) == multiset(Sections(p)[k].plugins)
  }

  ghost predicate SameMembers(a: seq<Plugin>, b: seq<Plugin>) {
    forall p :: p in a <==> p in b
  }

  lemma PermutationMembers(a: seq<Plugin>, b: seq<Plugin>)
    requires multiset(a) == multiset(b)
    ensures SameMembers(a, b)
  {
    forall p ensures p in a <==> p in b {
      assert p in a <==> p in multiset(a);
    }
  }

  lemma {:induction false} UniqueCountsOnce(a: seq<Plugin>, p: Plugin)
    requires UniqueIds(a)
    ensures multiset(a)[p] <= 1
  {
    if a != [] {
      var n := |a| - 1;
      assert a == a[..n] + [a[n]];
      UniqueCountsOnce(a[..n], p);
      if p == a[n] {
        assert p !in a[..n];
        assert p !in multiset(a[..n]);
      }
    }
  }

  lemma UniqueUnderPermutation(a: seq<Plugin>, b: seq<Plugin>)
    requires multiset(a) == multiset(b) && UniqueIds(a)
    ensures UniqueIds(b)
  {
    PermutationMembers(a, b);
    forall i, j | 0 <= i < j < |b| ensures b[i].id != b[j].id {
      if b[i] == b[j] {
        assert b == b[..i] + [b[i]] + b[i + 1..j] + [b[j]] + b[j + 1..];
        assert multiset(b)[b[i]] >= 2;
        UniqueCountsOnce(a, b[i]);
      } else {
        assert b[i] in a && b[j] in a;
        var m :| 0 <= m < |a| && a[m] == b[i];
        var n :| 0 <= n < |a| && a[n] == b[j];
        assert a[m].id != a[n].id;
      }
    }
  }

  lemma EdgeUnderPermutation(a: seq<Plugin>, b: seq<Plugin>, x: PluginId, y: PluginId)
    requires SameMembers(a, b) && DependsOn(a, x, y)
    ensures DependsOn(b, x, y)
  {
    var q :| q in a && q.id == y;
    var p :| p in a && p.id == x && y in Deps(p);
    assert q in b && p in b;
  }

  lemma AcyclicUnderPermutation(a: seq<Plugin>, b: seq<Plugin>)
    requires SameMembers(a, b) && Acyclic(a)
    ensures Acyclic(b)
  {
    forall w ensures !Cycle(b, w) {
      if Cycle(b, w) {
        forall k | 0 <= k < |w| - 1 ensures DependsOn(a, w[k], w[k + 1]) {
          EdgeUnderPermutation(b, a, w[k], w[k + 1]);
        }
        assert Cycle(a, w);
      }
    }
  }

  lemma RegisteredUnderPermutation(a: seq<Plugin>, b: seq<Plugin>)
    requires SameMembers(a, b)
    ensures forall id :: Registered(a, id) <==> Registered(b, id)
    ensures HardPresent(a) <==> HardPresent(b)
    ensures PhasesRespected(a) <==> PhasesRespected(b)
  {
  }

  /** Whether a pipeline can be registered does not depend on the order inside its lists. */
  lemma RegistrableUnderPermutation(p: Pipeline, q: Pipeline)
    requires Rearranged(p, q) && Registrable(p)
    ensures Registrable(q)
  {
    var s, t := Sections(p), Sections(q);
    forall k | 0 <= k < 5
      ensures SameMembers(s[k].plugins, t[k].plugins) && UniqueIds(t[k].plugins) && Acyclic(t[k].plugins)
      ensures forall id :: Registered(s[k].plugins, id) <==> Registered(t[k].plugins, id)
      ensures HardPresent(t[k].plugins)
    {
      assert multiset(t[k].plugins) == multiset(s[k].plugins);
      PermutationMembers(s[k].plugins, t[k].plugins);
      UniqueUnderPermutation(s[k].plugins, t[k].plugins);
      AcyclicUnderPermutation(s[k].plugins, t[k].plugins);
      RegisteredUnderPermutation(s[k].plugins, t[k].plugins);
    }
    forall k, m, id | 0 <= k < m < 5 ensures !Shared(t[k].plugins, t[m].plugins, id) {
      assert !Shared(s[k].plugins, s[m].plugins, id);
    }
    forall k | 0 <= k < 5 ensures NoForeignDeps(t, k) {
      ForeignUnderPermutation(s, t, k);
    }
    assert s[3].plugins == p.postProcessors && t[3].plugins == q.postProcessors;
    RegisteredUnderPermutation(p.postProcessors, q.postProcessors);
  }

  lemma ForeignUnderPermutation(s: seq<Section>, t: seq<Section>, k: nat)
    requires |s| == |t| && k < |s| && NoForeignDeps(s, k)
    requires forall m :: 0 <= m < |s| ==> s[m].category == t[m].category && SameMembers(s[m].plugins, t[m].plugins)
    ensures NoForeignDeps(t, k)
  {
    forall p, d | p in t[k].plugins && d in Deps(p) ensures !Foreign(t, t[k].category, d) {
      assert SameMembers(s[k].plugins, t[k].plugins) && p in s[k].plugins;
      assert !Foreign(s, s[k].category, d);
      if Foreign(t, t[k].category, d) {
        var m :| 0 <= m < |t| && t[m].category != t[k].category && Registered(t[m].plugins, d);
        RegisteredUnderPermutation(s[m].plugins, t[m].plugins);
        assert false;
      }
    }
  }

  /** No dependency of `p` that has a phase has a later one. */
  ghost predicate OrderedAgainst(phases: map<PluginId, Phase>, p: Plugin) {
    forall m :: 0 <= m < |Deps(p)| && Deps(p)[m] in phases ==> PhaseRank(phases[Deps(p)[m]]) <= PhaseRank(p.phase)
  }

  /** The map holds exactly the plugins' own phases. */
  ghost predicate PhasesOf(phases: map<PluginId, Phase>, ps: seq<Plugin>) {
    && (forall k :: 0 <= k < |ps| ==> ps[k].id in phases && phases[ps[k].id] == ps[k].phase)
    && (forall id :: id in phases ==> exists k :: 0 <= k < |ps| && ps[k].id == id)
  }

  method CollectPhases(ps: seq<Plugin>) returns (phases: map<PluginId, Phase>)
    requires UniqueIds(ps)
    ensures PhasesOf(phases, ps)
  {
    phases := map[];
    var i := 0;
    while i < |ps|
      invariant i <= |ps|
      invariant forall k :: 0 <= k < i ==> ps[k].id in phases && phases[ps[k].id] == ps[k].phase
      invariant forall id :: id in phases ==> exists k :: 0 <= k < i && ps[k].id == id
    {
      phases := phases[ps[i].id := ps[i].phase];
      i := i + 1;
    }
  }

  method FindLaterPhase(phases: map<PluginId, Phase>, p: Plugin) returns (found: Option<nat>)
    ensures found.None? <==> OrderedAgainst(phases, p)
    ensures found.Some? ==> found.value < |Deps(p)| && Deps(p)[found.value] in phases
  {
    var deps := Deps(p);
    var n := 0;
    while n < |deps|
      invariant n <= |deps|
      invariant forall m :: 0 <= m < n && deps[m] in phases ==> PhaseRank(phases[deps[m]]) <= PhaseRank(p.phase)
    {
      if deps[n] in phases && PhaseRank(phases[deps[n]]) > PhaseRank(p.phase) {
        return Some(n);
      }
      n := n + 1;
    }
    return None;
  }

  lemma PhasesFromMap(phases: map<PluginId, Phase>, ps: seq<Plugin>)
    requires UniqueIds(ps) && PhasesOf(phases, ps)
    ensures PhasesRespected(ps) <==> forall k :: 0 <= k < |ps| ==> OrderedAgainst(phases, ps[k])
  {
    if PhasesRespected(ps) {
      forall k, m | 0 <= k < |ps| && 0 <= m < |Deps(ps[k])| && Deps(ps[k])[m] in phases
        ensures PhaseRank(phases[Deps(ps[k])[m]]) <= PhaseRank(ps[k].phase)
      {
        var j :| 0 <= j < |ps| && ps[j].id == Deps(ps[k])[m];
        assert ps[j] in ps && ps[k] in ps;
      }
    }
    if forall k :: 0 <= k < |ps| ==> OrderedAgainst(phases, ps[k]) {
      forall p, q | p in ps && q in ps && q.id in Deps(p)
        ensures PhaseRank(q.phase) <= PhaseRank(p.phase)
      {
        var k :| 0 <= k < |ps| && ps[k] == p;
        var m :| 0 <= m < |Deps(p)| && Deps(p)[m] == q.id;
        assert OrderedAgainst(phases, ps[k]);
      }
    }
  }

  method CheckPhases(ps: seq<Plugin>) returns (r: Result<(), ConfigError>)
    requires UniqueIds(ps)
    ensures r.Ok? <==> PhasesRespected(ps)
    ensures r.Err? ==> r.error.InvalidDependencyOrder? && r.error.category == PostProcessor
  {
    hide PhasesRespected, OrderedAgainst, UniqueIds, PhasesOf;
    var phases := CollectPhases(ps);
    PhasesFromMap(phases, ps);
    var i := 0;
    while i < |ps|
      invariant i <= |ps|
      invariant forall k :: 0 <= k < i ==> OrderedAgainst(phases, ps[k])
    {
      var found := FindLaterPhase(phases, ps[i]);
      if found.Some? {
        return Err(InvalidDependencyOrder(PostProcessor, ps[i].id, Deps(ps[i])[found.value], KindOf(ps[i], found.value)));
      }
      i := i + 1;
    }
    return Ok(());
  }

  method ValidateDependencies(p: Pipeline) returns (r: Result<(), ConfigError>)
    ensures r.Ok? <==> RegistryValid(Sections(p), false) && PhasesRespected(p.postProcessors)
    ensures r.Err? && r.error.InvalidDependencyOrder? && !PhasesBroken(p, r.error) ==>
              exists k :: 0 <= k < 5 && Acyclic(Sections(p)[k].plugins) && !DependenciesFirst(Sections(p)[k].plugins)
  {
    r := ValidatePluginRegistry(Sections(p), false);
    if r.Err? {
      return;
    }
    assert GraphValid(Sections(p)[3].plugins, false);
    r := CheckPhases(p.postProcessors);
  }

  ghost predicate PhasesBroken(p: Pipeline, e: ConfigError) {
    e.InvalidDependencyOrder? && e.category == PostProcessor && !PhasesRespected(p.postProcessors)
  }

  method SortSection(ps: seq<Plugin>, phased: bool) returns (ordered: seq<Plugin>)
    ensures multiset(ordered) == multiset(ps)
    ensures Acyclic(ps) ==> DependenciesFirst(ordered)
    ensures Acyclic(ps) && phased && PhasesRespected(ps) ==> PhasesAscend(ordered)
  {
    ghost var done, stuck;
    ordered, done, stuck := StablePluginOrder(ps, phased);
    if Acyclic(ps) {
      ScheduleIsTopological(ps, done, stuck, phased);
      if phased && PhasesRespected(ps) {
        ScheduleAscends(ps, done, stuck);
      }
    }
  }

  /**
    Registration succeeds exactly for registrable pipelines, whatever the
    insertion order, and then every list is arranged. A refusal never blames the
    order of the sorted list: an order error always reports a later phase.
  */
  method FinishRegistration(p: Pipeline) returns (r: Result<Pipeline, ConfigError>)
    ensures r.Ok? <==> Registrable(p)
    ensures r.Ok? ==> Arranged(p, r.value)
    ensures r.Err? && r.error.InvalidDependencyOrder? ==> r.error.category == PostProcessor && !PhasesRespected(p.postProcessors)
  {
    var filters := SortSection(p.filters, false);
    var collectors := SortSection(p.collectors, false);
    var pre := SortSection(p.preProcessors, false);
    var post := SortSection(p.postProcessors, true);
    var notifiers := SortSection(p.notifiers, false);
    var q := Pipeline(filters, collectors, pre, post, notifiers);
    var s, t := Sections(p), Sections(q);
    assert Rearranged(p, q) && Rearranged(q, p);
    forall k | 0 <= k < 5 && Acyclic(t[k].plugins) ensures DependenciesFirst(t[k].plugins) {
      assert multiset(t[k].plugins) == multiset(s[k].plugins);
      PermutationMembers(t[k].plugins, s[k].plugins);
      AcyclicUnderPermutation(t[k].plugins, s[k].plugins);
      assert Acyclic(s[k].plugins);
    }
    PermutationMembers(p.postProcessors, q.postProcessors);
    RegisteredUnderPermutation(p.postProcessors, q.postProcessors);
    var checked := ValidateDependencies(q);
    if checked.Err? {
      if Registrable(p) {
        RegistrableUnderPermutation(p, q);
        assert false;
      }
      return Err(checked.error);
    }
    assert Registrable(q);
    RegistrableUnderPermutation(q, p);
    assert Acyclic(s[3].plugins);
    return Ok(q);
  }
}
