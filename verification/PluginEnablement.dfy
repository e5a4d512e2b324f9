/**
  Closing the requested plugins under hard dependencies
  (`close_plugin_enablement`, src/config.rs), and why the closed subset of a
  valid registry always registers.
*/
module PluginEnablement {
  import opened Wrappers
  import opened PluginGraph
  import opened PluginOrder
  import opened PluginRegistry

  datatype PluginSpec = PluginSpec(category: Category, id: PluginId, hard: seq<PluginId>)

  datatype DependentDisabled = DependentDisabled(category: Category, id: PluginId, dependency: PluginId)

  ghost predicate Closed(specs: seq<PluginSpec>, enabled: set<PluginId>) {
    forall s, d :: s in specs && s.id in enabled && d in s.hard ==> d in enabled
  }

  ghost predicate GreatestClosed(specs: seq<PluginSpec>, requested: set<PluginId>, enabled: set<PluginId>) {
    && enabled <= requested
    && Closed(specs, enabled)
    && forall other :: other <= requested && Closed(specs, other) ==> other <= enabled
  }

  /** The diagnostic is about a removed plugin and names a hard dependency outside `enabled`. */
  ghost predicate Explains(specs: seq<PluginSpec>, enabled: set<PluginId>, d: DependentDisabled) {
    && d.dependency !in enabled
    && exists s :: s in specs && s.category == d.category && s.id == d.id && d.dependency in s.hard
  }

  /** One diagnostic per removed plugin, each explained by the final set. */
  ghost predicate Reported(specs: seq<PluginSpec>, requested: set<PluginId>, enabled: set<PluginId>, ds: seq<DependentDisabled>) {
    && (forall i, j :: 0 <= i < j < |ds| ==> ds[i].id != ds[j].id)
    && (forall i :: 0 <= i < |ds| ==> ds[i].id in requested && ds[i].id !in enabled && Explains(specs, enabled, ds[i]))
    && (forall id :: id in requested && id !in enabled ==> exists i :: 0 <= i < |ds| && ds[i].id == id)
  }

  /** The first enabled spec that lacks a hard dependency, with the dependency it lacks. */
  method FindUnmet(specs: seq<PluginSpec>, enabled: set<PluginId>) returns (unmet: Option<DependentDisabled>)
    ensures unmet.None? <==> Closed(specs, enabled)
    ensures unmet.Some? ==> unmet.value.id in enabled && Explains(specs, enabled, unmet.value)
  {
    var k := 0;
    while k < |specs|
      invariant k <= |specs|
      invariant forall m, d :: 0 <= m < k && specs[m].id in enabled && d in specs[m].hard ==> d in enabled
    {
      if specs[k].id in enabled {
        var missing := FirstUnknown(specs[k].hard, enabled);
        if missing.Some? {
          assert specs[k] in specs;
          return Some(DependentDisabled(specs[k].category, specs[k].id, missing.value));
        }
      }
      k := k + 1;
    }
    return None;
  }

  lemma ExplainsFewer(specs: seq<PluginSpec>, enabled: set<PluginId>, gone: PluginId, d: DependentDisabled)
    requires Explains(specs, enabled, d)
    ensures Explains(specs, enabled - {gone}, d)
  {
  }

  lemma ReportGrows(specs: seq<PluginSpec>, requested: set<PluginId>, enabled: set<PluginId>,
                    ds: seq<DependentDisabled>, d: DependentDisabled)
    requires Reported(specs, requested, enabled, ds)
    requires enabled <= requested && d.id in enabled && Explains(specs, enabled, d)
    ensures Reported(specs, requested, enabled - {d.id}, ds + [d])
  {
    hide Explains;
    var longer := ds + [d];
    forall i | 0 <= i < |longer| ensures Explains(specs, enabled - {d.id}, longer[i]) {
      ExplainsFewer(specs, enabled, d.id, longer[i]);
    }
    forall id | id in requested && id !in enabled - {d.id} ensures exists i :: 0 <= i < |longer| && longer[i].id == id {
      if id == d.id {
        assert longer[|ds|].id == id;
      } else {
        var i :| 0 <= i < |ds| && ds[i].id == id;
        assert longer[i].id == id;
      }
    }
  }

  /** Repeated removal reaches the greatest closed subset and reports each removal once. */
  method ClosePluginEnablement(specs: seq<PluginSpec>, requested: set<PluginId>)
    returns (enabled: set<PluginId>, diagnostics: seq<DependentDisabled>)
    ensures GreatestClosed(specs, requested, enabled)
    ensures Reported(specs, requested, enabled, diagnostics)
    ensures |diagnostics| == |requested| - |enabled|
  {
    enabled, diagnostics := requested, [];
    while true
      invariant enabled <= requested && |diagnostics| == |requested| - |enabled|
      invariant forall other :: other <= requested && Closed(specs, other) ==> other <= enabled
      invariant Reported(specs, requested, enabled, diagnostics)
      decreases |enabled|
    {
      var unmet := FindUnmet(specs, enabled);
      if unmet.None? {
        return;
      }
      ReportGrows(specs, requested, enabled, diagnostics, unmet.value);
      assert |enabled - {unmet.value.id}| == |enabled| - 1;
      enabled := enabled - {unmet.value.id};
      diagnostics := diagnostics + [unmet.value];
    }
  }

  /** The result depends on which specs there are, not on their order. */
  lemma SpecOrderIsIrrelevant(specs: seq<PluginSpec>, shuffled: seq<PluginSpec>, requested: set<PluginId>,
                              a: set<PluginId>, b: set<PluginId>)
    requires forall s :: s in specs <==> s in shuffled
    requires GreatestClosed(specs, requested, a) && GreatestClosed(shuffled, requested, b)
    ensures a == b
  {
    assert Closed(shuffled, a) && Closed(specs, b);
  }

  // ---- the closed subset registers ----------------------------------------

  function Keep(ps: seq<Plugin>, enabled: set<PluginId>): (r: seq<Plugin>)
    ensures forall p :: p in r <==> p in ps && p.id in enabled
  {
    if ps == [] then []
    else if ps[0].id in enabled then [ps[0]] + Keep(ps[1..], enabled)
    else Keep(ps[1..], enabled)
  }

  function Restrict(p: Pipeline, enabled: set<PluginId>): Pipeline {
    Pipeline(Keep(p.filters, enabled), Keep(p.collectors, enabled), Keep(p.preProcessors, enabled),
             Keep(p.postProcessors, enabled), Keep(p.notifiers, enabled))
  }

  /** `specs` lists the hard dependencies of every plugin of the registry. */
  ghost predicate Describes(specs: seq<PluginSpec>, p: Pipeline) {
    forall k, q :: 0 <= k < 5 && q in Sections(p)[k].plugins ==> exists s :: s in specs && s.id == q.id && s.hard == q.hard
  }

  lemma {:induction false} KeepIsUnique(ps: seq<Plugin>, enabled: set<PluginId>)
    requires UniqueIds(ps)
    ensures UniqueIds(Keep(ps, enabled))
  {
    if ps != [] {
      KeepIsUnique(ps[1..], enabled);
      var rest := Keep(ps[1..], enabled);
      assert forall p :: p in rest ==> p.id != ps[0].id;
    }
  }

  lemma KeepIsAcyclic(ps: seq<Plugin>, enabled: set<PluginId>)
    requires Acyclic(ps)
    ensures Acyclic(Keep(ps, enabled))
  {
    var kept := Keep(ps, enabled);
    forall w ensures !Cycle(kept, w) {
      if Cycle(kept, w) {
        forall k | 0 <= k < |w| - 1 ensures DependsOn(ps, w[k], w[k + 1]) {
          assert DependsOn(kept, w[k], w[k + 1]);
        }
        assert Cycle(ps, w);
      }
    }
  }

  lemma KeepHasHard(specs: seq<PluginSpec>, p: Pipeline, enabled: set<PluginId>, k: nat)
    requires k < 5 && Describes(specs, p) && Closed(specs, enabled) && HardPresent(Sections(p)[k].plugins)
    ensures HardPresent(Keep(Sections(p)[k].plugins, enabled))
  {
    var ps := Sections(p)[k].plugins;
    forall q, d | q in Keep(ps, enabled) && d in q.hard ensures Registered(Keep(ps, enabled), d) {
      var s :| s in specs && s.id == q.id && s.hard == q.hard;
      assert Registered(ps, d);
      var provider :| provider in ps && provider.id == d;
      assert provider in Keep(ps, enabled);
    }
  }

  lemma KeepHasNoForeignDeps(s: seq<Section>, t: seq<Section>, k: nat)
    requires |s| == |t| && k < |s| && NoForeignDeps(s, k)
    requires forall m :: 0 <= m < |s| ==> s[m].category == t[m].category
    requires forall m, x :: 0 <= m < |s| && x in t[m].plugins ==> x in s[m].plugins
    ensures NoForeignDeps(t, k)
  {
    forall x, d | x in t[k].plugins && d in Deps(x) ensures !Foreign(t, t[k].category, d) {
      assert x in s[k].plugins && !Foreign(s, s[k].category, d);
    }
  }

  lemma KeepSharesNothing(a: seq<Plugin>, b: seq<Plugin>, enabled: set<PluginId>, id: PluginId)
    requires !Shared(a, b, id)
    ensures !Shared(Keep(a, enabled), Keep(b, enabled), id)
  {
  }

  /** No choice of enabled plugins can make registration of a valid registry fail. */
  lemma EnabledSubsetRegisters(specs: seq<PluginSpec>, p: Pipeline, enabled: set<PluginId>)
    requires Registrable(p) && Describes(specs, p) && Closed(specs, enabled)
    ensures Registrable(Restrict(p, enabled))
  {
    var s, t := Sections(p), Sections(Restrict(p, enabled));
    forall k | 0 <= k < 5
      ensures t[k].category == s[k].category && t[k].plugins == Keep(s[k].plugins, enabled)
      ensures UniqueIds(t[k].plugins) && HardPresent(t[k].plugins) && Acyclic(t[k].plugins)
    {
      KeepIsUnique(s[k].plugins, enabled);
      KeepHasHard(specs, p, enabled, k);
      KeepIsAcyclic(s[k].plugins, enabled);
    }
    forall k, m, id | 0 <= k < m < 5 ensures !Shared(t[k].plugins, t[m].plugins, id) {
      assert !Shared(s[k].plugins, s[m].plugins, id);
      KeepSharesNothing(s[k].plugins, s[m].plugins, enabled, id);
    }
    forall k | 0 <= k < 5 ensures NoForeignDeps(t, k) {
      KeepHasNoForeignDeps(s, t, k);
    }
  }
}
