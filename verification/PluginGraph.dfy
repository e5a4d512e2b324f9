/**
  The dependency relation between the plugins of one category, and the
  depth-first search that looks for a cycle in it (src/config.rs).

  Cycles are stated on plugin ids, so that they do not depend on the order in
  which plugins were registered.
*/
module PluginGraph {
  import opened Wrappers

  /** A plugin name. Names are only ever compared. */
  type PluginId = string

  datatype Phase = BeforeCommit | AfterCommit | AfterNotify | FinalCleanup

  /** A registered plugin: what the graph, the sorter and the phase loops read of it. */
  datatype Plugin = Plugin(id: PluginId, priority: nat, phase: Phase, hard: seq<PluginId>, order: seq<PluginId>)

  /** Hard dependencies first, then ordering constraints, as `dependencies()` chains them. */
  function Deps(p: Plugin): seq<PluginId> {
    p.hard + p.order
  }

  ghost predicate Registered(ps: seq<Plugin>, id: PluginId) {
    exists p :: p in ps && p.id == id
  }

  /** One edge of the relation restricted to known ids. */
  ghost predicate DependsOn(ps: seq<Plugin>, a: PluginId, b: PluginId) {
    && Registered(ps, b)
    && exists p :: p in ps && p.id == a && b in Deps(p)
  }

  ghost predicate Walk(ps: seq<Plugin>, w: seq<PluginId>) {
    forall k :: 0 <= k < |w| - 1 ==> DependsOn(ps, w[k], w[k + 1])
  }

  /** A closed walk of dependency edges: its first id is repeated at the end. */
  ghost predicate Cycle(ps: seq<Plugin>, w: seq<PluginId>) {
    && |w| >= 2
    && w[0] == w[|w| - 1]
    && Walk(ps, w)
  }

  ghost predicate Acyclic(ps: seq<Plugin>) {
    forall w :: !Cycle(ps, w)
  }

  ghost predicate UniqueIds(ps: seq<Plugin>) {
    forall i, j :: 0 <= i < j < |ps| ==> ps[i].id != ps[j].id
  }

  /** `ix` is the id-to-position map of a list without repeated ids. */
  ghost predicate Indexes(ps: seq<Plugin>, ix: map<PluginId, nat>) {
    && (forall i :: 0 <= i < |ps| ==> ps[i].id in ix && ix[ps[i].id] == i)
    && (forall id :: id in ix ==> ix[id] < |ps| && ps[ix[id]].id == id)
  }

  /** The search's node colours: the source's 0, 1 and 2. */
  datatype Mark = White | Gray | Black

  ghost predicate StackIsGray(marks: seq<Mark>, stack: seq<nat>) {
    && InRange(stack, |marks|)
    && (forall i :: 0 <= i < |marks| ==> (marks[i].Gray? <==> i in stack))
  }

  ghost predicate InRange(stack: seq<nat>, bound: nat) {
    forall k :: 0 <= k < |stack| ==> stack[k] < bound
  }

  /** Each node of the search stack depends on the one above it. */
  ghost predicate StackWalk(ps: seq<Plugin>, stack: seq<nat>)
    requires InRange(stack, |ps|)
  {
    forall k :: 0 <= k < |stack| - 1 ==> DependsOn(ps, ps[stack[k]].id, ps[stack[k + 1]].id)
  }

  /** Black nodes are closed under dependencies, and no cycle starts at one. */
  ghost predicate BlackIsSettled(ps: seq<Plugin>, ix: map<PluginId, nat>, marks: seq<Mark>)
    requires Indexes(ps, ix) && |marks| == |ps|
  {
    && (forall i, d :: 0 <= i < |ps| && marks[i].Black? && d in Deps(ps[i]) && d in ix ==> marks[ix[d]].Black?)
    && (forall w :: Cycle(ps, w) && w[0] in ix ==> !marks[ix[w[0]]].Black?)
  }

  lemma EdgeByIndex(ps: seq<Plugin>, ix: map<PluginId, nat>, a: PluginId, b: PluginId)
    requires Indexes(ps, ix) && DependsOn(ps, a, b)
    ensures a in ix && b in ix && b in Deps(ps[ix[a]])
  {
    var p :| p in ps && p.id == a && b in Deps(p);
    var i :| 0 <= i < |ps| && ps[i] == p;
    assert ix[ps[i].id] == i;
    var q :| q in ps && q.id == b;
    var j :| 0 <= j < |ps| && ps[j] == q;
    assert ix[ps[j].id] == j;
  }

  lemma IndexGivesEdge(ps: seq<Plugin>, ix: map<PluginId, nat>, i: nat, d: PluginId)
    requires Indexes(ps, ix) && i < |ps| && d in Deps(ps[i]) && d in ix
    ensures DependsOn(ps, ps[i].id, d)
  {
    assert ps[ix[d]] in ps && ps[i] in ps;
  }

  /** A walk that enters a set of nodes closed under dependencies stays in it. */
  lemma {:induction false} WalkStaysBlack(ps: seq<Plugin>, ix: map<PluginId, nat>, marks: seq<Mark>, w: seq<PluginId>)
    requires Indexes(ps, ix) && |marks| == |ps|
    requires forall i, d :: 0 <= i < |ps| && marks[i].Black? && d in Deps(ps[i]) && d in ix ==> marks[ix[d]].Black?
    requires |w| >= 1 && Walk(ps, w) && w[0] in ix && marks[ix[w[0]]].Black?
    ensures w[|w| - 1] in ix && marks[ix[w[|w| - 1]]].Black?
  {
    if |w| > 1 {
      EdgeByIndex(ps, ix, w[0], w[1]);
      assert Walk(ps, w[1..]) by {
        forall k | 0 <= k < |w[1..]| - 1 ensures DependsOn(ps, w[1..][k], w[1..][k + 1]) {
          assert DependsOn(ps, w[k + 1], w[k + 2]);
        }
      }
      WalkStaysBlack(ps, ix, marks, w[1..]);
    }
  }

  /** Blackening a node whose known dependencies are all black keeps the black part settled. */
  lemma BlackenKeepsSettled(ps: seq<Plugin>, ix: map<PluginId, nat>, marks: seq<Mark>, index: nat)
    requires Indexes(ps, ix) && |marks| == |ps| && index < |ps|
    requires BlackIsSettled(ps, ix, marks) && !marks[index].Black?
    requires forall d :: d in Deps(ps[index]) && d in ix ==> marks[ix[d]].Black?
    ensures BlackIsSettled(ps, ix, marks[index := Black])
  {
    forall w | Cycle(ps, w) && w[0] in ix ensures !marks[index := Black][ix[w[0]]].Black? {
      if ix[w[0]] == index {
        assert DependsOn(ps, w[0], w[0 + 1]);
        EdgeByIndex(ps, ix, w[0], w[1]);
        var tail := w[1..];
        assert Walk(ps, tail) by {
          forall k | 0 <= k < |tail| - 1 ensures DependsOn(ps, tail[k], tail[k + 1]) {
            assert DependsOn(ps, w[k + 1], w[k + 2]);
          }
        }
        assert marks[ix[tail[0]]].Black? && tail[|tail| - 1] == w[0];
        WalkStaysBlack(ps, ix, marks, tail);
      }
    }
  }

  ghost function Whites(marks: seq<Mark>): (r: set<nat>) {
    set i: nat | i < |marks| && marks[i].White?
  }

  /** First position of a node on the search stack. */
  method Position(stack: seq<nat>, node: nat) returns (position: Option<nat>)
    ensures position.None? <==> node !in stack
    ensures position.Some? ==> position.value < |stack| && stack[position.value] == node && node !in stack[..position.value]
  {
    var i := 0;
    while i < |stack|
      invariant i <= |stack| && node !in stack[..i]
    {
      if stack[i] == node {
        return Some(i);
      }
      i := i + 1;
    }
    return None;
  }

  /** The ids from a stack position to the top, closed with the id that was met again. */
  method CloseStack(ps: seq<Plugin>, stack: seq<nat>, start: nat, again: nat) returns (cycle: seq<PluginId>)
    requires start <= |stack| && again < |ps| && InRange(stack, |ps|)
    ensures |cycle| == |stack| - start + 1 && cycle[|stack| - start] == ps[again].id
    ensures forall k :: start <= k < |stack| ==> cycle[k - start] == ps[stack[k]].id
  {
    cycle := [];
    var i := start;
    while i < |stack|
      invariant start <= i <= |stack| && |cycle| == i - start
      invariant forall k :: start <= k < i ==> cycle[k - start] == ps[stack[k]].id
    {
      cycle := cycle + [ps[stack[i]].id];
      i := i + 1;
    }
    cycle := cycle + [ps[again].id];
  }

  ghost predicate SearchInvariant(ps: seq<Plugin>, ix: map<PluginId, nat>, marks: seq<Mark>, stack: seq<nat>) {
    && Indexes(ps, ix)
    && |marks| == |ps|
    && StackIsGray(marks, stack)
    && StackWalk(ps, stack)
    && BlackIsSettled(ps, ix, marks)
  }

  lemma PushKeepsInvariant(ps: seq<Plugin>, ix: map<PluginId, nat>, marks: seq<Mark>, stack: seq<nat>, index: nat)
    requires SearchInvariant(ps, ix, marks, stack) && index < |ps| && marks[index].White?
    requires StackWalk(ps, stack + [index])
    ensures SearchInvariant(ps, ix, marks[index := Gray], stack + [index])
  {
    var pushed := marks[index := Gray];
    forall i, d | 0 <= i < |ps| && pushed[i].Black? && d in Deps(ps[i]) && d in ix ensures pushed[ix[d]].Black? {
      assert marks[i].Black?;
    }
  }

  /** The walk returned when a gray node is met again is closed. */
  lemma GrayClosesCycle(ps: seq<Plugin>, ix: map<PluginId, nat>, stack: seq<nat>, start: nat, d: PluginId, w: seq<PluginId>)
    requires Indexes(ps, ix) && InRange(stack, |ps|) && StackWalk(ps, stack) && start < |stack|
    requires d in ix && stack[start] == ix[d] && d in Deps(ps[stack[|stack| - 1]])
    requires |w| == |stack| - start + 1 && w[|stack| - start] == d
    requires forall k :: start <= k < |stack| ==> w[k - start] == ps[stack[k]].id
    ensures Cycle(ps, w)
  {
    assert w[start - start] == d;
    forall k | 0 <= k < |w| - 1 ensures DependsOn(ps, w[k], w[k + 1]) {
      assert w[start + k - start] == ps[stack[start + k]].id;
      if k < |w| - 2 {
        assert w[start + k + 1 - start] == ps[stack[start + k + 1]].id;
      } else {
        IndexGivesEdge(ps, ix, stack[|stack| - 1], d);
      }
    }
  }

  /** Extending the stack by a dependency of its top keeps it a walk. */
  lemma StackExtends(ps: seq<Plugin>, ix: map<PluginId, nat>, stack: seq<nat>, d: PluginId)
    requires Indexes(ps, ix) && InRange(stack, |ps|) && StackWalk(ps, stack) && |stack| > 0
    requires d in ix && d in Deps(ps[stack[|stack| - 1]])
    ensures StackWalk(ps, stack + [ix[d]])
  {
    var longer := stack + [ix[d]];
    forall k | 0 <= k < |longer| - 1 ensures DependsOn(ps, ps[longer[k]].id, ps[longer[k + 1]].id) {
      if k < |longer| - 2 {
        assert DependsOn(ps, ps[stack[k]].id, ps[stack[k + 1]].id);
      } else {
        IndexGivesEdge(ps, ix, stack[|stack| - 1], d);
      }
    }
  }

  /** Colours only darken, and gray nodes are the ones that were gray before. */
  ghost predicate Darkened(before: seq<Mark>, after: seq<Mark>) {
    && |before| == |after|
    && forall i :: 0 <= i < |before| ==> (before[i].White? && after[i].Black?) || after[i] == before[i]
  }

  lemma DarkenedWhites(before: seq<Mark>, after: seq<Mark>)
    requires Darkened(before, after)
    ensures Whites(after) <= Whites(before)
  {
  }

  method Visit(index: nat, ps: seq<Plugin>, ix: map<PluginId, nat>, states: array<Mark>, below: seq<nat>)
    returns (cycle: Option<seq<PluginId>>, stack: seq<nat>)
    requires states.Length == |ps| && index < |ps| && states[index].White?
    requires SearchInvariant(ps, ix, states[..], below)
    requires InRange(below, |ps|) && StackWalk(ps, below + [index])
    modifies states
    ensures cycle.Some? ==> Cycle(ps, cycle.value)
    ensures cycle.None? ==> stack == below && SearchInvariant(ps, ix, states[..], stack)
    ensures cycle.None? ==> states[index].Black? && Darkened(old(states[..]), states[..])
    decreases Whites(states[..])
  {
    ghost var entry := states[..];
    states[index] := Gray;
    stack := below + [index];
    assert states[..] == entry[index := Gray];
    PushKeepsInvariant(ps, ix, entry, below, index);
    var deps := Deps(ps[index]);
    var k := 0;
    while k < |deps|
      invariant k <= |deps| && stack == below + [index] && states[index].Gray?
      invariant SearchInvariant(ps, ix, states[..], stack)
      invariant Darkened(entry[index := Gray], states[..])
      invariant forall m :: 0 <= m < k && deps[m] in ix ==> states[ix[deps[m]]].Black?
    {
      var d := deps[k];
      if d in ix {
        var next := ix[d];
        ghost var before := states[..];
        if states[next].White? {
          StackExtends(ps, ix, stack, d);
          DarkenedWhites(entry[index := Gray], before);
          assert index in Whites(entry) && index !in Whites(before);
          assert Whites(entry[index := Gray]) <= Whites(entry);
          cycle, stack := Visit(next, ps, ix, states, stack);
          if cycle.Some? {
            return;
          }
        } else if states[next].Gray? {
          var position := Position(stack, next);
          assert position.Some?;  // a gray node is on the stack: the fallback below is dead
          var start := match position case Some(p) => p case None => 0;
          var closed := CloseStack(ps, stack, start, next);
          GrayClosesCycle(ps, ix, stack, start, d, closed);
          return Some(closed), stack;
        }
      }
      k := k + 1;
    }
    ghost var done := states[..];
    stack := stack[..|stack| - 1];
    assert stack == below;
    states[index] := Black;
    assert states[..] == done[index := Black];
    BlackenKeepsSettled(ps, ix, done, index);
    assert index !in below;
    cycle := None;
  }

  /** The search finds a cycle exactly when the relation has one, and returns a genuine one. */
  method FindDependencyCycle(ps: seq<Plugin>, ix: map<PluginId, nat>) returns (cycle: Option<seq<PluginId>>)
    requires Indexes(ps, ix)
    ensures cycle.None? <==> Acyclic(ps)
    ensures cycle.Some? ==> Cycle(ps, cycle.value)
  {
    var states := new Mark[|ps|](_ => White);
    var stack: seq<nat> := [];
    var index := 0;
    while index < |ps|
      invariant index <= |ps| && stack == []
      invariant SearchInvariant(ps, ix, states[..], stack)
      invariant forall i :: 0 <= i < index ==> states[i].Black?
    {
      if states[index].White? {
        cycle, stack := Visit(index, ps, ix, states, stack);
        if cycle.Some? {
          return;
        }
      }
      index := index + 1;
    }
    forall w ensures !Cycle(ps, w) {
      if Cycle(ps, w) {
        assert DependsOn(ps, w[0], w[0 + 1]);
        EdgeByIndex(ps, ix, w[0], w[1]);
        assert false;
      }
    }
    return None;
  }
}
