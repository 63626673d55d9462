/** Validating the dependency graph of a Cloud Assembly (adapters/cloudformation/loader.go):
    depth-first search with three colours. */
module Artifacts {
  import opened Ordering

  type Dependencies = map<string, seq<string>>

  /** A missing artifact has no dependencies. */
  function DependsOn(deps: Dependencies, id: string): seq<string> { if id in deps then deps[id] else [] }

  // ----- the relation

  /** Each artifact of the walk depends on the next one. */
  ghost predicate IsChain(deps: Dependencies, walk: seq<string>) {
    forall i :: 0 <= i < |walk| - 1 ==> walk[i + 1] in DependsOn(deps, walk[i])
  }

  ghost predicate IsCycle(deps: Dependencies, walk: seq<string>) {
    |walk| > 1 && IsChain(deps, walk) && walk[0] == walk[|walk| - 1]
  }

  ghost predicate ReachableFrom(deps: Dependencies, ids: seq<string>, id: string) {
    exists walk :: walk != [] && IsChain(deps, walk) && walk[0] in ids && walk[|walk| - 1] == id
  }

  /** No cycle can be reached from the given artifacts. */
  ghost predicate Acyclic(deps: Dependencies, ids: seq<string>) {
    forall walk :: IsCycle(deps, walk) ==> !ReachableFrom(deps, ids, walk[0])
  }

  ghost predicate AllKnown(deps: Dependencies, ids: seq<string>) {
    forall id, d :: id in ids && d in DependsOn(deps, id) ==> d in deps
  }

  datatype Verdict = Sound | Unknown(artifact: string, dependency: string) | Cyclic(artifact: string)

  // ----- finished artifacts in an order that respects dependencies

  /** Every dependency of a listed artifact is listed earlier. */
  ghost predicate Ordered(deps: Dependencies, done: seq<string>) {
    forall i, d :: 0 <= i < |done| && d in DependsOn(deps, done[i]) ==> d in done[..i]
  }

  lemma OrderedPush(deps: Dependencies, done: seq<string>, id: string)
    requires Ordered(deps, done) && forall d :: d in DependsOn(deps, id) ==> d in done
    ensures Ordered(deps, done + [id])
  {
    var more := done + [id];
    forall i, d | 0 <= i < |more| && d in DependsOn(deps, more[i]) ensures d in more[..i] {
      assert more[..i] == done[..i];
      if i == |done| { assert done[..i] == done; }
    }
  }

  /** A chain that starts in an ordered list stays in it and never comes back. */
  lemma {:induction false} ChainDescends(deps: Dependencies, done: seq<string>, walk: seq<string>)
    requires Ordered(deps, done) && walk != [] && IsChain(deps, walk) && walk[0] in done
    ensures walk[|walk| - 1] in done
    ensures Distinct(done) && |walk| > 1 ==> walk[|walk| - 1] != walk[0]
    decreases |done|, |walk|
  {
    if |walk| > 1 {
      var i :| 0 <= i < |done| && done[i] == walk[0];
      var rest := walk[1..];
      assert IsChain(deps, rest) by {
        forall j | 0 <= j < |rest| - 1 ensures rest[j + 1] in DependsOn(deps, rest[j]) {
          assert walk[j + 2] in DependsOn(deps, walk[j + 1]);
        }
      }
      assert rest[0] in done[..i] by { assert walk[0 + 1] in DependsOn(deps, walk[0]); }
      ChainDescends(deps, done[..i], rest);
      assert rest[|rest| - 1] == walk[|walk| - 1];
    }
  }

  lemma OrderedIsAcyclic(deps: Dependencies, done: seq<string>, ids: seq<string>)
    requires Ordered(deps, done) && Distinct(done) && forall id :: id in ids ==> id in done
    ensures Acyclic(deps, ids)
  {
    forall walk | IsCycle(deps, walk) ensures !ReachableFrom(deps, ids, walk[0]) {
      if ReachableFrom(deps, ids, walk[0]) {
        var w :| w != [] && IsChain(deps, w) && w[0] in ids && w[|w| - 1] == walk[0];
        ChainDescends(deps, done, w);
        ChainDescends(deps, done, walk);
      }
    }
  }

  // ----- the search

  ghost function Universe(deps: Dependencies): set<string> {
    deps.Keys + set id, d | id in deps && d in deps[id] :: d
  }

  ghost function Elements(s: seq<string>): set<string> { set x | x in s }

  /** Where a search stands: the active artifacts, outermost first, and the finished ones in order. */
  datatype Stage = Broken | Stage(path: seq<string>, done: seq<string>)

  ghost predicate Consistent(deps: Dependencies, path: seq<string>, done: seq<string>) {
    Distinct(path + done) && IsChain(deps, path) && Ordered(deps, done)
  }

  lemma EnterStage(deps: Dependencies, path: seq<string>, done: seq<string>, id: string)
    requires Consistent(deps, path, done) && id !in path && id !in done
    requires path != [] ==> id in DependsOn(deps, path[|path| - 1])
    ensures Consistent(deps, path + [id], done) && Elements(path + [id]) == Elements(path) + {id}
  {
    var all := path + [id] + done;
    forall i, j | 0 <= i < j < |all| ensures all[i] != all[j] {
      var a, b := if i < |path| then i else i - 1, if j < |path| then j else j - 1;
      assert i != |path| ==> all[i] == (path + done)[a];
      assert j != |path| ==> all[j] == (path + done)[b];
      assert forall k :: 0 <= k < |path + done| ==> (path + done)[k] in path || (path + done)[k] in done;
    }
  }

  lemma LeaveStage(deps: Dependencies, path: seq<string>, done: seq<string>, id: string)
    requires Consistent(deps, path + [id], done) && forall d :: d in DependsOn(deps, id) ==> d in done
    ensures Consistent(deps, path, done + [id]) && Elements(done + [id]) == Elements(done) + {id}
    ensures Elements(path + [id]) - {id} == Elements(path)
  {
    OrderedPush(deps, done, id);
    var was, all, n := path + [id] + done, path + (done + [id]), |path|;
    forall i, j | 0 <= i < j < |all| ensures all[i] != all[j] {
      assert all[i] == was[if i < n then i else i + 1];
      assert all[j] == was[if j < n then j else if j < |all| - 1 then j + 1 else n];
    }
    forall j | 0 <= j < |path| - 1 ensures path[j + 1] in DependsOn(deps, path[j]) {
      assert (path + [id])[j + 1] in DependsOn(deps, (path + [id])[j]);
    }
    assert id !in path by {
      forall j | 0 <= j < n ensures path[j] != id { assert was[j] != was[n]; }
    }
  }

  /** The artifact lies on a cycle that can be reached from the given ones. */
  ghost predicate OnCycle(deps: Dependencies, ids: seq<string>, id: string) {
    ReachableFrom(deps, ids, id) && exists walk :: IsCycle(deps, walk) && walk[0] == id
  }

  /** The path starts at a given artifact and the next one follows it. */
  ghost predicate Leads(deps: Dependencies, ids: seq<string>, path: seq<string>, id: string) {
    if path == [] then id in ids else path[0] in ids && id in DependsOn(deps, path[|path| - 1])
  }

  class Visitor {
    const deps: Dependencies
    var active: set<string>      // colour 1
    var finished: set<string>    // colour 2
    ghost var path: seq<string>
    ghost var done: seq<string>

    ghost function Now(): (s: Stage)
      reads this
    {
      if active == Elements(path) && finished == Elements(done) && Consistent(deps, path, done)
      then Stage(path, done) else Broken
    }

    constructor (deps: Dependencies)
      ensures Now() == Stage([], []) && this.deps == deps
    {
      this.deps := deps;
      active, finished := {}, {};
      path, done := [], [];
    }

    /** Finishes the artifact and everything it depends on, or reports an active artifact that
        the current path runs into. */
    method Visit(id: string, ghost world: set<string>, ghost ids: seq<string>) returns (r: Verdict)
      requires Now().Stage? && id in world && Universe(deps) <= world && Leads(deps, ids, path, id)
      modifies this
      ensures r.Sound? ==> Now() == Stage(old(path), done) && old(done) <= done && id in done && active == old(active)
      ensures !r.Sound? ==> r.Cyclic? && OnCycle(deps, ids, r.artifact)
      decreases world - active - finished, 1
    {
      if id in active {
        CloseChain(deps, ids, path, id);
        return Cyclic(id);
      }
      if id in finished {
        return Sound;
      }
      EnterStage(deps, path, done, id);
      ghost var above := path;
      active, path := active + {id}, path + [id];
      assert id in world - old(active) - old(finished) && id !in world - active - finished;
      r := VisitAll(id, Sort(DependsOn(deps, id), ByName), world, ids);
      if !r.Sound? {
        return;
      }
      LeaveStage(deps, above, done, id);
      active, finished := active - {id}, finished + {id};
      path, done := above, done + [id];
    }

    /** The loop over the sorted dependencies. */
    method VisitAll(id: string, dependencies: seq<string>, ghost world: set<string>, ghost ids: seq<string>)
      returns (r: Verdict)
      requires Now().Stage? && Universe(deps) <= world
      requires path != [] && path[0] in ids && path[|path| - 1] == id
      requires dependencies == Sort(DependsOn(deps, id), ByName)
      modifies this
      ensures r.Sound? ==> Now() == Stage(old(path), done) && old(done) <= done && active == old(active)
      ensures r.Sound? ==> forall d :: d in DependsOn(deps, id) ==> d in done
      ensures !r.Sound? ==> r.Cyclic? && OnCycle(deps, ids, r.artifact)
      decreases world - active - finished, 2
    {
      ghost var stage, start := path, done;
      var i := 0;
      while i < |dependencies|
        invariant i <= |dependencies|
        invariant Now() == Stage(stage, done) && start <= done && active == old(active)
        invariant AllIn(dependencies, i, done)
      {
        DependencyInWorld(deps, id, dependencies, i);
        ghost var was := done;
        r := Visit(dependencies[i], world, ids);
        if !r.Sound? {
          return;
        }
        AllInNext(dependencies, i, was, done);
        i := i + 1;
      }
      AllInAll(DependsOn(deps, id), dependencies, done);
      r := Sound;
    }
  }

  ghost predicate AllIn(ds: seq<string>, i: nat, done: seq<string>) {
    forall j :: 0 <= j < i && j < |ds| ==> ds[j] in done
  }

  lemma AllInNext(ds: seq<string>, i: nat, was: seq<string>, done: seq<string>)
    requires AllIn(ds, i, was) && was <= done && i < |ds| && ds[i] in done
    ensures AllIn(ds, i + 1, done)
  {
    assert forall x :: x in was ==> x in done;
  }

  lemma AllInAll(original: seq<string>, ds: seq<string>, done: seq<string>)
    requires AllIn(ds, |ds|, done) && ds == Sort(original, ByName)
    ensures forall d :: d in original ==> d in done
  {
    SameElements(original, ds);
  }

  lemma DependencyInWorld(deps: Dependencies, id: string, ds: seq<string>, i: nat)
    requires ds == Sort(DependsOn(deps, id), ByName) && i < |ds|
    ensures ds[i] in DependsOn(deps, id) && ds[i] in Universe(deps)
  {
    SameElements(DependsOn(deps, id), ds);
  }

  lemma CloseChain(deps: Dependencies, ids: seq<string>, path: seq<string>, id: string)
    requires IsChain(deps, path) && id in path && Leads(deps, ids, path, id)
    ensures OnCycle(deps, ids, id)
  {
    var i :| 0 <= i < |path| && path[i] == id;
    var walk, start := path[i..] + [id], path[..i + 1];
    forall j | 0 <= j < |walk| - 1 ensures walk[j + 1] in DependsOn(deps, walk[j]) {
      if j + 1 < |path[i..]| { assert path[i + j + 1] in DependsOn(deps, path[i + j]); }
    }
    forall j | 0 <= j < |start| - 1 ensures start[j + 1] in DependsOn(deps, start[j]) {
      assert path[j + 1] in DependsOn(deps, path[j]);
    }
    assert IsCycle(deps, walk) && walk[0] == id;
    assert IsChain(deps, start) && start[0] in ids && start[|start| - 1] == id;
  }

  /** An error-free validation means no artifact depends on an unknown one and none on itself,
      however indirectly; a reported cycle is a real one. */
  method ValidateArtifactGraph(ids: seq<string>, deps: Dependencies) returns (r: Verdict)
    ensures r.Sound? <==> AllKnown(deps, ids) && Acyclic(deps, ids)
    ensures r.Unknown? ==> r.artifact in ids && r.dependency in DependsOn(deps, r.artifact) && r.dependency !in deps
    ensures r.Cyclic? ==> AllKnown(deps, ids) && OnCycle(deps, ids, r.artifact)
  {
    var i := 0;
    while i < |ids|
      invariant i <= |ids| && forall j, d :: 0 <= j < i && d in DependsOn(deps, ids[j]) ==> d in deps
    {
      var missing := FirstUnknown(deps, DependsOn(deps, ids[i]));
      if missing.Some? {
        return Unknown(ids[i], missing.value);
      }
      i := i + 1;
    }
    assert AllKnown(deps, ids);
    r := SearchCycles(ids, deps);
  }

  method FirstUnknown(deps: Dependencies, ds: seq<string>) returns (r: Option<string>)
    ensures r.None? ==> forall d :: d in ds ==> d in deps
    ensures r.Some? ==> r.value in ds && r.value !in deps
  {
    var i := 0;
    while i < |ds|
      invariant i <= |ds| && forall j :: 0 <= j < i ==> ds[j] in deps
    {
      if ds[i] !in deps {
        return Some(ds[i]);
      }
      i := i + 1;
    }
    r := None;
  }

  method SearchCycles(ids: seq<string>, deps: Dependencies) returns (r: Verdict)
    ensures r.Sound? <==> Acyclic(deps, ids)
    ensures !r.Sound? ==> r.Cyclic? && OnCycle(deps, ids, r.artifact)
  {
    var v := new Visitor(deps);
    ghost var world := Universe(deps) + Elements(ids);
    var i := 0;
    while i < |ids|
      invariant i <= |ids| && v.deps == deps && fresh(v)
      invariant v.Now() == Stage([], v.done) && forall j :: 0 <= j < i ==> ids[j] in v.done
    {
      ghost var was := v.done;
      assert ids[i] in ids;
      r := v.Visit(ids[i], world, ids);
      if !r.Sound? {
        ghost var walk :| IsCycle(deps, walk) && walk[0] == r.artifact;
        return;
      }
      assert forall x :: x in was ==> x in v.done;
      i := i + 1;
    }
    assert [] + v.done == v.done;
    OrderedIsAcyclic(deps, v.done, ids);
    r := Sound;
  }

  /** When every artifact is given, the relation as a whole is what is checked. */
  lemma WholeGraphAcyclic(deps: Dependencies, ids: seq<string>)
    requires forall id :: id in ids <==> id in deps
    ensures Acyclic(deps, ids) <==> !exists walk :: IsCycle(deps, walk)
  {
    forall walk | IsCycle(deps, walk) ensures ReachableFrom(deps, ids, walk[0]) {
      assert walk[0 + 1] in DependsOn(deps, walk[0]);
      assert IsChain(deps, [walk[0]]) && [walk[0]][0] in ids;
    }
  }
}
