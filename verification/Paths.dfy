/** Directed edges, walks, and breadth-first search as a function of the edge set. */
module Paths {
  import opened Ordering

  datatype EdgeKind = References | Produces | Contains | DerivedFrom | GeneratedBy | OwnedBy

  function KindText(k: EdgeKind): string {
    match k
    case References => "references"
    case Produces => "produces"
    case Contains => "contains"
    case DerivedFrom => "derived_from"
    case GeneratedBy => "generated_by"
    case OwnedBy => "owned_by"
  }

  datatype Edge = Edge(from: string, to: string, kind: EdgeKind)

  datatype Path = Path(nodes: seq<string>, edges: seq<EdgeKind>)

  function EdgeOrder(e: Edge): Key { [Text(e.from), Text(e.to), Text(KindText(e.kind))] }

  // ----- walks

  /** Consecutive nodes of `p` are joined by edges of the listed kinds. */
  ghost predicate IsWalk(edges: set<Edge>, p: Path) {
    && |p.nodes| == |p.edges| + 1
    && forall i :: 0 <= i < |p.edges| ==> Edge(p.nodes[i], p.nodes[i + 1], p.edges[i]) in edges
  }

  ghost predicate WalkFromTo(edges: set<Edge>, p: Path, start: string, end: string) {
    IsWalk(edges, p) && p.nodes[0] == start && p.nodes[|p.nodes| - 1] == end
  }

  ghost predicate Reachable(edges: set<Edge>, start: string, end: string) {
    exists p :: WalkFromTo(edges, p, start, end)
  }

  function Extend(p: Path, e: Edge): Path {
    Path(p.nodes + [e.to], p.edges + [e.kind])
  }

  function End(p: Path): string
    requires p.nodes != []
  {
    p.nodes[|p.nodes| - 1]
  }

  // ----- the search

  ghost predicate Ends(found: seq<Path>, v: string) {
    exists j :: 0 <= j < |found| && found[j].nodes != [] && End(found[j]) == v
  }

  /** One turn of the inner loop: a new path unless the edge's target has been seen. */
  ghost function Follow(found: seq<Path>, current: Path, e: Edge): seq<Path> {
    if Ends(found, e.to) then found else found + [Extend(current, e)]
  }

  ghost function Visit(found: seq<Path>, current: Path, out: seq<Edge>): seq<Path>
    decreases |out|
  {
    if out == [] then found else Visit(Follow(found, current, out[0]), current, out[1..])
  }

  ghost function Outgoing(edges: set<Edge>, n: string): seq<Edge> {
    SortedElements((set e | e in edges && e.from == n), EdgeOrder)
  }

  ghost function Expand(edges: set<Edge>, found: seq<Path>, k: nat): seq<Path> {
    if k < |found| && found[k].nodes != []
    then Visit(found, found[k], Outgoing(edges, End(found[k])))
    else found
  }

  /** All paths queued so far, the trivial one first, once `k` of them have been expanded. */
  ghost function After(edges: set<Edge>, start: string, k: nat): seq<Path> {
    if k == 0 then [Path([start], [])] else Expand(edges, After(edges, start, k - 1), k - 1)
  }

  /** Everything the search queues: at most one path for the start and one for each edge. */
  ghost function Search(edges: set<Edge>, start: string): seq<Path> {
    After(edges, start, |edges| + 1)
  }

  // ----- its invariant

  ghost predicate Simple(p: Path) { Distinct(p.nodes) }

  ghost predicate Sound(edges: set<Edge>, start: string, found: seq<Path>) {
    && found != [] && found[0] == Path([start], [])
    && (forall i :: 0 <= i < |found| ==> IsWalk(edges, found[i]) && found[i].nodes[0] == start && Simple(found[i]))
    && (forall i, n :: 0 <= i < |found| && n in found[i].nodes ==> Ends(found, n))
    && (forall i, j :: 0 <= i < j < |found| ==> End(found[i]) != End(found[j]))
    && (forall i, j :: 0 <= i < j < |found| ==> |found[i].edges| <= |found[j].edges|)
  }

  /** Some path reaches `v` in at most `bound` steps. */
  ghost predicate Within(found: seq<Path>, v: string, bound: int) {
    exists j :: 0 <= j < |found| && found[j].nodes != [] && End(found[j]) == v && |found[j].edges| <= bound
  }

  ghost predicate Expanded(edges: set<Edge>, found: seq<Path>, i: nat)
    requires i < |found| && found[i].nodes != []
  {
    forall e :: e in edges && e.from == End(found[i]) ==> Within(found, e.to, |found[i].edges| + 1)
  }

  ghost predicate Shallow(found: seq<Path>, bound: int) {
    forall j :: 0 <= j < |found| ==> |found[j].edges| <= bound
  }

  ghost predicate Invariant(edges: set<Edge>, start: string, found: seq<Path>, k: nat) {
    && Sound(edges, start, found)
    && k <= |found|
    && (k < |found| ==> Shallow(found, |found[k].edges| + 1))
    && (forall i :: 0 <= i < k ==> Expanded(edges, found, i))
  }

  lemma PushSound(edges: set<Edge>, start: string, found: seq<Path>, k: nat, e: Edge)
    requires Sound(edges, start, found) && k < |found| && Shallow(found, |found[k].edges| + 1)
    requires e in edges && e.from == End(found[k]) && !Ends(found, e.to)
    ensures var more := found + [Extend(found[k], e)];
            Sound(edges, start, more) && Shallow(more, |found[k].edges| + 1) && Ends(more, e.to)
  {
    var p := Extend(found[k], e);
    var more := found + [p];
    assert End(more[|found|]) == e.to;
    assert e.to !in found[k].nodes;
    forall v | Ends(found, v) ensures Ends(more, v) {
      var j :| 0 <= j < |found| && found[j].nodes != [] && End(found[j]) == v;
      assert End(more[j]) == v;
    }
    forall i, n | 0 <= i < |more| && n in more[i].nodes ensures Ends(more, n) {
      if i < |found| { assert Ends(found, n); } else if n != e.to { assert n in found[k].nodes; }
    }
    forall i, j | 0 <= i < j < |more| ensures End(more[i]) != End(more[j]) {
      if j == |found| { assert End(found[i]) == End(more[i]); }
    }
  }

  lemma FollowSound(edges: set<Edge>, start: string, found: seq<Path>, k: nat, e: Edge)
    requires Sound(edges, start, found) && k < |found| && Shallow(found, |found[k].edges| + 1)
    requires e in edges && e.from == End(found[k])
    ensures var more := Follow(found, found[k], e);
            && Sound(edges, start, more) && found <= more && Shallow(more, |found[k].edges| + 1)
            && Within(more, e.to, |found[k].edges| + 1)
  {
    if !Ends(found, e.to) { PushSound(edges, start, found, k, e); }
    var more := Follow(found, found[k], e);
    var j :| 0 <= j < |more| && more[j].nodes != [] && End(more[j]) == e.to;
  }

  lemma {:induction false} VisitSound(edges: set<Edge>, start: string, found: seq<Path>, k: nat, out: seq<Edge>)
    requires Sound(edges, start, found) && k < |found| && Shallow(found, |found[k].edges| + 1)
    requires forall e :: e in out ==> e in edges && e.from == End(found[k])
    ensures var more := Visit(found, found[k], out);
            && Sound(edges, start, more) && found <= more && Shallow(more, |found[k].edges| + 1)
            && forall e :: e in out ==> Within(more, e.to, |found[k].edges| + 1)
    decreases |out|
  {
    if out != [] {
      FollowSound(edges, start, found, k, out[0]);
      var grown := Follow(found, found[k], out[0]);
      VisitSound(edges, start, grown, k, out[1..]);
    }
  }

  lemma OutgoingContents(edges: set<Edge>, n: string, e: Edge)
    ensures e in Outgoing(edges, n) <==> e in edges && e.from == n
  {
    SortedElementsContents((set f | f in edges && f.from == n), EdgeOrder);
  }

  lemma ExpandStep(edges: set<Edge>, start: string, found: seq<Path>, k: nat)
    requires Invariant(edges, start, found, k) && k < |found|
    ensures Invariant(edges, start, Expand(edges, found, k), k + 1)
  {
    var out := Outgoing(edges, End(found[k]));
    forall e ensures e in out <==> e in edges && e.from == End(found[k]) {
      OutgoingContents(edges, End(found[k]), e);
    }
    VisitSound(edges, start, found, k, out);
    var more := Visit(found, found[k], out);
    forall i | 0 <= i < k + 1 ensures Expanded(edges, more, i) {
      if i < k {
        assert Expanded(edges, found, i);
        forall e | e in edges && e.from == End(more[i]) ensures Within(more, e.to, |more[i].edges| + 1) {}
      }
    }
  }

  ghost predicate Progress(edges: set<Edge>, start: string, found: seq<Path>, k: nat) {
    Invariant(edges, start, found, if k <= |found| then k else |found|)
  }

  lemma StartProgress(edges: set<Edge>, start: string)
    ensures Progress(edges, start, [Path([start], [])], 0)
  {
    var found := [Path([start], [])];
    assert End(found[0]) == start;
  }

  lemma ExpandProgress(edges: set<Edge>, start: string, found: seq<Path>, k: nat)
    requires Progress(edges, start, found, k)
    ensures Progress(edges, start, Expand(edges, found, k), k + 1)
  {
    if k < |found| { ExpandStep(edges, start, found, k); }
  }

  lemma {:induction false} AfterInvariant(edges: set<Edge>, start: string, k: nat)
    ensures Progress(edges, start, After(edges, start, k), k)
  {
    if k == 0 {
      StartProgress(edges, start);
    } else {
      var before := After(edges, start, k - 1);
      assert After(edges, start, k) == Expand(edges, before, k - 1);
      assert Progress(edges, start, Expand(edges, before, k - 1), k) by {
        AfterInvariant(edges, start, k - 1);
        ExpandProgress(edges, start, before, k - 1);
      }
    }
  }

  // ----- it finishes: no more paths than edges

  lemma {:induction false} TargetsCount(edges: set<Edge>)
    ensures |set e | e in edges :: e.to| <= |edges|
  {
    var targets := set e | e in edges :: e.to;
    if edges != {} {
      var e :| e in edges;
      TargetsCount(edges - {e});
      assert targets == (set f | f in edges - {e} :: f.to) + {e.to};
    }
  }

  lemma {:induction false} DistinctCount(s: seq<string>, bound: set<string>)
    requires Distinct(s) && forall x :: x in s ==> x in bound
    ensures |s| <= |bound|
  {
    if s != [] {
      DistinctCount(s[1..], bound - {s[0]});
    }
  }

  lemma FoundCount(edges: set<Edge>, start: string, found: seq<Path>)
    requires Sound(edges, start, found)
    ensures |found| <= |edges| + 1
  {
    var targets := set e | e in edges :: e.to;
    var ends := seq(|found|, i requires 0 <= i < |found| => End(found[i]));
    forall v | v in ends ensures v in targets + {start} {
      var i :| 0 <= i < |found| && ends[i] == v;
      var p := found[i];
      if p.edges != [] {
        var last := |p.edges| - 1;
        assert Edge(p.nodes[last], p.nodes[last + 1], p.edges[last]) in edges;
      }
    }
    DistinctCount(ends, targets + {start});
    TargetsCount(edges);
  }

  lemma ExpandDone(edges: set<Edge>, found: seq<Path>, k: nat)
    requires |found| <= k
    ensures Expand(edges, found, k) == found
  {
  }

  /** Once every queued path has been expanded the search has its final value. */
  lemma {:induction false} AfterStable(edges: set<Edge>, start: string, k: nat, more: nat)
    requires k <= more && |After(edges, start, k)| <= k
    ensures After(edges, start, more) == After(edges, start, k)
    decreases more
  {
    if k < more {
      var found := After(edges, start, more - 1);
      assert After(edges, start, more) == Expand(edges, found, more - 1);
      AfterStable(edges, start, k, more - 1);
      ExpandDone(edges, found, more - 1);
    }
  }

  lemma AfterNext(edges: set<Edge>, start: string, k: nat)
    requires k < |After(edges, start, k)|
    ensures var found := After(edges, start, k);
            && k <= |edges| && found[k].nodes != []
            && After(edges, start, k + 1) == Visit(found, found[k], Outgoing(edges, End(found[k])))
  {
    AfterInvariant(edges, start, k);
    FoundCount(edges, start, After(edges, start, k));
  }

  lemma SearchDone(edges: set<Edge>, start: string, k: nat)
    requires k == |After(edges, start, k)|
    ensures Search(edges, start) == After(edges, start, k)
  {
    AfterInvariant(edges, start, k);
    FoundCount(edges, start, After(edges, start, k));
    AfterStable(edges, start, k, |edges| + 1);
  }

  lemma SearchInvariant(edges: set<Edge>, start: string)
    ensures var found := Search(edges, start); Invariant(edges, start, found, |found|)
  {
    AfterInvariant(edges, start, |edges| + 1);
    FoundCount(edges, start, Search(edges, start));
  }

  // ----- what it finds

  lemma {:induction false} WalkIsFound(edges: set<Edge>, start: string, found: seq<Path>, p: Path)
    requires Invariant(edges, start, found, |found|)
    requires IsWalk(edges, p) && p.nodes[0] == start
    ensures Within(found, End(p), |p.edges|)
    decreases |p.edges|
  {
    if p.edges == [] {
      assert End(found[0]) == start;
    } else {
      var last := |p.edges| - 1;
      var q := Path(p.nodes[..last + 1], p.edges[..last]);
      WalkIsFound(edges, start, found, q);
      var j :| 0 <= j < |found| && found[j].nodes != [] && End(found[j]) == End(q) && |found[j].edges| <= |q.edges|;
      var e := Edge(p.nodes[last], p.nodes[last + 1], p.edges[last]);
      assert Expanded(edges, found, j) && e in edges && e.from == End(found[j]);
      var i :| 0 <= i < |found| && found[i].nodes != [] && End(found[i]) == e.to
               && |found[i].edges| <= |found[j].edges| + 1;
    }
  }

  /** The paths `ImpactPaths` returns: all but the trivial one. */
  ghost function FoundPaths(edges: set<Edge>, start: string): seq<Path> {
    var found := Search(edges, start);
    if found == [] then [] else found[1..]
  }

  /** On every finite graph, cyclic or not, the search returns simple walks from the start,
      in order of length, ending at distinct nodes other than the start. */
  lemma FoundPathsAreSimpleWalks(edges: set<Edge>, start: string)
    ensures var ps := FoundPaths(edges, start);
            && (forall i :: 0 <= i < |ps| ==>
                  && IsWalk(edges, ps[i]) && WalkFromTo(edges, ps[i], start, End(ps[i])) && Simple(ps[i])
                  && ps[i].edges != [] && End(ps[i]) != start)
            && (forall i, j :: 0 <= i < j < |ps| ==> End(ps[i]) != End(ps[j]) && |ps[i].edges| <= |ps[j].edges|)
  {
    SearchInvariant(edges, start);
    var found := Search(edges, start);
    var ps := FoundPaths(edges, start);
    forall i | 0 <= i < |ps|
      ensures && IsWalk(edges, ps[i]) && WalkFromTo(edges, ps[i], start, End(ps[i])) && Simple(ps[i])
              && ps[i].edges != [] && End(ps[i]) != start
    {
      assert ps[i] == found[i + 1] && End(found[0]) == start;
    }
  }

  /** Exactly the nodes reachable from the start get a path, and no walk is shorter than it. */
  lemma FoundPathsAreComplete(edges: set<Edge>, start: string, v: string)
    requires v != start
    ensures Reachable(edges, start, v) <==> Ends(FoundPaths(edges, start), v)
    ensures forall p :: WalkFromTo(edges, p, start, v) ==> Within(FoundPaths(edges, start), v, |p.edges|)
  {
    SearchInvariant(edges, start);
    FoundPathsAreSimpleWalks(edges, start);
    var found := Search(edges, start);
    var ps := FoundPaths(edges, start);
    forall p | WalkFromTo(edges, p, start, v) ensures Within(ps, v, |p.edges|) && Ends(ps, v) {
      WalkIsFound(edges, start, found, p);
      var j :| 0 <= j < |found| && found[j].nodes != [] && End(found[j]) == v && |found[j].edges| <= |p.edges|;
      assert End(found[0]) == start;
      assert ps[j - 1] == found[j];
    }
  }

  /** Keeping the paths of at most one edge keeps exactly the nodes one edge away. */
  lemma DirectFilterIsExact(edges: set<Edge>, start: string, v: string)
    requires v != start
    ensures (exists k :: Edge(start, v, k) in edges) <==> Within(FoundPaths(edges, start), v, 1)
  {
    FoundPathsAreComplete(edges, start, v);
    FoundPathsAreSimpleWalks(edges, start);
    var ps := FoundPaths(edges, start);
    if k :| Edge(start, v, k) in edges {
      assert WalkFromTo(edges, Path([start, v], [k]), start, v);
    }
    if Within(ps, v, 1) {
      var i :| 0 <= i < |ps| && ps[i].nodes != [] && End(ps[i]) == v && |ps[i].edges| <= 1;
      assert Edge(ps[i].nodes[0], ps[i].nodes[1], ps[i].edges[0]) in edges;
    }
  }
}
