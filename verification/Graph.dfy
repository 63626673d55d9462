/** The mutable dependency graph (internal/graph/graph.go). */
module Graphs {
  import opened Ordering
  import opened Domain
  import opened Paths

  datatype NodeKind = SymbolNode | ConsumerNode

  datatype Node = Node(id: string, kind: NodeKind, name: string, symbol: Option<Symbol>, consumer: Option<Consumer>)

  function NodeOrder(n: Node): Key { [Text(n.id)] }

  function Join(parts: seq<string>, separator: char): string {
    if parts == [] then ""
    else if |parts| == 1 then parts[0]
    else parts[0] + [separator] + Join(parts[1..], separator)
  }

  function SymbolNodeId(s: Symbol): string {
    Join(["symbol", s.domain, s.kind, s.parent, s.name], ':')
  }

  function ConsumerNodeId(id: string): string { "consumer:" + id }

  /** The text a graph deduplicates edges by. */
  function EdgeText(e: Edge): string {
    Join([e.from, e.to, KindText(e.kind)], '\0')
  }

  predicate NulFree(s: string) { '\0' !in s }

  lemma {:induction false} CutAtSeparator(a: string, b: string, x: string, y: string, c: char)
    requires a + [c] + x == b + [c] + y && c !in a && c !in b
    ensures a == b && x == y
  {
    var s, t := a + [c] + x, b + [c] + y;
    assert s[0] == t[0] && s[1..] == t[1..];
    if a == "" && b == "" {
      assert x == s[1..] && y == t[1..];
    } else if a != "" && b != "" {
      assert s[1..] == a[1..] + [c] + x && t[1..] == b[1..] + [c] + y;
      CutAtSeparator(a[1..], b[1..], x, y, c);
      assert a == [s[0]] + a[1..] && b == [t[0]] + b[1..];
    }
  }

  lemma JoinCut(a: string, b: string, x: seq<string>, y: seq<string>, c: char)
    requires x != [] && y != [] && c !in a && c !in b
    requires Join([a] + x, c) == Join([b] + y, c)
    ensures a == b && Join(x, c) == Join(y, c)
  {
    assert ([a] + x)[1..] == x && ([b] + y)[1..] == y;
    CutAtSeparator(a, b, Join(x, c), Join(y, c), c);
  }

  lemma JoinThree(a: string, b: string, c: string)
    ensures Join([a, b, c], '\0') == a + "\0" + (b + "\0" + c)
  {
    assert [a, b, c][1..] == [b, c] && [b, c][1..] == [c];
    assert Join([c], '\0') == c && Join([b, c], '\0') == b + "\0" + c;
  }

  /** Without NULs in node IDs the text identifies the edge. */
  lemma EdgeTextInjective(a: Edge, b: Edge)
    requires EdgeText(a) == EdgeText(b)
    requires NulFree(a.from) && NulFree(a.to) && NulFree(b.from) && NulFree(b.to)
    ensures a == b
  {
    var s, t := [KindText(a.kind)], [KindText(b.kind)];
    assert [a.from, a.to, KindText(a.kind)] == [a.from] + ([a.to] + s);
    assert [b.from, b.to, KindText(b.kind)] == [b.from] + ([b.to] + t);
    JoinCut(a.from, b.from, [a.to] + s, [b.to] + t, '\0');
    JoinCut(a.to, b.to, s, t, '\0');
  }

  /** A graph as a value: its nodes by ID and its edges. */
  datatype GraphValue = GraphValue(nodes: map<string, Node>, edges: set<Edge>)

  ghost predicate WellKeyed(nodes: map<string, Node>) {
    forall id :: id in nodes ==> nodes[id].id == id
  }

  ghost function SortedNodes(g: GraphValue): seq<Node> { SortedElements(g.nodes.Values, NodeOrder) }

  datatype Attempt = Refused | Built(value: GraphValue)

  /** The graph with the node, unless a node of another kind or name has its ID. */
  ghost function WithNode(g: GraphValue, n: Node): Attempt {
    if n.id == "" then Refused
    else if n.id !in g.nodes then Built(g.(nodes := g.nodes[n.id := n]))
    else if g.nodes[n.id].kind == n.kind && g.nodes[n.id].name == n.name then Built(g)
    else Refused
  }

  ghost predicate HasText(edges: set<Edge>, e: Edge) {
    exists f :: f in edges && EdgeText(f) == EdgeText(e)
  }

  /** The graph with the edge, unless an end is missing or the text is already known. */
  ghost function WithEdge(g: GraphValue, e: Edge): Attempt {
    if e.from !in g.nodes || e.to !in g.nodes then Refused
    else if HasText(g.edges, e) then Built(g)
    else Built(g.(edges := g.edges + {e}))
  }

  datatype Failure =
    | EmptyNodeId | ConflictingNode | MissingEdgeSource | MissingEdgeDestination
    | UndiscoveredConsumer

  datatype Outcome = Done | Failed(failure: Failure)

  function Source(e: Edge): string { e.from }

  function Target(e: Edge): string { e.to }

  function Push(lists: map<string, seq<Edge>>, n: string, e: Edge): map<string, seq<Edge>> {
    lists[n := (if n in lists then lists[n] else []) + [e]]
  }

  /** The lists hold exactly the given edges, each once and under its own end. */
  ghost predicate Indexes(lists: map<string, seq<Edge>>, es: set<Edge>, end: Edge -> string) {
    && (forall n, e :: n in lists && e in lists[n] ==> e in es && end(e) == n)
    && (forall e :: e in es ==> end(e) in lists && e in lists[end(e)])
    && (forall n :: n in lists ==> Distinct(lists[n]))
  }

  lemma PushIndexes(lists: map<string, seq<Edge>>, es: set<Edge>, end: Edge -> string, e: Edge)
    requires Indexes(lists, es, end) && e !in es
    ensures Indexes(Push(lists, end(e), e), es + {e}, end)
  {
    var more := Push(lists, end(e), e);
    forall f | f in es + {e} ensures end(f) in more && f in more[end(f)] {
      if f == e { assert more[end(e)][|more[end(e)]| - 1] == e; }
    }
  }

  class Graph {
    var nodes: map<string, Node>
    var out: map<string, seq<Edge>>
    var into: map<string, seq<Edge>>
    var edges: set<string>
    ghost var edgeSet: set<Edge>

    ghost predicate Valid()
      reads this
    {
      && WellKeyed(nodes) && "" !in nodes
      && Indexes(out, edgeSet, Source) && Indexes(into, edgeSet, Target)
      && (forall e :: e in edgeSet ==> e.from in nodes && e.to in nodes)
      && edges == (set e | e in edgeSet :: EdgeText(e))
    }

    ghost function Value(): GraphValue
      reads this
    {
      GraphValue(nodes, edgeSet)
    }

    /** The value of a consistent graph. */
    ghost function State(): (a: Attempt)
      reads this
      ensures a.Built? <==> Valid()
      ensures a.Built? ==> a.value == Value()
    {
      if Valid() then Built(Value()) else Refused
    }

    constructor ()
      ensures Valid() && Value() == GraphValue(map[], {})
    {
      nodes, out, into, edges := map[], map[], map[], {};
      edgeSet := {};
    }

    /** Adds the node or accepts one of the same kind and name that is already there. */
    method AddNode(node: Node) returns (r: Outcome)
      requires Valid()
      modifies this
      ensures Valid()
      ensures r.Done? <==> WithNode(old(Value()), node).Built?
      ensures Value() == if r.Done? then WithNode(old(Value()), node).value else old(Value())
    {
      if node.id == "" {
        return Failed(EmptyNodeId);
      }
      if node.id in nodes {
        var existing := nodes[node.id];
        if existing.kind != node.kind || existing.name != node.name {
          return Failed(ConflictingNode);
        }
        return Done;
      }
      nodes := nodes[node.id := node];
      return Done;
    }

    /** Adds the edge to both adjacency lists unless its text is already known. */
    method AddEdge(edge: Edge) returns (r: Outcome)
      requires Valid()
      modifies this
      ensures Valid()
      ensures r.Done? <==> WithEdge(old(Value()), edge).Built?
      ensures Value() == if r.Done? then WithEdge(old(Value()), edge).value else old(Value())
    {
      if edge.from !in nodes {
        return Failed(MissingEdgeSource);
      }
      if edge.to !in nodes {
        return Failed(MissingEdgeDestination);
      }
      var key := EdgeText(edge);
      assert key in edges <==> HasText(edgeSet, edge);
      if key in edges {
        return Done;
      }
      edges := edges + {key};
      PushIndexes(out, edgeSet, Source, edge);
      PushIndexes(into, edgeSet, Target, edge);
      out := Push(out, edge.from, edge);
      into := Push(into, edge.to, edge);
      edgeSet := edgeSet + {edge};
      return Done;
    }

    /** Every node in ID order, whatever order the map yields them in. */
    method Nodes() returns (r: seq<Node>)
      requires Valid()
      ensures r == SortedNodes(Value())
    {
      var list: seq<Node> := [];
      var remaining := nodes.Keys;
      while remaining != {}
        invariant remaining <= nodes.Keys
        invariant Distinct(list)
        invariant forall x: Node :: x in list <==> x.id in nodes.Keys - remaining && nodes[x.id] == x
      {
        var id :| id in remaining;
        list := list + [nodes[id]];
        remaining := remaining - {id};
      }
      assert forall x: Node :: x in nodes.Values <==> x.id in nodes && nodes[x.id] == x;
      DistinctMultiset(list, nodes.Values);
      assert forall x, y :: x in nodes.Values && y in nodes.Values && NodeOrder(x) == NodeOrder(y) ==>
               NodeOrder(x)[0] == NodeOrder(y)[0];
      SortListsSet(list, nodes.Values, NodeOrder);
      r := Sort(list, NodeOrder);
    }

    method SortedOut(n: string) returns (r: seq<Edge>)
      requires Valid()
      ensures r == Outgoing(edgeSet, n)
    {
      var list := if n in out then out[n] else [];
      ghost var from := set e | e in edgeSet && e.from == n;
      DistinctMultiset(list, from);
      forall x, y | x in from && y in from && EdgeOrder(x) == EdgeOrder(y) ensures x == y {}
      SortListsSet(list, from, EdgeOrder);
      r := Sort(list, EdgeOrder);
    }

    /** The inner loop of the traversal: the paths newly found by following `edges`. */
    static method FollowEdges(ghost found: seq<Path>, current: Path, edges: seq<Edge>, seen: set<string>)
      returns (visited: set<string>, added: seq<Path>)
      requires seen == EndSet(found)
      ensures found + added == Visit(found, current, edges)
      ensures visited == EndSet(found + added)
    {
      visited, added := seen, [];
      ghost var sofar := found;
      var i := 0;
      while i < |edges|
        invariant i <= |edges|
        invariant sofar == found + added
        invariant Visit(found, current, edges) == Visit(sofar, current, edges[i..])
        invariant visited == EndSet(sofar)
      {
        var edge := edges[i];
        VisitNext(sofar, current, edges, i);
        EndSetContents(sofar, edge.to);
        if edge.to !in visited {
          var next := Extend(current, edge);
          EndSetPush(sofar, next);
          visited := visited + {edge.to};
          added := added + [next];
          sofar := sofar + [next];
        }
        i := i + 1;
      }
    }

    /** The breadth-first traversal, with its queue, visited set and result list. */
    method ImpactPaths(start: string) returns (paths: seq<Path>)
      requires Valid()
      ensures paths == if start in nodes then FoundPaths(edgeSet, start) else []
    {
      if start !in nodes {
        return [];
      }
      var first := Path([start], []);
      var queue := [first];
      var visited := {start};
      paths := [];
      ghost var k := 0;
      ghost var found := [first];
      EndSetPush([], first);
      assert found == [] + [first];
      while queue != []
        invariant Searching(edgeSet, start, k, found, queue, paths, visited)
        decreases |edgeSet| + 1 - k
      {
        var current := queue[0];
        queue := queue[1..];
        SearchTurn(edgeSet, start, k, found);
        var edges := SortedOut(End(current));
        var added;
        visited, added := FollowEdges(found, current, edges, visited);
        SearchAdvances(edgeSet, start, k, found, added, visited);
        paths := paths + added;
        queue := queue + added;
        found := found + added;
        k := k + 1;
      }
      SearchDone(edgeSet, start, k);
    }
  }

  /** The loop after k turns: the queue is what has been found but not expanded. */
  ghost predicate Searching(edges: set<Edge>, start: string, k: nat, found: seq<Path>, queue: seq<Path>,
                            paths: seq<Path>,
                            visited: set<string>)
  {
    && found == After(edges, start, k) && k <= |found| && found != [] && paths == found[1..] && queue == found[k..]
    && visited == EndSet(found)
  }

  lemma SearchTurn(edges: set<Edge>, start: string, k: nat, found: seq<Path>)
    requires k < |found| && found == After(edges, start, k)
    ensures k <= |edges| && found[k].nodes != []
    ensures After(edges, start, k + 1) == Visit(found, found[k], Outgoing(edges, End(found[k])))
  {
    AfterNext(edges, start, k);
  }

  lemma SearchAdvances(edges: set<Edge>, start: string, k: nat, found: seq<Path>, added: seq<Path>,
                       visited: set<string>)
    requires k < |found| && found + added == After(edges, start, k + 1) && visited == EndSet(found + added)
    ensures Searching(edges, start, k + 1, found + added, found[k..][1..] + added, found[1..] + added, visited)
  {
    Advance(found, added, k);
    assert (found + added)[1..] == found[1..] + added;
  }

  lemma VisitNext(found: seq<Path>, current: Path, edges: seq<Edge>, i: nat)
    requires i < |edges|
    ensures Visit(found, current, edges[i..]) == Visit(Follow(found, current, edges[i]), current, edges[i + 1..])
  {
    assert edges[i..][1..] == edges[i + 1..];
  }

  lemma Advance<T>(found: seq<T>, added: seq<T>, k: nat)
    requires k < |found|
    ensures found[k..][1..] + added == (found + added)[k + 1..]
  {
  }

  ghost function EndSet(found: seq<Path>): set<string> {
    set p | p in found && p.nodes != [] :: End(p)
  }

  lemma EndSetContents(found: seq<Path>, v: string)
    ensures v in EndSet(found) <==> Ends(found, v)
  {
  }

  lemma EndSetPush(found: seq<Path>, p: Path)
    requires p.nodes != []
    ensures EndSet(found + [p]) == EndSet(found) + {End(p)}
  {
    forall v | v in EndSet(found) + {End(p)} ensures v in EndSet(found + [p]) {
      if v == End(p) { assert p in found + [p]; }
    }
  }
}
