/** What an impact path means for the evidence it was built from. */
module Reach {
  import opened Ordering
  import opened Domain
  import opened Paths
  import opened Graphs
  import opened Build
  import opened Impact
  import opened Facts

  /** The consumer references the symbol, directly or through `n` produced symbols. */
  ghost predicate Feeds(d: Discovery, s: Symbol, id: string, n: nat)
    decreases n
  {
    if n == 0 then exists r :: r in d.references && r.symbol == s && r.consumerId == id
    else exists p :: p in d.productions && Feeds(d, s, p.consumerId, n - 1) && Feeds(d, p.symbol, id, 0)
  }

  /** Some symbol that denotes the changed one feeds the consumer; directly, unless `transitive`. */
  ghost predicate Reaches(d: Discovery, changed: Symbol, transitive: bool, id: string) {
    exists s, n :: Denotes(s, changed) && (transitive || n == 0) && Feeds(d, s, id, n)
  }

  // ----- edges and evidence

  lemma EdgeOfReference(d: Discovery, r: Reference)
    requires r in d.references
    ensures Edge(SymbolNodeId(r.symbol), ConsumerNodeId(r.consumerId), References) in EdgesOf(Links(d))
    ensures IsSymbol(d, r.symbol)
  {
    LinksContents(d, ReferenceLink(r));
  }

  lemma EdgeOfProduction(d: Discovery, p: Production)
    requires p in d.productions
    ensures Edge(ConsumerNodeId(p.consumerId), SymbolNodeId(p.symbol), Produces) in EdgesOf(Links(d))
    ensures IsSymbol(d, p.symbol)
  {
    LinksContents(d, ProductionLink(p));
  }

  lemma EdgeIntoConsumer(d: Discovery, e: Edge, id: string) returns (r: Reference)
    requires e in EdgesOf(Links(d)) && e.to == ConsumerNodeId(id)
    ensures r in d.references && e.from == SymbolNodeId(r.symbol) && r.consumerId == id
  {
    var l :| l in Links(d) && l.edge == e;
    LinksContents(d, l);
    if q :| q in d.references && l == ReferenceLink(q) {
      ConsumerNodeIdInjective(q.consumerId, id);
      r := q;
    } else {
      SymbolAndConsumerIdsDiffer(l.symbol, id);
    }
  }

  lemma EdgeIntoSymbol(d: Discovery, e: Edge, s: Symbol) returns (p: Production)
    requires Faithful(d) && IsSymbol(d, s) && e in EdgesOf(Links(d)) && e.to == SymbolNodeId(s)
    ensures p in d.productions && e.from == ConsumerNodeId(p.consumerId) && p.symbol == s
  {
    var l :| l in Links(d) && l.edge == e;
    LinksContents(d, l);
    if q :| q in d.productions && l == ProductionLink(q) {
      SymbolsDoNotShareNodes(d, q.symbol, s);
      p := q;
    } else {
      SymbolAndConsumerIdsDiffer(s, l.consumerId);
    }
  }

  // ----- walks and evidence

  lemma HopWalk(d: Discovery, p: Path, start: string, q: Production, r: Reference) returns (more: Path)
    requires q in d.productions && r in d.references && r.symbol == q.symbol
    requires WalkFromTo(EdgesOf(Links(d)), p, start, ConsumerNodeId(q.consumerId))
    ensures WalkFromTo(EdgesOf(Links(d)), more, start, ConsumerNodeId(r.consumerId)) && |more.edges| == |p.edges| + 2
  {
    EdgeOfProduction(d, q);
    EdgeOfReference(d, r);
    var a := Edge(ConsumerNodeId(q.consumerId), SymbolNodeId(q.symbol), Produces);
    var b := Edge(SymbolNodeId(r.symbol), ConsumerNodeId(r.consumerId), References);
    more := Extend(Extend(p, a), b);
  }

  lemma {:induction false} FeedsWalk(d: Discovery, s: Symbol, id: string, n: nat) returns (p: Path)
    requires Feeds(d, s, id, n)
    ensures WalkFromTo(EdgesOf(Links(d)), p, SymbolNodeId(s), ConsumerNodeId(id)) && |p.edges| == 2 * n + 1
    ensures IsSymbol(d, s)
    decreases n
  {
    if n == 0 {
      var r :| r in d.references && r.symbol == s && r.consumerId == id;
      EdgeOfReference(d, r);
      p := Path([SymbolNodeId(s), ConsumerNodeId(id)], [References]);
    } else {
      var q :| q in d.productions && Feeds(d, s, q.consumerId, n - 1) && Feeds(d, q.symbol, id, 0);
      var r :| r in d.references && r.symbol == q.symbol && r.consumerId == id;
      var before := FeedsWalk(d, s, q.consumerId, n - 1);
      p := HopWalk(d, before, SymbolNodeId(s), q, r);
    }
  }

  function Shorter(p: Path, k: nat): Path
    requires k < |p.nodes| && k <= |p.edges|
  {
    Path(p.nodes[..k + 1], p.edges[..k])
  }

  /** Walks alternate: every one from a symbol to a consumer is a chain of references and productions. */
  lemma {:induction false} WalkFeeds(d: Discovery, s: Symbol, id: string, p: Path) returns (n: nat)
    requires Faithful(d) && IsSymbol(d, s)
    requires WalkFromTo(EdgesOf(Links(d)), p, SymbolNodeId(s), ConsumerNodeId(id))
    ensures Feeds(d, s, id, n) && |p.edges| == 2 * n + 1
    decreases |p.edges|
  {
    SymbolAndConsumerIdsDiffer(s, id);
    var last := |p.edges| - 1;
    var r := EdgeIntoConsumer(d, Edge(p.nodes[last], p.nodes[last + 1], p.edges[last]), id);
    EdgeOfReference(d, r);
    if last == 0 {
      SymbolsDoNotShareNodes(d, r.symbol, s);
      n := 0;
    } else {
      var q := EdgeIntoSymbol(d, Edge(p.nodes[last - 1], p.nodes[last], p.edges[last - 1]), r.symbol);
      n := WalkFeeds(d, s, q.consumerId, Shorter(p, last - 1));
      assert Feeds(d, q.symbol, id, 0);
      n := n + 1;
    }
  }

  // ----- reported paths and evidence

  lemma {:induction false} PathsViaNonEmpty(g: GraphValue, ns: seq<Node>, symbol: Symbol, transitive: bool, id: string)
    ensures PathsVia(g, ns, symbol, transitive, id) != [] <==>
            exists n, p :: n in ns && MatchingNode(n, symbol) && p in FoundPaths(g.edges, n.id)
                           && Arrives(g.nodes, p, transitive, id)
  {
    if ns != [] {
      var rest, n := ns[..|ns| - 1], ns[|ns| - 1];
      assert ns == rest + [n];
      PathsViaNonEmpty(g, rest, symbol, transitive, id);
      var arriving := Arriving(g, FoundPaths(g.edges, n.id), transitive, id);
      forall p ensures p in arriving <==> p in FoundPaths(g.edges, n.id) && Arrives(g.nodes, p, transitive, id) {
        FilterContents(FoundPaths(g.edges, n.id), p => Arrives(g.nodes, p, transitive, id), p);
      }
      if MatchingNode(n, symbol) && arriving != [] { assert arriving[0] in arriving; }
      if m, p :| m in ns && MatchingNode(m, symbol) && p in FoundPaths(g.edges, m.id)
                 && Arrives(g.nodes, p, transitive, id)
      {
        if m == n { assert p in arriving; } else { assert m in rest; }
      }
    }
  }

  lemma ArrivalMeansReach(d: Discovery, symbol: Symbol, transitive: bool, id: string, n: Node, p: Path)
    requires Faithful(d) && n in GraphOf(d).nodes.Values && MatchingNode(n, symbol)
    requires p in FoundPaths(EdgesOf(Links(d)), n.id) && Arrives(GraphOf(d).nodes, p, transitive, id)
    ensures Reaches(d, symbol, transitive, id)
  {
    GraphNodes(d);
    var s := n.symbol.value;
    assert n == SymbolNodeOf(s) && IsSymbol(d, s);
    assert End(p) == ConsumerNodeId(id);
    FoundPathsAreSimpleWalks(EdgesOf(Links(d)), n.id);
    var k := WalkFeeds(d, s, id, p);
    MatchingMeans(s, symbol);
  }

  lemma ReachMeansArrival(d: Discovery, symbol: Symbol, transitive: bool, c: Consumer) returns (n: Node, p: Path)
    requires Faithful(d) && c in d.consumers && Reaches(d, symbol, transitive, c.id)
    ensures n in GraphOf(d).nodes.Values && MatchingNode(n, symbol)
    ensures p in FoundPaths(EdgesOf(Links(d)), n.id) && Arrives(GraphOf(d).nodes, p, transitive, c.id)
  {
    GraphNodes(d);
    var edges := EdgesOf(Links(d));
    var s, k :| Denotes(s, symbol) && (transitive || k == 0) && Feeds(d, s, c.id, k);
    MatchingMeans(s, symbol);
    var w := FeedsWalk(d, s, c.id, k);
    n := SymbolNodeOf(s);
    assert DescribesEvidence(d, n) && DescribesEvidence(d, ConsumerNodeOf(c));
    assert GraphOf(d).nodes[n.id] == n;
    SymbolAndConsumerIdsDiffer(s, c.id);
    FoundPathsAreComplete(edges, n.id, ConsumerNodeId(c.id));
    var ps := FoundPaths(edges, n.id);
    assert Within(ps, ConsumerNodeId(c.id), |w.edges|);
    var j :| 0 <= j < |ps| && ps[j].nodes != [] && End(ps[j]) == ConsumerNodeId(c.id) && |ps[j].edges| <= |w.edges|;
    p := ps[j];
  }

  /** A consumer gets a path exactly when a symbol denoting the changed one feeds it, through any number of
      produced symbols, or directly when only direct dependencies count. */
  lemma ImpactIsExact(d: Discovery, symbol: Symbol, transitive: bool, c: Consumer)
    requires Faithful(d) && c in d.consumers
    ensures PathsTo(GraphOf(d), symbol, transitive, c.id) != [] <==> Reaches(d, symbol, transitive, c.id)
  {
    var g := GraphOf(d);
    var ns := SortedNodes(g);
    SortedElementsContents(g.nodes.Values, NodeOrder);
    PathsViaNonEmpty(g, ns, symbol, transitive, c.id);
    if PathsTo(g, symbol, transitive, c.id) != [] {
      var n, p :| n in ns && MatchingNode(n, symbol) && p in FoundPaths(g.edges, n.id)
                  && Arrives(g.nodes, p, transitive, c.id);
      ArrivalMeansReach(d, symbol, transitive, c.id, n, p);
    }
    if Reaches(d, symbol, transitive, c.id) {
      var n, p := ReachMeansArrival(d, symbol, transitive, c);
      assert n in ns;
    }
  }
}
