/** From dependency paths and uncertainty to findings (internal/impact/finding.go). */
module Impact {
  import opened Ordering
  import opened Domain
  import opened Paths
  import opened Graphs

  datatype ImpactType =
    | VisibilityLoss | AlertingRisk | SloRisk | ScalingRisk | DeploymentGateRisk | AutomationRisk | SemanticRisk
    | UnsupportedImpact(text: string)

  function TypeForConsumer(kind: ConsumerKind): Option<ImpactType> {
    match kind
    case Dashboard | DashboardPanel | Query | Runbook => Some(VisibilityLoss)
    case AlertRule => Some(AlertingRisk)
    case Slo => Some(SloRisk)
    case Autoscaler => Some(ScalingRisk)
    case DeploymentGate => Some(DeploymentGateRisk)
    case Automation => Some(AutomationRisk)
    case RecordingRule | Collector | SourceCode => Some(SemanticRisk)
    case UnknownKind(_) => None
  }

  /** The generated names of one Prometheus metric family. */
  predicate MetricFamilyMatches(reference: string, base: string) {
    || reference == base
    || reference == base + "_bucket" || reference == base + "_sum"
    || reference == base + "_count" || reference == base + "_created"
  }

  predicate SymbolMatches(reference: Symbol, changed: Symbol) {
    && reference.domain == changed.domain && reference.kind == changed.kind
    && if reference.domain == PROMETHEUS && reference.kind == METRIC then
         MetricFamilyMatches(reference.name, changed.name)
       else if reference.domain == PROMETHEUS && reference.kind == LABEL then
         reference.name == changed.name && MetricFamilyMatches(reference.parent, changed.parent)
       else
         reference.name == changed.name && reference.parent == changed.parent
  }

  predicate UnresolvedReferenceApplies(reference: Reference, change: Change) {
    && reference.requiresResolution
    && (reference.resolutionScope != LABEL_SCOPE
        || (&& change.from.kind == LABEL && reference.symbol.kind == METRIC
            && (|| MetricFamilyMatches(reference.symbol.name, change.from.parent)
                || (change.to.Some? && MetricFamilyMatches(reference.symbol.name, change.to.value.parent)))))
  }

  // ----- paths to a consumer

  predicate MatchingNode(n: Node, symbol: Symbol) {
    n.kind == SymbolNode && n.symbol.Some? && SymbolMatches(n.symbol.value, symbol)
  }

  predicate Arrives(nodes: map<string, Node>, p: Path, transitive: bool, id: string) {
    && (transitive || |p.edges| <= 1)
    && p.nodes != [] && End(p) in nodes
    && nodes[End(p)].consumer.Some? && nodes[End(p)].consumer.value.id == id
  }

  ghost function Arriving(g: GraphValue, paths: seq<Path>, transitive: bool, id: string): seq<Path> {
    Filter(paths, p => Arrives(g.nodes, p, transitive, id))
  }

  ghost function PathsVia(g: GraphValue, nodes: seq<Node>, symbol: Symbol, transitive: bool, id: string): seq<Path> {
    if nodes == [] then [] else
      var n := nodes[|nodes| - 1];
      PathsVia(g, nodes[..|nodes| - 1], symbol, transitive, id)
      + if MatchingNode(n, symbol) then Arriving(g, FoundPaths(g.edges, n.id), transitive, id) else []
  }

  /** The impact paths from a changed symbol to one consumer, in the order they are reported. */
  ghost function PathsTo(g: GraphValue, symbol: Symbol, transitive: bool, id: string): seq<Path> {
    PathsVia(g, SortedNodes(g), symbol, transitive, id)
  }

  type PathMap = map<string, seq<Path>>

  function Lookup(m: PathMap, id: string): seq<Path> { if id in m then m[id] else [] }

  /** One turn of the inner loop: a kept path is filed under the consumer it ends at. */
  function Record(m: PathMap, nodes: map<string, Node>, p: Path, transitive: bool): PathMap {
    if (transitive || |p.edges| <= 1) && p.nodes != [] && End(p) in nodes && nodes[End(p)].consumer.Some?
    then var id := nodes[End(p)].consumer.value.id; m[id := Lookup(m, id) + [p]]
    else m
  }

  ghost function RecordAll(m: PathMap, nodes: map<string, Node>, ps: seq<Path>, transitive: bool): PathMap {
    if ps == [] then m
    else Record(RecordAll(m, nodes, ps[..|ps| - 1], transitive), nodes, ps[|ps| - 1], transitive)
  }

  ghost function ImpactMap(g: GraphValue, ns: seq<Node>, symbol: Symbol, transitive: bool): PathMap {
    if ns == [] then map[] else
      var before, n := ImpactMap(g, ns[..|ns| - 1], symbol, transitive), ns[|ns| - 1];
      if MatchingNode(n, symbol) then RecordAll(before, g.nodes, FoundPaths(g.edges, n.id), transitive) else before
  }

  lemma {:induction false} RecordAllLookup(m: PathMap, g: GraphValue, ps: seq<Path>, transitive: bool, id: string)
    requires id in m ==> m[id] != []
    ensures var r := RecordAll(m, g.nodes, ps, transitive);
            Lookup(r, id) == Lookup(m, id) + Arriving(g, ps, transitive, id) && (id in r ==> r[id] != [])
  {
    if ps != [] {
      RecordAllLookup(m, g, ps[..|ps| - 1], transitive, id);
    }
  }

  /** The map has a consumer exactly when some path arrives there, and then lists those paths. */
  lemma {:induction false} ImpactMapLookup(g: GraphValue, ns: seq<Node>, symbol: Symbol, transitive: bool, id: string)
    ensures var r := ImpactMap(g, ns, symbol, transitive);
            Lookup(r, id) == PathsVia(g, ns, symbol, transitive, id) && (id in r ==> r[id] != [])
  {
    if ns != [] {
      var before, n := ns[..|ns| - 1], ns[|ns| - 1];
      ImpactMapLookup(g, before, symbol, transitive, id);
      if MatchingNode(n, symbol) {
        RecordAllLookup(ImpactMap(g, before, symbol, transitive), g, FoundPaths(g.edges, n.id), transitive, id);
      }
    }
  }

  method RecordPaths(nodes: map<string, Node>, paths: seq<Path>, transitive: bool, start: PathMap) returns (m: PathMap)
    ensures m == RecordAll(start, nodes, paths, transitive)
  {
    m := start;
    var j := 0;
    while j < |paths|
      invariant j <= |paths| && m == RecordAll(start, nodes, paths[..j], transitive)
    {
      assert paths[..j + 1][..j] == paths[..j];
      m := Record(m, nodes, paths[j], transitive);
      j := j + 1;
    }
    assert paths[..j] == paths;
  }

  ghost predicate Tabulates(m: PathMap, g: GraphValue, symbol: Symbol, transitive: bool) {
    forall id :: Lookup(m, id) == PathsTo(g, symbol, transitive, id) && (id in m ==> m[id] != [])
  }

  lemma ImpactMapTabulates(g: GraphValue, symbol: Symbol, transitive: bool)
    ensures Tabulates(ImpactMap(g, SortedNodes(g), symbol, transitive), g, symbol, transitive)
  {
    forall id ensures var m := ImpactMap(g, SortedNodes(g), symbol, transitive);
                      Lookup(m, id) == PathsTo(g, symbol, transitive, id) && (id in m ==> m[id] != [])
    {
      ImpactMapLookup(g, SortedNodes(g), symbol, transitive, id);
    }
  }

  lemma SortedNodesKnown(g: GraphValue, i: nat)
    requires WellKeyed(g.nodes) && i < |SortedNodes(g)|
    ensures SortedNodes(g)[i].id in g.nodes
  {
    SortedElementsContents(g.nodes.Values, NodeOrder);
    assert SortedNodes(g)[i] in SortedNodes(g);
  }

  /** Paths to every affected consumer, keyed by consumer ID. */
  method ImpactedConsumers(g: Graph, symbol: Symbol, transitive: bool) returns (m: PathMap)
    requires g.Valid()
    ensures Tabulates(m, g.Value(), symbol, transitive)
  {
    m := map[];
    ghost var v := g.Value();
    var nodes := g.Nodes();
    var i := 0;
    while i < |nodes|
      invariant i <= |nodes| && m == ImpactMap(v, nodes[..i], symbol, transitive)
    {
      var node := nodes[i];
      assert nodes[..i + 1][..i] == nodes[..i];
      if MatchingNode(node, symbol) {
        SortedNodesKnown(v, i);
        var paths := g.ImpactPaths(node.id);
        m := RecordPaths(g.nodes, paths, transitive, m);
      }
      i := i + 1;
    }
    assert nodes[..i] == nodes;
    ImpactMapTabulates(v, symbol, transitive);
  }
}
