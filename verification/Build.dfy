/** Building the dependency graph from discovered evidence (internal/impact/build.go). */
module Build {
  import opened Ordering
  import opened Domain
  import opened Paths
  import opened Graphs

  function ConsumerNodeOf(c: Consumer): Node {
    Node(ConsumerNodeId(c.id), ConsumerNode, c.name, None, Some(c))
  }

  function SymbolNodeOf(s: Symbol): Node {
    Node(SymbolNodeId(s), SymbolNode, s.name, Some(s), None)
  }

  /** What a reference or a production adds: a symbol node and an edge to or from its consumer. */
  datatype Link = Link(symbol: Symbol, consumerId: string, edge: Edge)

  function ReferenceLink(r: Reference): Link {
    Link(r.symbol, r.consumerId, Edge(SymbolNodeId(r.symbol), ConsumerNodeId(r.consumerId), References))
  }

  function ProductionLink(p: Production): Link {
    Link(p.symbol, p.consumerId, Edge(ConsumerNodeId(p.consumerId), SymbolNodeId(p.symbol), Produces))
  }

  // ----- what the graph of a discovery is, whatever order it is built in

  function ReferenceLinks(rs: seq<Reference>): seq<Link> {
    seq(|rs|, i requires 0 <= i < |rs| => ReferenceLink(rs[i]))
  }

  function ProductionLinks(ps: seq<Production>): seq<Link> {
    seq(|ps|, i requires 0 <= i < |ps| => ProductionLink(ps[i]))
  }

  ghost function Links(d: Discovery): seq<Link> {
    ReferenceLinks(d.references) + ProductionLinks(d.productions)
  }

  ghost predicate IsLink(d: Discovery, l: Link) {
    || (exists r :: r in d.references && l == ReferenceLink(r))
    || (exists p :: p in d.productions && l == ProductionLink(p))
  }

  lemma LinksContents(d: Discovery, l: Link)
    ensures l in Links(d) <==> IsLink(d, l)
  {
    var links, n := Links(d), |d.references|;
    if l in links {
      var i :| 0 <= i < |links| && links[i] == l;
      assert if i < n then d.references[i] in d.references else d.productions[i - n] in d.productions;
    }
    if r :| r in d.references && l == ReferenceLink(r) {
      var i :| 0 <= i < n && d.references[i] == r;
      assert links[i] == l;
    } else if p :| p in d.productions && l == ProductionLink(p) {
      var i :| 0 <= i < |d.productions| && d.productions[i] == p;
      assert links[n + i] == l;
    }
  }

  ghost function ConsumerIds(cs: seq<Consumer>): set<string> { set c | c in cs :: c.id }

  ghost function NamedIds(links: seq<Link>): set<string> { set l | l in links :: l.consumerId }

  ghost function EdgesOf(links: seq<Link>): set<Edge> { set l | l in links :: l.edge }

  ghost predicate IsSymbol(d: Discovery, s: Symbol) { exists l :: l in Links(d) && l.symbol == s }

  ghost function ConsumerNodes(cs: seq<Consumer>): seq<Node> {
    seq(|cs|, i requires 0 <= i < |cs| => ConsumerNodeOf(cs[i]))
  }

  ghost function SymbolNodes(links: seq<Link>): seq<Node> {
    seq(|links|, i requires 0 <= i < |links| => SymbolNodeOf(links[i].symbol))
  }

  ghost function NodeList(d: Discovery): seq<Node> { ConsumerNodes(d.consumers) + SymbolNodes(Links(d)) }

  /** The first node listed under each ID. */
  ghost function FirstNodes(list: seq<Node>): map<string, Node> {
    if list == [] then map[] else
      var rest := FirstNodes(list[..|list| - 1]);
      var last := list[|list| - 1];
      if last.id in rest then rest else rest[last.id := last]
  }

  lemma {:induction false} FirstNodesContents(list: seq<Node>)
    ensures WellKeyed(FirstNodes(list))
    ensures forall id :: id in FirstNodes(list) ==> FirstNodes(list)[id] in list
    ensures forall n :: n in list ==> n.id in FirstNodes(list)
  {
    if list != [] {
      var rest, last := list[..|list| - 1], list[|list| - 1];
      FirstNodesContents(rest);
      assert list == rest + [last];
    }
  }

  ghost predicate Agrees(nodes: map<string, Node>, n: Node) {
    n.id in nodes ==> nodes[n.id].kind == n.kind && nodes[n.id].name == n.name
  }

  /** Every listed node has the kind and name of the first one listed under its ID. */
  ghost predicate NoConflict(list: seq<Node>) {
    forall n :: n in list ==> Agrees(FirstNodes(list), n)
  }

  /** Every reference and production names a discovered consumer. */
  ghost predicate Discovered(d: Discovery) { NamedIds(Links(d)) <= ConsumerIds(d.consumers) }

  ghost predicate Buildable(d: Discovery) { NoConflict(NodeList(d)) && Discovered(d) }

  ghost function GraphOf(d: Discovery): GraphValue { GraphValue(FirstNodes(NodeList(d)), EdgesOf(Links(d))) }

  // ----- node identity

  /** A symbol's domain and kind, and the text they put at the start of its node ID. */
  type Scope = (string, string)

  function ScopeOf(s: Symbol): Scope { (s.domain, s.kind) }

  function ScopeText(p: Scope): string { p.0 + ":" + p.1 + ":" }

  /** The text of one scope begins with the text of another. */
  predicate Clash(p: Scope, q: Scope) { p != q && (ScopeText(p) <= ScopeText(q) || ScopeText(q) <= ScopeText(p)) }

  ghost predicate ClashFree(scopes: set<Scope>) { forall p, q :: p in scopes && q in scopes ==> !Clash(p, q) }

  ghost function Scopes(d: Discovery): set<Scope> { set l | l in Links(d) :: ScopeOf(l.symbol) }

  /** No domain and kind of the evidence can be mistaken for another domain and kind. */
  ghost predicate Unambiguous(d: Discovery) { ClashFree(Scopes(d)) }

  lemma SymbolAndConsumerIdsDiffer(s: Symbol, id: string)
    ensures SymbolNodeId(s) != ConsumerNodeId(id)
  {
    assert SymbolNodeId(s)[0] == 's' && ConsumerNodeId(id)[0] == 'c';
  }

  lemma ConsumerNodeIdInjective(a: string, b: string)
    requires ConsumerNodeId(a) == ConsumerNodeId(b)
    ensures a == b
  {
    assert a == ConsumerNodeId(a)[9..] && b == ConsumerNodeId(b)[9..];
  }

  lemma SymbolNodeIdText(s: Symbol)
    ensures SymbolNodeId(s) == "symbol:" + (ScopeText(ScopeOf(s)) + (s.parent + ":" + s.name))
  {
    var five := ["symbol", s.domain, s.kind, s.parent, s.name];
    assert five[1..] == [s.domain, s.kind, s.parent, s.name] && five[1..][1..] == [s.kind, s.parent, s.name];
    assert five[1..][1..][1..] == [s.parent, s.name] && [s.parent, s.name][1..] == [s.name];
    assert Join([s.parent, s.name], ':') == s.parent + ":" + s.name;
    assert Join([s.kind, s.parent, s.name], ':') == s.kind + ":" + (s.parent + ":" + s.name);
    assert Join([s.domain, s.kind, s.parent, s.name], ':') == ScopeText(ScopeOf(s)) + (s.parent + ":" + s.name);
  }

  lemma PrefixesOfOneText(a: string, x: string, b: string, y: string)
    requires a + x == b + y
    ensures a <= b || b <= a
  {
    var n := if |a| <= |b| then |a| else |b|;
    assert a[..n] == (a + x)[..n] && b[..n] == (b + y)[..n];
  }

  /** Names and parents may hold colons, yet equal IDs and equal names leave no room for two symbols
      unless their domains and kinds clash. */
  lemma SymbolNodeIdInjective(s: Symbol, t: Symbol)
    requires !Clash(ScopeOf(s), ScopeOf(t))
    requires SymbolNodeId(s) == SymbolNodeId(t) && s.name == t.name
    ensures s == t
  {
    var p, q := ScopeText(ScopeOf(s)), ScopeText(ScopeOf(t));
    var x, y := s.parent + ":" + s.name, t.parent + ":" + t.name;
    SymbolNodeIdText(s);
    SymbolNodeIdText(t);
    SameFront("symbol:", p + x, q + y);
    PrefixesOfOneText(p, x, q, y);
    SameFront(p, x, y);
    assert x == s.parent + (":" + s.name) && y == t.parent + (":" + s.name);
    SameBack(s.parent, t.parent, ":" + s.name);
  }

  /** Two symbols of the same name. */
  function Twin(p: Scope, parent: string, name: string): Symbol { Symbol(p.0, p.1, name, parent) }

  lemma ClashingTwins(p: Scope, q: Scope, name: string) returns (parent: string)
    requires ScopeText(p) <= ScopeText(q)
    ensures SymbolNodeId(Twin(p, parent, name)) == SymbolNodeId(Twin(q, "", name))
  {
    var more := ScopeText(q)[|ScopeText(p)|..];
    parent := more;
    SymbolNodeIdText(Twin(p, parent, name));
    SymbolNodeIdText(Twin(q, "", name));
    assert ScopeText(q) == ScopeText(p) + more;
    assert ScopeText(p) + (more + ":" + name) == ScopeText(q) + ("" + ":" + name);
  }

  /** Some parents let a symbol of one scope and a symbol of the other share an ID. */
  ghost predicate CanShare(p: Scope, q: Scope, name: string) {
    exists a, b :: SymbolNodeId(Twin(p, a, name)) == SymbolNodeId(Twin(q, b, name))
  }

  /** Symbols of two different scopes can share an ID exactly when the scopes clash. */
  lemma SharingIsExact(p: Scope, q: Scope, name: string)
    requires p != q
    ensures CanShare(p, q, name) <==> Clash(p, q)
  {
    if CanShare(p, q, name) && !Clash(p, q) {
      var a, b :| SymbolNodeId(Twin(p, a, name)) == SymbolNodeId(Twin(q, b, name));
      SymbolNodeIdInjective(Twin(p, a, name), Twin(q, b, name));
    }
    if ScopeText(p) <= ScopeText(q) {
      var a := ClashingTwins(p, q, name);
    } else if ScopeText(q) <= ScopeText(p) {
      var b := ClashingTwins(q, p, name);
    }
  }

  ghost predicate DescribesEvidence(d: Discovery, n: Node) {
    || (n.consumer.Some? && n.consumer.value in d.consumers && n == ConsumerNodeOf(n.consumer.value))
    || (n.symbol.Some? && IsSymbol(d, n.symbol.value) && n == SymbolNodeOf(n.symbol.value))
  }

  lemma ListsConsumer(d: Discovery, c: Consumer)
    requires c in d.consumers
    ensures ConsumerNodeOf(c) in NodeList(d)
  {
    var i :| 0 <= i < |d.consumers| && d.consumers[i] == c;
    assert NodeList(d)[i] == ConsumerNodeOf(c);
  }

  lemma ListsSymbol(d: Discovery, s: Symbol)
    requires IsSymbol(d, s)
    ensures SymbolNodeOf(s) in NodeList(d)
  {
    var links := Links(d);
    var l :| l in links && l.symbol == s;
    var i :| 0 <= i < |links| && links[i] == l;
    assert NodeList(d)[|d.consumers| + i] == SymbolNodeOf(s);
  }

  /** Whenever the graph can be built, two symbols share a node only if they are the same symbol:
      an ID collision forces two names on one node, which is refused. */
  lemma SymbolsDoNotShareNodes(d: Discovery, s: Symbol, t: Symbol)
    requires Buildable(d) && Unambiguous(d)
    requires IsSymbol(d, s) && IsSymbol(d, t) && SymbolNodeId(s) == SymbolNodeId(t)
    ensures s == t
  {
    assert ScopeOf(s) in Scopes(d) && ScopeOf(t) in Scopes(d);
    ListsSymbol(d, s);
    ListsSymbol(d, t);
    FirstNodesContents(NodeList(d));
    assert Agrees(FirstNodes(NodeList(d)), SymbolNodeOf(s)) && Agrees(FirstNodes(NodeList(d)), SymbolNodeOf(t));
    SymbolNodeIdInjective(s, t);
  }

  ghost predicate Faithful(d: Discovery) {
    Buildable(d) && Unambiguous(d) && DistinctConsumerIds(d.consumers)
  }

  /** Node IDs identify what the nodes stand for; no symbol node is a consumer node. */
  lemma NodeIdsAreFaithful(d: Discovery, m: Node, n: Node)
    requires Faithful(d) && DescribesEvidence(d, m) && DescribesEvidence(d, n) && m.id == n.id
    ensures m == n
  {
    if m.symbol.Some? && n.symbol.Some? {
      SymbolsDoNotShareNodes(d, m.symbol.value, n.symbol.value);
    } else if m.symbol.Some? {
      SymbolAndConsumerIdsDiffer(m.symbol.value, n.consumer.value.id);
    } else if n.symbol.Some? {
      SymbolAndConsumerIdsDiffer(n.symbol.value, m.consumer.value.id);
    } else {
      ConsumerNodeIdInjective(m.consumer.value.id, n.consumer.value.id);
    }
  }

  lemma EvidenceIsListed(d: Discovery, n: Node)
    ensures n in NodeList(d) <==> DescribesEvidence(d, n)
  {
    if n in NodeList(d) {
    } else if n.consumer.Some? && n.consumer.value in d.consumers {
      ListsConsumer(d, n.consumer.value);
    } else if n.symbol.Some? && IsSymbol(d, n.symbol.value) {
      ListsSymbol(d, n.symbol.value);
    }
  }

  /** The graph's nodes are the nodes of the evidence, each under its own ID. */
  lemma GraphNodes(d: Discovery)
    requires Faithful(d)
    ensures forall n :: DescribesEvidence(d, n) ==> n.id in GraphOf(d).nodes && GraphOf(d).nodes[n.id] == n
    ensures forall id :: id in GraphOf(d).nodes ==>
              DescribesEvidence(d, GraphOf(d).nodes[id]) && GraphOf(d).nodes[id].id == id
  {
    var list := NodeList(d);
    var nodes := FirstNodes(list);
    FirstNodesContents(list);
    forall id | id in nodes ensures DescribesEvidence(d, nodes[id]) && nodes[id].id == id {
      EvidenceIsListed(d, nodes[id]);
    }
    forall n | DescribesEvidence(d, n) ensures n.id in nodes && nodes[n.id] == n {
      EvidenceIsListed(d, n);
      NodeIdsAreFaithful(d, n, nodes[n.id]);
    }
  }

  // ----- when node identity fails

  const NOWHERE := SourceLocation("", 0, 0, "", "")

  function TwoReferences(s: Symbol, t: Symbol): Discovery {
    var e := Evidence("", "", NOWHERE, "", "");
    Discovery([Consumer("c", Dashboard, "c", NOWHERE, LOW, "", false)],
      [Reference("c", s, e, "", "", false, ""), Reference("c", t, e, "", "", false, "")], [], [])
  }

  lemma TwoReferenceLinks(s: Symbol, t: Symbol)
    ensures var d := TwoReferences(s, t);
            Links(d) == [ReferenceLink(d.references[0]), ReferenceLink(d.references[1])]
  {
    var d := TwoReferences(s, t);
    assert ProductionLinks(d.productions) == [];
    assert ReferenceLinks(d.references) == [ReferenceLink(d.references[0]), ReferenceLink(d.references[1])];
  }

  lemma TwinsBuild(s: Symbol, t: Symbol)
    requires SymbolNodeId(s) == SymbolNodeId(t) && s.name == t.name
    ensures Buildable(TwoReferences(s, t))
  {
    var d := TwoReferences(s, t);
    var c := d.consumers[0];
    TwoReferenceLinks(s, t);
    assert NodeList(d) == [ConsumerNodeOf(c), SymbolNodeOf(s), SymbolNodeOf(t)];
    SymbolAndConsumerIdsDiffer(s, c.id);
    PushConflict([], ConsumerNodeOf(c));
    PushConflict([] + [ConsumerNodeOf(c)], SymbolNodeOf(s));
    PushConflict([] + [ConsumerNodeOf(c)] + [SymbolNodeOf(s)], SymbolNodeOf(t));
    assert [] + [ConsumerNodeOf(c)] + [SymbolNodeOf(s)] + [SymbolNodeOf(t)] == NodeList(d);
    assert c in d.consumers && c.id == "c";
  }

  /** The evidence builds although two of its symbols share a node. */
  ghost predicate Merges(d: Discovery, s: Symbol, t: Symbol) {
    Buildable(d) && IsSymbol(d, s) && IsSymbol(d, t) && s != t && SymbolNodeId(s) == SymbolNodeId(t)
  }

  /** For every pair of clashing scopes there is evidence that builds and merges two symbols. */
  lemma ClashesMerge(p: Scope, q: Scope) returns (d: Discovery, s: Symbol, t: Symbol)
    requires Clash(p, q)
    ensures Merges(d, s, t) && Scopes(d) == {p, q}
  {
    SharingIsExact(p, q, "n");
    var a, b :| SymbolNodeId(Twin(p, a, "n")) == SymbolNodeId(Twin(q, b, "n"));
    s, t := Twin(p, a, "n"), Twin(q, b, "n");
    d := TwoReferences(s, t);
    TwinsBuild(s, t);
    TwoReferenceLinks(s, t);
    var links := Links(d);
    assert links[0] in links && links[1] in links && links[0].symbol == s && links[1].symbol == t;
    assert ScopeOf(s) == p && ScopeOf(t) == q;
  }

  /** Node identity can be relied on for exactly those domains and kinds that do not clash. */
  lemma IdentityIsFaithfulExactly(scopes: set<Scope>)
    ensures ClashFree(scopes) <==> forall d, s, t :: Scopes(d) <= scopes ==> !Merges(d, s, t)
  {
    if ClashFree(scopes) {
      forall d, s, t | Scopes(d) <= scopes ensures !Merges(d, s, t) {
        if Merges(d, s, t) { SymbolsDoNotShareNodes(d, s, t); }
      }
    } else {
      var p, q :| p in scopes && q in scopes && Clash(p, q);
      var d, s, t := ClashesMerge(p, q);
    }
  }

  ghost predicate ColonFree(s: string) { ':' !in s }

  /** Domains and kinds without colons never clash. */
  lemma ColonFreeScopesDoNotClash(p: Scope, q: Scope)
    requires ColonFree(p.0) && ColonFree(p.1) && ColonFree(q.0) && ColonFree(q.1)
    ensures !Clash(p, q)
  {
    if ScopeText(p) <= ScopeText(q) {
      ColonFreePrefix(p, q, ScopeText(q)[|ScopeText(p)|..]);
    } else if ScopeText(q) <= ScopeText(p) {
      ColonFreePrefix(q, p, ScopeText(p)[|ScopeText(q)|..]);
    }
  }

  lemma ColonFreePrefix(p: Scope, q: Scope, more: string)
    requires ColonFree(p.0) && ColonFree(p.1) && ColonFree(q.0) && ColonFree(q.1)
    requires ScopeText(q) == ScopeText(p) + more
    ensures p == q
  {
    assert ScopeText(q) == q.0 + ":" + (q.1 + ":");
    assert ScopeText(p) + more == p.0 + ":" + (p.1 + ":" + more);
    CutAtSeparator(q.0, p.0, q.1 + ":", p.1 + ":" + more, ':');
    assert q.1 + ":" + "" == q.1 + ":";
    CutAtSeparator(q.1, p.1, "", more, ':');
  }

  const DOMAINS := {PROMETHEUS, "opentelemetry", "tempo"}
  const KINDS := {METRIC, LABEL, "span_attribute", "resource_attribute"}

  /** Evidence in the supported domains and kinds is unambiguous. */
  lemma SupportedScopesAreUnambiguous(d: Discovery)
    requires forall s :: IsSymbol(d, s) ==> s.domain in DOMAINS && s.kind in KINDS
    ensures Unambiguous(d)
  {
    assert forall x :: x in DOMAINS || x in KINDS ==> ColonFree(x);
    forall p, q | p in Scopes(d) && q in Scopes(d) ensures !Clash(p, q) {
      var l :| l in Links(d) && ScopeOf(l.symbol) == p;
      var m :| m in Links(d) && ScopeOf(m.symbol) == q;
      assert IsSymbol(d, l.symbol) && IsSymbol(d, m.symbol);
      ColonFreeScopesDoNotClash(p, q);
    }
  }

  // ----- the graph depends on the evidence, not on its order

  ghost predicate SameEvidence(d: Discovery, e: Discovery) {
    && multiset(d.consumers) == multiset(e.consumers)
    && multiset(d.references) == multiset(e.references)
    && multiset(d.productions) == multiset(e.productions)
    && multiset(d.diagnostics) == multiset(e.diagnostics)
  }

  lemma SameMembers(d: Discovery, e: Discovery)
    requires SameEvidence(d, e)
    ensures forall c :: c in d.consumers <==> c in e.consumers
    ensures forall r :: r in d.references <==> r in e.references
    ensures forall l :: l in Links(d) <==> l in Links(e)
    ensures |d.consumers| == |e.consumers|
  {
    SameElements(d.consumers, e.consumers);
    SameElements(d.references, e.references);
    SameElements(d.productions, e.productions);
    forall l ensures l in Links(d) <==> l in Links(e) {
      LinksContents(d, l);
      LinksContents(e, l);
    }
  }

  lemma SameBuildable(d: Discovery, e: Discovery)
    requires SameEvidence(d, e)
    ensures Buildable(d) ==> Buildable(e)
  {
    SameMembers(d, e);
    assert ConsumerIds(d.consumers) == ConsumerIds(e.consumers) && NamedIds(Links(d)) == NamedIds(Links(e));
    if Buildable(d) {
      FirstNodesContents(NodeList(d));
      FirstNodesContents(NodeList(e));
      forall n | n in NodeList(e) ensures Agrees(FirstNodes(NodeList(e)), n) {
        var m := FirstNodes(NodeList(e))[n.id];
        EvidenceIsListed(e, m);
        EvidenceIsListed(e, n);
        EvidenceIsListed(d, m);
        EvidenceIsListed(d, n);
        assert Agrees(FirstNodes(NodeList(d)), m) && Agrees(FirstNodes(NodeList(d)), n);
      }
    }
  }

  lemma GraphIgnoresOrder(d: Discovery, e: Discovery)
    requires SameEvidence(d, e) && Faithful(d) && DistinctConsumerIds(e.consumers)
    ensures Faithful(e) && GraphOf(d) == GraphOf(e)
  {
    SameMembers(d, e);
    SameBuildable(d, e);
    GraphNodes(d);
    GraphNodes(e);
    var m, n := GraphOf(d).nodes, GraphOf(e).nodes;
    forall id | id in m ensures id in n && m[id] == n[id] {
      assert DescribesEvidence(e, m[id]);
    }
    forall id | id in n ensures id in m {
      assert DescribesEvidence(d, n[id]);
    }
    assert m == n;
    assert EdgesOf(Links(d)) == EdgesOf(Links(e));
  }

  // ----- building it

  lemma PushConflict(list: seq<Node>, n: Node)
    requires NoConflict(list)
    ensures NoConflict(list + [n]) <==> Agrees(FirstNodes(list), n)
  {
    FirstNodesContents(list);
    assert n in list + [n];
    assert forall x :: x in list + [n] <==> x in list || x == n;
  }

  lemma {:induction false} FirstNodesPrefix(list: seq<Node>, k: nat, id: string)
    requires k <= |list| && id in FirstNodes(list[..k])
    ensures id in FirstNodes(list) && FirstNodes(list)[id] == FirstNodes(list[..k])[id]
  {
    if k < |list| {
      var rest := list[..|list| - 1];
      assert rest[..k] == list[..k];
      FirstNodesPrefix(rest, k, id);
    } else {
      assert list[..k] == list;
    }
  }

  lemma PrefixConflict(list: seq<Node>, k: nat)
    requires k <= |list| && !NoConflict(list[..k])
    ensures !NoConflict(list)
  {
    var n :| n in list[..k] && !Agrees(FirstNodes(list[..k]), n);
    FirstNodesPrefix(list, k, n.id);
    assert n in list;
  }

  /** Consumer nodes stand for exactly the discovered consumers. */
  ghost predicate KnowsConsumers(nodes: map<string, Node>, known: set<string>) {
    forall id :: ConsumerNodeId(id) in nodes <==> id in known
  }

  lemma ConsumersListed(cs: seq<Consumer>)
    ensures KnowsConsumers(FirstNodes(ConsumerNodes(cs)), ConsumerIds(cs))
  {
    var list := ConsumerNodes(cs);
    var first := FirstNodes(list);
    FirstNodesContents(list);
    forall id ensures ConsumerNodeId(id) in first <==> id in ConsumerIds(cs) {
      if ConsumerNodeId(id) in first {
        var i :| 0 <= i < |list| && list[i] == first[ConsumerNodeId(id)];
        assert list[i] == ConsumerNodeOf(cs[i]);
        ConsumerNodeIdInjective(cs[i].id, id);
      }
      if c :| c in cs && c.id == id {
        var i :| 0 <= i < |cs| && cs[i] == c;
        assert list[i] == ConsumerNodeOf(c);
      }
    }
  }

  // ----- one step of each loop, on graph values

  ghost function Enlist(g: Attempt, c: Consumer): Attempt {
    if g.Refused? then Refused else WithNode(g.value, ConsumerNodeOf(c))
  }

  ghost function Listed(cs: seq<Consumer>, i: nat): Attempt
    requires i <= |cs|
  {
    Fold(Enlist, Built(GraphValue(map[], {})), cs, i)
  }

  ghost function Attach(g: Attempt, l: Link): Attempt {
    if g.Refused? then Refused else
      var a := WithNode(g.value, SymbolNodeOf(l.symbol));
      if a.Refused? || ConsumerNodeId(l.consumerId) !in a.value.nodes then Refused else WithEdge(a.value, l.edge)
  }

  ghost function Attached(g: Attempt, links: seq<Link>, i: nat): Attempt
    requires i <= |links|
  {
    Fold(Attach, g, links, i)
  }

  // ----- what the steps amount to

  /** A graph under construction holds the nodes of the list and nothing else. */
  ghost predicate Holds(g: GraphValue, list: seq<Node>) {
    NoConflict(list) && g.nodes == FirstNodes(list)
  }

  lemma HoldNode(g: GraphValue, list: seq<Node>, n: Node)
    requires Holds(g, list) && n.id != ""
    ensures WithNode(g, n).Built? <==> NoConflict(list + [n])
    ensures WithNode(g, n).Built? ==> Holds(WithNode(g, n).value, list + [n]) && WithNode(g, n).value.edges == g.edges
  {
    PushConflict(list, n);
  }

  /** No two of these edges have the same text. */
  ghost predicate Separable(es: set<Edge>) {
    forall e, f :: e in es && f in es && EdgeText(e) == EdgeText(f) ==> e == f
  }

  ghost predicate NulFreeIds(links: seq<Link>) {
    forall l :: l in links ==> NulFree(l.edge.from) && NulFree(l.edge.to)
  }

  lemma NulFreeSeparable(links: seq<Link>)
    requires NulFreeIds(links)
    ensures Separable(EdgesOf(links))
  {
    forall e, f | e in EdgesOf(links) && f in EdgesOf(links) && EdgeText(e) == EdgeText(f) ensures e == f {
      EdgeTextInjective(e, f);
    }
  }

  lemma Shifted(x: string, y: string, z: string, k: string)
    ensures Join([x, y + "\0" + z, k], '\0') == Join([x + "\0" + y, z, k], '\0')
  {
    JoinThree(x, y + "\0" + z, k);
    JoinThree(x + "\0" + y, z, k);
    assert x + "\0" + (y + "\0" + z + "\0" + k) == x + "\0" + y + "\0" + (z + "\0" + k);
  }

  /** Two references; the NULs in the first consumer's ID and in the second symbol's name make the
      texts of their edges equal. */
  function NulEvidence(s: Symbol, a: string, b: string): Discovery {
    var e := Evidence("", "", NOWHERE, "", "");
    var long, t := a + "\0consumer:" + b, s.(name := s.name + "\0consumer:" + a);
    Discovery(
      [Consumer(long, Dashboard, "c", NOWHERE, LOW, "", false), Consumer(b, Dashboard, "c", NOWHERE, LOW, "", false)],
      [Reference(long, s, e, "", "", false, ""), Reference(b, t, e, "", "", false, "")], [], [])
  }

  lemma NulIds(s: Symbol, a: string, b: string)
    ensures var d := NulEvidence(s, a, b);
            && SymbolNodeId(d.references[1].symbol) == SymbolNodeId(s) + "\0" + ("consumer:" + a)
            && ConsumerNodeId(d.consumers[0].id) == "consumer:" + a + "\0" + ConsumerNodeId(b)
  {
    var t := NulEvidence(s, a, b).references[1].symbol;
    SymbolNodeIdText(s);
    SymbolNodeIdText(t);
    var front := "symbol:" + ScopeText(ScopeOf(s)) + s.parent + ":";
    assert SymbolNodeId(s) == front + s.name && SymbolNodeId(t) == front + t.name;
    assert t.name == s.name + "\0" + ("consumer:" + a);
  }

  lemma NulEvidenceLinks(s: Symbol, a: string, b: string)
    ensures var d := NulEvidence(s, a, b);
            Links(d) == [ReferenceLink(d.references[0]), ReferenceLink(d.references[1])]
  {
    var d := NulEvidence(s, a, b);
    assert ProductionLinks(d.productions) == [];
    assert ReferenceLinks(d.references) == [ReferenceLink(d.references[0]), ReferenceLink(d.references[1])];
  }

  lemma {:induction false} DistinctIdsDoNotConflict(list: seq<Node>)
    requires forall i, j :: 0 <= i < j < |list| ==> list[i].id != list[j].id
    ensures NoConflict(list)
  {
    FirstNodesContents(list);
    forall n | n in list ensures Agrees(FirstNodes(list), n) {
      var m := FirstNodes(list)[n.id];
      var i :| 0 <= i < |list| && list[i] == n;
      var j :| 0 <= j < |list| && list[j] == m;
    }
  }

  lemma NulEvidenceBuilds(s: Symbol, a: string, b: string)
    ensures Buildable(NulEvidence(s, a, b))
  {
    var d := NulEvidence(s, a, b);
    var c, e, t := d.consumers[0], d.consumers[1], d.references[1].symbol;
    NulIds(s, a, b);
    NulEvidenceLinks(s, a, b);
    assert NodeList(d) == [ConsumerNodeOf(c), ConsumerNodeOf(e), SymbolNodeOf(s), SymbolNodeOf(t)];
    SymbolAndConsumerIdsDiffer(s, c.id);
    SymbolAndConsumerIdsDiffer(s, e.id);
    SymbolAndConsumerIdsDiffer(t, c.id);
    SymbolAndConsumerIdsDiffer(t, e.id);
    assert |SymbolNodeId(s)| != |SymbolNodeId(t)| && |ConsumerNodeId(c.id)| != |ConsumerNodeId(e.id)|;
    DistinctIdsDoNotConflict(NodeList(d));
    assert c in d.consumers && e in d.consumers;
  }

  /** For any symbol and two IDs there is evidence with NULs that builds and loses an edge. */
  lemma NulsLoseEdges(s: Symbol, a: string, b: string)
    ensures var d := NulEvidence(s, a, b); Buildable(d) && !Separable(EdgesOf(Links(d)))
  {
    var d := NulEvidence(s, a, b);
    NulEvidenceBuilds(s, a, b);
    NulIds(s, a, b);
    NulEvidenceLinks(s, a, b);
    var l, m := ReferenceLink(d.references[0]), ReferenceLink(d.references[1]);
    Shifted(SymbolNodeId(s), "consumer:" + a, ConsumerNodeId(b), KindText(References));
    assert EdgeText(l.edge) == EdgeText(m.edge) && |l.edge.from| != |m.edge.from|;
    assert l in Links(d) && m in Links(d);
    assert l.edge in EdgesOf(Links(d)) && m.edge in EdgesOf(Links(d));
  }

  ghost predicate Joins(l: Link) {
    {l.edge.from, l.edge.to} == {SymbolNodeId(l.symbol), ConsumerNodeId(l.consumerId)}
  }

  lemma HoldLink(g: GraphValue, list: seq<Node>, known: set<string>, l: Link)
    requires Holds(g, list) && KnowsConsumers(g.nodes, known) && Joins(l)
    ensures var a := Attach(Built(g), l);
            && (a.Built? <==> NoConflict(list + [SymbolNodeOf(l.symbol)]) && l.consumerId in known)
            && (a.Built? ==> Holds(a.value, list + [SymbolNodeOf(l.symbol)]) && KnowsConsumers(a.value.nodes, known))
  {
    var n := SymbolNodeOf(l.symbol);
    assert n.id[0] == 's';
    HoldNode(g, list, n);
    if NoConflict(list + [n]) {
      var h := WithNode(g, n).value;
      assert n.id in h.nodes;
      forall x ensures ConsumerNodeId(x) in h.nodes <==> x in known {
        SymbolAndConsumerIdsDiffer(l.symbol, x);
        assert ConsumerNodeId(x) in g.nodes <==> x in known;
      }
    }
  }

  ghost predicate Reached(g: Attempt, list: seq<Node>, named: set<string>, known: set<string>) {
    && (g.Built? <==> NoConflict(list) && named <= known)
    && (g.Built? ==> Holds(g.value, list) && KnowsConsumers(g.value.nodes, known))
  }

  lemma ReachedLink(g: Attempt, list: seq<Node>, named: set<string>, known: set<string>, l: Link)
    requires Reached(g, list, named, known) && Joins(l)
    ensures Reached(Attach(g, l), list + [SymbolNodeOf(l.symbol)], named + {l.consumerId}, known)
  {
    var more := list + [SymbolNodeOf(l.symbol)];
    if g.Built? {
      HoldLink(g.value, list, known, l);
    } else if !NoConflict(list) {
      assert more[..|list|] == list;
      PrefixConflict(more, |list|);
    }
  }

  lemma {:induction false} AttachedReached(g: Attempt, list: seq<Node>, known: set<string>, links: seq<Link>, i: nat)
    requires i <= |links| && Reached(g, list, {}, known) && forall l :: l in links ==> Joins(l)
    ensures Reached(Attached(g, links, i), list + SymbolNodes(links[..i]), NamedIds(links[..i]), known)
  {
    if i == 0 {
      assert list + SymbolNodes(links[..0]) == list;
    } else {
      var l, before := links[i - 1], links[..i - 1];
      AttachedReached(g, list, known, links, i - 1);
      ReachedLink(Attached(g, links, i - 1), list + SymbolNodes(before), NamedIds(before), known, l);
      assert links[..i] == before + [l];
      assert list + SymbolNodes(links[..i]) == list + SymbolNodes(before) + [SymbolNodeOf(l.symbol)];
      assert NamedIds(links[..i]) == NamedIds(before) + {l.consumerId};
    }
  }

  lemma {:induction false} ListedHolds(cs: seq<Consumer>, i: nat)
    requires i <= |cs|
    ensures var g, list := Listed(cs, i), ConsumerNodes(cs[..i]);
            (g.Built? <==> NoConflict(list)) && (g.Built? ==> Holds(g.value, list) && g.value.edges == {})
  {
    if i > 0 {
      var n, before, list := ConsumerNodeOf(cs[i - 1]), ConsumerNodes(cs[..i - 1]), ConsumerNodes(cs[..i]);
      ListedHolds(cs, i - 1);
      assert list == before + [n];
      if Listed(cs, i - 1).Built? {
        HoldNode(Listed(cs, i - 1).value, before, n);
      } else {
        assert list[..i - 1] == before;
        PrefixConflict(list, i - 1);
      }
    }
  }

  lemma {:induction false} EdgesCollected(g: Attempt, links: seq<Link>, i: nat)
    requires i <= |links| && Separable(EdgesOf(links))
    requires g.Built? && g.value.edges == {} && Attached(g, links, i).Built?
    ensures Attached(g, links, i).value.edges == EdgesOf(links[..i])
  {
    if i > 0 {
      EdgesCollected(g, links, i - 1);
      assert links[..i] == links[..i - 1] + [links[i - 1]];
    }
  }

  /** Whatever is attached, no two edges of the graph have the same text. */
  lemma {:induction false} EdgesStaySeparable(g: Attempt, links: seq<Link>, i: nat)
    requires i <= |links| && g.Built? && g.value.edges == {} && Attached(g, links, i).Built?
    ensures Separable(Attached(g, links, i).value.edges)
  {
    if i > 0 { EdgesStaySeparable(g, links, i - 1); }
  }

  ghost function Assembled(d: Discovery): Attempt {
    Attached(Listed(d.consumers, |d.consumers|), Links(d), |Links(d)|)
  }

  /** The loops succeed exactly on buildable evidence; they yield its graph exactly when no two of its
      edges have the same text. */
  lemma AssembledIsGraphOf(d: Discovery)
    ensures Assembled(d).Built? <==> Buildable(d)
    ensures Assembled(d).Built? ==> Assembled(d).value.nodes == GraphOf(d).nodes
    ensures Assembled(d).Built? ==> (Assembled(d).value == GraphOf(d) <==> Separable(EdgesOf(Links(d))))
  {
    var cs, links, known := d.consumers, Links(d), ConsumerIds(d.consumers);
    var g := Listed(cs, |cs|);
    assert cs[..|cs|] == cs && links[..|links|] == links;
    ListedHolds(cs, |cs|);
    ConsumersListed(cs);
    assert forall l :: l in links ==> Joins(l);
    AttachedReached(g, ConsumerNodes(cs), known, links, |links|);
    if Assembled(d).Built? {
      if g.Refused? { AttachedStuck(g, links, 0); }
      EdgesStaySeparable(g, links, |links|);
      if Separable(EdgesOf(links)) { EdgesCollected(g, links, |links|); }
    }
  }

  lemma ListedStuck(cs: seq<Consumer>, i: nat)
    requires i <= |cs| && Listed(cs, i).Refused?
    ensures Listed(cs, |cs|).Refused?
  {
    FoldStuck(Enlist, Built(GraphValue(map[], {})), cs, i, |cs|, Refused);
  }

  lemma AttachedStuck(g: Attempt, links: seq<Link>, i: nat)
    requires i <= |links| && Attached(g, links, i).Refused?
    ensures Attached(g, links, |links|).Refused?
  {
    FoldStuck(Attach, g, links, i, |links|, Refused);
  }

  // ----- the loops

  /** One turn of the second or third loop: a symbol node, a consumer lookup and an edge. */
  method AddLink(g: Graph, links: seq<Link>, i: nat, ghost base: Attempt) returns (r: Outcome)
    requires i < |links| && g.State() == Attached(base, links, i) && g.State().Built?
    modifies g
    ensures r.Done? ==> g.State() == Attached(base, links, i + 1) && g.State().Built?
    ensures r.Failed? ==> Attached(base, links, i + 1).Refused?
  {
    var l := links[i];
    r := g.AddNode(SymbolNodeOf(l.symbol));
    if r.Failed? { return; }
    if ConsumerNodeId(l.consumerId) !in g.nodes {
      return Failed(UndiscoveredConsumer);
    }
    r := g.AddEdge(l.edge);
  }

  method AddConsumers(g: Graph, cs: seq<Consumer>) returns (r: Outcome)
    requires g.State() == Built(GraphValue(map[], {}))
    modifies g
    ensures if r.Done? then Listed(cs, |cs|) == g.State() && g.State().Built? else Listed(cs, |cs|).Refused?
  {
    var i := 0;
    while i < |cs|
      invariant i <= |cs| && Listed(cs, i) == g.State() && g.State().Built?
    {
      r := g.AddNode(ConsumerNodeOf(cs[i]));
      i := i + 1;
      if r.Failed? {
        ListedStuck(cs, i);
        return;
      }
    }
    r := Done;
  }

  /** The second and third loops: each reference, then each production, adds its link. */
  method AddLinks(g: Graph, links: seq<Link>) returns (r: Outcome)
    requires g.State().Built?
    modifies g
    ensures Attached(old(g.State()), links, |links|) == if r.Done? then g.State() else Refused
    ensures r.Done? ==> g.State().Built?
  {
    ghost var base := g.State();
    var i := 0;
    while i < |links|
      invariant i <= |links| && Attached(base, links, i) == g.State() && g.State().Built?
    {
      r := AddLink(g, links, i, base);
      if r.Failed? {
        AttachedStuck(base, links, i + 1);
        return;
      }
      i := i + 1;
    }
    r := Done;
  }

  ghost function AfterReferences(d: Discovery): Attempt {
    Attached(Listed(d.consumers, |d.consumers|), ReferenceLinks(d.references), |d.references|)
  }

  lemma AttachedInParts(base: Attempt, a: seq<Link>, b: seq<Link>)
    ensures Attached(base, a + b, |a + b|) == Attached(Attached(base, a, |a|), b, |b|)
  {
    FoldAppend(Attach, base, a, b, |b|);
  }

  lemma AssembledInParts(d: Discovery)
    ensures Assembled(d) == Attached(AfterReferences(d), ProductionLinks(d.productions), |d.productions|)
  {
    AttachedInParts(Listed(d.consumers, |d.consumers|), ReferenceLinks(d.references), ProductionLinks(d.productions));
  }

  lemma AssembledStuck(d: Discovery)
    ensures Listed(d.consumers, |d.consumers|).Refused? || AfterReferences(d).Refused? ==> Assembled(d).Refused?
  {
    var base := Listed(d.consumers, |d.consumers|);
    if base.Refused? {
      AttachedStuck(base, Links(d), 0);
    } else if AfterReferences(d).Refused? {
      AssembledInParts(d);
      AttachedStuck(AfterReferences(d), ProductionLinks(d.productions), 0);
    }
  }

  /** Succeeds exactly on evidence that is buildable, and then yields its nodes and edges, exactly as
      long as no two of its edges have the same text. */
  method BuildGraph(d: Discovery) returns (g: Graph, r: Outcome)
    ensures fresh(g)
    ensures r.Done? <==> Buildable(d)
    ensures r.Done? ==> g.State().Built? && g.State().value.nodes == GraphOf(d).nodes
    ensures Assembled(d) == if r.Done? then g.State() else Refused
    ensures r.Done? ==> (g.State() == Built(GraphOf(d)) <==> Separable(EdgesOf(Links(d))))
  {
    g := new Graph();
    AssembledInParts(d);
    AssembledStuck(d);
    AssembledIsGraphOf(d);
    r := AddConsumers(g, d.consumers);
    if r.Done? {
      r := AddLinks(g, ReferenceLinks(d.references));
      if r.Done? {
        r := AddLinks(g, ProductionLinks(d.productions));
      }
    }
  }
}
