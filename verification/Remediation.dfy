/** Re-checking a proposed replacement expression (internal/remediation/validator.go, protocol.go). */
module Remediation {
  import opened Ordering
  import opened Domain
  import opened Graphs
  import opened Build
  import opened Impact
  import opened Findings
  import opened Reach
  import opened Facts
  import opened Readiness

  datatype ArtifactKind = PrometheusYaml | GrafanaJson

  datatype Target = Target(
    changeId: string, consumerId: string, artifactKind: ArtifactKind, file: string,
    beforeExpression: string, from: Symbol, to: Symbol)

  // ----- the package's own symbol matching

  predicate MetricFamilyMatch(reference: string, base: string) {
    || reference == base
    || exists suffix :: suffix in ["_bucket", "_sum", "_count", "_created"] && reference == base + suffix
  }

  predicate SymbolsMatch(reference: Symbol, changed: Symbol) {
    && reference.domain == changed.domain && reference.kind == changed.kind
    && if reference.kind == METRIC then MetricFamilyMatch(reference.name, changed.name)
       else reference.name == changed.name && MetricFamilyMatch(reference.parent, changed.parent)
  }

  predicate HasDirectReference(rs: seq<Reference>, symbol: Symbol) {
    exists r :: r in rs && SymbolsMatch(r.symbol, symbol) && !r.requiresResolution
  }

  predicate PrometheusSymbol(s: Symbol) { s.domain == PROMETHEUS && (s.kind == METRIC || s.kind == LABEL) }

  lemma FamiliesAgree(reference: string, base: string)
    ensures MetricFamilyMatch(reference, base) <==> MetricFamilyMatches(reference, base)
  {
    var suffixes := ["_bucket", "_sum", "_count", "_created"];
    assert suffixes[0] in suffixes && suffixes[1] in suffixes && suffixes[2] in suffixes && suffixes[3] in suffixes;
  }

  /** The two matchers agree about a changed symbol on every reference exactly when it is a
      Prometheus metric or label. */
  lemma MatchersAgree(changed: Symbol)
    ensures PrometheusSymbol(changed) <==> forall s :: SymbolsMatch(s, changed) <==> SymbolMatches(s, changed)
  {
    if PrometheusSymbol(changed) {
      forall s ensures SymbolsMatch(s, changed) <==> SymbolMatches(s, changed) {
        FamiliesAgree(s.name, changed.name);
        FamiliesAgree(s.parent, changed.parent);
      }
    } else {
      var s := if changed.kind == METRIC then changed.(name := changed.name + "_sum")
               else changed.(parent := changed.parent + "_sum");
      FamiliesAgree(s.name, changed.name);
      FamiliesAgree(s.parent, changed.parent);
      assert |s.name| + |s.parent| == |changed.name| + |changed.parent| + 4;
      assert SymbolsMatch(s, changed) && !SymbolMatches(s, changed);
    }
  }

  // ----- splicing a re-parsed artifact into the discovery

  function ReplacedIds(cs: seq<Consumer>, file: string): set<string> {
    set c | c in cs && c.source.file == file :: c.id
  }

  function Splice(original: Discovery, candidate: Discovery, file: string): Discovery {
    var replaced := ReplacedIds(original.consumers, file);
    Discovery(
      Filter(original.consumers, (c: Consumer) => c.source.file != file) + candidate.consumers,
      Filter(original.references, (r: Reference) => r.consumerId !in replaced) + candidate.references,
      Filter(original.productions, (p: Production) => p.consumerId !in replaced) + candidate.productions,
      Filter(original.diagnostics, (g: Diagnostic) => g.source.file != file) + candidate.diagnostics)
  }

  method Keep<T>(s: seq<T>, keep: T -> bool) returns (r: seq<T>)
    ensures r == Filter(s, keep)
  {
    r := [];
    var i := 0;
    while i < |s|
      invariant i <= |s| && r == Filter(s[..i], keep)
    {
      assert s[..i + 1][..i] == s[..i];
      if keep(s[i]) { r := r + [s[i]]; }
      i := i + 1;
    }
    assert s[..i] == s;
  }

  method ReplaceSourceDiscovery(original: Discovery, candidate: Discovery, file: string) returns (r: Discovery)
    ensures r == Splice(original, candidate, file)
  {
    var replaced: set<string> := {};
    var kept: seq<Consumer> := [];
    var cs := original.consumers;
    var i := 0;
    while i < |cs|
      invariant i <= |cs|
      invariant replaced == ReplacedIds(cs[..i], file)
      invariant kept == Filter(cs[..i], (c: Consumer) => c.source.file != file)
    {
      assert cs[..i + 1][..i] == cs[..i];
      assert forall c :: c in cs[..i + 1] <==> c in cs[..i] || c == cs[i];
      if cs[i].source.file == file {
        replaced := replaced + {cs[i].id};
      } else {
        kept := kept + [cs[i]];
      }
      i := i + 1;
    }
    assert cs[..i] == cs;
    var references := Keep(original.references, (r: Reference) => r.consumerId !in replaced);
    var productions := Keep(original.productions, (p: Production) => p.consumerId !in replaced);
    var diagnostics := Keep(original.diagnostics, (g: Diagnostic) => g.source.file != file);
    r := Discovery(kept + candidate.consumers, references + candidate.references,
                   productions + candidate.productions, diagnostics + candidate.diagnostics);
  }

  lemma SpliceContents(original: Discovery, candidate: Discovery, file: string)
    ensures var s, replaced := Splice(original, candidate, file), ReplacedIds(original.consumers, file);
            && (forall c :: c in s.consumers <==>
                            (c in original.consumers && c.source.file != file) || c in candidate.consumers)
            && (forall r :: r in s.references <==>
                            (r in original.references && r.consumerId !in replaced) || r in candidate.references)
            && (forall p :: p in s.productions <==>
                            (p in original.productions && p.consumerId !in replaced) || p in candidate.productions)
  {
    var replaced := ReplacedIds(original.consumers, file);
    forall c { FilterContents(original.consumers, (c: Consumer) => c.source.file != file, c); }
    forall r { FilterContents(original.references, (r: Reference) => r.consumerId !in replaced, r); }
    forall p { FilterContents(original.productions, (p: Production) => p.consumerId !in replaced, p); }
  }

  lemma DiscoveredMeans(d: Discovery)
    ensures Discovered(d) <==>
            && (forall r :: r in d.references ==> r.consumerId in ConsumerIds(d.consumers))
            && (forall p :: p in d.productions ==> p.consumerId in ConsumerIds(d.consumers))
  {
    forall l ensures l in Links(d) <==> IsLink(d, l) { LinksContents(d, l); }
    if Discovered(d) {
      forall r | r in d.references ensures r.consumerId in ConsumerIds(d.consumers) {
        assert ReferenceLink(r) in Links(d) && ReferenceLink(r).consumerId in NamedIds(Links(d));
      }
      forall p | p in d.productions ensures p.consumerId in ConsumerIds(d.consumers) {
        assert ProductionLink(p) in Links(d) && ProductionLink(p).consumerId in NamedIds(Links(d));
      }
    }
  }

  /** Splicing a self-contained artifact leaves no reference or production without its consumer. */
  lemma SpliceStaysDiscovered(original: Discovery, candidate: Discovery, file: string)
    requires Discovered(original) && Discovered(candidate)
    ensures Discovered(Splice(original, candidate, file))
  {
    var s := Splice(original, candidate, file);
    SpliceContents(original, candidate, file);
    DiscoveredMeans(original);
    DiscoveredMeans(candidate);
    DiscoveredMeans(s);
    forall id | id in ConsumerIds(candidate.consumers) ensures id in ConsumerIds(s.consumers) {
      var c :| c in candidate.consumers && c.id == id;
      assert c in s.consumers;
    }
    forall id | id in ConsumerIds(original.consumers) && id !in ReplacedIds(original.consumers, file)
      ensures id in ConsumerIds(s.consumers)
    {
      var c :| c in original.consumers && c.id == id;
      assert c in s.consumers;
    }
  }

  lemma {:induction false} FilterAppend<T>(a: seq<T>, b: seq<T>, keep: T -> bool)
    ensures Filter(a + b, keep) == Filter(a, keep) + Filter(b, keep)
  {
    if b == [] {
      assert a + b == a;
    } else {
      FilterAppend(a, b[..|b| - 1], keep);
      assert (a + b)[..|a + b| - 1] == a + b[..|b| - 1];
    }
  }

  lemma {:induction false} FilterTwice<T(!new)>(s: seq<T>, first: T -> bool, second: T -> bool)
    requires forall x :: second(x) ==> first(x)
    ensures Filter(Filter(s, first), second) == Filter(s, second)
  {
    if s != [] {
      var x := s[|s| - 1];
      FilterTwice(s[..|s| - 1], first, second);
      FilterAppend(Filter(s[..|s| - 1], first), if first(x) then [x] else [], second);
      assert [x][..0] == [];
    }
  }

  lemma {:induction false} FilterNone<T>(s: seq<T>, keep: T -> bool)
    requires forall x :: x in s ==> !keep(x)
    ensures Filter(s, keep) == []
  {
    if s != [] {
      FilterNone(s[..|s| - 1], keep);
      assert s[|s| - 1] in s;
    }
  }

  function ReferencesByConsumer(rs: seq<Reference>, id: string): seq<Reference> {
    Filter(rs, (r: Reference) => r.consumerId == id)
  }

  function ProductionsByConsumer(ps: seq<Production>, id: string): seq<Production> {
    Filter(ps, (p: Production) => p.consumerId == id)
  }

  /** The evidence of every consumer of another file is unchanged, order included. */
  lemma SpliceKeepsOtherEvidence(original: Discovery, candidate: Discovery, file: string, c: Consumer)
    requires c in original.consumers && c.id !in ReplacedIds(original.consumers, file)
    requires Discovered(candidate) && c.id !in ConsumerIds(candidate.consumers)
    ensures var s := Splice(original, candidate, file);
            && c in s.consumers
            && ReferencesByConsumer(s.references, c.id) == ReferencesByConsumer(original.references, c.id)
            && ProductionsByConsumer(s.productions, c.id) == ProductionsByConsumer(original.productions, c.id)
  {
    SpliceContents(original, candidate, file);
    DiscoveredMeans(candidate);
    var replaced := ReplacedIds(original.consumers, file);
    var mine, kept := (r: Reference) => r.consumerId == c.id, (r: Reference) => r.consumerId !in replaced;
    FilterAppend(Filter(original.references, kept), candidate.references, mine);
    FilterTwice(original.references, kept, mine);
    FilterNone(candidate.references, mine);
    var made, left := (p: Production) => p.consumerId == c.id, (p: Production) => p.consumerId !in replaced;
    FilterAppend(Filter(original.productions, left), candidate.productions, made);
    FilterTwice(original.productions, left, made);
    FilterNone(candidate.productions, made);
  }

  // ----- validating a candidate

  predicate HasSuffix(s: string, suffix: string) { |suffix| <= |s| && s[|s| - |suffix|..] == suffix }

  function SupportedArtifact(c: Consumer): Option<ArtifactKind> {
    var file := ToLower(c.source.file);
    if "prometheus:" <= c.id && (HasSuffix(file, ".yaml") || HasSuffix(file, ".yml")) then Some(PrometheusYaml)
    else if "grafana:" <= c.id && HasSuffix(file, ".json") then Some(GrafanaJson)
    else None
  }

  function FirstChange(ks: seq<Change>, id: string): Option<Change> {
    if ks == [] then None else if ks[0].id == id then Some(ks[0]) else FirstChange(ks[1..], id)
  }

  function ConsumerById(cs: seq<Consumer>, id: string): Option<Consumer> {
    if cs == [] then None else if cs[0].id == id then Some(cs[0]) else ConsumerById(cs[1..], id)
  }

  predicate Provenance(target: Target, ks: seq<Change>, original: Discovery) {
    var k, c := FirstChange(ks, target.changeId), ConsumerById(original.consumers, target.consumerId);
    && k.Some? && k.value.to == Some(target.to) && k.value.from == target.from
    && c.Some? && SupportedArtifact(c.value) == Some(target.artifactKind)
    && c.value.source.file == target.file && c.value.expression == target.beforeExpression
    && HasDirectReference(ReferencesByConsumer(original.references, target.consumerId), target.from)
  }

  function FindClass(rs: seq<ConsumerResult>, id: string): Option<Classification> {
    if rs == [] then None else if rs[0].consumer.id == id then Some(rs[0].classification) else FindClass(rs[1..], id)
  }

  function ClassificationFor(rs: seq<ChangeResult>, changeId: string, id: string): Option<Classification> {
    if rs == [] then None
    else if rs[0].change.id == changeId && FindClass(rs[0].consumers, id).Some? then FindClass(rs[0].consumers, id)
    else ClassificationFor(rs[1..], changeId, id)
  }

  /** What the query analyser collects from an expression (pkg/promql/analyzer.go): metrics and labels,
      some of which it cannot resolve. */
  datatype Mention =
    | MetricMention(name: string, pattern: string, open: bool)
    | LabelMention(name: string, parent: string, pattern: string, open: bool)

  function MentionedSymbol(m: Mention): Symbol {
    match m
    case MetricMention(name, _, _) => Symbol(PROMETHEUS, METRIC, name, "")
    case LabelMention(name, parent, _, _) => Symbol(PROMETHEUS, LABEL, name, parent)
  }

  function MentionedReference(m: Mention, expression: string): Reference {
    var confidence := if m.open then "medium" else "confirmed";
    var evidence := Evidence("promql_ast", confidence, SourceLocation("", 0, 0, "", ""), expression, "");
    Reference("", MentionedSymbol(m), evidence, "", m.pattern, m.open, "")
  }

  /** A label without a name is not collected. */
  predicate Collected(m: Mention) { m.MetricMention? || m.name != "" }

  function QueryReferences(q: Parsed, expression: string): seq<Reference> {
    var ms := Filter(q.mentions, Collected);
    seq(|ms|, i requires 0 <= i < |ms| => MentionedReference(ms[i], expression))
  }

  datatype Parsed = Parsed(mentions: seq<Mention>, unresolved: bool)

  /** What the parts of the program outside this model find out about the replacement: whether it
      reads like a secret, what the query analyser collects (nothing, if it does not parse), and the
      evidence in the patched artifact (nothing, if it cannot be patched or parsed). */
  datatype Proposal = Proposal(expression: string, secretLike: bool, query: Option<Parsed>, patched: Option<Discovery>)

  datatype Refusal =
    | BadProvenance | SecretLike | InvalidQuery | UnresolvedQuery | StillLegacy | NoDestination
    | BadArtifact | LostConsumer | WrongExpression | Unbuildable | Unevaluable | StillBlocked(kind: Classification)

  datatype Verdict = Accepted(kind: Classification, status: ReadinessStatus) | Declined(why: Refusal)

  /** The checks on the replacement and on the patched artifact, before any re-analysis. */
  function Screen(target: Target, ks: seq<Change>, original: Discovery, p: Proposal): Option<Refusal> {
    if !Provenance(target, ks, original) then Some(BadProvenance)
    else if p.secretLike then Some(SecretLike)
    else if p.query.None? then Some(InvalidQuery)
    else if p.query.value.unresolved then Some(UnresolvedQuery)
    else if HasDirectReference(QueryReferences(p.query.value, p.expression), target.from) then Some(StillLegacy)
    else if !HasDirectReference(QueryReferences(p.query.value, p.expression), target.to) then Some(NoDestination)
    else if p.patched.None? || HasRequired(p.patched.value.diagnostics) then Some(BadArtifact)
    else
      var found := p.patched.value;
      var c := ConsumerById(found.consumers, target.consumerId);
      var rs := ReferencesByConsumer(found.references, target.consumerId);
      if c.None? then Some(LostConsumer)
      else if c.value.expression != p.expression then Some(WrongExpression)
      else if HasDirectReference(rs, target.from) then Some(StillLegacy)
      else if !HasDirectReference(rs, target.to) then Some(NoDestination)
      else None
  }

  ghost function Judge(target: Target, r: ReadinessResult): Verdict {
    if r.Rejected? then Declined(Unevaluable) else
      var kind := ClassificationFor(r.changes, target.changeId, target.consumerId);
      if kind.None? then Declined(LostConsumer)
      else if kind.value == LegacyOnly || kind.value == Uncertain then Declined(StillBlocked(kind.value))
      else Accepted(kind.value, r.status)
  }

  /** What is made of a screened candidate, given the graph of the spliced evidence or its refusal. */
  ghost function Reassess(g: Attempt, target: Target, ks: seq<Change>, d: Discovery, policy: ReadinessPolicy): Verdict {
    if g.Refused? then Declined(Unbuildable) else Judge(target, Assessment(ks, d, g.value, policy))
  }

  /** Validation on the graph of the spliced evidence. */
  ghost function Validation(target: Target, ks: seq<Change>, original: Discovery, policy: ReadinessPolicy,
                            p: Proposal): Verdict
  {
    var refusal := Screen(target, ks, original, p);
    if refusal.Some? then Declined(refusal.value) else
      var d := Splice(original, p.patched.value, target.file);
      Reassess(if Buildable(d) then Built(GraphOf(d)) else Refused, target, ks, d, policy)
  }

  /** Takes the checks in their order, whatever the IDs; it is the validation on the graph of the spliced
      evidence unless two edges have the same text. */
  method ValidateCandidate(target: Target, ks: seq<Change>, original: Discovery, policy: ReadinessPolicy, p: Proposal)
    returns (v: Verdict)
    ensures var refusal := Screen(target, ks, original, p);
            if refusal.Some? then v == Declined(refusal.value) else
              var d := Splice(original, p.patched.value, target.file);
              && v == Reassess(Assembled(d), target, ks, d, policy)
              && (Separable(EdgesOf(Links(d))) ==> v == Validation(target, ks, original, policy, p))
  {
    var refusal := Screen(target, ks, original, p);
    if refusal.Some? {
      return Declined(refusal.value);
    }
    var simulated := ReplaceSourceDiscovery(original, p.patched.value, target.file);
    AssembledIsGraphOf(simulated);
    var g, built := BuildGraph(simulated);
    if built.Failed? {
      return Declined(Unbuildable);
    }
    var result := Evaluate(ks, simulated, g, policy);
    if result.Rejected? {
      return Declined(Unevaluable);
    }
    var kind := ClassificationFor(result.changes, target.changeId, target.consumerId);
    if kind.None? {
      return Declined(LostConsumer);
    }
    if kind.value == LegacyOnly || kind.value == Uncertain {
      return Declined(StillBlocked(kind.value));
    }
    v := Accepted(kind.value, result.status);
  }

  // ----- what acceptance means

  lemma {:induction false} FindClassFinds(x: Input, k: Change, cs: seq<Consumer>, rs: seq<ConsumerResult>, id: string)
    returns (c: Consumer)
    requires |rs| == |cs|
    requires forall i :: 0 <= i < |cs| ==> rs[i].consumer == cs[i] && rs[i].classification == ClassFor(x, k, cs[i])
    requires FindClass(rs, id).Some?
    ensures c in cs && c.id == id && FindClass(rs, id) == Some(ClassFor(x, k, c))
  {
    if rs[0].consumer.id == id {
      c := cs[0];
    } else {
      c := FindClassFinds(x, k, cs[1..], rs[1..], id);
    }
  }

  lemma {:induction false} FindClassComplete(rs: seq<ConsumerResult>, i: nat)
    requires i < |rs|
    ensures FindClass(rs, rs[i].consumer.id).Some?
  {
    if rs[0].consumer.id != rs[i].consumer.id { FindClassComplete(rs[1..], i - 1); }
  }

  /** Every change result lists every consumer, so the first change of that ID is the one looked up. */
  lemma {:induction false} ClassificationIsFirst(ks: seq<Change>, rs: seq<ChangeResult>, changeId: string, id: string)
    requires |rs| == |ks| && forall i :: 0 <= i < |ks| ==> rs[i].change == ks[i] && FindClass(rs[i].consumers, id).Some?
    requires FirstChange(ks, changeId).Some?
    ensures exists i :: 0 <= i < |ks| && FirstChange(ks, changeId) == Some(ks[i])
                        && ClassificationFor(rs, changeId, id) == FindClass(rs[i].consumers, id)
  {
    if ks[0].id == changeId {
      assert FirstChange(ks, changeId) == Some(ks[0]);
    } else {
      ClassificationIsFirst(ks[1..], rs[1..], changeId, id);
      var i :| 0 <= i < |ks[1..]| && FirstChange(ks[1..], changeId) == Some(ks[1..][i])
               && ClassificationFor(rs[1..], changeId, id) == FindClass(rs[1..][i].consumers, id);
      assert ks[1..][i] == ks[i + 1] && rs[1..][i] == rs[i + 1];
    }
  }

  lemma {:induction false} ConsumerByIdFound(cs: seq<Consumer>, id: string)
    requires ConsumerById(cs, id).Some?
    ensures ConsumerById(cs, id).value in cs && ConsumerById(cs, id).value.id == id
  {
    if cs[0].id != id { ConsumerByIdFound(cs[1..], id); }
  }

  lemma ListedClass(x: Input, k: Change, cs: seq<Consumer>, j: nat)
    requires j < |cs|
    ensures FindClass(ConsumerResults(x, k, cs), cs[j].id).Some?
  {
    FindClassComplete(ConsumerResults(x, k, cs), j);
  }

  lemma FoundClass(x: Input, k: Change, cs: seq<Consumer>, id: string) returns (b: Consumer)
    requires FindClass(ConsumerResults(x, k, cs), id).Some?
    ensures b in cs && b.id == id && FindClass(ConsumerResults(x, k, cs), id) == Some(ClassFor(x, k, b))
  {
    b := FindClassFinds(x, k, cs, ConsumerResults(x, k, cs), id);
  }

  lemma ChangeResultClass(x: Input, ks: seq<Change>, cs: seq<Consumer>, ds: seq<Diagnostic>, p: ReadinessPolicy,
                          changeId: string, j: nat)
    returns (b: Consumer)
    requires j < |cs| && FirstChange(ks, changeId).Some?
    ensures b in cs && b.id == cs[j].id
    ensures ClassificationFor(ChangeResults(x, ks, cs, ds, p), changeId, b.id) ==
            Some(ClassFor(x, FirstChange(ks, changeId).value, b))
  {
    var rs, id := ChangeResults(x, ks, cs, ds, p), cs[j].id;
    forall i | 0 <= i < |ks| ensures rs[i].change == ks[i] && FindClass(rs[i].consumers, id).Some? {
      ListedClass(x, ks[i], cs, j);
    }
    ClassificationIsFirst(ks, rs, changeId, id);
    var i :| 0 <= i < |ks| && FirstChange(ks, changeId) == Some(ks[i])
             && ClassificationFor(rs, changeId, id) == FindClass(rs[i].consumers, id);
    b := FoundClass(x, ks[i], cs, id);
  }

  /** The class looked up after an assessment is the one computed for the first change of that ID. */
  lemma JudgedClass(ks: seq<Change>, d: Discovery, p: ReadinessPolicy, r: ReadinessResult, changeId: string,
                    c: Consumer)
    returns (b: Consumer)
    requires r == Assessment(ks, d, GraphOf(d), p) && r.Assessed? && c in d.consumers && FirstChange(ks, changeId).Some?
    ensures b in d.consumers && b.id == c.id && DistinctConsumerIds(d.consumers)
    ensures ClassificationFor(r.changes, changeId, c.id) ==
            Some(ClassFor(Input(d.references, GraphOf(d), p.includeTransitive), FirstChange(ks, changeId).value, b))
  {
    var x, cs := Input(d.references, GraphOf(d), p.includeTransitive), Sort(d.consumers, ConsumerKey);
    assert r.changes == ChangeResults(x, ks, cs, d.diagnostics, p);
    SortKeeps(d.consumers, ConsumerKey);
    var j :| 0 <= j < |cs| && cs[j] == c;
    b := ChangeResultClass(x, ks, cs, d.diagnostics, p, changeId, j);
  }

  /** A direct reference to the destination makes the consumer reached by it. */
  lemma DestinationReached(d: Discovery, k: Change, c: Consumer, r: Reference, t: bool)
    requires Faithful(d) && c in d.consumers && k.to.Some?
    requires r in d.references && r.consumerId == c.id && SymbolMatches(r.symbol, k.to.value)
    ensures NewPaths(Input(d.references, GraphOf(d), t), k, c) != []
  {
    assert Feeds(d, r.symbol, c.id, 0);
    MatchingMeans(r.symbol, k.to.value);
    ImpactIsExact(d, k.to.value, t, c);
  }

  lemma ScreenedDestination(target: Target, ks: seq<Change>, original: Discovery, p: Proposal)
    returns (c: Consumer, r: Reference)
    requires Screen(target, ks, original, p).None? && PrometheusSymbol(target.to)
    ensures var s := Splice(original, p.patched.value, target.file);
            c in s.consumers && c.id == target.consumerId && r in s.references && r.consumerId == c.id
    ensures SymbolMatches(r.symbol, target.to)
  {
    var found := p.patched.value;
    SpliceContents(original, found, target.file);
    ConsumerByIdFound(found.consumers, target.consumerId);
    c := ConsumerById(found.consumers, target.consumerId).value;
    var rs := ReferencesByConsumer(found.references, target.consumerId);
    r :| r in rs && SymbolsMatch(r.symbol, target.to) && !r.requiresResolution;
    FilterContents(found.references, (r: Reference) => r.consumerId == target.consumerId, r);
    MatchersAgree(target.to);
  }

  lemma JudgedMigrated(target: Target, ks: seq<Change>, d: Discovery, p: ReadinessPolicy, c: Consumer, r: Reference)
    requires Buildable(d) && Unambiguous(d) && Judge(target, Assessment(ks, d, GraphOf(d), p)).Accepted?
    requires c in d.consumers && c.id == target.consumerId && r in d.references && r.consumerId == c.id
    requires FirstChange(ks, target.changeId).Some? && FirstChange(ks, target.changeId).value.to == Some(target.to)
    requires SymbolMatches(r.symbol, target.to)
    ensures Judge(target, Assessment(ks, d, GraphOf(d), p)).kind in {Migrated, Dual}
  {
    var result := Assessment(ks, d, GraphOf(d), p);
    var b := JudgedClass(ks, d, p, result, target.changeId, c);
    DestinationReached(d, FirstChange(ks, target.changeId).value, b, r, p.includeTransitive);
  }

  /** Whatever the analyser collects is a Prometheus metric or label. */
  lemma QueriesArePrometheus(q: Parsed, expression: string, r: Reference)
    requires r in QueryReferences(q, expression)
    ensures PrometheusSymbol(r.symbol)
  {
  }

  /** A candidate that passes the checks has a Prometheus destination: no other can be named in a query. */
  lemma ScreenedIsPrometheus(target: Target, ks: seq<Change>, original: Discovery, p: Proposal)
    requires Screen(target, ks, original, p).None?
    ensures PrometheusSymbol(target.to)
  {
    var rs := QueryReferences(p.query.value, p.expression);
    var r :| r in rs && SymbolsMatch(r.symbol, target.to) && !r.requiresResolution;
    QueriesArePrometheus(p.query.value, p.expression, r);
  }

  lemma ScreenNeedsPatch(target: Target, ks: seq<Change>, original: Discovery, p: Proposal)
    requires Screen(target, ks, original, p).None?
    ensures p.patched.Some? && FirstChange(ks, target.changeId).Some?
    ensures FirstChange(ks, target.changeId).value.to == Some(target.to)
  {
  }

  lemma AcceptedIsScreened(target: Target, ks: seq<Change>, original: Discovery, policy: ReadinessPolicy, p: Proposal)
    requires Validation(target, ks, original, policy, p).Accepted?
    ensures Screen(target, ks, original, p).None? && p.patched.Some?
    ensures var d := Splice(original, p.patched.value, target.file);
            && Buildable(d)
            && Validation(target, ks, original, policy, p) == Judge(target, Assessment(ks, d, GraphOf(d), policy))
  {
    ScreenNeedsPatch(target, ks, original, p);
  }

  /** An accepted candidate's consumer is MIGRATED or DUAL for the change, never UNAFFECTED, whatever the
      destination and the patched artifact, as long as no two scopes of the spliced evidence clash. */
  lemma AcceptedMeansMigrated(target: Target, ks: seq<Change>, original: Discovery, policy: ReadinessPolicy,
                              p: Proposal)
    requires Validation(target, ks, original, policy, p).Accepted?
    ensures p.patched.Some? && PrometheusSymbol(target.to)
    ensures Unambiguous(Splice(original, p.patched.value, target.file)) ==>
            Validation(target, ks, original, policy, p).kind in {Migrated, Dual}
  {
    AcceptedIsScreened(target, ks, original, policy, p);
    ScreenedIsPrometheus(target, ks, original, p);
    var d := Splice(original, p.patched.value, target.file);
    if Unambiguous(d) {
      ScreenNeedsPatch(target, ks, original, p);
      var c, r := ScreenedDestination(target, ks, original, p);
      JudgedMigrated(target, ks, d, policy, c, r);
    }
  }
}
