/** The whole safety decision, from evidence to status (internal/analysis/engine.go),
    and what it promises: order-independence, fail-closed monotonicity, an exact PASS. */
module Pipeline {
  import opened Ordering
  import opened Domain
  import opened Graphs
  import opened Build
  import opened Impact
  import opened Findings
  import opened Safety
  import opened Facts
  import opened Reach

  /** Everything a run depends on besides the evidence and the changes. */
  datatype Settings = Settings(transitive: bool, maxFindings: Option<nat>, policy: Policy)

  function ErrorResult(findings: seq<Finding>, diagnostics: seq<Diagnostic>): Result {
    Result(ErrorStatus, Sort(findings, FindingOrder), [], Sort(diagnostics, DiagnosticKey))
  }

  /** What follows the analysis: its error, the limit on findings, or the policy. */
  ghost function Conclude(scan: Scan, diagnostics: seq<Diagnostic>, s: Settings): Result {
    if scan.error.Some? then ErrorResult(scan.findings, diagnostics)
    else if s.maxFindings.Some? && |scan.findings| > s.maxFindings.value
    then ErrorResult(scan.findings[..s.maxFindings.value], diagnostics)
    else Evaluation(scan.findings, diagnostics, s.policy)
  }

  ghost function AnalysisOf(changes: seq<Change>, d: Discovery, t: bool): Scan {
    Analysis(changes, d, GraphOf(d), t)
  }

  /** One run on a graph, or on the refusal to build one: evidence `d`, diagnostics of the change source,
      proposed changes. */
  ghost function RunOn(g: Attempt, changes: seq<Change>, d: Discovery, sources: seq<Diagnostic>, s: Settings): Result {
    if g.Refused? then ErrorResult([], sources)
    else Conclude(Analysis(changes, d, g.value, s.transitive), d.diagnostics + sources, s)
  }

  /** One run on the graph of the evidence. */
  ghost function SafetyRun(changes: seq<Change>, d: Discovery, sources: seq<Diagnostic>, s: Settings): Result {
    RunOn(if Buildable(d) then Built(GraphOf(d)) else Refused, changes, d, sources, s)
  }

  /** The composed run, whatever the IDs; it is the run on the graph of the evidence unless two of its
      edges have the same text. */
  method RunSafety(changes: seq<Change>, d: Discovery, sources: seq<Diagnostic>, s: Settings) returns (r: Result)
    ensures r == RunOn(Assembled(d), changes, d, sources, s)
    ensures Separable(EdgesOf(Links(d))) ==> r == SafetyRun(changes, d, sources, s)
  {
    AssembledIsGraphOf(d);
    var g, built := BuildGraph(d);
    if built.Failed? {
      return ErrorResult([], sources);
    }
    var diagnostics := d.diagnostics + sources;
    var scan := Analyze(changes, d, g, s.transitive);
    if scan.error.Some? {
      return ErrorResult(scan.findings, diagnostics);
    }
    if s.maxFindings.Some? && |scan.findings| > s.maxFindings.value {
      return ErrorResult(scan.findings[..s.maxFindings.value], diagnostics);
    }
    r := Evaluate(scan.findings, diagnostics, s.policy);
  }

  // ----- order does not show

  lemma SourceReferencesPermutation(a: seq<Reference>, b: seq<Reference>, id: string, change: Change)
    requires multiset(a) == multiset(b)
    ensures SourceReferences(a, id, change) == SourceReferences(b, id, change)
  {
    var keep := (r: Reference) => Relevant(r, id, change);
    FilterPermutation(a, b, keep);
    var kept := Filter(a, keep);
    forall x, y | x in kept && y in kept && ReferenceKey(x) == ReferenceKey(y) ensures x == y {
      FilterContents(a, keep, x);
      FilterContents(a, keep, y);
      ReferenceKeyInjective(x, y);
    }
    SortPermutation(kept, Filter(b, keep), ReferenceKey);
  }

  ghost predicate SameInput(x: Input, y: Input) {
    multiset(x.references) == multiset(y.references) && x.graph == y.graph && x.transitive == y.transitive
  }

  lemma {:induction false} SameScanChange(x: Input, y: Input, s: Scan, change: Change, cs: seq<Consumer>)
    requires SameInput(x, y)
    ensures ScanChange(x, s, change, cs) == ScanChange(y, s, change, cs)
  {
    if cs != [] {
      SameScanChange(x, y, s, change, cs[..|cs| - 1]);
      SourceReferencesPermutation(x.references, y.references, cs[|cs| - 1].id, change);
    }
  }

  lemma {:induction false} SameScan(x: Input, y: Input, changes: seq<Change>, cs: seq<Consumer>)
    requires SameInput(x, y)
    ensures ScanChanges(x, changes, cs) == ScanChanges(y, changes, cs)
  {
    if changes != [] {
      SameScan(x, y, changes[..|changes| - 1], cs);
      SameScanChange(x, y, ScanChanges(x, changes[..|changes| - 1], cs), changes[|changes| - 1], cs);
    }
  }

  lemma DiagnosticsPermutation(a: seq<Diagnostic>, b: seq<Diagnostic>)
    requires multiset(a) == multiset(b)
    ensures Sort(a, DiagnosticKey) == Sort(b, DiagnosticKey)
  {
    forall x, y | x in a && y in a && DiagnosticKey(x) == DiagnosticKey(y) ensures x == y {
      DiagnosticKeyInjective(x, y);
    }
    SortPermutation(a, b, DiagnosticKey);
  }

  lemma AnalysisPermutation(ks: seq<Change>, js: seq<Change>, d: Discovery, e: Discovery, g: GraphValue, t: bool)
    requires multiset(ks) == multiset(js) && DistinctChangeIds(ks)
    requires SameEvidence(d, e) && DistinctConsumerIds(d.consumers)
    ensures Analysis(ks, d, g, t) == Analysis(js, e, g, t)
  {
    IdErrorPermutation(d.consumers, e.consumers);
    SortPermutation(ks, js, ChangeKey);
    SortPermutation(d.consumers, e.consumers, ConsumerKey);
    SameScan(Input(d.references, g, t), Input(e.references, g, t), Sort(ks, ChangeKey), Sort(d.consumers, ConsumerKey));
  }

  lemma ConcludePermutation(scan: Scan, a: seq<Diagnostic>, b: seq<Diagnostic>, s: Settings)
    requires multiset(a) == multiset(b)
    ensures Conclude(scan, a, s) == Conclude(scan, b, s)
  {
    DiagnosticsPermutation(a, b);
  }

  lemma AnalysisOfPermutation(ks: seq<Change>, js: seq<Change>, d: Discovery, e: Discovery, t: bool)
    requires multiset(ks) == multiset(js) && DistinctChangeIds(ks)
    requires SameEvidence(d, e) && Faithful(d)
    ensures AnalysisOf(ks, d, t) == AnalysisOf(js, e, t)
  {
    DistinctIdsPermutation(d.consumers, e.consumers);
    GraphIgnoresOrder(d, e);
    AnalysisPermutation(ks, js, d, e, GraphOf(d), t);
  }

  /** Permuting consumers, references, productions, diagnostics or changes changes nothing in the result. */
  lemma RunIgnoresOrder(ks: seq<Change>, js: seq<Change>, d: Discovery, e: Discovery,
                        a: seq<Diagnostic>, b: seq<Diagnostic>, s: Settings)
    requires multiset(ks) == multiset(js) && SameEvidence(d, e) && multiset(a) == multiset(b)
    requires DistinctChangeIds(ks) && DistinctConsumerIds(d.consumers) && Unambiguous(d)
    ensures SafetyRun(ks, d, a, s) == SafetyRun(js, e, b, s)
  {
    assert Buildable(d) <==> Buildable(e) by {
      SameBuildable(d, e);
      SameBuildable(e, d);
    }
    if Buildable(d) {
      assert AnalysisOf(ks, d, s.transitive) == AnalysisOf(js, e, s.transitive) by {
        AnalysisOfPermutation(ks, js, d, e, s.transitive);
      }
      ConcludePermutation(AnalysisOf(ks, d, s.transitive), d.diagnostics + a, e.diagnostics + b, s);
    } else {
      DiagnosticsPermutation(a, b);
    }
  }

  lemma PairIdentifies(fs: seq<Finding>, f: Finding, h: Finding)
    requires OnePerPair(fs) && f in fs && h in fs && SamePair(f, h)
    ensures f == h
  {
    var i :| 0 <= i < |fs| && fs[i] == f;
    var j :| 0 <= j < |fs| && fs[j] == h;
    assert !(i < j) && !(j < i);
  }

  lemma OrderTellsPair(f: Finding, h: Finding)
    requires FindingOrder(f) == FindingOrder(h)
    ensures SamePair(f, h)
  {
    assert FindingOrder(f)[0] == FindingOrder(h)[0] && FindingOrder(f)[1] == FindingOrder(h)[1];
  }

  lemma FindingsIdentified(ks: seq<Change>, d: Discovery, g: GraphValue, t: bool, part: seq<Finding>)
    requires DistinctChangeIds(ks) && forall f :: f in part ==> f in Analysis(ks, d, g, t).findings
    ensures Identifies(part, FindingOrder)
  {
    AnalysisOnePerPair(ks, d, g, t);
    forall f, h | f in part && h in part && FindingOrder(f) == FindingOrder(h) ensures f == h {
      OrderTellsPair(f, h);
      PairIdentifies(Analysis(ks, d, g, t).findings, f, h);
    }
  }

  /** The reported order of findings is forced: any way of sorting them gives the same list. This holds
      for all findings of an analysis, for those of one that stopped, and for any part of them that a
      limit leaves. */
  lemma FindingOrderIsForced(ks: seq<Change>, d: Discovery, g: GraphValue, t: bool, part: seq<Finding>,
                             sorted: seq<Finding>)
    requires DistinctChangeIds(ks) && forall f :: f in part ==> f in Analysis(ks, d, g, t).findings
    requires multiset(sorted) == multiset(part) && SortedBy(sorted, FindingOrder)
    ensures sorted == Sort(part, FindingOrder)
  {
    assert Identifies(sorted, FindingOrder) by {
      FindingsIdentified(ks, d, g, t, part);
      SameElements(sorted, part);
    }
    SortSorted(part, FindingOrder);
    SortUnique(sorted, Sort(part, FindingOrder), FindingOrder);
  }

  // ----- PASS

  /** Something about the consumer leaves open whether the change affects it. */
  ghost predicate InDoubt(d: Discovery, k: Change, c: Consumer) {
    || c.unresolved || c.criticality == ""
    || exists r :: r in d.references && r.consumerId == c.id && r.requiresResolution
                   && (Denotes(r.symbol, k.from) || LeavesOpen(r, k))
  }

  lemma SourceReferencesContents(rs: seq<Reference>, id: string, k: Change, r: Reference)
    ensures r in SourceReferences(rs, id, k) <==> r in rs && Relevant(r, id, k)
  {
    var keep := (r: Reference) => Relevant(r, id, k);
    SortKeeps(Filter(rs, keep), ReferenceKey);
    FilterContents(rs, keep, r);
  }

  lemma UncertainMeans(d: Discovery, k: Change, c: Consumer)
    ensures Uncertain(c, SourceReferences(d.references, c.id, k)) <==> InDoubt(d, k, c)
  {
    forall r
      ensures r in SourceReferences(d.references, c.id, k) <==>
              r in d.references && r.consumerId == c.id && (Denotes(r.symbol, k.from) || LeavesOpen(r, k))
    {
      SourceReferencesContents(d.references, c.id, k, r);
      RelevanceMeans(r, c.id, k);
    }
  }

  lemma EmitsMeans(d: Discovery, k: Change, c: Consumer, t: bool)
    requires Faithful(d) && c in d.consumers
    ensures EmitsFor(Input(d.references, GraphOf(d), t), k, c) <==> InDoubt(d, k, c) || Reaches(d, k.from, t, c.id)
  {
    UncertainMeans(d, k, c);
    ImpactIsExact(d, k.from, t, c);
  }

  /** No change reaches, or might reach, any consumer. */
  ghost predicate Untouched(changes: seq<Change>, d: Discovery, t: bool) {
    forall k, c :: k in changes && c in d.consumers ==> !InDoubt(d, k, c) && !Reaches(d, k.from, t, c.id)
  }

  lemma UntouchedIsQuiet(changes: seq<Change>, d: Discovery, t: bool)
    requires Faithful(d) && IdError(d.consumers).None? && Untouched(changes, d, t)
    ensures AnalysisOf(changes, d, t) == Scan([], None)
  {
    SortKeeps(changes, ChangeKey);
    SortKeeps(d.consumers, ConsumerKey);
    var x := Input(d.references, GraphOf(d), t);
    forall k, c | k in Sort(changes, ChangeKey) && c in Sort(d.consumers, ConsumerKey) ensures !EmitsFor(x, k, c) {
      EmitsMeans(d, k, c, t);
    }
    QuietScan(x, Sort(changes, ChangeKey), Sort(d.consumers, ConsumerKey));
  }

  /** The finding has the consumer's impact, criticality and doubt. */
  ghost predicate FindingOf(f: Finding, d: Discovery, k: Change, c: Consumer) {
    && TypeForConsumer(c.kind) == Some(f.impact) && f.criticality == c.criticality
    && f.uncertain == Uncertain(c, SourceReferences(d.references, c.id, k))
  }

  lemma EmittedIsFound(changes: seq<Change>, d: Discovery, t: bool, k: Change, c: Consumer) returns (f: Finding)
    requires AnalysisOf(changes, d, t).error.None? && k in changes && c in d.consumers
    requires EmitsFor(Input(d.references, GraphOf(d), t), k, c)
    ensures f in AnalysisOf(changes, d, t).findings && FindingOf(f, d, k, c)
  {
    AnalysisContents(changes, d, GraphOf(d), t);
    var x := Input(d.references, GraphOf(d), t);
    f := MakeFinding(k, c, TypeForConsumer(c.kind).value, RefsFor(x, k, c), PathsFor(x, k, c));
    assert IsFinding(x, k, c, f);
  }

  lemma FindingSource(ks: seq<Change>, d: Discovery, t: bool, f: Finding) returns (k: Change, c: Consumer)
    requires AnalysisOf(ks, d, t).error.None? && f in AnalysisOf(ks, d, t).findings
    ensures k in ks && c in d.consumers && EmitsFor(Input(d.references, GraphOf(d), t), k, c) && FindingOf(f, d, k, c)
  {
    AnalysisContents(ks, d, GraphOf(d), t);
    k, c :| k in ks && c in d.consumers && IsFinding(Input(d.references, GraphOf(d), t), k, c, f);
  }

  lemma QuietIsUntouched(changes: seq<Change>, d: Discovery, t: bool)
    requires Faithful(d) && AnalysisOf(changes, d, t) == Scan([], None)
    ensures Untouched(changes, d, t)
  {
    var x := Input(d.references, GraphOf(d), t);
    forall k, c | k in changes && c in d.consumers ensures !InDoubt(d, k, c) && !Reaches(d, k.from, t, c.id) {
      EmitsMeans(d, k, c, t);
      if EmitsFor(x, k, c) { var f := EmittedIsFound(changes, d, t, k, c); }
    }
  }

  lemma ConcludePass(scan: Scan, diagnostics: seq<Diagnostic>, s: Settings)
    ensures Conclude(scan, diagnostics, s).status == PassStatus <==>
            scan == Scan([], None) && diagnostics == [] && ValidPolicy(s.policy)
  {
    if Conclude(scan, diagnostics, s).status == PassStatus { StatusMeaning(scan.findings, diagnostics, s.policy); }
  }

  lemma PassMeans(changes: seq<Change>, d: Discovery, sources: seq<Diagnostic>, s: Settings)
    requires Unambiguous(d)
    ensures SafetyRun(changes, d, sources, s).status == PassStatus <==>
            && Buildable(d) && IdError(d.consumers).None? && ValidPolicy(s.policy)
            && d.diagnostics == [] && sources == []
            && Untouched(changes, d, s.transitive)
  {
    var scan := AnalysisOf(changes, d, s.transitive);
    assert d.diagnostics + sources == [] <==> d.diagnostics == [] && sources == [];
    if Buildable(d) {
      ConcludePass(scan, d.diagnostics + sources, s);
      if scan == Scan([], None) {
        QuietIsUntouched(changes, d, s.transitive);
      } else if IdError(d.consumers).None? && Untouched(changes, d, s.transitive) {
        UntouchedIsQuiet(changes, d, s.transitive);
      }
    }
  }

  /** A run passes exactly when the evidence can be evaluated, nothing was diagnosed, and no chain of
      references and productions of any length leads from a changed symbol to a consumer. */
  lemma PassIsExact(changes: seq<Change>, d: Discovery, sources: seq<Diagnostic>, s: Settings)
    requires Unambiguous(d)
    ensures SafetyRun(changes, d, sources, s).status == PassStatus <==>
            && Buildable(d) && IdError(d.consumers).None? && Usable(s.policy)
            && d.diagnostics == [] && sources == []
            && Untouched(changes, d, s.transitive)
  {
    PassMeans(changes, d, sources, s);
    PolicyMeans(s.policy);
  }

  // ----- ERROR

  /** The change may affect the consumer. */
  ghost predicate Affects(d: Discovery, k: Change, c: Consumer, t: bool) {
    InDoubt(d, k, c) || Reaches(d, k.from, t, c.id)
  }

  ghost function AffectedBy(changes: seq<Change>, d: Discovery, t: bool): set<(Change, string)> {
    set k, c | k in changes && c in d.consumers && Affects(d, k, c, t) :: (k, c.id)
  }

  lemma AffectedAgree(changes: seq<Change>, d: Discovery, t: bool)
    requires Faithful(d)
    ensures AffectedPairs(changes, d.consumers, Input(d.references, GraphOf(d), t)) == AffectedBy(changes, d, t)
  {
    var x := Input(d.references, GraphOf(d), t);
    forall k, c | c in d.consumers ensures EmitsFor(x, k, c) <==> Affects(d, k, c, t) { EmitsMeans(d, k, c, t); }
    forall p | p in AffectedPairs(changes, d.consumers, x) ensures p in AffectedBy(changes, d, t) {
      var k, c :| k in changes && c in d.consumers && EmitsFor(x, k, c) && p == (k, c.id);
      assert Affects(d, k, c, t);
    }
    forall p | p in AffectedBy(changes, d, t) ensures p in AffectedPairs(changes, d.consumers, x) {
      var k, c :| k in changes && c in d.consumers && Affects(d, k, c, t) && p == (k, c.id);
      assert EmitsFor(x, k, c);
    }
  }

  /** The consumer's kind has no impact type. */
  predicate Unmapped(c: Consumer) { TypeForConsumer(c.kind).None? }

  /** The pair makes a finding that the evaluation refuses. */
  predicate Improper(k: Change, c: Consumer) {
    k.id == "" || c.criticality !in {"", "low", "medium", "high", "critical"}
  }

  ghost predicate PlainIds(changes: seq<Change>, d: Discovery) {
    (forall k :: k in changes ==> NulFree(k.id)) && (forall c :: c in d.consumers ==> NulFree(c.id))
  }

  ghost predicate HasUnmapped(changes: seq<Change>, d: Discovery, t: bool) {
    exists k, c :: k in changes && c in d.consumers && Affects(d, k, c, t) && Unmapped(c)
  }

  ghost predicate HasImproper(changes: seq<Change>, d: Discovery, t: bool) {
    exists k, c :: k in changes && c in d.consumers && Affects(d, k, c, t) && Improper(k, c)
  }

  lemma CompleteIsMapped(changes: seq<Change>, d: Discovery, t: bool, k: Change, c: Consumer)
    requires Faithful(d) && AnalysisOf(changes, d, t).error.None?
    requires k in changes && c in d.consumers && Affects(d, k, c, t)
    ensures !Unmapped(c)
  {
    EmitsMeans(d, k, c, t);
    AnalysisContents(changes, d, GraphOf(d), t);
  }

  lemma ScanFails(changes: seq<Change>, d: Discovery, t: bool)
    requires Faithful(d) && IdError(d.consumers).None?
    ensures AnalysisOf(changes, d, t).error.Some? <==> HasUnmapped(changes, d, t)
  {
    if AnalysisOf(changes, d, t).error.Some? {
      var k, c := StoppedAt(changes, d, t);
      EmitsMeans(d, k, c, t);
      assert Affects(d, k, c, t);
    } else {
      forall k, c | k in changes && c in d.consumers && Affects(d, k, c, t) ensures !Unmapped(c) {
        CompleteIsMapped(changes, d, t, k, c);
      }
    }
  }

  lemma StoppedAt(changes: seq<Change>, d: Discovery, t: bool) returns (k: Change, c: Consumer)
    requires AnalysisOf(changes, d, t).error.Some? && IdError(d.consumers).None?
    ensures k in changes && c in d.consumers && EmitsFor(Input(d.references, GraphOf(d), t), k, c) && Unmapped(c)
  {
    var x := Input(d.references, GraphOf(d), t);
    SortKeeps(changes, ChangeKey);
    SortKeeps(d.consumers, ConsumerKey);
    k, c := ScanStopsAt(x, Sort(changes, ChangeKey), Sort(d.consumers, ConsumerKey));
  }

  lemma OneText(f: Finding, h: Finding)
    requires NulFree(f.change.id) && NulFree(f.consumer.id) && NulFree(h.change.id) && NulFree(h.consumer.id)
    requires FindingText(f) == FindingText(h)
    ensures SamePair(f, h)
  {
    var x, y := [ImpactText(f.impact)], [ImpactText(h.impact)];
    assert [f.change.id, f.consumer.id, ImpactText(f.impact)] == [f.change.id] + ([f.consumer.id] + x);
    assert [h.change.id, h.consumer.id, ImpactText(h.impact)] == [h.change.id] + ([h.consumer.id] + y);
    JoinCut(f.change.id, h.change.id, [f.consumer.id] + x, [h.consumer.id] + y, '\0');
    JoinCut(f.consumer.id, h.consumer.id, x, y, '\0');
  }

  lemma TextsDiffer(fs: seq<Finding>, sorted: seq<Finding>)
    requires OnePerPair(fs) && multiset(fs) == multiset(sorted)
    requires forall f :: f in fs ==> NulFree(f.change.id) && NulFree(f.consumer.id)
    ensures forall i, j :: 0 <= i < j < |sorted| ==> FindingText(sorted[i]) != FindingText(sorted[j])
  {
    SameElements(fs, sorted);
    forall i, j | 0 <= i < j < |fs| ensures fs[i] != fs[j] { assert !SamePair(fs[i], fs[j]); }
    DistinctPermutation(fs, sorted);
    forall i, j | 0 <= i < j < |sorted| ensures FindingText(sorted[i]) != FindingText(sorted[j]) {
      assert sorted[i] in fs && sorted[j] in fs && sorted[i] != sorted[j];
      if FindingText(sorted[i]) == FindingText(sorted[j]) {
        OneText(sorted[i], sorted[j]);
        PairIdentifies(fs, sorted[i], sorted[j]);
      }
    }
  }

  /** A finding is valid unless its pair is improper. */
  lemma FindingValidity(x: Input, k: Change, c: Consumer, f: Finding)
    requires IsFinding(x, k, c, f) && c.id != ""
    ensures ValidFinding(f) <==> !Improper(k, c)
  {
    ValidityMeans(f);
    ImpactMeans(c.kind, f.impact);
  }

  lemma FindingHasPlainIds(changes: seq<Change>, d: Discovery, x: Input, f: Finding)
    requires PlainIds(changes, d) && exists k, c :: k in changes && c in d.consumers && IsFinding(x, k, c, f)
    ensures NulFree(f.change.id) && NulFree(f.consumer.id)
  {
  }

  lemma FindingTextsDiffer(changes: seq<Change>, d: Discovery, t: bool)
    requires DistinctChangeIds(changes) && PlainIds(changes, d)
    ensures var sorted := Sort(AnalysisOf(changes, d, t).findings, FindingOrder);
            forall i, j :: 0 <= i < j < |sorted| ==> FindingText(sorted[i]) != FindingText(sorted[j])
  {
    var fs := AnalysisOf(changes, d, t).findings;
    AnalysisOnePerPair(changes, d, GraphOf(d), t);
    forall f | f in fs ensures NulFree(f.change.id) && NulFree(f.consumer.id) {
      FindingHasPlainIds(changes, d, Input(d.references, GraphOf(d), t), f);
    }
    TextsDiffer(fs, Sort(fs, FindingOrder));
  }

  lemma ProperIsValid(changes: seq<Change>, d: Discovery, t: bool, f: Finding)
    requires Faithful(d) && IdError(d.consumers).None? && !HasImproper(changes, d, t)
    requires exists k, c :: k in changes && c in d.consumers && IsFinding(Input(d.references, GraphOf(d), t), k, c, f)
    ensures ValidFinding(f)
  {
    var x := Input(d.references, GraphOf(d), t);
    var k, c :| k in changes && c in d.consumers && IsFinding(x, k, c, f);
    EmitsMeans(d, k, c, t);
    assert Affects(d, k, c, t);
    FindingValidity(x, k, c, f);
  }

  lemma FindingsValidity(changes: seq<Change>, d: Discovery, t: bool)
    requires Faithful(d) && DistinctChangeIds(changes) && PlainIds(changes, d) && AnalysisOf(changes, d, t).error.None?
    ensures ValidFindings(Sort(AnalysisOf(changes, d, t).findings, FindingOrder)) <==> !HasImproper(changes, d, t)
  {
    var fs := AnalysisOf(changes, d, t).findings;
    SortKeeps(fs, FindingOrder);
    FindingTextsDiffer(changes, d, t);
    if HasImproper(changes, d, t) {
      var k, c :| k in changes && c in d.consumers && Affects(d, k, c, t) && Improper(k, c);
      ImproperIsFound(changes, d, t, k, c);
    } else {
      AnalysisOnePerPair(changes, d, GraphOf(d), t);
      forall f | f in fs ensures ValidFinding(f) { ProperIsValid(changes, d, t, f); }
    }
  }

  lemma ImproperIsFound(changes: seq<Change>, d: Discovery, t: bool, k: Change, c: Consumer)
    requires Faithful(d) && AnalysisOf(changes, d, t).error.None?
    requires k in changes && c in d.consumers && Affects(d, k, c, t) && Improper(k, c)
    ensures exists f :: f in AnalysisOf(changes, d, t).findings && !ValidFinding(f)
  {
    var x := Input(d.references, GraphOf(d), t);
    EmitsMeans(d, k, c, t);
    AnalysisContents(changes, d, GraphOf(d), t);
    var f := MakeFinding(k, c, TypeForConsumer(c.kind).value, RefsFor(x, k, c), PathsFor(x, k, c));
    assert IsFinding(x, k, c, f);
    FindingValidity(x, k, c, f);
  }

  lemma ConcludeError(scan: Scan, diagnostics: seq<Diagnostic>, s: Settings)
    ensures Conclude(scan, diagnostics, s).status == ErrorStatus <==>
            || scan.error.Some? || (s.maxFindings.Some? && |scan.findings| > s.maxFindings.value)
            || !ValidPolicy(s.policy) || !ValidFindings(Sort(scan.findings, FindingOrder))
  {
  }

  /** What is wrong with the scan of evidence whose consumer IDs are in order. */
  lemma ScanErrorIsExact(changes: seq<Change>, d: Discovery, t: bool, limit: Option<nat>, scan: Scan)
    requires Faithful(d) && IdError(d.consumers).None? && DistinctChangeIds(changes) && PlainIds(changes, d)
    requires scan == AnalysisOf(changes, d, t)
    ensures (|| scan.error.Some? || (limit.Some? && |scan.findings| > limit.value)
             || !ValidFindings(Sort(scan.findings, FindingOrder))) <==>
            (|| HasUnmapped(changes, d, t) || (limit.Some? && |AffectedBy(changes, d, t)| > limit.value)
             || HasImproper(changes, d, t))
  {
    ScanFails(changes, d, t);
    if scan.error.None? {
      AffectedAgree(changes, d, t);
      AnalysisCountsPairs(changes, d, GraphOf(d), t);
      FindingsValidity(changes, d, t);
    }
  }

  /** A run ends in ERROR exactly when the evidence does not build, a consumer ID is empty or used twice,
      the policy is invalid, the affected pairs exceed the limit, or some affected pair has a consumer of
      a kind without impact type, an unknown criticality or no change ID. */
  lemma ErrorIsExact(changes: seq<Change>, d: Discovery, sources: seq<Diagnostic>, s: Settings)
    requires Unambiguous(d) && DistinctChangeIds(changes) && PlainIds(changes, d)
    ensures SafetyRun(changes, d, sources, s).status == ErrorStatus <==>
            || !Buildable(d) || IdError(d.consumers).Some? || !Usable(s.policy)
            || (s.maxFindings.Some? && |AffectedBy(changes, d, s.transitive)| > s.maxFindings.value)
            || HasUnmapped(changes, d, s.transitive) || HasImproper(changes, d, s.transitive)
  {
    PolicyMeans(s.policy);
    if Buildable(d) {
      var scan := AnalysisOf(changes, d, s.transitive);
      ConcludeError(scan, d.diagnostics + sources, s);
      if IdError(d.consumers).None? {
        ScanErrorIsExact(changes, d, s.transitive, s.maxFindings, scan);
      }
    }
  }

  // ----- more evidence never looks safer

  ghost predicate Hardens(c: Consumer, b: Consumer) { b == c || b == c.(unresolved := true) }

  /** `e` has all the evidence of `d`, and perhaps more; a consumer may have become unresolved. */
  ghost predicate Grows(d: Discovery, e: Discovery) {
    && (forall c :: c in d.consumers ==> exists b :: b in e.consumers && Hardens(c, b))
    && (forall r :: r in d.references ==> r in e.references)
    && (forall p :: p in d.productions ==> p in e.productions)
    && (forall g :: g in d.diagnostics ==> g in e.diagnostics)
  }

  lemma {:induction false} FeedsGrows(d: Discovery, e: Discovery, s: Symbol, id: string, n: nat)
    requires Grows(d, e) && Feeds(d, s, id, n)
    ensures Feeds(e, s, id, n)
    decreases n
  {
    if n > 0 {
      var p :| p in d.productions && Feeds(d, s, p.consumerId, n - 1) && Feeds(d, p.symbol, id, 0);
      FeedsGrows(d, e, s, p.consumerId, n - 1);
      FeedsGrows(d, e, p.symbol, id, 0);
    }
  }

  lemma UnambiguousShrinks(d: Discovery, e: Discovery)
    requires Grows(d, e) && Unambiguous(e)
    ensures Unambiguous(d)
  {
    forall p | p in Scopes(d) ensures p in Scopes(e) {
      var l :| l in Links(d) && ScopeOf(l.symbol) == p;
      LinksContents(d, l);
      LinksContents(e, l);
    }
  }

  lemma ConsumerSurvives(d: Discovery, e: Discovery, c: Consumer) returns (b: Consumer)
    requires Grows(d, e) && c in d.consumers
    ensures b in e.consumers && Hardens(c, b)
  {
    b :| b in e.consumers && Hardens(c, b);
  }

  ghost predicate AsGrave(f: Finding, h: Finding) {
    h.impact == f.impact && h.criticality == f.criticality && (f.uncertain ==> h.uncertain)
  }

  lemma DoubtGrows(d: Discovery, e: Discovery, k: Change, c: Consumer, b: Consumer, t: bool)
    requires Grows(d, e) && Hardens(c, b)
    ensures InDoubt(d, k, c) ==> InDoubt(e, k, b)
    ensures Reaches(d, k.from, t, c.id) ==> Reaches(e, k.from, t, b.id)
  {
    if Reaches(d, k.from, t, c.id) {
      var s, n :| Denotes(s, k.from) && (t || n == 0) && Feeds(d, s, c.id, n);
      FeedsGrows(d, e, s, c.id, n);
    }
  }

  lemma PairGrows(d: Discovery, e: Discovery, k: Change, c: Consumer, b: Consumer, t: bool)
    requires Grows(d, e) && Faithful(d) && Faithful(e) && c in d.consumers && b in e.consumers && Hardens(c, b)
    ensures EmitsFor(Input(d.references, GraphOf(d), t), k, c) ==> EmitsFor(Input(e.references, GraphOf(e), t), k, b)
    ensures Uncertain(c, SourceReferences(d.references, c.id, k)) ==>
            Uncertain(b, SourceReferences(e.references, b.id, k))
  {
    EmitsMeans(d, k, c, t);
    EmitsMeans(e, k, b, t);
    UncertainMeans(d, k, c);
    UncertainMeans(e, k, b);
    DoubtGrows(d, e, k, c, b, t);
  }

  /** Each finding of the smaller run has one at least as grave in the larger run. */
  lemma FindingSurvives(ks: seq<Change>, js: seq<Change>, d: Discovery, e: Discovery, t: bool, f: Finding)
    returns (h: Finding)
    requires Grows(d, e) && Faithful(d) && Faithful(e) && forall k :: k in ks ==> k in js
    requires AnalysisOf(ks, d, t).error.None? && AnalysisOf(js, e, t).error.None?
    requires f in AnalysisOf(ks, d, t).findings
    ensures h in AnalysisOf(js, e, t).findings && AsGrave(f, h)
  {
    var k, c := FindingSource(ks, d, t, f);
    var b := ConsumerSurvives(d, e, c);
    PairGrows(d, e, k, c, b, t);
    h := EmittedIsFound(js, e, t, k, b);
  }

  ghost predicate Covered(fs: seq<Finding>, hs: seq<Finding>) {
    forall f :: f in fs ==> exists h :: h in hs && AsGrave(f, h)
  }

  lemma AggregateGrows(fs: seq<Finding>, hs: seq<Finding>, ds: seq<Diagnostic>, es: seq<Diagnostic>, p: Policy)
    requires forall g :: g in ds ==> g in es
    requires Covered(fs, hs)
    ensures NeedsReview(fs, ds) ==> NeedsReview(hs, es)
    ensures (exists f :: f in fs && Blocks(f, p)) ==> exists h :: h in hs && Blocks(h, p)
    ensures fs != [] || ds != [] ==> hs != [] || es != []
  {
    if f :| f in fs && f.uncertain { assert NeedsReview(hs, es); }
    if f :| f in fs && Blocks(f, p) {
      var h :| h in hs && AsGrave(f, h);
      assert Blocks(h, p);
    }
    if fs != [] {
      assert fs[0] in fs;
    } else if ds != [] {
      assert ds[0] in es;
    }
  }

  lemma SeverityGrows(fs: seq<Finding>, hs: seq<Finding>, ds: seq<Diagnostic>, es: seq<Diagnostic>, p: Policy)
    requires Evaluation(fs, ds, p).status != ErrorStatus && Evaluation(hs, es, p).status != ErrorStatus
    requires forall g :: g in ds ==> g in es
    requires Covered(fs, hs)
    ensures Severity(Evaluation(fs, ds, p).status) <= Severity(Evaluation(hs, es, p).status)
  {
    StatusMeaning(fs, ds, p);
    StatusMeaning(hs, es, p);
    AggregateGrows(fs, hs, ds, es, p);
  }

  lemma ConcludeEvaluates(x: Scan, ds: seq<Diagnostic>, s: Settings)
    requires Conclude(x, ds, s).status != ErrorStatus
    ensures Conclude(x, ds, s) == Evaluation(x.findings, ds, s.policy)
  {
  }

  lemma ConcludeGrows(x: Scan, y: Scan, ds: seq<Diagnostic>, es: seq<Diagnostic>, s: Settings)
    requires Conclude(x, ds, s).status != ErrorStatus && Conclude(y, es, s).status != ErrorStatus
    requires forall g :: g in ds ==> g in es
    requires Covered(x.findings, y.findings)
    ensures Severity(Conclude(x, ds, s).status) <= Severity(Conclude(y, es, s).status)
  {
    ConcludeEvaluates(x, ds, s);
    ConcludeEvaluates(y, es, s);
    SeverityGrows(x.findings, y.findings, ds, es, s.policy);
  }

  /** Adding consumers, references, productions, diagnostics or changes, or marking a consumer
      unresolved, never lowers the status, whenever both runs end without error. */
  lemma RunFailsClosed(ks: seq<Change>, js: seq<Change>, d: Discovery, e: Discovery,
                       a: seq<Diagnostic>, b: seq<Diagnostic>, s: Settings)
    requires Grows(d, e) && Unambiguous(e)
    requires (forall k :: k in ks ==> k in js) && (forall g :: g in a ==> g in b)
    requires SafetyRun(ks, d, a, s).status != ErrorStatus && SafetyRun(js, e, b, s).status != ErrorStatus
    ensures var before, after := SafetyRun(ks, d, a, s).status, SafetyRun(js, e, b, s).status;
            && Severity(before) <= Severity(after)
            && (before == IncompleteStatus ==> after == IncompleteStatus)
            && (before == BlockStatus ==> after in {BlockStatus, IncompleteStatus})
            && (after == PassStatus ==> before == PassStatus)
  {
    var x, y := AnalysisOf(ks, d, s.transitive), AnalysisOf(js, e, s.transitive);
    forall f | f in x.findings ensures exists h :: h in y.findings && AsGrave(f, h) {
      UnambiguousShrinks(d, e);
      var h := FindingSurvives(ks, js, d, e, s.transitive, f);
    }
    ConcludeGrows(x, y, d.diagnostics + a, e.diagnostics + b, s);
  }
}
