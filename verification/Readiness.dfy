/** Migration readiness: the second engine over the same graph (internal/readiness/evaluator.go). */
module Readiness {
  import opened Ordering
  import opened Domain
  import opened Paths
  import opened Graphs
  import opened Build
  import opened Impact
  import opened Findings
  import opened Reach
  import opened Facts
  import Pipeline

  datatype ReadinessStatus = Ready | Blocked | Incomplete

  datatype Classification = LegacyOnly | Migrated | Dual | Unaffected | Uncertain

  datatype ReadinessPolicy = ReadinessPolicy(
    failOnCriticalLegacyConsumer: bool, failOnCriticalUnknown: bool,
    minimumBlockingCriticality: string, includeTransitive: bool)

  datatype ConsumerResult = ConsumerResult(
    consumer: Consumer, classification: Classification, references: seq<Reference>, paths: seq<Path>)

  datatype ChangeResult = ChangeResult(change: Change, status: ReadinessStatus, consumers: seq<ConsumerResult>)

  datatype Summary = Summary(
    total: nat, legacyOnly: nat, migrated: nat, dual: nat, unaffected: nat, uncertain: nat, progress: nat)

  datatype ReadinessResult =
    | Assessed(status: ReadinessStatus, summary: Summary, changes: seq<ChangeResult>)
    | Rejected(error: AnalysisError)

  function Classify(change: Change, hasOld: bool, hasNew: bool, uncertain: bool): Classification {
    if change.to.None? then
      if hasOld then LegacyOnly else if uncertain then Uncertain else Unaffected
    else if hasOld && hasNew then Dual
    else if hasOld then LegacyOnly
    else if uncertain then Uncertain
    else if hasNew then Migrated
    else Unaffected
  }

  predicate HasUnresolvedReference(rs: seq<Reference>, id: string, change: Change) {
    exists r :: r in rs && r.consumerId == id && UnresolvedReferenceApplies(r, change)
  }

  predicate Mentions(r: Reference, id: string, change: Change) {
    && r.consumerId == id
    && (|| SymbolMatches(r.symbol, change.from)
        || (change.to.Some? && SymbolMatches(r.symbol, change.to.value))
        || UnresolvedReferenceApplies(r, change))
  }

  function CriticalityRank(c: string): nat {
    var l := ToLower(c);
    if l == CRITICAL then 4 else if l == HIGH then 3 else if l == MEDIUM then 2 else if l == LOW then 1 else 2
  }

  function Threshold(p: ReadinessPolicy): string {
    if p.minimumBlockingCriticality == "" then HIGH else p.minimumBlockingCriticality
  }

  // ----- one consumer, one change

  ghost function OldPaths(x: Input, k: Change, c: Consumer): seq<Path> { PathsTo(x.graph, k.from, x.transitive, c.id) }

  ghost function NewPaths(x: Input, k: Change, c: Consumer): seq<Path> {
    if k.to.Some? then PathsTo(x.graph, k.to.value, x.transitive, c.id) else []
  }

  function Doubtful(rs: seq<Reference>, k: Change, c: Consumer): bool {
    c.unresolved || HasUnresolvedReference(rs, c.id, k)
  }

  function Assess(rs: seq<Reference>, k: Change, c: Consumer, old_: seq<Path>, new_: seq<Path>): ConsumerResult {
    ConsumerResult(c, Classify(k, old_ != [], new_ != [], Doubtful(rs, k, c)),
                   Filter(rs, r => Mentions(r, c.id, k)), old_ + new_)
  }

  ghost function ConsumerResultFor(x: Input, k: Change, c: Consumer): ConsumerResult {
    Assess(x.references, k, c, OldPaths(x, k, c), NewPaths(x, k, c))
  }

  ghost function ClassFor(x: Input, k: Change, c: Consumer): Classification {
    ConsumerResultFor(x, k, c).classification
  }

  // ----- status

  predicate BlocksMigration(r: ConsumerResult, p: ReadinessPolicy) {
    && r.classification == LegacyOnly && p.failOnCriticalLegacyConsumer
    && CriticalityRank(r.consumer.criticality) >= CriticalityRank(Threshold(p))
  }

  predicate LeavesUnknown(r: ConsumerResult, p: ReadinessPolicy) {
    && r.classification == Uncertain && p.failOnCriticalUnknown
    && CriticalityRank(r.consumer.criticality) >= CriticalityRank(CRITICAL)
  }

  predicate HasRequired(diagnostics: seq<Diagnostic>) { exists d :: d in diagnostics && d.required }

  function StatusForConsumers(rs: seq<ConsumerResult>, diagnostics: seq<Diagnostic>,
                              p: ReadinessPolicy): ReadinessStatus
  {
    if exists r :: r in rs && BlocksMigration(r, p) then Blocked
    else if HasRequired(diagnostics) then Incomplete
    else if exists r :: r in rs && LeavesUnknown(r, p) then Incomplete
    else Ready
  }

  function StatusForChanges(rs: seq<ChangeResult>, diagnostics: seq<Diagnostic>): ReadinessStatus {
    if exists r :: r in rs && r.status == Blocked then Blocked
    else if HasRequired(diagnostics) then Incomplete
    else if exists r :: r in rs && r.status == Incomplete then Incomplete
    else Ready
  }

  // ----- the worst classification and the summary

  function Rank(k: Option<Classification>): nat {
    match k
    case None => 0
    case Some(Unaffected) => 1
    case Some(Migrated) => 2
    case Some(Dual) => 3
    case Some(Uncertain) => 4
    case Some(LegacyOnly) => 5
  }

  function Worse(current: Option<Classification>, candidate: Classification): Option<Classification> {
    if Rank(Some(candidate)) > Rank(current) then Some(candidate) else current
  }

  function Worst(classes: seq<Classification>): Option<Classification> {
    if classes == [] then None else Worse(Worst(classes[..|classes| - 1]), classes[|classes| - 1])
  }

  ghost function ClassesFor(x: Input, ks: seq<Change>, c: Consumer): seq<Classification> {
    seq(|ks|, i requires 0 <= i < |ks| => ClassFor(x, ks[i], c))
  }

  function Count(s: Summary, k: Option<Classification>): Summary {
    match k
    case Some(LegacyOnly) => s.(legacyOnly := s.legacyOnly + 1)
    case Some(Migrated) => s.(migrated := s.migrated + 1)
    case Some(Dual) => s.(dual := s.dual + 1)
    case Some(Uncertain) => s.(uncertain := s.uncertain + 1)
    case _ => s.(unaffected := s.unaffected + 1)
  }

  ghost function Tally(classes: seq<Option<Classification>>, total: nat): Summary {
    if classes == [] then Summary(total, 0, 0, 0, 0, 0, 0)
    else Count(Tally(classes[..|classes| - 1], total), classes[|classes| - 1])
  }

  function WithProgress(s: Summary): Summary {
    var denominator := s.legacyOnly + s.migrated + s.dual + s.uncertain;
    s.(progress := if denominator == 0 then 100 else (s.migrated + s.dual) * 100 / denominator)
  }

  ghost function WorstClasses(x: Input, ks: seq<Change>, cs: seq<Consumer>): seq<Option<Classification>> {
    seq(|cs|, i requires 0 <= i < |cs| => Worst(ClassesFor(x, ks, cs[i])))
  }

  // ----- the whole evaluation

  ghost function ConsumerResults(x: Input, k: Change, cs: seq<Consumer>): seq<ConsumerResult> {
    seq(|cs|, i requires 0 <= i < |cs| => ConsumerResultFor(x, k, cs[i]))
  }

  ghost function ChangeResultFor(x: Input, k: Change, cs: seq<Consumer>, ds: seq<Diagnostic>,
                                 p: ReadinessPolicy): ChangeResult
  {
    ChangeResult(k, StatusForConsumers(ConsumerResults(x, k, cs), ds, p), ConsumerResults(x, k, cs))
  }

  ghost function ChangeResults(x: Input, ks: seq<Change>, cs: seq<Consumer>, ds: seq<Diagnostic>,
                               p: ReadinessPolicy): seq<ChangeResult>
  {
    seq(|ks|, i requires 0 <= i < |ks| => ChangeResultFor(x, ks[i], cs, ds, p))
  }

  ghost function Assessment(ks: seq<Change>, d: Discovery, g: GraphValue, p: ReadinessPolicy): ReadinessResult {
    var e := IdError(d.consumers);
    if e.Some? then Rejected(e.value) else
      var cs, x := Sort(d.consumers, ConsumerKey), Input(d.references, g, p.includeTransitive);
      var changes := ChangeResults(x, ks, cs, d.diagnostics, p);
      Assessed(StatusForChanges(changes, d.diagnostics),
               WithProgress(Tally(WorstClasses(x, ks, cs), |cs|)), changes)
  }

  // ----- the two engines agree

  /** The finding is about this change and this consumer. */
  ghost predicate About(f: Finding, k: Change, c: Consumer) { f.change == k && f.consumer.id == c.id }

  lemma DoubtsAgree(d: Discovery, k: Change, c: Consumer, t: bool)
    requires c.criticality != ""
    ensures Pipeline.InDoubt(d, k, c) ==> Doubtful(d.references, k, c) || Reaches(d, k.from, t, c.id)
    ensures Doubtful(d.references, k, c) ==> Pipeline.InDoubt(d, k, c)
  {
    forall r ensures UnresolvedReferenceApplies(r, k) <==> LeavesOpen(r, k) { OpenMeans(r, k); }
    if r :| r in d.references && r.consumerId == c.id && r.requiresResolution && Denotes(r.symbol, k.from) {
      assert Feeds(d, r.symbol, c.id, 0);
    }
  }

  /** Analysis reports the pair exactly when readiness finds an old path or a doubt. */
  lemma EmissionAgrees(d: Discovery, k: Change, c: Consumer, t: bool)
    requires Faithful(d) && c in d.consumers && c.criticality != ""
    ensures var x := Input(d.references, GraphOf(d), t);
            EmitsFor(x, k, c) <==> OldPaths(x, k, c) != [] || Doubtful(d.references, k, c)
  {
    Pipeline.EmitsMeans(d, k, c, t);
    ImpactIsExact(d, k.from, t, c);
    DoubtsAgree(d, k, c, t);
  }

  lemma FindingIsAbout(ks: seq<Change>, d: Discovery, t: bool, k: Change, c: Consumer, f: Finding)
    requires Pipeline.AnalysisOf(ks, d, t).error.None? && c in d.consumers && DistinctConsumerIds(d.consumers)
    requires f in Pipeline.AnalysisOf(ks, d, t).findings && About(f, k, c)
    ensures k in ks && IsFinding(Input(d.references, GraphOf(d), t), k, c, f)
  {
    var l, b := AnalysisSource(ks, d, GraphOf(d), t, f);
    assert l == k;
    SameIdSameConsumer(d.consumers, b, c);
  }

  lemma SameIdSameConsumer(cs: seq<Consumer>, b: Consumer, c: Consumer)
    requires DistinctConsumerIds(cs) && b in cs && c in cs && b.id == c.id
    ensures b == c
  {
  }

  lemma FindingAbout(ks: seq<Change>, d: Discovery, t: bool, k: Change, c: Consumer, f: Finding)
    requires Pipeline.AnalysisOf(ks, d, t).error.None? && c in d.consumers && DistinctConsumerIds(d.consumers)
    ensures f in Pipeline.AnalysisOf(ks, d, t).findings && About(f, k, c) <==>
            k in ks && IsFinding(Input(d.references, GraphOf(d), t), k, c, f)
  {
    if f in Pipeline.AnalysisOf(ks, d, t).findings && About(f, k, c) {
      FindingIsAbout(ks, d, t, k, c, f);
    }
    if k in ks && IsFinding(Input(d.references, GraphOf(d), t), k, c, f) {
      AnalysisContents(ks, d, GraphOf(d), t);
    }
  }

  /** The analysis reports the pair when it is affected, and then with its paths. */
  lemma PairReport(ks: seq<Change>, d: Discovery, t: bool, k: Change, c: Consumer)
    requires Pipeline.AnalysisOf(ks, d, t).error.None?
    requires k in ks && c in d.consumers && DistinctConsumerIds(d.consumers)
    ensures var x, fs := Input(d.references, GraphOf(d), t), Pipeline.AnalysisOf(ks, d, t).findings;
            && (EmitsFor(x, k, c) <==> exists f :: f in fs && About(f, k, c))
            && (forall f :: f in fs && About(f, k, c) ==> f.paths == OldPaths(x, k, c))
  {
    var x, fs := Input(d.references, GraphOf(d), t), Pipeline.AnalysisOf(ks, d, t).findings;
    forall f ensures f in fs && About(f, k, c) <==> IsFinding(x, k, c, f) {
      FindingAbout(ks, d, t, k, c, f);
    }
    if EmitsFor(x, k, c) {
      AnalysisContents(ks, d, GraphOf(d), t);
      assert IsFinding(x, k, c, MakeFinding(k, c, TypeForConsumer(c.kind).value, RefsFor(x, k, c), PathsFor(x, k, c)));
    }
  }

  ghost predicate Reported(fs: seq<Finding>, k: Change, c: Consumer, withPaths: bool) {
    exists f :: f in fs && About(f, k, c) && (f.paths != [] <==> withPaths)
  }

  /** For every change and every consumer of known criticality: LEGACY_ONLY or DUAL exactly when the
      analysis reports a finding with paths, UNCERTAIN exactly when it reports one without, and
      MIGRATED or UNAFFECTED exactly when it reports none. */
  lemma EnginesAgree(ks: seq<Change>, d: Discovery, t: bool, k: Change, c: Consumer)
    requires Faithful(d) && Pipeline.AnalysisOf(ks, d, t).error.None?
    requires k in ks && c in d.consumers && c.criticality != ""
    ensures var kind, fs := ClassFor(Input(d.references, GraphOf(d), t), k, c), Pipeline.AnalysisOf(ks, d, t).findings;
            && (kind == LegacyOnly || kind == Dual <==> Reported(fs, k, c, true))
            && (kind == Uncertain <==> Reported(fs, k, c, false))
            && (kind == Migrated || kind == Unaffected <==> !exists f :: f in fs && About(f, k, c))
  {
    EmissionAgrees(d, k, c, t);
    PairReport(ks, d, t, k, c);
  }

  // ----- what the summary says

  lemma {:induction false} TallyCounts(classes: seq<Option<Classification>>, total: nat)
    ensures var s := Tally(classes, total);
            && s.total == total
            && s.legacyOnly + s.migrated + s.dual + s.unaffected + s.uncertain == |classes|
            && (s.legacyOnly == 0 <==> Some(LegacyOnly) !in classes)
            && (s.uncertain == 0 <==> Some(Uncertain) !in classes)
  {
    if classes != [] {
      TallyCounts(classes[..|classes| - 1], total);
      assert classes == classes[..|classes| - 1] + [classes[|classes| - 1]];
    }
  }

  lemma Quotient(x: nat, n: nat)
    requires n > 0
    ensures x / n * n <= x < x / n * n + n
  {
  }

  lemma Product(q: nat, k: nat, n: nat)
    requires n > 0
    ensures q <= k ==> q * n <= k * n
    ensures q >= k ==> q * n >= k * n
  {
  }

  /** A share of `part` in `part + rest`, in whole percent. */
  lemma PercentBounds(part: nat, rest: nat)
    requires part + rest > 0
    ensures part * 100 / (part + rest) <= 100
    ensures part * 100 / (part + rest) == 100 <==> rest == 0
  {
    var n, x := part + rest, part * 100;
    var q := x / n;
    Quotient(x, n);
    Product(q, 101, n);
    Product(q, 99, n);
    Product(q, 100, n);
  }

  /** LEGACY_ONLY or UNCERTAIN: what keeps a migration from being complete. */
  predicate Pending(k: Classification) { k == LegacyOnly || k == Uncertain }

  predicate PendingOverall(k: Option<Classification>) { k.Some? && Pending(k.value) }

  lemma ProgressMeans(classes: seq<Option<Classification>>)
    ensures var s := WithProgress(Tally(classes, |classes|));
            && s.legacyOnly + s.migrated + s.dual + s.unaffected + s.uncertain == s.total == |classes|
            && s.progress <= 100
            && (s.progress == 100 <==> forall i :: 0 <= i < |classes| ==> !PendingOverall(classes[i]))
  {
    TallyCounts(classes, |classes|);
    var s := Tally(classes, |classes|);
    if s.migrated + s.dual + s.legacyOnly + s.uncertain > 0 {
      PercentBounds(s.migrated + s.dual, s.legacyOnly + s.uncertain);
    }
  }

  lemma {:induction false} WorstIsPending(classes: seq<Classification>)
    ensures PendingOverall(Worst(classes)) <==> exists i :: 0 <= i < |classes| && Pending(classes[i])
    ensures classes != [] ==> exists i :: 0 <= i < |classes| && Worst(classes) == Some(classes[i])
    ensures forall i :: 0 <= i < |classes| ==> Rank(Some(classes[i])) <= Rank(Worst(classes))
  {
    if classes != [] {
      var rest := classes[..|classes| - 1];
      WorstIsPending(rest);
      if Worst(classes) != Some(classes[|classes| - 1]) {
        assert rest != [];
        var i :| 0 <= i < |rest| && Worst(rest) == Some(rest[i]);
        assert Worst(classes) == Some(classes[i]);
      }
    }
  }

  /** Every consumer is counted once, and the progress is complete exactly when no consumer is
      LEGACY_ONLY or UNCERTAIN for any change. */
  lemma SummaryIsComplete(x: Input, ks: seq<Change>, cs: seq<Consumer>)
    ensures var s := WithProgress(Tally(WorstClasses(x, ks, cs), |cs|));
            && s.legacyOnly + s.migrated + s.dual + s.unaffected + s.uncertain == s.total == |cs|
            && s.progress <= 100
            && (s.progress == 100 <==>
                  forall i, j :: 0 <= i < |cs| && 0 <= j < |ks| ==> !Pending(ClassesFor(x, ks, cs[i])[j]))
  {
    ProgressMeans(WorstClasses(x, ks, cs));
    forall i | 0 <= i < |cs|
      ensures PendingOverall(WorstClasses(x, ks, cs)[i]) <==>
              exists j :: 0 <= j < |ks| && Pending(ClassesFor(x, ks, cs[i])[j])
    {
      WorstIsPending(ClassesFor(x, ks, cs[i]));
    }
  }

  // ----- the loops

  type Classes = map<string, Classification>

  function Get(m: Classes, id: string): Option<Classification> { if id in m then Some(m[id]) else None }

  function Update(m: Classes, id: string, k: Classification): (n: Classes)
    ensures Get(n, id) == Worse(Get(m, id), k)
    ensures forall other :: other != id ==> Get(n, other) == Get(m, other)
  {
    m[id := Worse(Get(m, id), k).value]
  }

  /** `m` holds the worst class so far of every listed consumer. */
  ghost predicate Holds(m: Classes, x: Input, ks: seq<Change>, cs: seq<Consumer>) {
    forall i :: 0 <= i < |cs| ==> Get(m, cs[i].id) == Worst(ClassesFor(x, ks, cs[i]))
  }

  /** Every listed consumer got the worse of its old class and its result. */
  ghost predicate Updated(before: Classes, after: Classes, cs: seq<Consumer>, results: seq<ConsumerResult>) {
    |results| == |cs| &&
    forall i :: 0 <= i < |cs| ==> Get(after, cs[i].id) == Worse(Get(before, cs[i].id), results[i].classification)
  }

  /** The first i consumers are updated, the others are as they were. */
  ghost predicate UpdatedTo(i: nat, before: Classes, after: Classes, cs: seq<Consumer>, want: seq<ConsumerResult>) {
    && i <= |cs| == |want|
    && (forall j :: 0 <= j < i ==> Get(after, cs[j].id) == Worse(Get(before, cs[j].id), want[j].classification))
    && (forall j :: i <= j < |cs| ==> Get(after, cs[j].id) == Get(before, cs[j].id))
  }

  lemma UpdateNext(i: nat, before: Classes, after: Classes, cs: seq<Consumer>, want: seq<ConsumerResult>)
    requires UpdatedTo(i, before, after, cs, want) && i < |cs| && DistinctConsumerIds(cs)
    ensures UpdatedTo(i + 1, before, Update(after, cs[i].id, want[i].classification), cs, want)
  {
  }

  method AssessChange(k: Change, cs: seq<Consumer>, references: seq<Reference>, oldImpact: PathMap, newImpact: PathMap,
                      before: Classes, ghost want: seq<ConsumerResult>)
    returns (results: seq<ConsumerResult>, after: Classes)
    requires DistinctConsumerIds(cs) && |want| == |cs|
    requires forall i :: 0 <= i < |cs| ==>
               want[i] == Assess(references, k, cs[i], Lookup(oldImpact, cs[i].id), Lookup(newImpact, cs[i].id))
    ensures results == want
    ensures Updated(before, after, cs, results)
  {
    results, after := [], before;
    var i := 0;
    while i < |cs|
      invariant i <= |cs| && results == want[..i] && UpdatedTo(i, before, after, cs, want)
    {
      var c := cs[i];
      var result := Assess(references, k, c, Lookup(oldImpact, c.id), Lookup(newImpact, c.id));
      UpdateNext(i, before, after, cs, want);
      after := Update(after, c.id, result.classification);
      results := results + [result];
      i := i + 1;
    }
  }

  lemma WorstStep(x: Input, ks: seq<Change>, i: nat, c: Consumer)
    requires i < |ks|
    ensures Worst(ClassesFor(x, ks[..i + 1], c)) == Worse(Worst(ClassesFor(x, ks[..i], c)), ClassFor(x, ks[i], c))
  {
    var more := ClassesFor(x, ks[..i + 1], c);
    assert more[..i] == ClassesFor(x, ks[..i], c) && more[i] == ClassFor(x, ks[i], c);
  }

  lemma HoldsStep(before: Classes, after: Classes, x: Input, ks: seq<Change>, i: nat, cs: seq<Consumer>)
    requires i < |ks| && Holds(before, x, ks[..i], cs)
    requires Updated(before, after, cs, ConsumerResults(x, ks[i], cs))
    ensures Holds(after, x, ks[..i + 1], cs)
  {
    forall j | 0 <= j < |cs| ensures Get(after, cs[j].id) == Worst(ClassesFor(x, ks[..i + 1], cs[j])) {
      WorstStep(x, ks, i, cs[j]);
      assert ConsumerResults(x, ks[i], cs)[j] == ConsumerResultFor(x, ks[i], cs[j]);
    }
  }

  method AssessOne(k: Change, cs: seq<Consumer>, references: seq<Reference>, g: Graph, transitive: bool,
                   before: Classes)
    returns (results: seq<ConsumerResult>, after: Classes)
    requires g.Valid() && DistinctConsumerIds(cs)
    ensures results == ConsumerResults(Input(references, g.Value(), transitive), k, cs)
    ensures Updated(before, after, cs, results)
  {
    ghost var x := Input(references, g.Value(), transitive);
    var oldImpact := ImpactedConsumers(g, k.from, transitive);
    var newImpact: PathMap := map[];
    if k.to.Some? {
      newImpact := ImpactedConsumers(g, k.to.value, transitive);
    }
    results, after := AssessChange(k, cs, references, oldImpact, newImpact, before, ConsumerResults(x, k, cs));
  }

  /** Results and classes after the first changes. */
  ghost predicate AssessedSoFar(changes: seq<ChangeResult>, m: Classes, x: Input, ks: seq<Change>, cs: seq<Consumer>,
                                ds: seq<Diagnostic>, p: ReadinessPolicy)
  {
    changes == ChangeResults(x, ks, cs, ds, p) && Holds(m, x, ks, cs)
  }

  lemma AssessedNext(changes: seq<ChangeResult>, before: Classes, after: Classes, x: Input, ks: seq<Change>, i: nat,
                     cs: seq<Consumer>, ds: seq<Diagnostic>, p: ReadinessPolicy)
    requires i < |ks| && AssessedSoFar(changes, before, x, ks[..i], cs, ds, p)
    requires Updated(before, after, cs, ConsumerResults(x, ks[i], cs))
    ensures AssessedSoFar(changes + [ChangeResultFor(x, ks[i], cs, ds, p)], after, x, ks[..i + 1], cs, ds, p)
  {
    HoldsStep(before, after, x, ks, i, cs);
    ChangeResultsNext(x, ks, i, cs, ds, p);
  }

  lemma ChangeResultsNext(x: Input, ks: seq<Change>, i: nat, cs: seq<Consumer>, ds: seq<Diagnostic>, p: ReadinessPolicy)
    requires i < |ks|
    ensures ChangeResults(x, ks[..i + 1], cs, ds, p) ==
            ChangeResults(x, ks[..i], cs, ds, p) + [ChangeResultFor(x, ks[i], cs, ds, p)]
  {
    assert ks[..i + 1] == ks[..i] + [ks[i]];
  }

  method AssessAll(ks: seq<Change>, cs: seq<Consumer>, d: Discovery, g: Graph, p: ReadinessPolicy)
    returns (changes: seq<ChangeResult>, classes: Classes)
    requires g.Valid() && DistinctConsumerIds(cs)
    ensures var x := Input(d.references, g.Value(), p.includeTransitive);
            AssessedSoFar(changes, classes, x, ks, cs, d.diagnostics, p)
  {
    ghost var x := Input(d.references, g.Value(), p.includeTransitive);
    changes, classes := [], map[];
    var i := 0;
    while i < |ks|
      invariant i <= |ks| && AssessedSoFar(changes, classes, x, ks[..i], cs, d.diagnostics, p)
    {
      var results, after := AssessOne(ks[i], cs, d.references, g, p.includeTransitive, classes);
      AssessedNext(changes, classes, after, x, ks, i, cs, d.diagnostics, p);
      changes := changes + [ChangeResult(ks[i], StatusForConsumers(results, d.diagnostics, p), results)];
      classes, i := after, i + 1;
    }
    assert ks[..i] == ks;
  }

  method Summarize(cs: seq<Consumer>, m: Classes, ghost classes: seq<Option<Classification>>) returns (s: Summary)
    requires |classes| == |cs| && forall i :: 0 <= i < |cs| ==> Get(m, cs[i].id) == classes[i]
    ensures s == WithProgress(Tally(classes, |cs|))
  {
    s := Summary(|cs|, 0, 0, 0, 0, 0, 0);
    var i := 0;
    while i < |cs|
      invariant i <= |cs| && s == Tally(classes[..i], |cs|)
    {
      assert classes[..i + 1][..i] == classes[..i];
      s := Count(s, Get(m, cs[i].id));
      i := i + 1;
    }
    assert classes[..i] == classes;
    s := WithProgress(s);
  }

  /** Classifies every consumer for every change and summarises by the worst class of each. */
  method Evaluate(ks: seq<Change>, d: Discovery, g: Graph, p: ReadinessPolicy) returns (r: ReadinessResult)
    requires g.Valid()
    ensures r == Assessment(ks, d, g.Value(), p)
  {
    var cs := Sort(d.consumers, ConsumerKey);
    SortSorted(d.consumers, ConsumerKey);
    IdErrorPermutation(d.consumers, cs);
    var e := CheckIds(cs);
    if e.Some? {
      return Rejected(e.value);
    }
    var changes, classes := AssessAll(ks, cs, d, g, p);
    var summary := Summarize(cs, classes, WorstClasses(Input(d.references, g.Value(), p.includeTransitive), ks, cs));
    r := Assessed(StatusForChanges(changes, d.diagnostics), summary, changes);
  }
}
