/** What the answer of a safety run says about the recorded evidence: each status, each finding and each
    decision, in terms of the evidence and the policy alone. */
module RunFacts {
  import opened Ordering
  import opened Domain
  import opened Impact
  import opened Findings
  import opened Safety
  import opened Reach
  import opened Build
  import opened Facts
  import opened Pipeline

  // ----- statuses

  ghost predicate ReviewNeeded(ks: seq<Change>, d: Discovery, sources: seq<Diagnostic>) {
    || (exists g :: g in d.diagnostics + sources && g.required)
    || (exists k, c :: k in ks && c in d.consumers && InDoubt(d, k, c))
  }

  ghost predicate Guarded(ks: seq<Change>, d: Discovery, t: bool, p: Policy) {
    exists k, c :: k in ks && c in d.consumers && Reaches(d, k.from, t, c.id) && Guards(p, c)
  }

  lemma CompleteRun(ks: seq<Change>, d: Discovery, sources: seq<Diagnostic>, s: Settings)
    requires Unambiguous(d) && SafetyRun(ks, d, sources, s).status != ErrorStatus
    ensures Faithful(d) && AnalysisOf(ks, d, s.transitive).error.None?
    ensures var fs := AnalysisOf(ks, d, s.transitive).findings;
            && SafetyRun(ks, d, sources, s) == Evaluation(fs, d.diagnostics + sources, s.policy)
            && ValidPolicy(s.policy) && forall f :: f in fs ==> ValidFinding(f)
  {
    var scan := AnalysisOf(ks, d, s.transitive);
    ConcludeError(scan, d.diagnostics + sources, s);
    SortKeeps(scan.findings, FindingOrder);
  }

  lemma DoubtIsReported(ks: seq<Change>, d: Discovery, t: bool)
    requires Faithful(d) && AnalysisOf(ks, d, t).error.None?
    ensures (exists f :: f in AnalysisOf(ks, d, t).findings && f.uncertain) <==>
            exists k, c :: k in ks && c in d.consumers && InDoubt(d, k, c)
  {
    if f :| f in AnalysisOf(ks, d, t).findings && f.uncertain {
      var k, c := FindingSource(ks, d, t, f);
      UncertainMeans(d, k, c);
    }
    if k, c :| k in ks && c in d.consumers && InDoubt(d, k, c) {
      EmitsMeans(d, k, c, t);
      UncertainMeans(d, k, c);
      var f := EmittedIsFound(ks, d, t, k, c);
    }
  }

  lemma BlockingMeans(f: Finding, p: Policy, c: Consumer)
    requires ValidPolicy(p) && ValidFinding(f)
    requires f.criticality == c.criticality && TypeForConsumer(c.kind) == Some(f.impact)
    ensures Blocks(f, p) <==> Guards(p, c)
  {
    forall i | i in p.impacts ensures
      && (TypeForConsumer(c.kind) == Some(i) <==> Suffers(c.kind, i))
      && (CriticalityRank(c.criticality) >= CriticalityRank(p.impacts[i].minimumCriticality) <==>
            c.criticality in AtLeast(p.impacts[i].minimumCriticality))
    {
      ImpactMeans(c.kind, i);
      RankMeans(c.criticality, p.impacts[i].minimumCriticality);
    }
  }

  lemma BlockIsReported(ks: seq<Change>, d: Discovery, t: bool, p: Policy)
    requires Faithful(d) && AnalysisOf(ks, d, t).error.None? && ValidPolicy(p)
    requires forall f :: f in AnalysisOf(ks, d, t).findings ==> ValidFinding(f)
    requires !exists k, c :: k in ks && c in d.consumers && InDoubt(d, k, c)
    ensures (exists f :: f in AnalysisOf(ks, d, t).findings && Blocks(f, p)) <==> Guarded(ks, d, t, p)
  {
    if f :| f in AnalysisOf(ks, d, t).findings && Blocks(f, p) {
      var k, c := FindingSource(ks, d, t, f);
      EmitsMeans(d, k, c, t);
      BlockingMeans(f, p, c);
    }
    if k, c :| k in ks && c in d.consumers && Reaches(d, k.from, t, c.id) && Guards(p, c) {
      EmitsMeans(d, k, c, t);
      var f := EmittedIsFound(ks, d, t, k, c);
      BlockingMeans(f, p, c);
    }
  }

  /** The status and its exit code, when it is known whether a review is needed and whether something the
      policy guards is reached. */
  predicate StatusFollows(status: Status, review: bool, guarded: bool) {
    && (status == IncompleteStatus <==> review) && (ExitCode(status) == 3 <==> review)
    && (status == BlockStatus <==> !review && guarded) && (ExitCode(status) == 2 <==> !review && guarded)
    && (ExitCode(status) == 0 <==> !review && !guarded)
  }

  lemma StatusFromFindings(fs: seq<Finding>, ds: seq<Diagnostic>, p: Policy, review: bool, guarded: bool)
    requires Evaluation(fs, ds, p).status != ErrorStatus && (NeedsReview(fs, ds) <==> review)
    requires !review ==> ((exists f :: f in fs && Blocks(f, p)) <==> guarded)
    ensures StatusFollows(Evaluation(fs, ds, p).status, review, guarded)
  {
    StatusMeaning(fs, ds, p);
  }

  lemma ReviewIsReported(ks: seq<Change>, d: Discovery, sources: seq<Diagnostic>, t: bool)
    requires Faithful(d) && AnalysisOf(ks, d, t).error.None?
    ensures NeedsReview(AnalysisOf(ks, d, t).findings, d.diagnostics + sources) <==> ReviewNeeded(ks, d, sources)
  {
    DoubtIsReported(ks, d, t);
  }

  /** A run without error, from the evidence alone: INCOMPLETE exactly when something was required and not
      found out, or some consumer is in doubt about some change; else BLOCK exactly when a change reaches
      a consumer that the policy guards. The exit code tells the same. */
  lemma StatusIsExact(ks: seq<Change>, d: Discovery, sources: seq<Diagnostic>, s: Settings)
    requires Unambiguous(d) && SafetyRun(ks, d, sources, s).status != ErrorStatus
    ensures StatusFollows(SafetyRun(ks, d, sources, s).status, ReviewNeeded(ks, d, sources),
                          Guarded(ks, d, s.transitive, s.policy))
  {
    CompleteRun(ks, d, sources, s);
    var fs, review := AnalysisOf(ks, d, s.transitive).findings, ReviewNeeded(ks, d, sources);
    ReviewIsReported(ks, d, sources, s.transitive);
    if !review { BlockIsReported(ks, d, s.transitive, s.policy); }
    StatusFromFindings(fs, d.diagnostics + sources, s.policy, review, Guarded(ks, d, s.transitive, s.policy));
  }

  /** Nothing but an error exits with 1. */
  lemma ErrorExits(ks: seq<Change>, d: Discovery, sources: seq<Diagnostic>, s: Settings)
    ensures ExitCode(SafetyRun(ks, d, sources, s).status) == 1 <==> SafetyRun(ks, d, sources, s).status == ErrorStatus
  {
  }

  /** A name of the metric itself or with a suffix that Prometheus generates. */
  ghost predicate Suffixed(name: string, base: string) {
    exists suffix :: suffix in ["", "_bucket", "_sum", "_count", "_created"] && name == base + suffix
  }

  lemma SuffixedIsFamily(name: string, base: string)
    ensures Suffixed(name, base) <==> name in Family(base)
  {
    var suffixes := ["", "_bucket", "_sum", "_count", "_created"];
    assert base + "" == base;
    assert suffixes[0] in suffixes && suffixes[1] in suffixes && suffixes[2] in suffixes && suffixes[3] in suffixes;
    assert suffixes[4] in suffixes;
  }

  /** The reference names the metric that a changed label belongs to, before or after. */
  ghost predicate NamesLabelled(r: Reference, k: Change) {
    && k.from.kind == "label" && r.symbol.kind == "metric"
    && (Suffixed(r.symbol.name, k.from.parent) || (k.to.Some? && Suffixed(r.symbol.name, k.to.value.parent)))
  }

  /** What a consumer could not resolve makes the run INCOMPLETE when it may be about a change: whenever it
      lacks more than its labels, and otherwise when it names the metric of a changed label. By itself it
      leaves nothing open in any other case. */
  lemma UnresolvedIsIncomplete(ks: seq<Change>, d: Discovery, sources: seq<Diagnostic>, s: Settings, k: Change,
                               r: Reference, c: Consumer)
    requires Unambiguous(d) && SafetyRun(ks, d, sources, s).status != ErrorStatus
    requires k in ks && c in d.consumers && r in d.references && r.consumerId == c.id && r.requiresResolution
    ensures r.resolutionScope != "labels" || NamesLabelled(r, k) ==>
            SafetyRun(ks, d, sources, s).status == IncompleteStatus
    ensures UnresolvedReferenceApplies(r, k) <==> r.resolutionScope != "labels" || NamesLabelled(r, k)
  {
    OpenMeans(r, k);
    SuffixedIsFamily(r.symbol.name, k.from.parent);
    if k.to.Some? { SuffixedIsFamily(r.symbol.name, k.to.value.parent); }
    if LeavesOpen(r, k) {
      assert InDoubt(d, k, c);
      StatusIsExact(ks, d, sources, s);
    }
  }

  // ----- findings and decisions

  /** The finding tells about this change and this consumer what the evidence says. */
  ghost predicate Tells(f: Finding, d: Discovery, k: Change, c: Consumer, t: bool) {
    && f.change == k && f.consumer == AffectedConsumer(c.id, c.kind, c.name, c.criticality, c.source)
    && Suffers(c.kind, f.impact) && f.criticality == c.criticality
    && (f.uncertain <==> InDoubt(d, k, c)) && (f.paths != [] <==> Reaches(d, k.from, t, c.id))
    && forall r :: r in f.references <==>
                   r in d.references && r.consumerId == c.id && (Denotes(r.symbol, k.from) || LeavesOpen(r, k))
  }

  lemma FindingTells(d: Discovery, k: Change, c: Consumer, t: bool, f: Finding)
    requires Faithful(d) && c in d.consumers && IsFinding(Input(d.references, GraphOf(d), t), k, c, f)
    ensures Tells(f, d, k, c, t)
  {
    UncertainMeans(d, k, c);
    ImpactIsExact(d, k.from, t, c);
    ImpactMeans(c.kind, f.impact);
    forall r ensures r in f.references <==>
                     r in d.references && r.consumerId == c.id && (Denotes(r.symbol, k.from) || LeavesOpen(r, k))
    {
      SourceReferencesContents(d.references, c.id, k, r);
      RelevanceMeans(r, c.id, k);
    }
  }

  /** The decision is the policy's on this finding, with the reason for softening it. */
  ghost predicate Settles(x: Decision, f: Finding, p: Policy) {
    var blocking := f.impact in p.impacts && p.impacts[f.impact].action == BlockAction;
    var minimum := if f.impact in p.impacts then p.impacts[f.impact].minimumCriticality else "low";
    && x.changeId == f.change.id && x.consumerId == f.consumer.id && x.impact == f.impact
    && x.configured == (if blocking then BlockAction else WarnAction)
    && x.effective == (if blocking && p.mode == Enforce && f.criticality in AtLeast(minimum) then BlockAction
                       else WarnAction)
    && x.reason == (if f.criticality !in AtLeast(minimum) then BelowThreshold(minimum)
                    else if blocking && p.mode != Enforce then NotEnforced(p.mode)
                    else Configured(x.configured))
  }

  lemma DecisionSettles(f: Finding, p: Policy)
    requires ValidPolicy(p) && ValidFinding(f)
    ensures Settles(Decide(f, p), f, p)
  {
    RankMeans(f.criticality, RuleFor(p, f.impact).minimumCriticality);
  }

  /** Every affected pair has its finding, and every finding its affected pair. */
  ghost predicate Reported(fs: seq<Finding>, ks: seq<Change>, d: Discovery, t: bool) {
    && (forall f :: f in fs ==>
          exists k, c :: k in ks && c in d.consumers && Affects(d, k, c, t) && Tells(f, d, k, c, t))
    && (forall k, c :: k in ks && c in d.consumers && Affects(d, k, c, t) ==>
          exists f :: f in fs && Tells(f, d, k, c, t))
  }

  lemma FindingsAreReported(ks: seq<Change>, d: Discovery, t: bool, fs: seq<Finding>)
    requires Faithful(d) && AnalysisOf(ks, d, t).error.None?
    requires forall f :: f in fs <==> f in AnalysisOf(ks, d, t).findings
    ensures Reported(fs, ks, d, t)
  {
    var x := Input(d.references, GraphOf(d), t);
    AnalysisContents(ks, d, GraphOf(d), t);
    forall f | f in fs
      ensures exists k, c :: k in ks && c in d.consumers && Affects(d, k, c, t) && Tells(f, d, k, c, t)
    {
      var k, c :| k in ks && c in d.consumers && IsFinding(x, k, c, f);
      EmitsMeans(d, k, c, t);
      FindingTells(d, k, c, t, f);
    }
    forall k, c | k in ks && c in d.consumers && Affects(d, k, c, t) ensures exists f :: f in fs && Tells(f, d, k, c, t)
    {
      EmitsMeans(d, k, c, t);
      var f := MakeFinding(k, c, TypeForConsumer(c.kind).value, RefsFor(x, k, c), PathsFor(x, k, c));
      assert IsFinding(x, k, c, f);
      FindingTells(d, k, c, t, f);
    }
  }

  lemma DecisionsSettle(fs: seq<Finding>, p: Policy)
    requires ValidPolicy(p) && forall f :: f in fs ==> ValidFinding(f)
    ensures forall i :: 0 <= i < |fs| ==> Settles(Decisions(fs, p)[i], fs[i], p)
  {
    forall i | 0 <= i < |fs| ensures Settles(Decisions(fs, p)[i], fs[i], p) {
      assert fs[i] in fs;
      DecisionSettles(fs[i], p);
    }
  }

  lemma EvaluationReports(fs: seq<Finding>, ds: seq<Diagnostic>, p: Policy)
    requires Evaluation(fs, ds, p).status != ErrorStatus
    ensures var r := Evaluation(fs, ds, p);
            && r.findings == Sort(fs, FindingOrder) && r.decisions == Decisions(r.findings, p)
            && multiset(r.diagnostics) == multiset(ds)
  {
  }

  /** A run without error reports every affected pair with what the evidence says about it, decides each
      finding as the policy says, and repeats the diagnostics. */
  lemma RunReports(ks: seq<Change>, d: Discovery, sources: seq<Diagnostic>, s: Settings)
    requires Unambiguous(d) && SafetyRun(ks, d, sources, s).status != ErrorStatus
    ensures var r := SafetyRun(ks, d, sources, s);
            && Reported(r.findings, ks, d, s.transitive)
            && |r.decisions| == |r.findings|
            && (forall i :: 0 <= i < |r.findings| ==> Settles(r.decisions[i], r.findings[i], s.policy))
            && multiset(r.diagnostics) == multiset(d.diagnostics + sources)
  {
    CompleteRun(ks, d, sources, s);
    var fs := AnalysisOf(ks, d, s.transitive).findings;
    EvaluationReports(fs, d.diagnostics + sources, s.policy);
    SortKeeps(fs, FindingOrder);
    FindingsAreReported(ks, d, s.transitive, Sort(fs, FindingOrder));
    DecisionsSettle(Sort(fs, FindingOrder), s.policy);
  }
}
