/** The words in which results about whole runs are stated: what evidence says about a change, and what
    a policy says about a consumer, in terms of the recorded fields alone. */
module Facts {
  import opened Ordering
  import opened Domain
  import opened Impact
  import opened Findings
  import opened Safety

  /** The names that stand for one Prometheus metric: its own and those generated for its family. */
  function Family(base: string): set<string> {
    {base, base + "_bucket", base + "_sum", base + "_count", base + "_created"}
  }

  /** Whoever refers to `s` refers to the changed symbol. */
  predicate Denotes(s: Symbol, changed: Symbol) {
    || s == changed
    || (&& s.domain == "prometheus" && changed.domain == "prometheus" && s.kind == "metric" && changed.kind == "metric"
        && s.name in Family(changed.name))
    || (&& s.domain == "prometheus" && changed.domain == "prometheus" && s.kind == "label" && changed.kind == "label"
        && s.name == changed.name && s.parent in Family(changed.parent))
  }

  /** The reference could not be resolved and may be about the change. One that lacks only its labels may
      be about a changed label of the metric it names, and about nothing else. */
  predicate LeavesOpen(r: Reference, k: Change) {
    && r.requiresResolution
    && (r.resolutionScope == "labels" ==>
          && k.from.kind == "label" && r.symbol.kind == "metric"
          && r.symbol.name in Family(k.from.parent) + if k.to.Some? then Family(k.to.value.parent) else {})
  }

  /** The kinds of consumers whose loss has this impact. */
  ghost predicate Suffers(kind: ConsumerKind, impact: ImpactType) {
    match impact
    case VisibilityLoss => kind in {Dashboard, DashboardPanel, Query, Runbook}
    case AlertingRisk => kind == AlertRule
    case SloRisk => kind == Slo
    case ScalingRisk => kind == Autoscaler
    case DeploymentGateRisk => kind == DeploymentGate
    case AutomationRisk => kind == Automation
    case SemanticRisk => kind in {RecordingRule, Collector, SourceCode}
    case UnsupportedImpact(_) => false
  }

  /** The criticalities that reach a minimum. */
  function AtLeast(minimum: string): set<string> {
    if minimum == "low" then {"low", "medium", "high", "critical"}
    else if minimum == "medium" then {"medium", "high", "critical"}
    else if minimum == "high" then {"high", "critical"}
    else if minimum == "critical" then {"critical"}
    else {}
  }

  /** The policy blocks changes that affect such a consumer. */
  ghost predicate Guards(p: Policy, c: Consumer) {
    && p.mode == Enforce
    && exists i :: i in p.impacts && Suffers(c.kind, i)
         && p.impacts[i].action == BlockAction && c.criticality in AtLeast(p.impacts[i].minimumCriticality)
  }

  /** The policy can be applied: every mode, impact, action and minimum in it is a supported one. */
  ghost predicate Usable(p: Policy) {
    && p.mode in {Audit, WarnOnly, Enforce}
    && forall i :: i in p.impacts ==>
         && !i.UnsupportedImpact? && p.impacts[i].action in {WarnAction, BlockAction}
         && p.impacts[i].minimumCriticality in {"low", "medium", "high", "critical"}
  }

  // ----- the program's own tests mean this

  lemma FamilyMeans(reference: string, base: string)
    ensures MetricFamilyMatches(reference, base) <==> reference in Family(base)
  {
  }

  lemma MatchingMeans(s: Symbol, changed: Symbol)
    ensures SymbolMatches(s, changed) <==> Denotes(s, changed)
  {
    FamilyMeans(s.name, changed.name);
    FamilyMeans(s.parent, changed.parent);
  }

  lemma OpenMeans(r: Reference, k: Change)
    ensures UnresolvedReferenceApplies(r, k) <==> LeavesOpen(r, k)
  {
    FamilyMeans(r.symbol.name, k.from.parent);
    if k.to.Some? { FamilyMeans(r.symbol.name, k.to.value.parent); }
  }

  lemma RelevanceMeans(r: Reference, id: string, k: Change)
    ensures Relevant(r, id, k) <==> r.consumerId == id && (Denotes(r.symbol, k.from) || LeavesOpen(r, k))
  {
    MatchingMeans(r.symbol, k.from);
    OpenMeans(r, k);
  }

  lemma ImpactMeans(kind: ConsumerKind, impact: ImpactType)
    ensures TypeForConsumer(kind) == Some(impact) <==> Suffers(kind, impact)
  {
  }

  lemma LowerIsItself()
    ensures ToLower("") == "" && ToLower("low") == "low" && ToLower("medium") == "medium"
    ensures ToLower("high") == "high" && ToLower("critical") == "critical"
  {
    assert forall s: string, i :: 0 <= i < |s| && !('A' <= s[i] <= 'Z') ==> ToLower(s)[i] == s[i];
  }

  /** For the criticalities a valid finding and a valid policy have. */
  lemma RankMeans(c: string, minimum: string)
    requires ValidCriticality(minimum) && (c == "" || ValidCriticality(c))
    ensures CriticalityRank(c) >= CriticalityRank(minimum) <==> c in AtLeast(minimum)
  {
    LowerIsItself();
  }

  lemma PolicyMeans(p: Policy)
    ensures ValidPolicy(p) <==> Usable(p)
  {
  }

  /** A finding is valid exactly when it names its change and consumer, has the impact that consumers of the
      kind suffer and the consumer's criticality, which is a known one, or missing while in doubt. */
  lemma ValidityMeans(f: Finding)
    ensures ValidFinding(f) <==>
            && f.change.id != "" && f.consumer.id != "" && Suffers(f.consumer.kind, f.impact)
            && f.criticality == f.consumer.criticality
            && (f.criticality in {"low", "medium", "high", "critical"} || (f.criticality == "" && f.uncertain))
  {
    ImpactMeans(f.consumer.kind, f.impact);
  }
}
