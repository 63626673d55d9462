/** Policy applied to findings, and the aggregate status (internal/safety/evaluator.go). */
module Safety {
  import opened Ordering
  import opened Domain
  import opened Graphs
  import opened Impact
  import opened Findings

  datatype Status = PassStatus | WarnStatus | BlockStatus | IncompleteStatus | ErrorStatus

  datatype Mode = Audit | WarnOnly | Enforce | UnsupportedMode(text: string)

  datatype Action = WarnAction | BlockAction | UnsupportedAction(text: string)

  datatype ImpactRule = ImpactRule(minimumCriticality: string, action: Action)

  datatype Policy = Policy(mode: Mode, impacts: map<ImpactType, ImpactRule>)

  datatype Reason = Configured(action: Action) | BelowThreshold(minimum: string) | NotEnforced(mode: Mode)

  datatype Decision = Decision(
    changeId: string, consumerId: string, impact: ImpactType,
    configured: Action, effective: Action, reason: Reason)

  datatype Result = Result(
    status: Status, findings: seq<Finding>, decisions: seq<Decision>, diagnostics: seq<Diagnostic>)

  /** The documented precedence of the results of a completed run. */
  function Severity(s: Status): nat {
    match s
    case PassStatus => 0
    case WarnStatus => 1
    case BlockStatus => 2
    case IncompleteStatus => 3
    case ErrorStatus => 4
  }

  function ExitCode(s: Status): int {
    match s
    case PassStatus | WarnStatus => 0
    case BlockStatus => 2
    case IncompleteStatus => 3
    case ErrorStatus => 1
  }

  function CriticalityRank(c: string): nat {
    var l := ToLower(c);
    if l == CRITICAL then 4 else if l == HIGH then 3 else if l == MEDIUM then 2 else if l == LOW then 1 else 0
  }

  predicate ValidPolicy(p: Policy) {
    && !p.mode.UnsupportedMode?
    && forall k :: k in p.impacts ==>
         && !k.UnsupportedImpact? && !p.impacts[k].action.UnsupportedAction?
         && ValidCriticality(p.impacts[k].minimumCriticality)
  }

  predicate ValidFinding(f: Finding) {
    && f.change.id != "" && f.consumer.id != ""
    && !f.impact.UnsupportedImpact? && TypeForConsumer(f.consumer.kind) == Some(f.impact)
    && f.consumer.criticality == f.criticality
    && (ValidCriticality(f.criticality) || (f.criticality == "" && f.uncertain))
  }

  function ImpactText(i: ImpactType): string {
    match i
    case VisibilityLoss => "VISIBILITY_LOSS"
    case AlertingRisk => "ALERTING_RISK"
    case SloRisk => "SLO_RISK"
    case ScalingRisk => "SCALING_RISK"
    case DeploymentGateRisk => "DEPLOYMENT_GATE_RISK"
    case AutomationRisk => "AUTOMATION_RISK"
    case SemanticRisk => "SEMANTIC_RISK"
    case UnsupportedImpact(text) => text
  }

  function FindingOrder(f: Finding): Key {
    [Text(f.change.id), Text(f.consumer.id), Text(ImpactText(f.impact))]
  }

  /** The text findings are deduplicated by. */
  function FindingText(f: Finding): string {
    Join([f.change.id, f.consumer.id, ImpactText(f.impact)], '\0')
  }

  ghost predicate ValidFindings(fs: seq<Finding>) {
    && (forall f :: f in fs ==> ValidFinding(f))
    && (forall i, j :: 0 <= i < j < |fs| ==> FindingText(fs[i]) != FindingText(fs[j]))
  }

  const DEFAULT_RULE := ImpactRule(LOW, WarnAction)

  function RuleFor(p: Policy, i: ImpactType): ImpactRule { if i in p.impacts then p.impacts[i] else DEFAULT_RULE }

  function Decide(f: Finding, p: Policy): Decision {
    var rule := RuleFor(p, f.impact);
    var below := CriticalityRank(f.criticality) < CriticalityRank(rule.minimumCriticality);
    var action := if below then WarnAction else rule.action;
    var softened := p.mode != Enforce && action == BlockAction;
    Decision(f.change.id, f.consumer.id, f.impact, rule.action,
             if softened then WarnAction else action,
             if softened then NotEnforced(p.mode)
             else if below then BelowThreshold(rule.minimumCriticality)
             else Configured(rule.action))
  }

  function Decisions(fs: seq<Finding>, p: Policy): seq<Decision> {
    seq(|fs|, i requires 0 <= i < |fs| => Decide(fs[i], p))
  }

  function Aggregate(fs: seq<Finding>, decisions: seq<Decision>, diagnostics: seq<Diagnostic>): Status {
    if exists d :: d in diagnostics && d.required then IncompleteStatus
    else if exists f :: f in fs && f.uncertain then IncompleteStatus
    else if exists d :: d in decisions && d.effective == BlockAction then BlockStatus
    else if fs != [] || diagnostics != [] then WarnStatus
    else PassStatus
  }

  ghost function Evaluation(findings: seq<Finding>, diagnostics: seq<Diagnostic>, p: Policy): Result {
    var fs, ds := Sort(findings, FindingOrder), Sort(diagnostics, DiagnosticKey);
    if !ValidPolicy(p) || !ValidFindings(fs) then Result(ErrorStatus, fs, [], ds)
    else Result(Aggregate(fs, Decisions(fs, p), ds), fs, Decisions(fs, p), ds)
  }

  /** Without NULs in the IDs, the text of a valid finding tells its change, its consumer and its impact. */
  lemma FindingTextInjective(f: Finding, h: Finding)
    requires ValidFinding(f) && ValidFinding(h) && NulFree(f.change.id) && NulFree(h.change.id)
    requires NulFree(f.consumer.id) && NulFree(h.consumer.id)
    ensures FindingText(f) == FindingText(h) <==>
            f.change.id == h.change.id && f.consumer.id == h.consumer.id && f.impact == h.impact
  {
    var x, y := [ImpactText(f.impact)], [ImpactText(h.impact)];
    if FindingText(f) == FindingText(h) {
      assert [f.change.id, f.consumer.id, ImpactText(f.impact)] == [f.change.id] + ([f.consumer.id] + x);
      assert [h.change.id, h.consumer.id, ImpactText(h.impact)] == [h.change.id] + ([h.consumer.id] + y);
      JoinCut(f.change.id, h.change.id, [f.consumer.id] + x, [h.consumer.id] + y, '\0');
      JoinCut(f.consumer.id, h.consumer.id, x, y, '\0');
      ImpactTextInjective(f.impact, h.impact);
    }
  }

  lemma ImpactTextInjective(i: ImpactType, j: ImpactType)
    requires !i.UnsupportedImpact? && !j.UnsupportedImpact? && ImpactText(i) == ImpactText(j)
    ensures i == j
  {
    var s, t := ImpactText(i), ImpactText(j);
    assert s[0] == t[0] && s[1] == t[1] && s[2] == t[2];
  }

  // ----- the loops

  method ValidateFindings(fs: seq<Finding>) returns (ok: bool)
    ensures ok <==> ValidFindings(fs)
  {
    var seen: set<string> := {};
    var i := 0;
    while i < |fs|
      invariant i <= |fs|
      invariant forall t :: t in seen <==> exists j :: 0 <= j < i && FindingText(fs[j]) == t
      invariant forall j :: 0 <= j < i ==> ValidFinding(fs[j])
      invariant forall j, k :: 0 <= j < k < i ==> FindingText(fs[j]) != FindingText(fs[k])
    {
      if !ValidFinding(fs[i]) {
        assert fs[i] in fs;
        return false;
      }
      var text := FindingText(fs[i]);
      if text in seen {
        return false;
      }
      seen := seen + {text};
      i := i + 1;
    }
    ok := true;
  }

  method Evaluate(findings: seq<Finding>, diagnostics: seq<Diagnostic>, p: Policy) returns (r: Result)
    ensures r == Evaluation(findings, diagnostics, p)
  {
    var fs, ds := Sort(findings, FindingOrder), Sort(diagnostics, DiagnosticKey);
    if !ValidPolicy(p) {
      return Result(ErrorStatus, fs, [], ds);
    }
    var ok := ValidateFindings(fs);
    if !ok {
      return Result(ErrorStatus, fs, [], ds);
    }
    var decisions: seq<Decision> := [];
    var i := 0;
    while i < |fs|
      invariant i <= |fs| && |decisions| == i
      invariant forall j :: 0 <= j < i ==> decisions[j] == Decide(fs[j], p)
    {
      decisions := decisions + [Decide(fs[i], p)];
      i := i + 1;
    }
    assert decisions == Decisions(fs, p);
    r := Result(Aggregate(fs, decisions, ds), fs, decisions, ds);
  }

  // ----- what the status means

  /** A finding blocks when its rule says so, its criticality reaches the rule and the mode enforces. */
  ghost predicate Blocks(f: Finding, p: Policy) {
    var rule := RuleFor(p, f.impact);
    && p.mode == Enforce && rule.action == BlockAction
    && CriticalityRank(f.criticality) >= CriticalityRank(rule.minimumCriticality)
  }

  ghost predicate NeedsReview(findings: seq<Finding>, diagnostics: seq<Diagnostic>) {
    (exists d :: d in diagnostics && d.required) || (exists f :: f in findings && f.uncertain)
  }

  lemma SomethingBlocks(fs: seq<Finding>, p: Policy)
    ensures (exists d :: d in Decisions(fs, p) && d.effective == BlockAction) <==> exists f :: f in fs && Blocks(f, p)
  {
    var decisions := Decisions(fs, p);
    if d :| d in decisions && d.effective == BlockAction {
      var i :| 0 <= i < |decisions| && decisions[i] == d;
      assert fs[i] in fs && Blocks(fs[i], p);
    }
    if f :| f in fs && Blocks(f, p) {
      var i :| 0 <= i < |fs| && fs[i] == f;
      assert decisions[i] in decisions;
    }
  }

  /** The status of an evaluation that ends without error, from the findings alone. */
  lemma StatusMeaning(findings: seq<Finding>, diagnostics: seq<Diagnostic>, p: Policy)
    requires Evaluation(findings, diagnostics, p).status != ErrorStatus
    ensures var s := Evaluation(findings, diagnostics, p).status;
            && (s == IncompleteStatus <==> NeedsReview(findings, diagnostics))
            && (s == BlockStatus <==> !NeedsReview(findings, diagnostics) && exists f :: f in findings && Blocks(f, p))
            && (s == PassStatus <==> findings == [] && diagnostics == [])
  {
    var fs, ds := Sort(findings, FindingOrder), Sort(diagnostics, DiagnosticKey);
    SortKeeps(findings, FindingOrder);
    SortKeeps(diagnostics, DiagnosticKey);
    SomethingBlocks(fs, p);
  }
}
