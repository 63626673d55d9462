/** The canonical telemetry records (internal/domain). Fields that no decision reads
    (owners, runtime summaries, consumer metadata) are not carried. */
module Domain {
  import opened Ordering

  datatype Symbol = Symbol(domain: string, kind: string, name: string, parent: string)

  datatype SourceLocation = SourceLocation(file: string, line: int, column: int, url: string, repo: string)

  datatype ConsumerKind =
    | Dashboard | DashboardPanel | AlertRule | RecordingRule | Slo | Collector
    | Query | SourceCode | Runbook | Autoscaler | DeploymentGate | Automation
    | UnknownKind(text: string)

  datatype Consumer = Consumer(
    id: string, kind: ConsumerKind, name: string, source: SourceLocation,
    criticality: string, expression: string, unresolved: bool)

  datatype Evidence = Evidence(
    method_: string, confidence: string, source: SourceLocation, expression: string, explanation: string)

  datatype Reference = Reference(
    consumerId: string, symbol: Symbol, evidence: Evidence, usage: string, pattern: string,
    requiresResolution: bool, resolutionScope: string)

  datatype Production = Production(consumerId: string, symbol: Symbol)

  datatype Diagnostic = Diagnostic(adapter: string, source: SourceLocation, message: string, required: bool)

  datatype Discovery = Discovery(
    consumers: seq<Consumer>, references: seq<Reference>,
    productions: seq<Production>, diagnostics: seq<Diagnostic>)

  datatype Change = Change(
    id: string, kind: string, domain: string, from: Symbol, to: Option<Symbol>, metadata: map<string, string>)

  const PROMETHEUS := "prometheus"
  const METRIC := "metric"
  const LABEL := "label"
  const LABEL_SCOPE := "labels"

  const LOW := "low"
  const MEDIUM := "medium"
  const HIGH := "high"
  const CRITICAL := "critical"

  predicate ValidCriticality(c: string) {
    c == LOW || c == MEDIUM || c == HIGH || c == CRITICAL
  }

  /** Lower-casing of ASCII letters. */
  function ToLower(s: string): (r: string)
    ensures |r| == |s|
    ensures forall i :: 0 <= i < |s| ==> r[i] == if 'A' <= s[i] <= 'Z' then s[i] + ' ' else s[i]
  {
    seq(|s|, i requires 0 <= i < |s| => if 'A' <= s[i] <= 'Z' then s[i] + ' ' else s[i])
  }

  // Sort keys: the fields each comparison looks at, in order.

  function ConsumerKey(c: Consumer): Key { [Text(c.id)] }

  function ChangeKey(c: Change): Key { [Text(c.id)] }

  function SourceKey(s: SourceLocation): Key {
    [Text(s.file), Number(s.line), Number(s.column), Text(s.url), Text(s.repo)]
  }

  function ReferenceKey(r: Reference): Key {
    [Text(r.symbol.domain), Text(r.symbol.kind), Text(r.symbol.parent), Text(r.symbol.name)]
    + SourceKey(r.evidence.source)
    + [Text(r.evidence.method_), Text(r.evidence.confidence), Text(r.evidence.expression),
       Text(r.evidence.explanation), Text(r.usage), Text(r.pattern), Flag(r.requiresResolution),
       Text(r.resolutionScope)]
  }

  function DiagnosticKey(d: Diagnostic): Key {
    [Text(d.adapter)] + SourceKey(d.source) + [Text(d.message), Flag(d.required)]
  }

  /** The reference comparison looks at every field but the consumer. */
  lemma ReferenceKeyInjective(a: Reference, b: Reference)
    requires ReferenceKey(a) == ReferenceKey(b) && a.consumerId == b.consumerId
    ensures a == b
  {
    var p, q := ReferenceKey(a), ReferenceKey(b);
    assert forall i :: 0 <= i < 17 ==> p[i] == q[i];
    assert p[0] == q[0] && p[1] == q[1] && p[2] == q[2] && p[3] == q[3] && p[4] == q[4] && p[5] == q[5];
    assert p[6] == q[6] && p[7] == q[7] && p[8] == q[8] && p[9] == q[9] && p[10] == q[10] && p[11] == q[11];
    assert p[12] == q[12] && p[13] == q[13] && p[14] == q[14] && p[15] == q[15] && p[16] == q[16];
  }

  /** The diagnostic comparison looks at every field. */
  lemma DiagnosticKeyInjective(a: Diagnostic, b: Diagnostic)
    requires DiagnosticKey(a) == DiagnosticKey(b)
    ensures a == b
  {
    var p, q := DiagnosticKey(a), DiagnosticKey(b);
    assert p[0] == q[0] && p[1] == q[1] && p[2] == q[2] && p[3] == q[3];
    assert p[4] == q[4] && p[5] == q[5] && p[6] == q[6] && p[7] == q[7];
  }

  ghost predicate DistinctConsumerIds(cs: seq<Consumer>) {
    forall i, j :: 0 <= i < j < |cs| ==> cs[i].id != cs[j].id
  }

  ghost predicate DistinctChangeIds(cs: seq<Change>) {
    forall i, j :: 0 <= i < j < |cs| ==> cs[i].id != cs[j].id
  }
}
