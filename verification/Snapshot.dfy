/** Telemetry snapshots and their comparison (internal/snapshot). Strings are byte sequences. */
module Snapshots {
  import opened Ordering
  import opened Domain

  datatype Metric = Metric(name: string, typ: string, unit: string, labels: seq<string>)

  datatype Snapshot = Snapshot(apiVersion: string, kind: string, name: string, domain: string, metrics: seq<Metric>)

  datatype DifferenceKind =
    | MetricRemoved | LabelRemoved | TypeChanged | UnitChanged | MetadataUnavailable | MetricAdded | LabelAdded

  datatype Difference = Difference(
    kind: DifferenceKind, metric: string, labelName: string, field: string, before: string, after: string)

  // ----- validation and normalisation

  const MAX_METRICS := 100_000
  const MAX_LABELS := 256
  const MAX_NAME := 1024
  const METRIC_TYPES :=
    {"counter", "gauge", "histogram", "gaugehistogram", "summary", "info", "stateset", "unknown", "untyped"}

  predicate Blank(s: string) { forall c :: c in s ==> c in " \t\n\r" || c == 11 as char || c == 12 as char }

  predicate ValidLabel(l: string) { !Blank(l) && l != "__name__" && |l| <= MAX_NAME }

  predicate ValidName(n: string) { !Blank(n) && |n| <= MAX_NAME }

  ghost predicate ValidLabels(labels: seq<string>) {
    (forall l :: l in labels ==> ValidLabel(l)) && Distinct(labels)
  }

  ghost predicate ValidMetric(m: Metric) {
    && ValidName(m.name) && m.typ in METRIC_TYPES && |m.unit| <= MAX_NAME && |m.labels| <= MAX_LABELS
    && ValidLabels(m.labels)
  }

  ghost predicate DistinctNames(ms: seq<Metric>) { forall i, j :: 0 <= i < j < |ms| ==> ms[i].name != ms[j].name }

  ghost predicate ValidMetrics(ms: seq<Metric>) { (forall m :: m in ms ==> ValidMetric(m)) && DistinctNames(ms) }

  predicate ValidHeader(s: Snapshot) {
    && s.apiVersion == "tcg/v1alpha1" && s.kind == "TelemetrySnapshot" && ValidName(s.name)
    && s.domain == PROMETHEUS && |s.metrics| <= MAX_METRICS
  }

  ghost predicate ValidSnapshot(s: Snapshot) { ValidHeader(s) && ValidMetrics(s.metrics) }

  /** The text is 1 to 1024 bytes long and not only white space. */
  ghost predicate Names(s: string) {
    |s| <= 1024 && exists i :: 0 <= i < |s| && s[i] !in {' ', '\t', '\n', '\r', 11 as char, 12 as char}
  }

  /** A snapshot is valid exactly when its header names a Prometheus snapshot and it has at most 100000
      differently named metrics, each of a known type with a unit of at most 1024 bytes and at most 256
      different labels other than the metric name. */
  lemma ValidityIsExact(s: Snapshot)
    ensures ValidSnapshot(s) <==>
            && s.apiVersion == "tcg/v1alpha1" && s.kind == "TelemetrySnapshot" && s.domain == "prometheus"
            && Names(s.name) && |s.metrics| <= 100000
            && (forall i, j :: 0 <= i < j < |s.metrics| ==> s.metrics[i].name != s.metrics[j].name)
            && forall m :: m in s.metrics ==>
                 && Names(m.name) && |m.unit| <= 1024 && |m.labels| <= 256 && Distinct(m.labels)
                 && (m.typ in {"counter", "gauge", "histogram", "gaugehistogram", "summary", "info", "stateset"}
                     || m.typ in {"unknown", "untyped"})
                 && forall l :: l in m.labels ==> Names(l) && l != "__name__"
  {
    forall n ensures ValidName(n) <==> Names(n) { BlankMeans(n); }
  }

  lemma BlankMeans(s: string)
    ensures Blank(s) <==>
            forall i :: 0 <= i < |s| ==> s[i] in {' ', '\t', '\n', '\r', 11 as char, 12 as char}
  {
    var space := " \t\n\r";
    assert space[0] in space && space[1] in space && space[2] in space && space[3] in space;
    forall i | 0 <= i < |s| && Blank(s) ensures s[i] in {' ', '\t', '\n', '\r', 11 as char, 12 as char} {
      assert s[i] in s;
    }
  }

  function MetricKey(m: Metric): Key { [Text(m.name)] }

  function WithSortedLabels(m: Metric): Metric { m.(labels := Sort(m.labels, ByName)) }

  function LabelsSorted(ms: seq<Metric>): seq<Metric> {
    seq(|ms|, i requires 0 <= i < |ms| => WithSortedLabels(ms[i]))
  }

  function Normalized(s: Snapshot): Snapshot { s.(metrics := Sort(LabelsSorted(s.metrics), MetricKey)) }

  lemma LabelsNext(labels: seq<string>, i: nat, issues: bool, seen: set<string>)
    requires i < |labels| && (!issues <==> ValidLabels(labels[..i]))
    requires !issues ==> forall l :: l in seen <==> l in labels[..i]
    ensures ValidLabels(labels[..i + 1]) <==> !issues && ValidLabel(labels[i]) && labels[i] !in seen
  {
    var now, next := labels[..i], labels[..i + 1];
    assert next == now + [labels[i]];
    if ValidLabels(next) {
      assert forall l :: l in now ==> l in next;
      assert labels[i] in next;
      assert ValidLabels(now) by {
        forall a, b | 0 <= a < b < i ensures now[a] != now[b] { assert next[a] != next[b]; }
      }
      assert labels[i] !in now by { forall a | 0 <= a < i ensures now[a] != labels[i] { assert next[a] != next[i]; } }
    }
  }

  /** Whether the labels of one metric are in order. */
  method CheckLabels(labels: seq<string>) returns (ok: bool)
    ensures ok <==> ValidLabels(labels)
  {
    ok := true;
    var seen := {};
    for i := 0 to |labels|
      invariant ok <==> ValidLabels(labels[..i])
      invariant ok ==> forall l :: l in seen <==> l in labels[..i]
    {
      LabelsNext(labels, i, !ok, seen);
      assert labels[..i + 1] == labels[..i] + [labels[i]];
      if Blank(labels[i]) || labels[i] == "__name__" || |labels[i]| > MAX_NAME || labels[i] in seen {
        ok := false;
      } else {
        seen := seen + {labels[i]};
      }
    }
    assert labels[..|labels|] == labels;
  }

  ghost predicate NamesOf(seen: set<string>,
                          ms: seq<Metric>) { forall n :: n in seen <==> exists m :: m in ms && m.name == n }

  /** What is known after some metrics: whether all are valid and, if so, their names. */
  ghost predicate Tracks(ok: bool, seen: set<string>, ms: seq<Metric>) {
    if ok then ValidMetrics(ms) && NamesOf(seen, ms) else !ValidMetrics(ms)
  }

  lemma OneMoreMetric(now: seq<Metric>, m: Metric, seen: set<string>)
    requires ValidMetrics(now) && NamesOf(seen, now)
    ensures ValidMetrics(now + [m]) <==> ValidMetric(m) && m.name !in seen
    ensures NamesOf(seen + {m.name}, now + [m])
  {
    var next := now + [m];
    assert next[|now|] == m && m in next && forall x :: x in now ==> x in next;
    if ValidMetrics(next) {
      forall a | 0 <= a < |now| ensures now[a].name != m.name { assert next[a].name != next[|now|].name; }
    }
  }

  lemma StillInvalid(now: seq<Metric>, m: Metric)
    requires !ValidMetrics(now)
    ensures !ValidMetrics(now + [m])
  {
    var next := now + [m];
    if ValidMetrics(next) {
      assert forall x :: x in now ==> x in next;
      forall a, b | 0 <= a < b < |now| ensures now[a].name != now[b].name { assert next[a].name != next[b].name; }
    }
  }

  lemma MetricsNext(ms: seq<Metric>, i: nat, ok: bool, seen: set<string>)
    requires i < |ms| && Tracks(ok, seen, ms[..i])
    ensures var fine := ok && ValidMetric(ms[i]) && ms[i].name !in seen;
            if fine then Tracks(true, seen + {ms[i].name}, ms[..i + 1]) else !ValidMetrics(ms[..i + 1])
  {
    assert ms[..i + 1] == ms[..i] + [ms[i]];
    if ok { OneMoreMetric(ms[..i], ms[i], seen); } else { StillInvalid(ms[..i], ms[i]); }
  }

  lemma LabelsSortedNext(ms: seq<Metric>, i: nat)
    requires i < |ms|
    ensures LabelsSorted(ms[..i + 1]) == LabelsSorted(ms[..i]) + [WithSortedLabels(ms[i])]
  {
  }

  /** Validates a snapshot while putting labels and metrics in order. */
  method Normalize(s: Snapshot) returns (ok: bool, r: Snapshot)
    ensures ok <==> ValidSnapshot(s)
    ensures r == Normalized(s)
  {
    ok := s.apiVersion == "tcg/v1alpha1" && s.kind == "TelemetrySnapshot" && ValidName(s.name)
      && s.domain == PROMETHEUS && |s.metrics| <= MAX_METRICS;
    var metricsOk, metrics := CheckMetrics(s.metrics);
    ok := ok && metricsOk;
    r := s.(metrics := Sort(metrics, MetricKey));
  }

  /** Whether one metric is in order, its name included. */
  method CheckMetric(m: Metric, seen: set<string>) returns (ok: bool, named: bool)
    ensures ok <==> ValidMetric(m) && m.name !in seen
    ensures ok ==> named
  {
    var labelsOk := CheckLabels(m.labels);
    named := ValidName(m.name) && m.name !in seen;
    ok := named && m.typ in METRIC_TYPES && |m.unit| <= MAX_NAME && |m.labels| <= MAX_LABELS && labelsOk;
  }

  method CheckMetrics(ms: seq<Metric>) returns (ok: bool, sorted: seq<Metric>)
    ensures ok <==> ValidMetrics(ms)
    ensures sorted == LabelsSorted(ms)
  {
    ok, sorted := true, [];
    var seen := {};
    for i := 0 to |ms|
      invariant Tracks(ok, seen, ms[..i])
      invariant sorted == LabelsSorted(ms[..i])
    {
      MetricsNext(ms, i, ok, seen);
      LabelsSortedNext(ms, i);
      var metricOk, named := CheckMetric(ms[i], seen);
      if named {
        seen := seen + {ms[i].name};
      }
      if !metricOk {
        ok := false;
      }
      sorted := sorted + [ms[i].(labels := Sort(ms[i].labels, ByName))];
    }
    assert ms[..|ms|] == ms;
  }
}
