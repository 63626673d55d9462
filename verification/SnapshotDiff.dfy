/** Comparing a candidate snapshot with its baseline (internal/snapshot/diff.go). */
module SnapshotDiff {
  import opened Ordering
  import opened Domain
  import opened Graphs
  import opened Snapshots

  // ----- what counts as a difference

  predicate KnownType(t: string) { t != "" && t != "unknown" }

  predicate TypeDelta(x: Metric, y: Metric, d: Difference) {
    var kind := if d.kind == TypeChanged then TypeChanged else MetadataUnavailable;
    && d == Difference(kind, x.name, "", "type", x.typ, y.typ)
    && if d.kind == TypeChanged then KnownType(x.typ) && KnownType(y.typ) && x.typ != y.typ
       else KnownType(x.typ) != KnownType(y.typ)
  }

  predicate UnitDelta(x: Metric, y: Metric, d: Difference) {
    var kind := if d.kind == UnitChanged then UnitChanged else MetadataUnavailable;
    && d == Difference(kind, x.name, "", "unit", x.unit, y.unit)
    && if d.kind == UnitChanged then x.unit != "" && y.unit != "" && x.unit != y.unit
       else (x.unit == "") != (y.unit == "")
  }

  predicate LabelDelta(x: Metric, y: Metric, d: Difference) {
    && d == Difference(if d.kind == LabelAdded then LabelAdded else LabelRemoved, x.name, d.labelName, "", "", "")
    && if d.kind == LabelAdded then d.labelName in y.labels && d.labelName !in x.labels
       else d.labelName in x.labels && d.labelName !in y.labels
  }

  /** The difference tells two versions of one metric apart. */
  predicate MetricDelta(x: Metric, y: Metric, d: Difference) {
    TypeDelta(x, y, d) || UnitDelta(x, y, d) || LabelDelta(x, y, d)
  }

  ghost predicate Named(ms: seq<Metric>, name: string) { exists m :: m in ms && m.name == name }

  ghost predicate Delta(b: seq<Metric>, c: seq<Metric>, d: Difference) {
    || (d == Difference(MetricAdded, d.metric, "", "", "", "") && Named(c, d.metric) && !Named(b, d.metric))
    || (d == Difference(MetricRemoved, d.metric, "", "", "", "") && Named(b, d.metric) && !Named(c, d.metric))
    || Changed(b, c, d)
  }

  /** A metric in both snapshots differs in this way. */
  ghost predicate Changed(b: seq<Metric>, c: seq<Metric>, d: Difference) {
    exists x, y :: x in b && y in c && x.name == y.name && MetricDelta(x, y, d)
  }

  function Rank(k: DifferenceKind): int {
    match k
    case MetricRemoved => 0
    case LabelRemoved => 1
    case TypeChanged => 2
    case UnitChanged => 3
    case MetadataUnavailable => 4
    case MetricAdded => 5
    case LabelAdded => 6
  }

  function DifferenceKey(d: Difference): Key {
    [Text(d.metric), Number(Rank(d.kind)), Text(d.labelName), Text(d.field)]
  }

  /** The differences are listed once each, in order, and none is missing. */
  ghost predicate Lists(ds: seq<Difference>, b: seq<Metric>, c: seq<Metric>) {
    SortedBy(ds, DifferenceKey) && Distinct(ds) && forall d :: d in ds <==> Delta(b, c, d)
  }

  // ----- comparing one metric

  /** The list holds exactly the differences that satisfy the predicate. */
  ghost predicate Exactly(ds: seq<Difference>, p: Difference -> bool) {
    Distinct(ds) && forall d :: d in ds <==> p(d)
  }

  lemma ExactlyEither(a: seq<Difference>, b: seq<Difference>, p: Difference -> bool, q: Difference -> bool,
                      both: Difference -> bool)
    requires Exactly(a, p) && Exactly(b, q) && (forall d :: !(p(d) && q(d))) && forall d :: both(d) <==> p(d) || q(d)
    ensures Exactly(a + b, both)
  {
    forall d | d in a ensures d !in b { assert p(d); }
    DistinctAppend(a, b);
    forall d ensures d in a + b <==> both(d) {}
  }

  method CompareType(x: Metric, y: Metric) returns (r: seq<Difference>)
    ensures Exactly(r, d => TypeDelta(x, y, d))
  {
    if KnownType(x.typ) && KnownType(y.typ) && x.typ != y.typ {
      r := [Difference(TypeChanged, x.name, "", "type", x.typ, y.typ)];
    } else if KnownType(x.typ) != KnownType(y.typ) {
      r := [Difference(MetadataUnavailable, x.name, "", "type", x.typ, y.typ)];
    } else {
      r := [];
    }
  }

  method CompareUnit(x: Metric, y: Metric) returns (r: seq<Difference>)
    ensures Exactly(r, d => UnitDelta(x, y, d))
  {
    if x.unit != "" && y.unit != "" && x.unit != y.unit {
      r := [Difference(UnitChanged, x.name, "", "unit", x.unit, y.unit)];
    } else if (x.unit != "") != (y.unit != "") {
      r := [Difference(MetadataUnavailable, x.name, "", "unit", x.unit, y.unit)];
    } else {
      r := [];
    }
  }

  ghost predicate LabelsCovered(x: Metric, y: Metric, labels: seq<string>, r: seq<Difference>) {
    Distinct(r) && forall d :: d in r <==> LabelDelta(x, y, d) && d.labelName in labels
  }

  function LabelDifferences(x: Metric, y: Metric, l: string): seq<Difference> {
    if l !in x.labels && l in y.labels then [Difference(LabelAdded, x.name, l, "", "", "")]
    else if l in x.labels && l !in y.labels then [Difference(LabelRemoved, x.name, l, "", "", "")]
    else []
  }

  lemma LabelsCoveredNext(x: Metric, y: Metric, labels: seq<string>, i: nat, r: seq<Difference>)
    requires Distinct(labels) && i < |labels| && LabelsCovered(x, y, labels[..i], r)
    ensures LabelsCovered(x, y, labels[..i + 1], r + LabelDifferences(x, y, labels[i]))
  {
    var l := labels[i];
    var more := LabelDifferences(x, y, l);
    assert labels[..i + 1] == labels[..i] + [l];
    NotEarlier(labels, i);
    forall d ensures d in more <==> LabelDelta(x, y, d) && d.labelName == l {}
    DistinctAppend(r, more);
    forall d ensures d in r + more <==> LabelDelta(x, y, d) && d.labelName in labels[..i + 1] {
      assert d in r + more <==> d in r || d in more;
    }
  }

  method CompareLabel(x: Metric, y: Metric, before: set<string>, after: set<string>, l: string)
    returns (r: seq<Difference>)
    requires (l in before <==> l in x.labels) && (l in after <==> l in y.labels) && l in before + after
    ensures r == LabelDifferences(x, y, l)
  {
    r := [];
    if l !in before {
      r := [Difference(LabelAdded, x.name, l, "", "", "")];
    } else if l !in after {
      r := [Difference(LabelRemoved, x.name, l, "", "", "")];
    }
  }

  method CompareLabels(x: Metric, y: Metric) returns (r: seq<Difference>)
    ensures Exactly(r, d => LabelDelta(x, y, d))
  {
    var before, after := (set l | l in x.labels), (set l | l in y.labels);
    var labels := SortedNames(before + after);
    r := [];
    var i := 0;
    assert labels[..0] == [];
    while i < |labels|
      invariant 0 <= i <= |labels| && LabelsCovered(x, y, labels[..i], r)
    {
      assert labels[i] in labels;
      var more := CompareLabel(x, y, before, after, labels[i]);
      LabelsCoveredNext(x, y, labels, i, r);
      r, i := r + more, i + 1;
    }
    LabelsCoveredAll(x, y, labels, r);
  }

  lemma LabelsCoveredAll(x: Metric, y: Metric, labels: seq<string>, r: seq<Difference>)
    requires LabelsCovered(x, y, labels[..|labels|], r) && forall l :: l in x.labels || l in y.labels ==> l in labels
    ensures Exactly(r, d => LabelDelta(x, y, d))
  {
    assert labels[..|labels|] == labels;
  }

  lemma NotEarlier(s: seq<string>, i: nat)
    requires Distinct(s) && i < |s|
    ensures s[i] !in s[..i]
  {
  }

  method CompareMetric(x: Metric, y: Metric) returns (r: seq<Difference>)
    ensures Exactly(r, d => MetricDelta(x, y, d))
  {
    r := CompareType(x, y);
    var units := CompareUnit(x, y);
    ExactlyEither(r, units, d => TypeDelta(x, y, d), d => UnitDelta(x, y, d),
                  d => TypeDelta(x, y, d) || UnitDelta(x, y, d));
    r := r + units;
    var labels := CompareLabels(x, y);
    ExactlyEither(r, labels, d => TypeDelta(x, y, d) || UnitDelta(x, y, d), d => LabelDelta(x, y, d),
                  d => MetricDelta(x, y, d));
    r := r + labels;
  }

  // ----- comparing all metrics

  ghost predicate Indexes(m: map<string, Metric>, ms: seq<Metric>) {
    && (forall n :: n in m ==> m[n] in ms && m[n].name == n)
    && (forall x :: x in ms ==> x.name in m && m[x.name] == x)
  }

  method MetricIndex(ms: seq<Metric>) returns (m: map<string, Metric>)
    requires DistinctNames(ms)
    ensures Indexes(m, ms)
  {
    m := map[];
    for i := 0 to |ms|
      invariant Indexes(m, ms[..i])
    {
      IndexNext(m, ms, i);
      m := m[ms[i].name := ms[i]];
    }
    assert ms[..|ms|] == ms;
  }

  lemma IndexNext(m: map<string, Metric>, ms: seq<Metric>, i: nat)
    requires DistinctNames(ms) && i < |ms| && Indexes(m, ms[..i])
    ensures Indexes(m[ms[i].name := ms[i]], ms[..i + 1])
  {
    assert ms[..i + 1] == ms[..i] + [ms[i]];
    forall x | x in ms[..i] ensures x.name != ms[i].name {
      var j :| 0 <= j < i && ms[j] == x;
      assert ms[j].name != ms[i].name;
    }
  }

  predicate NameDelta(b: map<string, Metric>, c: map<string, Metric>, name: string, d: Difference) {
    if name !in b then name in c && d == Difference(MetricAdded, name, "", "", "", "")
    else if name !in c then d == Difference(MetricRemoved, name, "", "", "", "")
    else MetricDelta(b[name], c[name], d)
  }

  /** What the index says about one name is what the snapshots say. */
  lemma NameDeltaIsDelta(bm: map<string, Metric>, cm: map<string, Metric>, b: seq<Metric>, c: seq<Metric>,
                         d: Difference)
    requires Indexes(bm, b) && Indexes(cm, c)
    ensures NameDelta(bm, cm, d.metric, d) <==> Delta(b, c, d)
  {
    var n := d.metric;
    assert n in bm <==> Named(b, n);
    assert n in cm <==> Named(c, n);
    if n in bm && n in cm {
      forall x, y | x in b && y in c && x.name == y.name && MetricDelta(x, y, d) ensures x == bm[n] && y == cm[n] {}
    }
  }

  method CompareMetrics(b: seq<Metric>, c: seq<Metric>) returns (ds: seq<Difference>)
    requires DistinctNames(b) && DistinctNames(c)
    ensures Lists(ds, b, c)
  {
    var bm := MetricIndex(b);
    var cm := MetricIndex(c);
    var names := SortedNames(bm.Keys + cm.Keys);
    ds := CompareNames(bm, cm, names);
    forall d ensures d in ds <==> Delta(b, c, d) { NameDeltaIsDelta(bm, cm, b, c, d); }
    SortDifferences(ds);
    ds := Sort(ds, DifferenceKey);
  }

  lemma SortDifferences(ds: seq<Difference>)
    requires Distinct(ds)
    ensures var r := Sort(ds, DifferenceKey);
            SortedBy(r, DifferenceKey) && Distinct(r) && forall d :: d in r <==> d in ds
  {
    SortSorted(ds, DifferenceKey);
    DistinctPermutation(ds, Sort(ds, DifferenceKey));
    SameElements(ds, Sort(ds, DifferenceKey));
  }

  ghost predicate Covered(b: map<string, Metric>, c: map<string, Metric>, names: seq<string>, ds: seq<Difference>) {
    Distinct(ds) && forall d :: d in ds <==> d.metric in names && NameDelta(b, c, d.metric, d)
  }

  lemma CoveredNext(b: map<string, Metric>, c: map<string, Metric>, names: seq<string>, n: string,
                    ds: seq<Difference>, more: seq<Difference>)
    requires Covered(b, c, names, ds) && n !in names && Exactly(more, d => NameDelta(b, c, n, d))
    requires n in b && n in c ==> b[n].name == n
    ensures Covered(b, c, names + [n], ds + more)
  {
    forall d | d in more ensures d.metric == n { assert NameDelta(b, c, n, d); }
    DistinctAppend(ds, more);
    forall d ensures d in ds + more <==> d.metric in names + [n] && NameDelta(b, c, d.metric, d) {
      assert d in more <==> NameDelta(b, c, n, d);
    }
  }

  method CompareNames(b: map<string, Metric>, c: map<string, Metric>, names: seq<string>) returns (ds: seq<Difference>)
    requires Distinct(names) && (forall n :: n in names ==> n in b || n in c)
    requires forall n :: n in b ==> b[n].name == n
    ensures Covered(b, c, names, ds)
  {
    ds := [];
    for i := 0 to |names|
      invariant Covered(b, c, names[..i], ds)
    {
      var n := names[i];
      assert n in names;
      var more;
      if n !in b {
        more := [Difference(MetricAdded, n, "", "", "", "")];
      } else if n !in c {
        more := [Difference(MetricRemoved, n, "", "", "", "")];
      } else {
        more := CompareMetric(b[n], c[n]);
      }
      NotEarlier(names, i);
      CoveredNext(b, c, names[..i], n, ds, more);
      assert names[..i + 1] == names[..i] + [n];
      ds := ds + more;
    }
    assert names[..|names|] == names;
  }

  // ----- what does not depend on order

  predicate Alike(x: Metric, y: Metric) {
    && x.name == y.name && x.typ == y.typ && x.unit == y.unit
    && (forall l :: l in x.labels ==> l in y.labels) && (forall l :: l in y.labels ==> l in x.labels)
  }

  ghost predicate Includes(a: seq<Metric>, b: seq<Metric>) {
    forall x :: x in b ==> exists y :: y in a && Alike(x, y)
  }

  /** The same metrics with the same labels, in whatever order. */
  ghost predicate SameContract(a: seq<Metric>, b: seq<Metric>) { Includes(a, b) && Includes(b, a) }

  lemma DeltaAlike(x: Metric, y: Metric, v: Metric, w: Metric, d: Difference)
    requires Alike(x, v) && Alike(y, w) && MetricDelta(x, y, d)
    ensures MetricDelta(v, w, d)
  {
  }

  lemma ChangedTransfers(a: seq<Metric>, b: seq<Metric>, c: seq<Metric>, e: seq<Metric>, d: Difference)
    requires Includes(b, a) && Includes(e, c) && Changed(a, c, d)
    ensures Changed(b, e, d)
  {
    var x, y :| x in a && y in c && x.name == y.name && MetricDelta(x, y, d);
    var v :| v in b && Alike(x, v);
    var w :| w in e && Alike(y, w);
    DeltaAlike(x, y, v, w, d);
  }

  lemma DeltaTransfers(a: seq<Metric>, b: seq<Metric>, c: seq<Metric>, e: seq<Metric>, d: Difference)
    requires SameContract(a, b) && SameContract(c, e) && Delta(a, c, d)
    ensures Delta(b, e, d)
  {
    if Changed(a, c, d) {
      ChangedTransfers(a, b, c, e, d);
    } else {
    }
  }

  lemma SameDeltas(a: seq<Metric>, b: seq<Metric>, c: seq<Metric>, e: seq<Metric>, d: Difference)
    requires SameContract(a, b) && SameContract(c, e)
    ensures Delta(a, c, d) <==> Delta(b, e, d)
  {
    if Delta(a, c, d) { DeltaTransfers(a, b, c, e, d); }
    if Delta(b, e, d) { DeltaTransfers(b, a, e, c, d); }
  }

  ghost predicate UniqueNames(ms: seq<Metric>) { forall x, y :: x in ms && y in ms && x.name == y.name ==> x == y }

  lemma DistinctNamesAreUnique(ms: seq<Metric>)
    requires DistinctNames(ms)
    ensures UniqueNames(ms)
  {
    forall x, y | x in ms && y in ms && x.name == y.name ensures x == y {
      var i :| 0 <= i < |ms| && ms[i] == x;
      var j :| 0 <= j < |ms| && ms[j] == y;
    }
  }

  lemma KeyParts(d: Difference, e: Difference)
    requires DifferenceKey(d) == DifferenceKey(e)
    ensures d.metric == e.metric && d.kind == e.kind && d.labelName == e.labelName && d.field == e.field
  {
    var p, q := DifferenceKey(d), DifferenceKey(e);
    assert p[0] == q[0] && p[1] == q[1] && p[2] == q[2] && p[3] == q[3];
  }

  /** What the sort compares determines a difference. */
  lemma KeyDeterminesDelta(b: seq<Metric>, c: seq<Metric>, d: Difference, e: Difference)
    requires UniqueNames(b) && UniqueNames(c)
    requires Delta(b, c, d) && Delta(b, c, e) && DifferenceKey(d) == DifferenceKey(e)
    ensures d == e
  {
    KeyParts(d, e);
    if d.kind != MetricAdded && d.kind != MetricRemoved {
      var x, y :| x in b && y in c && x.name == y.name && MetricDelta(x, y, d);
      var v, w :| v in b && w in c && v.name == w.name && MetricDelta(v, w, e);
      assert v == x && w == y;
    }
  }

  /** There is only one list of differences, whatever order metrics and labels come in. */
  lemma DifferencesAreUnique(a: seq<Metric>, b: seq<Metric>, c: seq<Metric>, e: seq<Metric>, ds: seq<Difference>,
                             es: seq<Difference>)
    requires SameContract(a, b) && SameContract(c, e) && DistinctNames(a) && DistinctNames(c)
    requires Lists(ds, a, c) && Lists(es, b, e)
    ensures ds == es
  {
    forall d ensures d in ds <==> d in es { SameDeltas(a, b, c, e, d); }
    var all := set d | d in ds;
    DistinctMultiset(ds, all);
    DistinctMultiset(es, all);
    DistinctNamesAreUnique(a);
    DistinctNamesAreUnique(c);
    forall d, x | d in ds && x in ds && DifferenceKey(d) == DifferenceKey(x) ensures d == x {
      KeyDeterminesDelta(a, c, d, x);
    }
    SortUnique(ds, es, DifferenceKey);
  }

  lemma SortedLabelsAlike(m: Metric)
    ensures Alike(m, WithSortedLabels(m)) && Alike(WithSortedLabels(m), m)
  {
    SameElements(m.labels, Sort(m.labels, ByName));
  }

  lemma LabelsSortedIncludes(ms: seq<Metric>)
    ensures Includes(LabelsSorted(ms), ms) && Includes(ms, LabelsSorted(ms))
    ensures DistinctNames(ms) ==> DistinctNames(LabelsSorted(ms))
  {
    var ls := LabelsSorted(ms);
    forall x | x in ms ensures exists y :: y in ls && Alike(x, y) {
      var i :| 0 <= i < |ms| && ms[i] == x;
      SortedLabelsAlike(x);
      assert ls[i] in ls;
    }
    forall y | y in ls ensures exists x :: x in ms && Alike(y, x) {
      var i :| 0 <= i < |ls| && ls[i] == y;
      SortedLabelsAlike(ms[i]);
    }
  }

  lemma IncludesSorted(a: seq<Metric>, b: seq<Metric>, key: Metric -> Key)
    requires SameContract(a, b)
    ensures SameContract(a, Sort(b, key))
  {
    SameElements(b, Sort(b, key));
  }

  /** Putting a snapshot in order changes nothing about what it says. */
  lemma NormalizedIsSame(s: Snapshot)
    ensures SameContract(s.metrics, Normalized(s).metrics)
    ensures DistinctNames(s.metrics) ==> DistinctNames(Normalized(s).metrics)
  {
    LabelsSortedIncludes(s.metrics);
    IncludesSorted(s.metrics, LabelsSorted(s.metrics), MetricKey);
    if DistinctNames(s.metrics) {
      SortKeepsNamesDistinct(LabelsSorted(s.metrics));
    }
  }

  lemma SortKeepsNamesDistinct(ls: seq<Metric>)
    requires DistinctNames(ls)
    ensures DistinctNames(Sort(ls, MetricKey))
  {
    var r := Sort(ls, MetricKey);
    assert Distinct(ls) by {
      forall i, j | 0 <= i < j < |ls| ensures ls[i] != ls[j] { assert ls[i].name != ls[j].name; }
    }
    DistinctPermutation(ls, r);
    SameElements(ls, r);
    DistinctNamesAreUnique(ls);
    forall i, j | 0 <= i < j < |r| ensures r[i].name != r[j].name { assert r[i] in ls && r[j] in ls && r[i] != r[j]; }
  }

  // ----- changes and diagnostics

  predicate Removal(d: Difference) { d.kind == MetricRemoved || d.kind == LabelRemoved }

  predicate Drift(d: Difference) { d.kind == TypeChanged || d.kind == UnitChanged || d.kind == MetadataUnavailable }

  /** A required diagnostic about a difference that no change can express. */
  datatype DriftDiagnostic = DriftDiagnostic(adapter: string, about: Difference, required: bool)

  /** The names of the two snapshots, and the digest that change IDs use. */
  datatype Origin = Origin(baseline: string, candidate: string, digest: string -> string)

  function RemovalChange(kind: string, name: string, parent: string, o: Origin): Change {
    var symbolKind := if kind == "label_remove" then LABEL else METRIC;
    Change("snapshot-" + kind + "-" + o.digest(Join([kind, parent, name], '\0')), kind, PROMETHEUS,
      Symbol(PROMETHEUS, symbolKind, name, parent), None,
      map["source.adapter" := "telemetry_snapshot", "source.baseline" := o.baseline, "source.candidate" := o.candidate])
  }

  function ChangeFor(d: Difference, o: Origin): Change {
    if d.kind == MetricRemoved then RemovalChange("metric_remove", d.metric, "", o)
    else RemovalChange("label_remove", d.labelName, d.metric, o)
  }

  function DiagnosticFor(d: Difference): DriftDiagnostic { DriftDiagnostic("telemetry_snapshot", d, true) }

  /** One change for each removal, in the order of the differences. */
  function ChangesOf(ds: seq<Difference>, o: Origin): seq<Change> {
    var rs := Filter(ds, Removal);
    seq(|rs|, i requires 0 <= i < |rs| => ChangeFor(rs[i], o))
  }

  /** One diagnostic for each drift, in the order of the differences. */
  function DiagnosticsOf(ds: seq<Difference>): seq<DriftDiagnostic> {
    var rs := Filter(ds, Drift);
    seq(|rs|, i requires 0 <= i < |rs| => DiagnosticFor(rs[i]))
  }

  lemma ConvertNext(ds: seq<Difference>, i: nat, o: Origin)
    requires i < |ds|
    ensures ChangesOf(ds[..i + 1], o) == ChangesOf(ds[..i], o) + (if Removal(ds[i]) then [ChangeFor(ds[i], o)] else [])
    ensures DiagnosticsOf(ds[..i + 1]) == DiagnosticsOf(ds[..i]) + (if Drift(ds[i]) then [DiagnosticFor(ds[i])] else [])
  {
    assert ds[..i + 1][..i] == ds[..i] && ds[..i + 1][i] == ds[i];
    assert Filter(ds[..i + 1], Removal) == Filter(ds[..i], Removal) + (if Removal(ds[i]) then [ds[i]] else []);
    assert Filter(ds[..i + 1], Drift) == Filter(ds[..i], Drift) + (if Drift(ds[i]) then [ds[i]] else []);
  }

  method Convert(ds: seq<Difference>, o: Origin) returns (changes: seq<Change>, diagnostics: seq<DriftDiagnostic>)
    ensures changes == ChangesOf(ds, o) && diagnostics == DiagnosticsOf(ds)
  {
    changes, diagnostics := [], [];
    for i := 0 to |ds|
      invariant changes == ChangesOf(ds[..i], o) && diagnostics == DiagnosticsOf(ds[..i])
    {
      ConvertNext(ds, i, o);
      match ds[i].kind
      case MetricRemoved => changes := changes + [RemovalChange("metric_remove", ds[i].metric, "", o)];
      case LabelRemoved => changes := changes + [RemovalChange("label_remove", ds[i].labelName, ds[i].metric, o)];
      case TypeChanged => diagnostics := diagnostics + [DriftDiagnostic("telemetry_snapshot", ds[i], true)];
      case UnitChanged => diagnostics := diagnostics + [DriftDiagnostic("telemetry_snapshot", ds[i], true)];
      case MetadataUnavailable => diagnostics := diagnostics + [DriftDiagnostic("telemetry_snapshot", ds[i], true)];
      case MetricAdded =>
      case LabelAdded =>
    }
    assert ds[..|ds|] == ds;
  }

  /** The change says that a metric of the baseline is gone. */
  ghost predicate MetricGone(b: seq<Metric>, c: seq<Metric>, name: string, k: Change) {
    && Named(b, name) && !Named(c, name)
    && k.kind == "metric_remove" && k.domain == "prometheus" && k.from == Symbol("prometheus", "metric", name, "")
  }

  /** The change says that a metric of both snapshots has lost a label. */
  ghost predicate LabelGone(b: seq<Metric>, c: seq<Metric>, name: string, label_: string, k: Change) {
    && (exists x, y :: && x in b && y in c && x.name == name && y.name == name
                       && label_ in x.labels && label_ !in y.labels)
    && k.kind == "label_remove" && k.domain == "prometheus" && k.from == Symbol("prometheus", "label", label_, name)
  }

  ghost predicate Gone(b: seq<Metric>, c: seq<Metric>, k: Change) {
    (exists name :: MetricGone(b, c, name, k)) || exists name, label_ :: LabelGone(b, c, name, label_, k)
  }

  /** The change removes without a replacement, and tells where it comes from. */
  ghost predicate Traceable(k: Change, o: Origin) {
    && k.to.None?
    && k.metadata == map["source.adapter" := "telemetry_snapshot", "source.baseline" := o.baseline,
                         "source.candidate" := o.candidate]
    && k.id == "snapshot-" + k.kind + "-" + o.digest(k.kind + "\0" + (k.from.parent + "\0" + k.from.name))
  }

  lemma RemovalIsGone(b: seq<Metric>, c: seq<Metric>, d: Difference, o: Origin)
    requires Delta(b, c, d) && Removal(d)
    ensures Gone(b, c, ChangeFor(d, o)) && Traceable(ChangeFor(d, o), o)
  {
    var k := ChangeFor(d, o);
    JoinThree(k.kind, k.from.parent, k.from.name);
    if d.kind == MetricRemoved {
      assert MetricGone(b, c, d.metric, k);
    } else {
      var x, y :| x in b && y in c && x.name == y.name && MetricDelta(x, y, d);
      assert LabelGone(b, c, d.metric, d.labelName, k);
    }
  }

  lemma ChangesAre(ds: seq<Difference>, o: Origin, k: Change)
    ensures k in ChangesOf(ds, o) <==> exists d :: d in ds && Removal(d) && k == ChangeFor(d, o)
  {
    var rs := Filter(ds, Removal);
    forall d ensures d in rs <==> d in ds && Removal(d) { FilterContents(ds, Removal, d); }
    if k in ChangesOf(ds, o) {
      var i :| 0 <= i < |rs| && k == ChangeFor(rs[i], o);
      assert rs[i] in rs;
    }
    if d :| d in ds && Removal(d) && k == ChangeFor(d, o) {
      var i :| 0 <= i < |rs| && rs[i] == d;
      assert ChangesOf(ds, o)[i] == k;
    }
  }

  /** Different removals are about different symbols. */
  lemma RemovalsDiffer(b: seq<Metric>, c: seq<Metric>, d: Difference, e: Difference, o: Origin)
    requires Delta(b, c, d) && Delta(b, c, e) && Removal(d) && Removal(e) && d != e
    ensures ChangeFor(d, o).from != ChangeFor(e, o).from
  {
  }

  /** The generated changes are exactly these: for each metric that is gone one that removes the metric, for
      each lost label of a metric in both snapshots one that removes the label, each once, without a
      replacement and with the names of both snapshots. */
  lemma ChangesAreExact(b: seq<Metric>, c: seq<Metric>, ds: seq<Difference>, o: Origin)
    requires Lists(ds, b, c)
    ensures forall k :: k in ChangesOf(ds, o) ==> Gone(b, c, k) && Traceable(k, o)
    ensures forall name :: Named(b, name) && !Named(c, name) ==>
              exists k :: k in ChangesOf(ds, o) && MetricGone(b, c, name, k)
    ensures forall x, y, l :: x in b && y in c && x.name == y.name && l in x.labels && l !in y.labels ==>
              exists k :: k in ChangesOf(ds, o) && LabelGone(b, c, x.name, l, k)
    ensures forall i, j :: 0 <= i < j < |ChangesOf(ds, o)| ==> ChangesOf(ds, o)[i].from != ChangesOf(ds, o)[j].from
  {
    forall k | k in ChangesOf(ds, o) ensures Gone(b, c, k) && Traceable(k, o) {
      ChangesAre(ds, o, k);
      var d :| d in ds && Removal(d) && k == ChangeFor(d, o);
      RemovalIsGone(b, c, d, o);
    }
    forall name | Named(b, name) && !Named(c, name)
      ensures exists k :: k in ChangesOf(ds, o) && MetricGone(b, c, name, k)
    {
      var d := Difference(MetricRemoved, name, "", "", "", "");
      assert Delta(b, c, d) && d in ds;
      ChangesAre(ds, o, ChangeFor(d, o));
      assert MetricGone(b, c, name, ChangeFor(d, o));
    }
    forall x, y, l | x in b && y in c && x.name == y.name && l in x.labels && l !in y.labels
      ensures exists k :: k in ChangesOf(ds, o) && LabelGone(b, c, x.name, l, k)
    {
      var d := Difference(LabelRemoved, x.name, l, "", "", "");
      assert MetricDelta(x, y, d) && Delta(b, c, d) && d in ds;
      ChangesAre(ds, o, ChangeFor(d, o));
      assert LabelGone(b, c, x.name, l, ChangeFor(d, o));
    }
    SymbolsDiffer(b, c, ds, o);
  }

  lemma SymbolsDiffer(b: seq<Metric>, c: seq<Metric>, ds: seq<Difference>, o: Origin)
    requires Lists(ds, b, c)
    ensures forall i, j :: 0 <= i < j < |ChangesOf(ds, o)| ==> ChangesOf(ds, o)[i].from != ChangesOf(ds, o)[j].from
  {
    var rs := Filter(ds, Removal);
    FilterDistinct(ds, Removal);
    forall i, j | 0 <= i < j < |rs| ensures ChangeFor(rs[i], o).from != ChangeFor(rs[j], o).from {
      FilterContents(ds, Removal, rs[i]);
      FilterContents(ds, Removal, rs[j]);
      RemovalsDiffer(b, c, rs[i], rs[j], o);
    }
  }

  /** The diagnostics are exactly one for each type or unit that changed or cannot be compared, and each is
      required. */
  lemma DiagnosticsAreExact(b: seq<Metric>, c: seq<Metric>, ds: seq<Difference>)
    requires Lists(ds, b, c)
    ensures forall g :: g in DiagnosticsOf(ds) <==>
              && g.adapter == "telemetry_snapshot" && g.required && Changed(b, c, g.about)
              && g.about.kind in {TypeChanged, UnitChanged, MetadataUnavailable}
    ensures Distinct(DiagnosticsOf(ds))
  {
    var rs := Filter(ds, Drift);
    FilterDistinct(ds, Drift);
    forall d ensures d in rs <==> d in ds && Drift(d) { FilterContents(ds, Drift, d); }
    forall g
      ensures g in DiagnosticsOf(ds) <==> g.about in rs && g == DriftDiagnostic("telemetry_snapshot", g.about, true)
    {
      if g in DiagnosticsOf(ds) {
        var i :| 0 <= i < |rs| && g == DiagnosticFor(rs[i]);
        assert rs[i] in rs;
      }
      if g.about in rs && g == DriftDiagnostic("telemetry_snapshot", g.about, true) {
        var i :| 0 <= i < |rs| && rs[i] == g.about;
        assert DiagnosticsOf(ds)[i] == g;
      }
    }
  }

  const KINDS_IN_ORDER := [MetricRemoved, LabelRemoved, TypeChanged, UnitChanged, MetadataUnavailable, MetricAdded,
                           LabelAdded]

  /** The differences come by metric, then by kind, then by label, then by field. */
  lemma DifferencesAreOrdered(b: seq<Metric>, c: seq<Metric>, ds: seq<Difference>, i: nat, j: nat, p: nat, q: nat)
    requires Lists(ds, b, c) && i < j < |ds| && p < 7 && q < 7
    requires ds[i].kind == KINDS_IN_ORDER[p] && ds[j].kind == KINDS_IN_ORDER[q]
    ensures StringLe(ds[i].metric, ds[j].metric)
    ensures ds[i].metric == ds[j].metric ==> p <= q
    ensures ds[i].metric == ds[j].metric && p == q ==> StringLe(ds[i].labelName, ds[j].labelName)
    ensures ds[i].metric == ds[j].metric && p == q && ds[i].labelName == ds[j].labelName ==>
            StringLe(ds[i].field, ds[j].field)
  {
    var x, y := DifferenceKey(ds[i]), DifferenceKey(ds[j]);
    assert KeyLe(x, y);
    StringTotal(ds[i].metric, ds[j].metric);
    StringTotal(ds[i].labelName, ds[j].labelName);
    StringTotal(ds[i].field, ds[j].field);
    if x[0] == y[0] {
      assert KeyLe(x[1..], y[1..]);
      if x[1] == y[1] {
        assert KeyLe(x[1..][1..], y[1..][1..]);
        if x[2] == y[2] { assert KeyLe(x[1..][1..][1..], y[1..][1..][1..]); }
      }
    }
  }

  predicate Addition(d: Difference) { d.kind == MetricAdded || d.kind == LabelAdded }

  /** Every difference is a removal with its change, a drift with its diagnostic, or an addition. */
  lemma {:induction false} EveryDifferenceIsAnswered(ds: seq<Difference>, o: Origin)
    ensures |ChangesOf(ds, o)| + |DiagnosticsOf(ds)| + |Filter(ds, Addition)| == |ds|
    ensures forall d :: d in ds && Removal(d) ==> ChangeFor(d, o) in ChangesOf(ds, o)
    ensures forall d :: d in ds && Drift(d) ==> DiagnosticFor(d) in DiagnosticsOf(ds)
  {
    if ds != [] {
      var n := |ds| - 1;
      EveryDifferenceIsAnswered(ds[..n], o);
      ConvertNext(ds, n, o);
      assert ds[..n + 1] == ds && ds == ds[..n] + [ds[n]];
      assert Filter(ds, Addition) == Filter(ds[..n], Addition) + (if Addition(ds[n]) then [ds[n]] else []);
    }
  }

  // ----- change IDs

  predicate PlainNames(d: Difference) { NulFree(d.metric) && NulFree(d.labelName) }

  ghost predicate Injective(f: string -> string) { forall a, b :: f(a) == f(b) ==> a == b }

  lemma IdKeyInjective(kind: string, name: string, parent: string, name2: string, parent2: string)
    requires NulFree(kind) && NulFree(parent) && NulFree(parent2)
    requires Join([kind, parent, name], '\0') == Join([kind, parent2, name2], '\0')
    ensures name == name2 && parent == parent2
  {
    JoinThree(kind, parent, name);
    JoinThree(kind, parent2, name2);
    CutAtSeparator(kind, kind, parent + "\0" + name, parent2 + "\0" + name2, '\0');
    CutAtSeparator(parent, parent2, name, name2, '\0');
  }

  lemma DifferentKindsDiffer(a: Difference, b: Difference, o: Origin)
    requires a.kind == MetricRemoved && b.kind == LabelRemoved
    ensures ChangeFor(a, o).id != ChangeFor(b, o).id
  {
    assert ChangeFor(a, o).id[9] == 'm' && ChangeFor(b, o).id[9] == 'l';
  }

  /** A removal gets an ID of its own. */
  lemma RemovalIdsDiffer(a: Difference, b: Difference, o: Origin)
    requires Injective(o.digest) && Removal(a) && Removal(b) && PlainNames(a) && PlainNames(b)
    requires ChangeFor(a, o).id == ChangeFor(b, o).id
    requires a.kind == MetricRemoved ==> a.labelName == ""
    requires b.kind == MetricRemoved ==> b.labelName == ""
    ensures a.kind == b.kind && a.metric == b.metric && a.labelName == b.labelName
  {
    if a.kind != b.kind {
      if a.kind == MetricRemoved { DifferentKindsDiffer(a, b, o); } else { DifferentKindsDiffer(b, a, o); }
    } else {
      var kind := if a.kind == MetricRemoved then "metric_remove" else "label_remove";
      var x, y := ChangeFor(a, o).from, ChangeFor(b, o).from;
      var p, q := Join([kind, x.parent, x.name], '\0'), Join([kind, y.parent, y.name], '\0');
      SameFront("snapshot-" + kind + "-", o.digest(p), o.digest(q));
      assert p == q;
      IdKeyInjective(kind, x.name, x.parent, y.name, y.parent);
    }
  }

  ghost predicate PlainSnapshot(ms: seq<Metric>) {
    forall m :: m in ms ==> NulFree(m.name) && forall l :: l in m.labels ==> NulFree(l)
  }

  lemma {:induction false} FilterDistinct(ds: seq<Difference>, keep: Difference -> bool)
    requires Distinct(ds)
    ensures Distinct(Filter(ds, keep))
  {
    var rs := Filter(ds, keep);
    if ds != [] {
      var n := |ds| - 1;
      var init := ds[..n];
      FilterDistinct(init, keep);
      FilterContents(init, keep, ds[n]);
      assert ds[n] !in init;
      assert Distinct([ds[n]]);
      if keep(ds[n]) { DistinctAppend(Filter(init, keep), [ds[n]]); }
    }
  }

  lemma RemovalsArePlain(b: seq<Metric>, c: seq<Metric>, d: Difference)
    requires PlainSnapshot(b) && Delta(b, c, d) && Removal(d)
    ensures PlainNames(d) && d.field == "" && d.before == "" && d.after == ""
    ensures d.kind == MetricRemoved ==> d.labelName == ""
  {
  }

  lemma RemovalsGetDifferentIds(b: seq<Metric>, c: seq<Metric>, o: Origin, d: Difference, e: Difference)
    requires PlainSnapshot(b) && Injective(o.digest)
    requires Delta(b, c, d) && Delta(b, c, e) && Removal(d) && Removal(e) && d != e
    ensures ChangeFor(d, o).id != ChangeFor(e, o).id
  {
    RemovalsArePlain(b, c, d);
    RemovalsArePlain(b, c, e);
    if ChangeFor(d, o).id == ChangeFor(e, o).id { RemovalIdsDiffer(d, e, o); }
  }

  /** With an injective digest and no NUL in the names, the generated changes have distinct IDs. */
  lemma ChangeIdsAreDistinct(b: seq<Metric>, c: seq<Metric>, ds: seq<Difference>, o: Origin)
    requires Lists(ds, b, c) && PlainSnapshot(b) && Injective(o.digest)
    ensures DistinctChangeIds(ChangesOf(ds, o))
  {
    var rs, changes := Filter(ds, Removal), ChangesOf(ds, o);
    FilterDistinct(ds, Removal);
    forall i, j | 0 <= i < j < |changes| ensures changes[i].id != changes[j].id {
      FilterContents(ds, Removal, rs[i]);
      FilterContents(ds, Removal, rs[j]);
      RemovalsGetDifferentIds(b, c, o, rs[i], rs[j]);
    }
  }

  method CheckChangeIds(changes: seq<Change>) returns (ok: bool)
    ensures ok <==> DistinctChangeIds(changes)
  {
    var seen := {};
    for i := 0 to |changes|
      invariant DistinctChangeIds(changes[..i])
      invariant forall id :: id in seen <==> exists j :: 0 <= j < i && changes[j].id == id
    {
      if changes[i].id in seen {
        return false;
      }
      seen := seen + {changes[i].id};
    }
    assert changes[..|changes|] == changes;
    ok := true;
  }

  // ----- the comparison

  datatype Comparison =
    | Compared(differences: seq<Difference>, changes: seq<Change>, diagnostics: seq<DriftDiagnostic>)
    | InvalidBaseline | InvalidCandidate | DomainsDiffer | InvalidChangeSet

  /** Lists what differs between two valid snapshots, with a change for each removal and a required
      diagnostic for each drift. */
  method Compare(baseline: Snapshot, candidate: Snapshot, changeSetName: string, digest: string -> string)
    returns (r: Comparison)
    ensures r.InvalidBaseline? <==> !ValidSnapshot(baseline)
    ensures r.InvalidCandidate? <==> ValidSnapshot(baseline) && !ValidSnapshot(candidate)
    ensures !r.DomainsDiffer?
    ensures r.Compared? ==> Lists(r.differences, baseline.metrics, candidate.metrics)
    ensures r.Compared? ==> r.changes == ChangesOf(r.differences, Origin(baseline.name, candidate.name, digest))
    ensures r.Compared? ==> r.diagnostics == DiagnosticsOf(r.differences) && DistinctChangeIds(r.changes)
    ensures r.Compared? ==> forall k :: k in r.changes ==>
              && Gone(baseline.metrics, candidate.metrics, k)
              && Traceable(k, Origin(baseline.name, candidate.name, digest))
    ensures r.InvalidChangeSet? && PlainSnapshot(baseline.metrics) && Injective(digest) ==>
            changeSetName != "" && Blank(changeSetName)
  {
    var baselineOk, b := Normalize(baseline);
    if !baselineOk {
      return InvalidBaseline;
    }
    var candidateOk, c := Normalize(candidate);
    if !candidateOk {
      return InvalidCandidate;
    }
    if b.domain != c.domain {
      return DomainsDiffer;
    }
    var name := if changeSetName == "" then b.name + "-to-" + c.name else changeSetName;
    DefaultNameIsNotBlank(b.name, c.name);
    NormalizedIsSame(baseline);
    NormalizedIsSame(candidate);
    var ds := CompareMetrics(b.metrics, c.metrics);
    ListsTransfer(b.metrics, baseline.metrics, c.metrics, candidate.metrics, ds);
    var o := Origin(b.name, c.name, digest);
    var changes, diagnostics := Convert(ds, o);
    ChangesAreExact(baseline.metrics, candidate.metrics, ds, o);
    var distinct := CheckChangeIds(changes);
    if !distinct || Blank(name) {
      if PlainSnapshot(baseline.metrics) && Injective(digest) {
        ChangeIdsAreDistinct(baseline.metrics, candidate.metrics, ds, o);
      }
      return InvalidChangeSet;
    }
    r := Compared(ds, changes, diagnostics);
  }

  lemma DefaultNameIsNotBlank(a: string, b: string)
    ensures !Blank(a + "-to-" + b)
  {
    assert (a + "-to-" + b)[|a|] == '-';
    assert '-' in a + "-to-" + b && '-' !in " \t\n\r";
  }

  lemma ListsTransfer(a: seq<Metric>, b: seq<Metric>, c: seq<Metric>, e: seq<Metric>, ds: seq<Difference>)
    requires SameContract(b, a) && SameContract(e, c) && Lists(ds, a, c)
    ensures Lists(ds, b, e)
  {
    forall d ensures d in ds <==> Delta(b, e, d) { SameDeltas(a, b, c, e, d); }
  }

  /** Comparing the same contracts in another order gives the same report. */
  lemma ComparisonIgnoresOrder(a: Snapshot, b: Snapshot, c: Snapshot, e: Snapshot, ds: seq<Difference>,
                               es: seq<Difference>, o: Origin)
    requires ValidSnapshot(a) && ValidSnapshot(c)
    requires SameContract(a.metrics, b.metrics) && SameContract(c.metrics, e.metrics)
    requires Lists(ds, a.metrics, c.metrics) && Lists(es, b.metrics, e.metrics)
    ensures ds == es && ChangesOf(ds, o) == ChangesOf(es, o) && DiagnosticsOf(ds) == DiagnosticsOf(es)
  {
    DifferencesAreUnique(a.metrics, b.metrics, c.metrics, e.metrics, ds, es);
  }

  // ----- the opposite direction

  function Swapped(d: Difference): Difference {
    var kind := match d.kind
      case MetricAdded => MetricRemoved
      case MetricRemoved => MetricAdded
      case LabelAdded => LabelRemoved
      case LabelRemoved => LabelAdded
      case k => k;
    d.(kind := kind, before := d.after, after := d.before)
  }

  lemma SwapMetricDelta(x: Metric, y: Metric, d: Difference)
    requires x.name == y.name && MetricDelta(x, y, d)
    ensures MetricDelta(y, x, Swapped(d))
  {
  }

  lemma SwapChanged(b: seq<Metric>, c: seq<Metric>, d: Difference)
    requires Changed(b, c, d)
    ensures Changed(c, b, Swapped(d))
  {
    var x, y :| x in b && y in c && x.name == y.name && MetricDelta(x, y, d);
    SwapMetricDelta(x, y, d);
  }

  lemma SwapDelta(b: seq<Metric>, c: seq<Metric>, d: Difference)
    requires Delta(b, c, d)
    ensures Delta(c, b, Swapped(d)) && Swapped(Swapped(d)) == d
  {
    if Changed(b, c, d) { SwapChanged(b, c, d); }
  }

  /** Comparing the other way round lists the same differences, swapped. */
  lemma SwappedComparison(b: seq<Metric>, c: seq<Metric>, ds: seq<Difference>, es: seq<Difference>)
    requires Lists(ds, b, c) && Lists(es, c, b)
    ensures forall d :: d in ds ==> Swapped(d) in es
    ensures forall e :: e in es ==> Swapped(e) in ds
  {
    forall d | d in ds ensures Swapped(d) in es { SwapDelta(b, c, d); }
    forall e | e in es ensures Swapped(e) in ds { SwapDelta(c, b, e); }
  }

  // ----- when there is nothing to report

  /** Nothing a user of the baseline metric relied on is gone or has changed. */
  predicate Survives(x: Metric, y: Metric) {
    && x.name == y.name && (forall l :: l in x.labels ==> l in y.labels)
    && (x.typ == y.typ || (x.typ in {"", "unknown"} && y.typ in {"", "unknown"})) && x.unit == y.unit
  }

  predicate Breaking(d: Difference) { Removal(d) || Drift(d) }

  lemma SurvivesUnlessBreaking(x: Metric, y: Metric)
    requires x.name == y.name
    ensures Survives(x, y) <==> forall d :: MetricDelta(x, y, d) ==> !Breaking(d)
  {
    var n := x.name;
    if forall d :: MetricDelta(x, y, d) ==> !Breaking(d) {
      assert !MetricDelta(x, y, Difference(TypeChanged, n, "", "type", x.typ, y.typ));
      assert !MetricDelta(x, y, Difference(MetadataUnavailable, n, "", "type", x.typ, y.typ));
      assert !MetricDelta(x, y, Difference(UnitChanged, n, "", "unit", x.unit, y.unit));
      assert !MetricDelta(x, y, Difference(MetadataUnavailable, n, "", "unit", x.unit, y.unit));
      forall l | l in x.labels ensures l in y.labels {
        assert !MetricDelta(x, y, Difference(LabelRemoved, n, l, "", "", ""));
      }
    }
  }

  lemma QuietMeansNoBreaking(ds: seq<Difference>, o: Origin)
    ensures ChangesOf(ds, o) == [] && DiagnosticsOf(ds) == [] <==> forall d :: d in ds ==> !Breaking(d)
  {
    forall d ensures d in Filter(ds, Removal) <==> d in ds && Removal(d) { FilterContents(ds, Removal, d); }
    forall d ensures d in Filter(ds, Drift) <==> d in ds && Drift(d) { FilterContents(ds, Drift, d); }
    assert ChangesOf(ds, o) == [] <==> Filter(ds, Removal) == [];
    assert DiagnosticsOf(ds) == [] <==> Filter(ds, Drift) == [];
    assert Filter(ds, Removal) != [] ==> Filter(ds, Removal)[0] in ds;
    assert Filter(ds, Drift) != [] ==> Filter(ds, Drift)[0] in ds;
  }

  /** A comparison has no changes and no diagnostics exactly when every baseline metric survives in the
      candidate with all its labels, its type and its unit. */
  lemma QuietMeansSurvival(b: seq<Metric>, c: seq<Metric>, ds: seq<Difference>, o: Origin)
    requires Lists(ds, b, c) && DistinctNames(b) && DistinctNames(c)
    ensures ChangesOf(ds, o) == [] && DiagnosticsOf(ds) == [] <==>
            forall x :: x in b ==> exists y :: y in c && Survives(x, y)
  {
    QuietMeansNoBreaking(ds, o);
    if forall d :: d in ds ==> !Breaking(d) {
      forall x | x in b ensures exists y :: y in c && Survives(x, y) { QuietSurvives(b, c, ds, x); }
    }
    if forall x :: x in b ==> exists y :: y in c && Survives(x, y) {
      forall d | d in ds ensures !Breaking(d) { SurvivalIsQuiet(b, c, d); }
    }
  }

  lemma QuietSurvives(b: seq<Metric>, c: seq<Metric>, ds: seq<Difference>, x: Metric)
    requires Lists(ds, b, c) && x in b && forall d :: d in ds ==> !Breaking(d)
    ensures exists y :: y in c && Survives(x, y)
  {
    var gone := Difference(MetricRemoved, x.name, "", "", "", "");
    assert Removal(gone) && gone !in ds;
    assert Named(b, x.name);
    var y :| y in c && y.name == x.name;
    forall d | MetricDelta(x, y, d) ensures !Breaking(d) { assert Changed(b, c, d) && d in ds; }
    SurvivesUnlessBreaking(x, y);
  }

  lemma SurvivalIsQuiet(b: seq<Metric>, c: seq<Metric>, d: Difference)
    requires DistinctNames(c) && Delta(b, c, d) && forall x :: x in b ==> exists y :: y in c && Survives(x, y)
    ensures !Breaking(d)
  {
    if Changed(b, c, d) {
      var x, y :| x in b && y in c && x.name == y.name && MetricDelta(x, y, d);
      var z :| z in c && Survives(x, z);
      DistinctNamesAreUnique(c);
      assert y == z;
      SurvivesUnlessBreaking(x, y);
    }
  }
}
