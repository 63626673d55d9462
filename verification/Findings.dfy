/** `Analyze`: one finding for each change and each consumer it reaches or may reach
    (internal/impact/finding.go). */
module Findings {
  import opened Ordering
  import opened Domain
  import opened Paths
  import opened Graphs
  import opened Impact

  datatype AffectedConsumer = AffectedConsumer(
    id: string, kind: ConsumerKind, name: string, criticality: string, source: SourceLocation)

  datatype Finding = Finding(
    change: Change, consumer: AffectedConsumer, impact: ImpactType, criticality: string,
    uncertain: bool, references: seq<Reference>, paths: seq<Path>)

  datatype AnalysisError = EmptyConsumerId | DuplicateConsumerId | UnmappedKind

  /** Findings so far, and the error that stopped the scan, if any. */
  datatype Scan = Scan(findings: seq<Finding>, error: Option<AnalysisError>)

  predicate Relevant(r: Reference, id: string, change: Change) {
    r.consumerId == id && (SymbolMatches(r.symbol, change.from) || UnresolvedReferenceApplies(r, change))
  }

  function SourceReferences(rs: seq<Reference>, id: string, change: Change): seq<Reference> {
    Sort(Filter(rs, r => Relevant(r, id, change)), ReferenceKey)
  }

  predicate HasUnresolved(rs: seq<Reference>) { exists r :: r in rs && r.requiresResolution }

  function Uncertain(c: Consumer, rs: seq<Reference>): bool {
    c.unresolved || c.criticality == "" || HasUnresolved(rs)
  }

  predicate Emits(c: Consumer, rs: seq<Reference>, paths: seq<Path>) { paths != [] || Uncertain(c, rs) }

  function MakeFinding(change: Change, c: Consumer, impact: ImpactType, rs: seq<Reference>, paths: seq<Path>): Finding {
    Finding(change, AffectedConsumer(c.id, c.kind, c.name, c.criticality, c.source), impact, c.criticality,
            Uncertain(c, rs), rs, paths)
  }

  /** One turn of the loop over consumers. */
  function ScanConsumer(s: Scan, change: Change, c: Consumer, rs: seq<Reference>, paths: seq<Path>): Scan {
    if s.error.Some? || !Emits(c, rs, paths) then s
    else
      match TypeForConsumer(c.kind)
      case None => Scan(s.findings, Some(UnmappedKind))
      case Some(impact) => Scan(s.findings + [MakeFinding(change, c, impact, rs, paths)], None)
  }

  /** What one run of the analysis looks at. */
  datatype Input = Input(references: seq<Reference>, graph: GraphValue, transitive: bool)

  ghost function RefsFor(x: Input, change: Change, c: Consumer): seq<Reference> {
    SourceReferences(x.references, c.id, change)
  }

  ghost function PathsFor(x: Input, change: Change, c: Consumer): seq<Path> {
    PathsTo(x.graph, change.from, x.transitive, c.id)
  }

  ghost predicate EmitsFor(x: Input, change: Change, c: Consumer) {
    Emits(c, RefsFor(x, change, c), PathsFor(x, change, c))
  }

  ghost function ScanChange(x: Input, s: Scan, change: Change, cs: seq<Consumer>): Scan {
    if cs == [] then s else
      var before, c := ScanChange(x, s, change, cs[..|cs| - 1]), cs[|cs| - 1];
      ScanConsumer(before, change, c, RefsFor(x, change, c), PathsFor(x, change, c))
  }

  ghost function ScanChanges(x: Input, changes: seq<Change>, cs: seq<Consumer>): Scan {
    if changes == [] then Scan([], None)
    else ScanChange(x, ScanChanges(x, changes[..|changes| - 1], cs), changes[|changes| - 1], cs)
  }

  ghost function IdError(cs: seq<Consumer>): Option<AnalysisError> {
    if exists c :: c in cs && c.id == "" then Some(EmptyConsumerId)
    else if !DistinctConsumerIds(cs) then Some(DuplicateConsumerId)
    else None
  }

  /** The whole analysis as a function of its inputs. */
  ghost function Analysis(changes: seq<Change>, d: Discovery, g: GraphValue, transitive: bool): Scan {
    var e := IdError(d.consumers);
    if e.Some? then Scan([], e)
    else ScanChanges(Input(d.references, g, transitive), Sort(changes, ChangeKey), Sort(d.consumers, ConsumerKey))
  }

  // ----- the findings, without the loops

  ghost predicate IsFinding(x: Input, change: Change, c: Consumer, f: Finding) {
    && EmitsFor(x, change, c) && TypeForConsumer(c.kind).Some?
    && f == MakeFinding(change, c, TypeForConsumer(c.kind).value, RefsFor(x, change, c), PathsFor(x, change, c))
  }

  lemma ScanConsumerContents(x: Input, s: Scan, change: Change, c: Consumer, f: Finding)
    requires s.error.None? && ScanConsumer(s, change, c, RefsFor(x, change, c), PathsFor(x, change, c)).error.None?
    ensures var r := ScanConsumer(s, change, c, RefsFor(x, change, c), PathsFor(x, change, c));
            f in r.findings <==> f in s.findings || IsFinding(x, change, c, f)
  {
  }

  lemma {:induction false} ScanStuck(x: Input, s: Scan, change: Change, cs: seq<Consumer>)
    requires s.error.Some?
    ensures ScanChange(x, s, change, cs) == s
  {
    if cs != [] { ScanStuck(x, s, change, cs[..|cs| - 1]); }
  }

  lemma {:induction false} ScanMapped(x: Input, s: Scan, change: Change, cs: seq<Consumer>, i: nat)
    requires ScanChange(x, s, change, cs).error.None? && i < |cs| && EmitsFor(x, change, cs[i])
    ensures TypeForConsumer(cs[i].kind).Some?
  {
    if i < |cs| - 1 {
      var rest := cs[..|cs| - 1];
      assert ScanChange(x, s, change, rest).error.None?;
      ScanMapped(x, s, change, rest, i);
    }
  }

  lemma {:induction false} ScanChangeContents(x: Input, s: Scan, change: Change, cs: seq<Consumer>, f: Finding)
    requires ScanChange(x, s, change, cs).error.None?
    ensures s.error.None?
    ensures f in ScanChange(x, s, change, cs).findings <==>
            f in s.findings || exists c :: c in cs && IsFinding(x, change, c, f)
  {
    if s.error.Some? { ScanStuck(x, s, change, cs); }
    if cs != [] {
      var rest, c := cs[..|cs| - 1], cs[|cs| - 1];
      assert forall k :: k in cs <==> k in rest || k == c;
      ScanChangeContents(x, s, change, rest, f);
      ScanConsumerContents(x, ScanChange(x, s, change, rest), change, c, f);
    }
  }

  /** Without an error, the findings are exactly those of the affected pairs. */
  lemma {:induction false} ScanChangesContents(x: Input, changes: seq<Change>, cs: seq<Consumer>, f: Finding)
    requires ScanChanges(x, changes, cs).error.None?
    ensures f in ScanChanges(x, changes, cs).findings <==>
            exists k, c :: k in changes && c in cs && IsFinding(x, k, c, f)
  {
    if changes != [] {
      var rest, change := changes[..|changes| - 1], changes[|changes| - 1];
      assert forall k :: k in changes <==> k in rest || k == change;
      ScanChangeContents(x, ScanChanges(x, rest, cs), change, cs, f);
      ScanChangesContents(x, rest, cs, f);
    }
  }

  lemma {:induction false} ScanChangesKinds(x: Input, changes: seq<Change>, cs: seq<Consumer>, k: Change, c: Consumer)
    requires ScanChanges(x, changes, cs).error.None? && k in changes && c in cs && EmitsFor(x, k, c)
    ensures TypeForConsumer(c.kind).Some?
  {
    var rest, change := changes[..|changes| - 1], changes[|changes| - 1];
    if k == change {
      var i :| 0 <= i < |cs| && cs[i] == c;
      ScanMapped(x, ScanChanges(x, rest, cs), change, cs, i);
    } else {
      if ScanChanges(x, rest, cs).error.Some? { ScanStuck(x, ScanChanges(x, rest, cs), change, cs); }
      ScanChangesKinds(x, rest, cs, k, c);
    }
  }

  lemma SortKeeps<T(!new)>(s: seq<T>, key: T -> Key)
    ensures forall x :: x in Sort(s, key) <==> x in s
  {
    SameElements(s, Sort(s, key));
  }

  lemma AnalysisContents(changes: seq<Change>, d: Discovery, g: GraphValue, transitive: bool)
    requires Analysis(changes, d, g, transitive).error.None?
    ensures IdError(d.consumers).None?
    ensures var x := Input(d.references, g, transitive);
            && (forall f :: f in Analysis(changes, d, g, transitive).findings <==>
                            exists k, c :: k in changes && c in d.consumers && IsFinding(x, k, c, f))
            && (forall k, c :: k in changes && c in d.consumers && EmitsFor(x, k, c) ==> TypeForConsumer(c.kind).Some?)
  {
    var x, ks, cs := Input(d.references, g, transitive), Sort(changes, ChangeKey), Sort(d.consumers, ConsumerKey);
    SortKeeps(changes, ChangeKey);
    SortKeeps(d.consumers, ConsumerKey);
    forall f
      ensures f in ScanChanges(x, ks, cs).findings <==> exists k, c :: k in ks && c in cs && IsFinding(x, k, c, f)
    {
      ScanChangesContents(x, ks, cs, f);
    }
    forall k, c | k in ks && c in cs && EmitsFor(x, k, c) ensures TypeForConsumer(c.kind).Some? {
      ScanChangesKinds(x, ks, cs, k, c);
    }
  }

  /** Where a finding of a complete analysis comes from. */
  lemma AnalysisSource(changes: seq<Change>, d: Discovery, g: GraphValue, transitive: bool, f: Finding)
    returns (k: Change, c: Consumer)
    requires Analysis(changes, d, g, transitive).error.None? && f in Analysis(changes, d, g, transitive).findings
    ensures k in changes && c in d.consumers && IsFinding(Input(d.references, g, transitive), k, c, f)
  {
    AnalysisContents(changes, d, g, transitive);
    k, c :| k in changes && c in d.consumers && IsFinding(Input(d.references, g, transitive), k, c, f);
  }

  // ----- one finding per pair, also when the scan stops early

  lemma {:induction false} ScanChangeSources(x: Input, s: Scan, change: Change, cs: seq<Consumer>, f: Finding)
    requires f in ScanChange(x, s, change, cs).findings && f !in s.findings
    ensures exists c :: c in cs && IsFinding(x, change, c, f)
  {
    if cs != [] {
      var rest, c := cs[..|cs| - 1], cs[|cs| - 1];
      if f in ScanChange(x, s, change, rest).findings {
        ScanChangeSources(x, s, change, rest, f);
        var b :| b in rest && IsFinding(x, change, b, f);
        assert b in cs;
      } else {
        assert c in cs && IsFinding(x, change, c, f);
      }
    }
  }

  /** Every finding, also of a scan that stopped, is that of a change and a consumer. */
  lemma {:induction false} ScanChangesSources(x: Input, changes: seq<Change>, cs: seq<Consumer>, f: Finding)
    requires f in ScanChanges(x, changes, cs).findings
    ensures exists k, c :: k in changes && c in cs && IsFinding(x, k, c, f)
  {
    if changes != [] {
      var rest, change := changes[..|changes| - 1], changes[|changes| - 1];
      var before := ScanChanges(x, rest, cs);
      if f in before.findings {
        ScanChangesSources(x, rest, cs, f);
        var k, c :| k in rest && c in cs && IsFinding(x, k, c, f);
        assert k in changes;
      } else {
        ScanChangeSources(x, before, change, cs, f);
        assert change in changes;
      }
    }
  }

  ghost predicate SamePair(f: Finding, h: Finding) { f.change.id == h.change.id && f.consumer.id == h.consumer.id }

  /** No two findings are about the same change and consumer. */
  ghost predicate OnePerPair(fs: seq<Finding>) { forall i, j :: 0 <= i < j < |fs| ==> !SamePair(fs[i], fs[j]) }

  lemma EarlierConsumersDiffer(x: Input, s: Scan, change: Change, cs: seq<Consumer>, f: Finding)
    requires cs != [] && DistinctConsumerIds(cs)
    requires f in ScanChange(x, s, change, cs[..|cs| - 1]).findings && f !in s.findings
    ensures f.consumer.id != cs[|cs| - 1].id
  {
    var n := |cs| - 1;
    ScanChangeSources(x, s, change, cs[..n], f);
    var b :| b in cs[..n] && IsFinding(x, change, b, f);
    var j :| 0 <= j < n && cs[j] == b;
    assert cs[j].id != cs[n].id;
  }

  lemma OneMorePair(fs: seq<Finding>, h: Finding)
    requires OnePerPair(fs) && forall f :: f in fs ==> !SamePair(f, h)
    ensures OnePerPair(fs + [h])
  {
  }

  lemma {:induction false} ScanChangeOnePerPair(x: Input, s: Scan, change: Change, cs: seq<Consumer>)
    requires DistinctConsumerIds(cs) && OnePerPair(s.findings)
    requires forall f :: f in s.findings ==> f.change.id != change.id
    ensures OnePerPair(ScanChange(x, s, change, cs).findings)
  {
    if cs != [] {
      var rest, c := cs[..|cs| - 1], cs[|cs| - 1];
      var before, after := ScanChange(x, s, change, rest), ScanChange(x, s, change, cs);
      ScanChangeOnePerPair(x, s, change, rest);
      if after.findings != before.findings {
        var h := after.findings[|before.findings|];
        forall f | f in before.findings ensures !SamePair(f, h) {
          if f !in s.findings { EarlierConsumersDiffer(x, s, change, cs, f); }
        }
        OneMorePair(before.findings, h);
      }
    }
  }

  lemma {:induction false} ScanChangesOnePerPair(x: Input, changes: seq<Change>, cs: seq<Consumer>)
    requires DistinctConsumerIds(cs) && DistinctChangeIds(changes)
    ensures OnePerPair(ScanChanges(x, changes, cs).findings)
  {
    if changes != [] {
      var n := |changes| - 1;
      var rest, change := changes[..n], changes[n];
      var before := ScanChanges(x, rest, cs);
      ScanChangesOnePerPair(x, rest, cs);
      forall f | f in before.findings ensures f.change.id != change.id {
        ScanChangesSources(x, rest, cs, f);
        var k, c :| k in rest && c in cs && IsFinding(x, k, c, f);
        var j :| 0 <= j < n && changes[j] == k;
        assert changes[j].id != changes[n].id;
      }
      ScanChangeOnePerPair(x, before, change, cs);
    }
  }

  lemma {:induction false} ScanChangeStopsAt(x: Input, s: Scan, change: Change, cs: seq<Consumer>) returns (c: Consumer)
    requires s.error.None? && ScanChange(x, s, change, cs).error.Some?
    ensures c in cs && EmitsFor(x, change, c) && TypeForConsumer(c.kind).None?
  {
    c := cs[|cs| - 1];
    if ScanChange(x, s, change, cs[..|cs| - 1]).error.Some? {
      c := ScanChangeStopsAt(x, s, change, cs[..|cs| - 1]);
    }
  }

  /** A scan stops only at an affected consumer of a kind without impact type. */
  lemma {:induction false} ScanStopsAt(x: Input, changes: seq<Change>, cs: seq<Consumer>)
    returns (k: Change, c: Consumer)
    requires ScanChanges(x, changes, cs).error.Some?
    ensures k in changes && c in cs && EmitsFor(x, k, c) && TypeForConsumer(c.kind).None?
  {
    var rest := changes[..|changes| - 1];
    k := changes[|changes| - 1];
    if ScanChanges(x, rest, cs).error.Some? {
      k, c := ScanStopsAt(x, rest, cs);
    } else {
      c := ScanChangeStopsAt(x, ScanChanges(x, rest, cs), k, cs);
    }
  }

  lemma DistinctChangeIdsPermutation(a: seq<Change>, b: seq<Change>)
    requires multiset(a) == multiset(b) && DistinctChangeIds(a)
    ensures DistinctChangeIds(b)
  {
    SameElements(a, b);
    DistinctPermutation(a, b);
    forall i, j | 0 <= i < j < |b| ensures b[i].id != b[j].id {
      assert b[i] in a && b[j] in a && b[i] != b[j];
    }
  }

  /** Complete or not, the analysis has at most one finding per change and consumer, each for a pair that
      is affected. */
  lemma AnalysisOnePerPair(changes: seq<Change>, d: Discovery, g: GraphValue, transitive: bool)
    requires DistinctChangeIds(changes)
    ensures OnePerPair(Analysis(changes, d, g, transitive).findings)
    ensures var x := Input(d.references, g, transitive);
            forall f :: f in Analysis(changes, d, g, transitive).findings ==>
              exists k, c :: k in changes && c in d.consumers && IsFinding(x, k, c, f)
  {
    var x, ks, cs := Input(d.references, g, transitive), Sort(changes, ChangeKey), Sort(d.consumers, ConsumerKey);
    SortKeeps(changes, ChangeKey);
    SortKeeps(d.consumers, ConsumerKey);
    if IdError(d.consumers).None? {
      DistinctChangeIdsPermutation(changes, ks);
      DistinctIdsPermutation(d.consumers, cs);
      ScanChangesOnePerPair(x, ks, cs);
      forall f | f in ScanChanges(x, ks, cs).findings
        ensures exists k, c :: k in changes && c in d.consumers && IsFinding(x, k, c, f)
      {
        ScanChangesSources(x, ks, cs, f);
      }
    }
  }

  /** The affected pairs, each by its change and its consumer's ID. */
  ghost function AffectedPairs(changes: seq<Change>, cs: seq<Consumer>, x: Input): set<(Change, string)> {
    set k, c | k in changes && c in cs && EmitsFor(x, k, c) :: (k, c.id)
  }

  ghost function PairsOf(fs: seq<Finding>): seq<(Change, string)> {
    seq(|fs|, i requires 0 <= i < |fs| => (fs[i].change, fs[i].consumer.id))
  }

  lemma PairIsAffected(changes: seq<Change>, cs: seq<Consumer>, x: Input, f: Finding)
    requires exists k, c :: k in changes && c in cs && IsFinding(x, k, c, f)
    ensures (f.change, f.consumer.id) in AffectedPairs(changes, cs, x)
  {
  }

  lemma AffectedIsPair(changes: seq<Change>, cs: seq<Consumer>, x: Input, fs: seq<Finding>, k: Change, c: Consumer)
    requires k in changes && c in cs && EmitsFor(x, k, c) && TypeForConsumer(c.kind).Some?
    requires forall f :: IsFinding(x, k, c, f) ==> f in fs
    ensures (k, c.id) in PairsOf(fs)
  {
    var f := MakeFinding(k, c, TypeForConsumer(c.kind).value, RefsFor(x, k, c), PathsFor(x, k, c));
    assert IsFinding(x, k, c, f);
    var i :| 0 <= i < |fs| && fs[i] == f;
    assert PairsOf(fs)[i] == (k, c.id);
  }

  lemma PairsCount(fs: seq<Finding>, pairs: set<(Change, string)>)
    requires OnePerPair(fs) && forall p :: p in PairsOf(fs) <==> p in pairs
    ensures |fs| == |pairs|
  {
    var ps := PairsOf(fs);
    forall i, j | 0 <= i < j < |ps| ensures ps[i] != ps[j] { assert !SamePair(fs[i], fs[j]); }
    DistinctMultiset(ps, pairs);
    assert |multiset(ps)| == |multiset(pairs)|;
  }

  /** A complete analysis has exactly one finding per affected pair. */
  lemma AnalysisCountsPairs(changes: seq<Change>, d: Discovery, g: GraphValue, transitive: bool)
    requires DistinctChangeIds(changes) && Analysis(changes, d, g, transitive).error.None?
    ensures |Analysis(changes, d, g, transitive).findings| ==
            |AffectedPairs(changes, d.consumers, Input(d.references, g, transitive))|
  {
    var x, fs := Input(d.references, g, transitive), Analysis(changes, d, g, transitive).findings;
    var pairs := AffectedPairs(changes, d.consumers, x);
    AnalysisOnePerPair(changes, d, g, transitive);
    forall p | p in PairsOf(fs) ensures p in pairs {
      var i :| 0 <= i < |fs| && PairsOf(fs)[i] == p;
      assert fs[i] in fs;
      PairIsAffected(changes, d.consumers, x, fs[i]);
    }
    forall p | p in pairs ensures p in PairsOf(fs) {
      var k, c :| k in changes && c in d.consumers && EmitsFor(x, k, c) && p == (k, c.id);
      AnalysisContents(changes, d, g, transitive);
      AffectedIsPair(changes, d.consumers, x, fs, k, c);
    }
    PairsCount(fs, pairs);
  }

  /** A quiet scan has no findings and no error. */
  lemma {:induction false} QuietScan(x: Input, changes: seq<Change>, cs: seq<Consumer>)
    requires forall k, c :: k in changes && c in cs ==> !EmitsFor(x, k, c)
    ensures ScanChanges(x, changes, cs) == Scan([], None)
  {
    if changes != [] {
      QuietScan(x, changes[..|changes| - 1], cs);
      QuietChange(x, Scan([], None), changes[|changes| - 1], cs);
    }
  }

  lemma {:induction false} QuietChange(x: Input, s: Scan, change: Change, cs: seq<Consumer>)
    requires forall c :: c in cs ==> !EmitsFor(x, change, c)
    ensures ScanChange(x, s, change, cs) == s
  {
    if cs != [] {
      QuietChange(x, s, change, cs[..|cs| - 1]);
      assert cs[|cs| - 1] in cs;
    }
  }

  // ----- the loops

  lemma DistinctIdsPermutation(a: seq<Consumer>, b: seq<Consumer>)
    requires multiset(a) == multiset(b)
    ensures DistinctConsumerIds(a) ==> DistinctConsumerIds(b)
  {
    if DistinctConsumerIds(a) {
      SameElements(a, b);
      DistinctPermutation(a, b);
      forall i, j | 0 <= i < j < |b| ensures b[i].id != b[j].id {
        assert b[i] in a && b[j] in a && b[i] != b[j];
      }
    }
  }

  lemma IdErrorPermutation(a: seq<Consumer>, b: seq<Consumer>)
    requires multiset(a) == multiset(b)
    ensures IdError(a) == IdError(b)
  {
    SameElements(a, b);
    DistinctIdsPermutation(a, b);
    DistinctIdsPermutation(b, a);
  }

  /** In ID order an empty ID can only come first. */
  lemma EmptyIdFirst(cs: seq<Consumer>, j: nat)
    requires SortedBy(cs, ConsumerKey) && j < |cs| && cs[j].id == ""
    ensures cs[0].id == ""
  {
    if j > 0 {
      assert KeyLe(ConsumerKey(cs[0]), ConsumerKey(cs[j]));
      assert FieldLe(Text(cs[0].id), Text("")) || cs[0].id == "";
    }
  }

  method CheckIds(cs: seq<Consumer>) returns (e: Option<AnalysisError>)
    requires SortedBy(cs, ConsumerKey)
    ensures e == IdError(cs)
  {
    var seen: set<string> := {};
    var i := 0;
    while i < |cs|
      invariant i <= |cs|
      invariant forall id :: id in seen <==> exists j :: 0 <= j < i && cs[j].id == id
      invariant "" !in seen && DistinctConsumerIds(cs[..i])
    {
      if cs[i].id == "" {
        assert cs[i] in cs;
        return Some(EmptyConsumerId);
      }
      if cs[i].id in seen {
        forall j | 0 <= j < |cs| ensures cs[j].id != "" {
          if cs[j].id == "" { EmptyIdFirst(cs, j); }
        }
        return Some(DuplicateConsumerId);
      }
      seen := seen + {cs[i].id};
      i := i + 1;
    }
    assert cs[..i] == cs;
    return None;
  }

  method ScanConsumers(x: Scan, change: Change, cs: seq<Consumer>, references: seq<Reference>, impacted: PathMap,
                       ghost input: Input)
    returns (s: Scan)
    requires input.references == references && Tabulates(impacted, input.graph, change.from, input.transitive)
    ensures s == ScanChange(input, x, change, cs)
  {
    s := x;
    var i := 0;
    while i < |cs|
      invariant i <= |cs| && s == ScanChange(input, x, change, cs[..i])
    {
      var c := cs[i];
      assert cs[..i + 1][..i] == cs[..i];
      s := ScanConsumer(s, change, c, SourceReferences(references, c.id, change), Lookup(impacted, c.id));
      i := i + 1;
    }
    assert cs[..i] == cs;
  }

  lemma {:induction false} ScanStops(x: Input, changes: seq<Change>, cs: seq<Consumer>, k: nat)
    requires k <= |changes| && ScanChanges(x, changes[..k], cs).error.Some?
    ensures ScanChanges(x, changes, cs) == ScanChanges(x, changes[..k], cs)
  {
    if k == |changes| {
      assert changes[..k] == changes;
    } else {
      var rest := changes[..|changes| - 1];
      assert rest[..k] == changes[..k];
      ScanStops(x, rest, cs, k);
      ScanStuck(x, ScanChanges(x, rest, cs), changes[|changes| - 1], cs);
    }
  }

  method ScanSorted(ks: seq<Change>, cs: seq<Consumer>, references: seq<Reference>, g: Graph, transitive: bool)
    returns (s: Scan)
    requires g.Valid()
    ensures s == ScanChanges(Input(references, g.Value(), transitive), ks, cs)
  {
    ghost var x := Input(references, g.Value(), transitive);
    s := Scan([], None);
    var i := 0;
    while i < |ks|
      invariant i <= |ks| && s == ScanChanges(x, ks[..i], cs)
    {
      assert ks[..i + 1][..i] == ks[..i];
      var impacted := ImpactedConsumers(g, ks[i].from, transitive);
      s := ScanConsumers(s, ks[i], cs, references, impacted, x);
      i := i + 1;
      if s.error.Some? {
        ScanStops(x, ks, cs, i);
        return;
      }
    }
    assert ks[..i] == ks;
  }

  /** Consumers and changes in ID order, one finding per affected pair, stopping at an unmapped kind. */
  method Analyze(changes: seq<Change>, d: Discovery, g: Graph, transitive: bool) returns (s: Scan)
    requires g.Valid()
    ensures s == Analysis(changes, d, g.Value(), transitive)
  {
    var cs := Sort(d.consumers, ConsumerKey);
    SortSorted(d.consumers, ConsumerKey);
    IdErrorPermutation(d.consumers, cs);
    var e := CheckIds(cs);
    if e.Some? {
      return Scan([], e);
    }
    s := ScanSorted(Sort(changes, ChangeKey), cs, d.references, g, transitive);
  }
}
