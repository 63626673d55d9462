/** The comparisons the program sorts by, field by field as it writes them, and that sorting by the lists
    of fields used here is sorting by these comparisons. */
module Comparators {
  import opened Ordering
  import opened Domain
  import opened Paths
  import opened Graphs
  import opened Findings
  import opened Safety

  /** The built-in order of strings: a proper prefix comes first, otherwise the first difference decides. */
  ghost predicate TextLess(a: string, b: string) {
    || (a <= b && a != b)
    || exists i :: 0 <= i < |a| && i < |b| && a[..i] == b[..i] && a[i] < b[i]
  }

  ghost predicate SourceLess(a: SourceLocation, b: SourceLocation) {
    if a.file != b.file then TextLess(a.file, b.file)
    else if a.line != b.line then a.line < b.line
    else if a.column != b.column then a.column < b.column
    else if a.url != b.url then TextLess(a.url, b.url)
    else TextLess(a.repo, b.repo)
  }

  ghost predicate EvidenceLess(a: Evidence, b: Evidence) {
    if a.source != b.source then SourceLess(a.source, b.source)
    else if a.method_ != b.method_ then TextLess(a.method_, b.method_)
    else if a.confidence != b.confidence then TextLess(a.confidence, b.confidence)
    else if a.expression != b.expression then TextLess(a.expression, b.expression)
    else TextLess(a.explanation, b.explanation)
  }

  ghost predicate SymbolLess(a: Symbol, b: Symbol) {
    if a.domain != b.domain then TextLess(a.domain, b.domain)
    else if a.kind != b.kind then TextLess(a.kind, b.kind)
    else if a.parent != b.parent then TextLess(a.parent, b.parent)
    else TextLess(a.name, b.name)
  }

  ghost predicate ReferenceLess(a: Reference, b: Reference) {
    if a.symbol != b.symbol then SymbolLess(a.symbol, b.symbol)
    else if a.evidence != b.evidence then EvidenceLess(a.evidence, b.evidence)
    else if a.usage != b.usage then TextLess(a.usage, b.usage)
    else if a.pattern != b.pattern then TextLess(a.pattern, b.pattern)
    else if a.requiresResolution != b.requiresResolution then !a.requiresResolution
    else TextLess(a.resolutionScope, b.resolutionScope)
  }

  ghost predicate DiagnosticLess(a: Diagnostic, b: Diagnostic) {
    if a.adapter != b.adapter then TextLess(a.adapter, b.adapter)
    else if a.source != b.source then SourceLess(a.source, b.source)
    else if a.message != b.message then TextLess(a.message, b.message)
    else !a.required && b.required
  }

  ghost predicate FindingLess(a: Finding, b: Finding) {
    if a.change.id != b.change.id then TextLess(a.change.id, b.change.id)
    else if a.consumer.id != b.consumer.id then TextLess(a.consumer.id, b.consumer.id)
    else TextLess(ImpactText(a.impact), ImpactText(b.impact))
  }

  ghost predicate EdgeLess(a: Edge, b: Edge) {
    if a.from != b.from then TextLess(a.from, b.from)
    else if a.to != b.to then TextLess(a.to, b.to)
    else TextLess(KindText(a.kind), KindText(b.kind))
  }

  // ----- strings

  lemma {:induction false} TextOrder(a: string, b: string)
    ensures TextLess(a, b) <==> StringLe(a, b) && a != b
  {
    if a != [] && b != [] {
      assert a == [a[0]] + a[1..] && b == [b[0]] + b[1..];
      if a[0] == b[0] {
        TextOrder(a[1..], b[1..]);
        SameHead(a, b);
      } else {
        assert a[..0] == b[..0];
        EqualFrontsBeginAlike(a, b);
      }
    }
  }

  lemma EqualFrontsBeginAlike(a: string, b: string)
    ensures forall i :: 0 < i <= |a| && i <= |b| && a[..i] == b[..i] ==> a[0] == b[0]
  {
    forall i | 0 < i <= |a| && i <= |b| && a[..i] == b[..i] ensures a[0] == b[0] { assert a[..i][0] == b[..i][0]; }
  }

  lemma SameHead(a: string, b: string)
    requires a != [] && b != [] && a[0] == b[0]
    ensures TextLess(a, b) <==> TextLess(a[1..], b[1..])
  {
    var x, y := a[1..], b[1..];
    assert a == [a[0]] + x && b == [b[0]] + y;
    if i :| 0 <= i < |x| && i < |y| && x[..i] == y[..i] && x[i] < y[i] {
      assert a[..i + 1] == [a[0]] + x[..i] && b[..i + 1] == [b[0]] + y[..i];
    }
    if i :| 0 <= i < |a| && i < |b| && a[..i] == b[..i] && a[i] < b[i] {
      assert x[..i - 1] == a[..i][1..] && y[..i - 1] == b[..i][1..];
    }
  }

  // ----- lists of fields

  ghost predicate FieldLess(a: Field, b: Field) { a != b && FieldLe(a, b) }

  /** The order of lists from their i-th field on. */
  ghost predicate LessFrom(p: Key, q: Key, i: nat)
    requires |p| == |q| && i <= |p|
  {
    p[i..] != q[i..] && KeyLe(p[i..], q[i..])
  }

  lemma FirstDecides(p: Key, q: Key, i: nat)
    requires |p| == |q| && i < |p|
    ensures LessFrom(p, q, i) <==> if p[i] != q[i] then FieldLess(p[i], q[i]) else LessFrom(p, q, i + 1)
  {
    assert p[i..] == [p[i]] + p[i + 1..] && q[i..] == [q[i]] + q[i + 1..];
  }

  lemma TextField(a: string, b: string)
    ensures FieldLess(Text(a), Text(b)) <==> TextLess(a, b)
    ensures !TextLess(a, a)
  {
    TextOrder(a, b);
    TextOrder(a, a);
  }

  lemma NumbersAndFlags(m: int, n: int, f: bool, g: bool)
    ensures FieldLess(Number(m), Number(n)) <==> m < n
    ensures FieldLess(Flag(f), Flag(g)) <==> !f && g
  {
  }

  ghost predicate Less(p: Key, q: Key) { p != q && KeyLe(p, q) }

  lemma LessIsLessFrom(p: Key, q: Key)
    requires |p| == |q|
    ensures Less(p, q) <==> LessFrom(p, q, 0)
  {
    assert p[0..] == p && q[0..] == q;
  }

  lemma NothingLess(p: Key, q: Key)
    requires |p| == |q|
    ensures !LessFrom(p, q, |p|)
  {
  }

  // ----- the comparisons

  lemma SourcesCompareAt(p: Key, q: Key, i: nat, a: SourceLocation, b: SourceLocation)
    requires |p| == |q| && i + 5 <= |p| && p[i..i + 5] == SourceKey(a) && q[i..i + 5] == SourceKey(b)
    ensures LessFrom(p, q, i) <==> if a != b then SourceLess(a, b) else LessFrom(p, q, i + 5)
  {
    assert p[i] == p[i..i + 5][0] && p[i + 1] == p[i..i + 5][1] && p[i + 2] == p[i..i + 5][2];
    assert p[i + 3] == p[i..i + 5][3] && p[i + 4] == p[i..i + 5][4];
    assert q[i] == q[i..i + 5][0] && q[i + 1] == q[i..i + 5][1] && q[i + 2] == q[i..i + 5][2];
    assert q[i + 3] == q[i..i + 5][3] && q[i + 4] == q[i..i + 5][4];
    FirstDecides(p, q, i);
    FirstDecides(p, q, i + 1);
    FirstDecides(p, q, i + 2);
    FirstDecides(p, q, i + 3);
    FirstDecides(p, q, i + 4);
    TextField(a.file, b.file);
    NumbersAndFlags(a.line, b.line, true, true);
    NumbersAndFlags(a.column, b.column, true, true);
    TextField(a.url, b.url);
    TextField(a.repo, b.repo);
  }

  /** Diagnostics are compared by adapter, source, message and whether they are required. */
  lemma DiagnosticsCompare(a: Diagnostic, b: Diagnostic)
    ensures Less(DiagnosticKey(a), DiagnosticKey(b)) <==> DiagnosticLess(a, b)
  {
    var p, q := DiagnosticKey(a), DiagnosticKey(b);
    assert p[1..6] == SourceKey(a.source) && q[1..6] == SourceKey(b.source);
    LessIsLessFrom(p, q);
    FirstDecides(p, q, 0);
    SourcesCompareAt(p, q, 1, a.source, b.source);
    FirstDecides(p, q, 6);
    FirstDecides(p, q, 7);
    NothingLess(p, q);
    TextField(a.adapter, b.adapter);
    TextField(a.message, b.message);
    NumbersAndFlags(0, 0, a.required, b.required);
  }

  /** Findings are compared by change, consumer and impact. */
  lemma FindingsCompare(a: Finding, b: Finding)
    ensures Less(FindingOrder(a), FindingOrder(b)) <==> FindingLess(a, b)
  {
    var p, q := FindingOrder(a), FindingOrder(b);
    LessIsLessFrom(p, q);
    FirstDecides(p, q, 0);
    FirstDecides(p, q, 1);
    FirstDecides(p, q, 2);
    NothingLess(p, q);
    TextField(a.change.id, b.change.id);
    TextField(a.consumer.id, b.consumer.id);
    TextField(ImpactText(a.impact), ImpactText(b.impact));
  }

  /** Edges are compared by source, destination and kind. */
  lemma EdgesCompare(a: Edge, b: Edge)
    ensures Less(EdgeOrder(a), EdgeOrder(b)) <==> EdgeLess(a, b)
  {
    var p, q := EdgeOrder(a), EdgeOrder(b);
    LessIsLessFrom(p, q);
    FirstDecides(p, q, 0);
    FirstDecides(p, q, 1);
    FirstDecides(p, q, 2);
    NothingLess(p, q);
    TextField(a.from, b.from);
    TextField(a.to, b.to);
    TextField(KindText(a.kind), KindText(b.kind));
  }

  lemma SymbolsCompare(p: Key, q: Key, a: Symbol, b: Symbol)
    requires |p| == |q| && 4 <= |p| && p[0] == Text(a.domain) && q[0] == Text(b.domain)
    requires p[1] == Text(a.kind) && q[1] == Text(b.kind) && p[2] == Text(a.parent) && q[2] == Text(b.parent)
    requires p[3] == Text(a.name) && q[3] == Text(b.name)
    ensures LessFrom(p, q, 0) <==> if a != b then SymbolLess(a, b) else LessFrom(p, q, 4)
  {
    FirstDecides(p, q, 0);
    FirstDecides(p, q, 1);
    FirstDecides(p, q, 2);
    FirstDecides(p, q, 3);
    TextField(a.domain, b.domain);
    TextField(a.kind, b.kind);
    TextField(a.parent, b.parent);
    TextField(a.name, b.name);
  }

  lemma EvidenceCompares(p: Key, q: Key, a: Evidence, b: Evidence)
    requires |p| == |q| && 13 <= |p| && p[4..9] == SourceKey(a.source) && q[4..9] == SourceKey(b.source)
    requires p[9] == Text(a.method_) && q[9] == Text(b.method_)
    requires p[10] == Text(a.confidence) && q[10] == Text(b.confidence)
    requires p[11] == Text(a.expression) && q[11] == Text(b.expression)
    requires p[12] == Text(a.explanation) && q[12] == Text(b.explanation)
    ensures LessFrom(p, q, 4) <==> if a != b then EvidenceLess(a, b) else LessFrom(p, q, 13)
  {
    SourcesCompareAt(p, q, 4, a.source, b.source);
    FirstDecides(p, q, 9);
    FirstDecides(p, q, 10);
    FirstDecides(p, q, 11);
    FirstDecides(p, q, 12);
    TextField(a.method_, b.method_);
    TextField(a.confidence, b.confidence);
    TextField(a.expression, b.expression);
    TextField(a.explanation, b.explanation);
  }

  lemma LastFieldsCompare(p: Key, q: Key, a: Reference, b: Reference)
    requires |p| == |q| == 17 && p[13] == Text(a.usage) && q[13] == Text(b.usage)
    requires p[14] == Text(a.pattern) && q[14] == Text(b.pattern)
    requires p[15] == Flag(a.requiresResolution) && q[15] == Flag(b.requiresResolution)
    requires p[16] == Text(a.resolutionScope) && q[16] == Text(b.resolutionScope)
    ensures LessFrom(p, q, 13) <==>
            if a.usage != b.usage then TextLess(a.usage, b.usage)
            else if a.pattern != b.pattern then TextLess(a.pattern, b.pattern)
            else if a.requiresResolution != b.requiresResolution then !a.requiresResolution
            else TextLess(a.resolutionScope, b.resolutionScope)
  {
    FirstDecides(p, q, 13);
    FirstDecides(p, q, 14);
    FirstDecides(p, q, 15);
    FirstDecides(p, q, 16);
    NothingLess(p, q);
    TextField(a.usage, b.usage);
    TextField(a.pattern, b.pattern);
    NumbersAndFlags(0, 0, a.requiresResolution, b.requiresResolution);
    TextField(a.resolutionScope, b.resolutionScope);
  }

  /** What a list of fields says about a reference, in three parts. */
  ghost predicate Describes(p: Key, r: Reference) {
    && |p| == 17
    && p[0] == Text(r.symbol.domain) && p[1] == Text(r.symbol.kind) && p[2] == Text(r.symbol.parent)
    && p[3] == Text(r.symbol.name) && p[4..9] == SourceKey(r.evidence.source)
    && p[9] == Text(r.evidence.method_) && p[10] == Text(r.evidence.confidence)
    && p[11] == Text(r.evidence.expression) && p[12] == Text(r.evidence.explanation)
    && p[13] == Text(r.usage) && p[14] == Text(r.pattern) && p[15] == Flag(r.requiresResolution)
    && p[16] == Text(r.resolutionScope)
  }

  lemma KeyDescribes(r: Reference)
    ensures Describes(ReferenceKey(r), r)
  {
    assert ReferenceKey(r)[4..9] == SourceKey(r.evidence.source);
  }

  lemma DescribedCompare(p: Key, q: Key, a: Reference, b: Reference)
    requires Describes(p, a) && Describes(q, b)
    ensures LessFrom(p, q, 0) <==> ReferenceLess(a, b)
  {
    SymbolsCompare(p, q, a.symbol, b.symbol);
    EvidenceCompares(p, q, a.evidence, b.evidence);
    LastFieldsCompare(p, q, a, b);
  }

  /** References are compared by symbol, evidence, usage, pattern, resolution and scope. */
  lemma ReferencesCompare(a: Reference, b: Reference)
    ensures Less(ReferenceKey(a), ReferenceKey(b)) <==> ReferenceLess(a, b)
  {
    KeyDescribes(a);
    KeyDescribes(b);
    LessIsLessFrom(ReferenceKey(a), ReferenceKey(b));
    DescribedCompare(ReferenceKey(a), ReferenceKey(b), a, b);
  }

  // ----- sorting

  /** Nothing later in the list is less than anything earlier. */
  ghost predicate InOrder<T>(s: seq<T>, less: (T, T) -> bool) {
    forall i, j :: 0 <= i < j < |s| ==> !less(s[j], s[i])
  }

  lemma SortsBy<T(!new)>(s: seq<T>, key: T -> Key, less: (T, T) -> bool)
    requires forall a, b :: less(a, b) <==> Less(key(a), key(b))
    ensures InOrder(Sort(s, key), less)
  {
    var r := Sort(s, key);
    SortSorted(s, key);
    forall i, j | 0 <= i < j < |r| ensures !less(r[j], r[i]) { KeyTotal(key(r[i]), key(r[j])); }
  }

  /** References, diagnostics, findings and edges come out in the order of the program's comparisons. */
  lemma SortsAsCompared(rs: seq<Reference>, ds: seq<Diagnostic>, fs: seq<Finding>, es: seq<Edge>)
    ensures InOrder(Sort(rs, ReferenceKey), (a, b) => ReferenceLess(a, b))
    ensures InOrder(Sort(ds, DiagnosticKey), (a, b) => DiagnosticLess(a, b))
    ensures InOrder(Sort(fs, FindingOrder), (a, b) => FindingLess(a, b))
    ensures InOrder(Sort(es, EdgeOrder), (a, b) => EdgeLess(a, b))
  {
    forall a, b { ReferencesCompare(a, b); }
    forall a, b { DiagnosticsCompare(a, b); }
    forall a, b { FindingsCompare(a, b); }
    forall a, b { EdgesCompare(a, b); }
    SortsBy(rs, ReferenceKey, (a, b) => ReferenceLess(a, b));
    SortsBy(ds, DiagnosticKey, (a, b) => DiagnosticLess(a, b));
    SortsBy(fs, FindingOrder, (a, b) => FindingLess(a, b));
    SortsBy(es, EdgeOrder, (a, b) => EdgeLess(a, b));
  }
}
