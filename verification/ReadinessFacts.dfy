/** What a readiness assessment says about the recorded evidence: each class, each status and each count,
    in terms of the evidence and the policy alone. */
module ReadinessFacts {
  import opened Ordering
  import opened Domain
  import opened Paths
  import opened Impact
  import opened Findings
  import opened Build
  import opened Reach
  import opened Facts
  import opened Readiness

  // ----- one consumer and one change

  ghost predicate OldReached(d: Discovery, k: Change, c: Consumer, t: bool) { Reaches(d, k.from, t, c.id) }

  ghost predicate NewReached(d: Discovery, k: Change, c: Consumer, t: bool) {
    k.to.Some? && Reaches(d, k.to.value, t, c.id)
  }

  ghost predicate LeftOpen(d: Discovery, k: Change, c: Consumer) {
    c.unresolved || exists r :: r in d.references && r.consumerId == c.id && LeavesOpen(r, k)
  }

  lemma DoubtfulMeans(d: Discovery, k: Change, c: Consumer)
    ensures Doubtful(d.references, k, c) <==> LeftOpen(d, k, c)
  {
    forall r ensures UnresolvedReferenceApplies(r, k) <==> LeavesOpen(r, k) { OpenMeans(r, k); }
  }

  lemma PathsMean(d: Discovery, k: Change, c: Consumer, t: bool)
    requires Faithful(d) && c in d.consumers
    ensures var x := Input(d.references, GraphOf(d), t);
            && (OldPaths(x, k, c) != [] <==> OldReached(d, k, c, t))
            && (NewPaths(x, k, c) != [] <==> NewReached(d, k, c, t))
  {
    ImpactIsExact(d, k.from, t, c);
    if k.to.Some? { ImpactIsExact(d, k.to.value, t, c); }
  }

  /** A consumer is LEGACY_ONLY exactly when only the old symbol reaches it, DUAL when both do, UNCERTAIN
      when the old one does not and something is left open, MIGRATED when nothing is and the new one does,
      and UNAFFECTED otherwise. */
  lemma ClassIsExact(d: Discovery, k: Change, c: Consumer, t: bool)
    requires Faithful(d) && c in d.consumers
    ensures var kind := ClassFor(Input(d.references, GraphOf(d), t), k, c);
            var old_, new_, open := OldReached(d, k, c, t), NewReached(d, k, c, t), LeftOpen(d, k, c);
            && (kind == LegacyOnly <==> old_ && !new_)
            && (kind == Dual <==> old_ && new_)
            && (kind == Uncertain <==> !old_ && open)
            && (kind == Migrated <==> !old_ && !open && new_)
            && (kind == Unaffected <==> !old_ && !open && !new_)
  {
    PathsMean(d, k, c, t);
    DoubtfulMeans(d, k, c);
  }

  /** The references a result lists: those of the consumer to the old or the new symbol, and those left open. */
  lemma ReferencesAreListed(d: Discovery, k: Change, c: Consumer, t: bool, r: Reference)
    ensures r in ConsumerResultFor(Input(d.references, GraphOf(d), t), k, c).references <==>
            && r in d.references && r.consumerId == c.id
            && (Denotes(r.symbol, k.from) || (k.to.Some? && Denotes(r.symbol, k.to.value)) || LeavesOpen(r, k))
  {
    FilterContents(d.references, r => Mentions(r, c.id, k), r);
    MatchingMeans(r.symbol, k.from);
    if k.to.Some? { MatchingMeans(r.symbol, k.to.value); }
    OpenMeans(r, k);
  }

  // ----- statuses

  /** A consumer of criticality `c` counts under a minimum. Unknown criticalities count as medium, and
      no minimum means high. */
  ghost predicate Counts(c: string, minimum: string) {
    match ToLower(minimum)
    case "low" => true
    case "critical" => ToLower(c) == "critical"
    case "high" => ToLower(c) in {"high", "critical"}
    case "" => ToLower(c) in {"high", "critical"}
    case _ => ToLower(c) != "low"
  }

  lemma CountsMeans(c: string, minimum: string, p: ReadinessPolicy)
    requires p.minimumBlockingCriticality == minimum
    ensures CriticalityRank(c) >= CriticalityRank(Threshold(p)) <==> Counts(c, minimum)
    ensures CriticalityRank(c) >= CriticalityRank(CRITICAL) <==> ToLower(c) == "critical"
  {
    LowerIsItself();
    if ToLower(minimum) == "" { assert minimum == ""; }
  }

  ghost predicate Holding(d: Discovery, k: Change, c: Consumer, p: ReadinessPolicy) {
    && p.failOnCriticalLegacyConsumer && Counts(c.criticality, p.minimumBlockingCriticality)
    && OldReached(d, k, c, p.includeTransitive) && !NewReached(d, k, c, p.includeTransitive)
  }

  ghost predicate Unknown(d: Discovery, k: Change, c: Consumer, p: ReadinessPolicy) {
    && p.failOnCriticalUnknown && ToLower(c.criticality) == "critical"
    && !OldReached(d, k, c, p.includeTransitive) && LeftOpen(d, k, c)
  }

  lemma ResultMeans(d: Discovery, k: Change, c: Consumer, p: ReadinessPolicy)
    requires Faithful(d) && c in d.consumers
    ensures var r := ConsumerResultFor(Input(d.references, GraphOf(d), p.includeTransitive), k, c);
            (BlocksMigration(r, p) <==> Holding(d, k, c, p)) && (LeavesUnknown(r, p) <==> Unknown(d, k, c, p))
  {
    ClassIsExact(d, k, c, p.includeTransitive);
    CountsMeans(c.criticality, p.minimumBlockingCriticality, p);
  }

  ghost predicate Required(d: Discovery) { exists g :: g in d.diagnostics && g.required }

  /** The status of one change, or of several, from the evidence. */
  ghost predicate StatusSays(status: ReadinessStatus, d: Discovery, ks: seq<Change>, p: ReadinessPolicy) {
    var held := exists k, c :: k in ks && c in d.consumers && Holding(d, k, c, p);
    var unknown := exists k, c :: k in ks && c in d.consumers && Unknown(d, k, c, p);
    && (status == Blocked <==> held)
    && (status == Incomplete <==> !held && (Required(d) || unknown))
    && (status == Ready <==> !held && !Required(d) && !unknown)
  }

  ghost predicate ResultSays(r: ConsumerResult, d: Discovery, k: Change, t: bool) {
    var c := r.consumer;
    var old_, new_, open := OldReached(d, k, c, t), NewReached(d, k, c, t), LeftOpen(d, k, c);
    && c in d.consumers
    && r.classification == (if old_ && new_ then Dual else if old_ then LegacyOnly else if open then Uncertain
                            else if new_ then Migrated else Unaffected)
    && (r.paths != [] <==> old_ || new_)
    && forall x :: x in r.references <==>
         && x in d.references && x.consumerId == c.id
         && (Denotes(x.symbol, k.from) || (k.to.Some? && Denotes(x.symbol, k.to.value)) || LeavesOpen(x, k))
  }

  /** The report on one change: every consumer once, in order of its ID, and the status that follows. */
  ghost predicate ChangeSays(r: ChangeResult, d: Discovery, k: Change, p: ReadinessPolicy) {
    && r.change == k && StatusSays(r.status, d, [k], p)
    && |r.consumers| == |d.consumers|
    && (forall c :: c in d.consumers ==> exists i :: 0 <= i < |r.consumers| && r.consumers[i].consumer == c)
    && (forall i, j :: 0 <= i < j < |r.consumers| ==> StringLe(r.consumers[i].consumer.id, r.consumers[j].consumer.id))
    && forall i :: 0 <= i < |r.consumers| ==> ResultSays(r.consumers[i], d, k, p.includeTransitive)
  }

  lemma ResultIsExact(d: Discovery, k: Change, c: Consumer, t: bool)
    requires Faithful(d) && c in d.consumers
    ensures ResultSays(ConsumerResultFor(Input(d.references, GraphOf(d), t), k, c), d, k, t)
  {
    ClassIsExact(d, k, c, t);
    PathsMean(d, k, c, t);
    forall r { ReferencesAreListed(d, k, c, t, r); }
  }

  lemma SortedIds(cs: seq<Consumer>, i: nat, j: nat)
    requires SortedBy(cs, ConsumerKey) && i < j < |cs|
    ensures StringLe(cs[i].id, cs[j].id)
  {
    assert KeyLe(ConsumerKey(cs[i]), ConsumerKey(cs[j]));
    StringTotal(cs[i].id, cs[j].id);
  }

  lemma SomeHolds(d: Discovery, k: Change, cs: seq<Consumer>, p: ReadinessPolicy)
    requires Faithful(d) && forall c :: c in cs <==> c in d.consumers
    ensures var rs := ConsumerResults(Input(d.references, GraphOf(d), p.includeTransitive), k, cs);
            (exists r :: r in rs && BlocksMigration(r, p)) <==> exists c :: c in d.consumers && Holding(d, k, c, p)
  {
    var rs := ConsumerResults(Input(d.references, GraphOf(d), p.includeTransitive), k, cs);
    if r :| r in rs && BlocksMigration(r, p) {
      var i :| 0 <= i < |rs| && rs[i] == r;
      assert cs[i] in cs;
      ResultMeans(d, k, cs[i], p);
    }
    if c :| c in d.consumers && Holding(d, k, c, p) {
      var i :| 0 <= i < |cs| && cs[i] == c;
      ResultMeans(d, k, c, p);
      assert rs[i] in rs;
    }
  }

  lemma SomeUnknown(d: Discovery, k: Change, cs: seq<Consumer>, p: ReadinessPolicy)
    requires Faithful(d) && forall c :: c in cs <==> c in d.consumers
    ensures var rs := ConsumerResults(Input(d.references, GraphOf(d), p.includeTransitive), k, cs);
            (exists r :: r in rs && LeavesUnknown(r, p)) <==> exists c :: c in d.consumers && Unknown(d, k, c, p)
  {
    var rs := ConsumerResults(Input(d.references, GraphOf(d), p.includeTransitive), k, cs);
    if r :| r in rs && LeavesUnknown(r, p) {
      var i :| 0 <= i < |rs| && rs[i] == r;
      assert cs[i] in cs;
      ResultMeans(d, k, cs[i], p);
    }
    if c :| c in d.consumers && Unknown(d, k, c, p) {
      var i :| 0 <= i < |cs| && cs[i] == c;
      ResultMeans(d, k, c, p);
      assert rs[i] in rs;
    }
  }

  lemma ConsumersStatus(d: Discovery, k: Change, cs: seq<Consumer>, p: ReadinessPolicy)
    requires Faithful(d) && forall c :: c in cs <==> c in d.consumers
    ensures var rs := ConsumerResults(Input(d.references, GraphOf(d), p.includeTransitive), k, cs);
            StatusSays(StatusForConsumers(rs, d.diagnostics, p), d, [k], p)
  {
    SomeHolds(d, k, cs, p);
    SomeUnknown(d, k, cs, p);
    assert forall x :: x in [k] <==> x == k;
  }

  lemma ChangeIsExact(d: Discovery, k: Change, p: ReadinessPolicy)
    requires Faithful(d)
    ensures ChangeSays(ChangeResultFor(Input(d.references, GraphOf(d), p.includeTransitive), k,
                                       Sort(d.consumers, ConsumerKey), d.diagnostics, p), d, k, p)
  {
    var x, cs := Input(d.references, GraphOf(d), p.includeTransitive), Sort(d.consumers, ConsumerKey);
    SortKeeps(d.consumers, ConsumerKey);
    SortSorted(d.consumers, ConsumerKey);
    ConsumersStatus(d, k, cs, p);
    var rs := ConsumerResults(x, k, cs);
    forall i | 0 <= i < |rs| ensures ResultSays(rs[i], d, k, p.includeTransitive) {
      assert cs[i] in cs;
      ResultIsExact(d, k, cs[i], p.includeTransitive);
    }
    forall i, j | 0 <= i < j < |rs| ensures StringLe(rs[i].consumer.id, rs[j].consumer.id) { SortedIds(cs, i, j); }
    forall c | c in d.consumers ensures exists i :: 0 <= i < |rs| && rs[i].consumer == c {
      var i :| 0 <= i < |cs| && cs[i] == c;
      assert rs[i].consumer == c;
    }
  }

  lemma ChangesStatus(d: Discovery, ks: seq<Change>, rs: seq<ChangeResult>, p: ReadinessPolicy)
    requires |rs| == |ks| && forall i :: 0 <= i < |ks| ==> StatusSays(rs[i].status, d, [ks[i]], p)
    ensures StatusSays(StatusForChanges(rs, d.diagnostics), d, ks, p)
  {
    forall k, c | k in ks && c in d.consumers && Holding(d, k, c, p)
      ensures exists r :: r in rs && r.status == Blocked
    {
      var i :| 0 <= i < |ks| && ks[i] == k;
      assert k in [ks[i]] && rs[i] in rs;
    }
    forall k, c | k in ks && c in d.consumers && Unknown(d, k, c, p)
      ensures exists r :: r in rs && r.status in {Blocked, Incomplete}
    {
      var i :| 0 <= i < |ks| && ks[i] == k;
      assert k in [ks[i]] && rs[i] in rs;
    }
    forall r | r in rs ensures exists i :: 0 <= i < |ks| && rs[i] == r && ks[i] in ks {}
  }

  /** An assessment on the graph of the evidence is refused only for an empty or a repeated consumer ID;
      otherwise it reports every change in the given order, and BLOCKED, INCOMPLETE and READY say exactly
      what the evidence and the policy make of it. */
  lemma AssessmentIsExact(ks: seq<Change>, d: Discovery, p: ReadinessPolicy)
    requires Buildable(d) && Unambiguous(d)
    ensures var r := Assessment(ks, d, GraphOf(d), p);
            && (r.Rejected? <==> (exists c :: c in d.consumers && c.id == "") || !DistinctConsumerIds(d.consumers))
            && (r.Assessed? ==>
                  && StatusSays(r.status, d, ks, p) && |r.changes| == |ks|
                  && forall i :: 0 <= i < |ks| ==> ChangeSays(r.changes[i], d, ks[i], p))
  {
    var r := Assessment(ks, d, GraphOf(d), p);
    if r.Assessed? {
      forall i | 0 <= i < |ks| ensures ChangeSays(r.changes[i], d, ks[i], p) { ChangeIsExact(d, ks[i], p); }
      ChangesStatus(d, ks, r.changes, p);
    }
  }

  // ----- the summary

  /** The class kept for a consumer is the gravest one it had for any change. */
  lemma {:induction false} WorstIsGravest(classes: seq<Classification>)
    ensures var w := Worst(classes);
            && (w == Some(LegacyOnly) <==> LegacyOnly in classes)
            && (w == Some(Uncertain) <==> LegacyOnly !in classes && Uncertain in classes)
            && (w == Some(Dual) <==> LegacyOnly !in classes && Uncertain !in classes && Dual in classes)
            && (w == Some(Migrated) <==>
                  LegacyOnly !in classes && Uncertain !in classes && Dual !in classes && Migrated in classes)
            && (w == None <==> classes == [])
  {
    if classes != [] {
      var n := |classes| - 1;
      WorstIsGravest(classes[..n]);
      assert classes == classes[..n] + [classes[n]];
    }
  }

  function Counted(s: Summary, kind: Classification): nat {
    match kind
    case LegacyOnly => s.legacyOnly
    case Migrated => s.migrated
    case Dual => s.dual
    case Uncertain => s.uncertain
    case Unaffected => s.unaffected
  }

  ghost function Places<T>(s: seq<T>, keep: T -> bool): set<int> { set i | 0 <= i < |s| && keep(s[i]) }

  ghost function Elements<T>(s: seq<T>, keep: T -> bool): set<T> { set x | x in s && keep(x) }

  lemma CountNext(s: Summary, k: Option<Classification>, kind: Classification)
    requires kind != Unaffected
    ensures Counted(Count(s, k), kind) == Counted(s, kind) + if k == Some(kind) then 1 else 0
  {
  }

  lemma PlacesNext<T>(s: seq<T>, keep: T -> bool)
    requires s != []
    ensures var n := |s| - 1; |Places(s, keep)| == |Places(s[..n], keep)| + if keep(s[n]) then 1 else 0
  {
    var n := |s| - 1;
    assert Places(s, keep) == Places(s[..n], keep) + if keep(s[n]) then {n} else {};
  }

  lemma ElementsNext<T>(s: seq<T>, keep: T -> bool)
    requires s != [] && s[|s| - 1] !in s[..|s| - 1]
    ensures var n := |s| - 1; |Elements(s, keep)| == |Elements(s[..n], keep)| + if keep(s[n]) then 1 else 0
  {
    var n := |s| - 1;
    assert s == s[..n] + [s[n]];
    assert Elements(s, keep) == Elements(s[..n], keep) + if keep(s[n]) then {s[n]} else {};
  }

  /** Counting the places of distinct elements is counting the elements. */
  lemma {:induction false} PlacesAreElements<T>(s: seq<T>, keep: T -> bool)
    requires Distinct(s)
    ensures |Places(s, keep)| == |Elements(s, keep)|
  {
    if s != [] {
      PlacesAreElements(s[..|s| - 1], keep);
      PlacesNext(s, keep);
      ElementsNext(s, keep);
    }
  }

  lemma {:induction false} TallyCountsPlaces(classes: seq<Option<Classification>>, total: nat, kind: Classification)
    requires kind != Unaffected
    ensures Counted(Tally(classes, total), kind) == |Places(classes, k => k == Some(kind))|
  {
    if classes != [] {
      var n := |classes| - 1;
      TallyCountsPlaces(classes[..n], total, kind);
      CountNext(Tally(classes[..n], total), classes[n], kind);
      PlacesNext(classes, k => k == Some(kind));
    }
  }

  /** For some change only the old symbol reaches the consumer. */
  ghost predicate EverLegacy(d: Discovery, ks: seq<Change>, c: Consumer, t: bool) {
    exists k :: k in ks && OldReached(d, k, c, t) && !NewReached(d, k, c, t)
  }

  ghost predicate EverUncertain(d: Discovery, ks: seq<Change>, c: Consumer, t: bool) {
    exists k :: k in ks && !OldReached(d, k, c, t) && LeftOpen(d, k, c)
  }

  ghost predicate EverDual(d: Discovery, ks: seq<Change>, c: Consumer, t: bool) {
    exists k :: k in ks && OldReached(d, k, c, t) && NewReached(d, k, c, t)
  }

  ghost predicate EverMigrated(d: Discovery, ks: seq<Change>, c: Consumer, t: bool) {
    exists k :: k in ks && !OldReached(d, k, c, t) && !LeftOpen(d, k, c) && NewReached(d, k, c, t)
  }

  lemma ClassOccurs(x: Input, ks: seq<Change>, c: Consumer, kind: Classification)
    ensures kind in ClassesFor(x, ks, c) <==> exists k :: k in ks && ClassFor(x, k, c) == kind
  {
    var classes := ClassesFor(x, ks, c);
    if kind in classes {
      var i :| 0 <= i < |ks| && classes[i] == kind;
      assert ks[i] in ks;
    }
    if k :| k in ks && ClassFor(x, k, c) == kind {
      var i :| 0 <= i < |ks| && ks[i] == k;
      assert classes[i] == kind;
    }
  }

  lemma EverMeans(d: Discovery, ks: seq<Change>, c: Consumer, t: bool)
    requires Faithful(d) && c in d.consumers
    ensures var classes := ClassesFor(Input(d.references, GraphOf(d), t), ks, c);
            && (LegacyOnly in classes <==> EverLegacy(d, ks, c, t))
            && (Uncertain in classes <==> EverUncertain(d, ks, c, t))
            && (Dual in classes <==> EverDual(d, ks, c, t))
            && (Migrated in classes <==> EverMigrated(d, ks, c, t))
  {
    var x := Input(d.references, GraphOf(d), t);
    ClassOccurs(x, ks, c, LegacyOnly);
    ClassOccurs(x, ks, c, Uncertain);
    ClassOccurs(x, ks, c, Dual);
    ClassOccurs(x, ks, c, Migrated);
    forall k { ClassIsExact(d, k, c, t); }
  }

  /** The gravest class of the consumer over all changes; UNAFFECTED if it has no other. */
  ghost predicate Gravest(d: Discovery, ks: seq<Change>, c: Consumer, t: bool, kind: Classification) {
    match kind
    case LegacyOnly => EverLegacy(d, ks, c, t)
    case Uncertain => !EverLegacy(d, ks, c, t) && EverUncertain(d, ks, c, t)
    case Dual => !EverLegacy(d, ks, c, t) && !EverUncertain(d, ks, c, t) && EverDual(d, ks, c, t)
    case Migrated =>
      && !EverLegacy(d, ks, c, t) && !EverUncertain(d, ks, c, t) && !EverDual(d, ks, c, t)
      && EverMigrated(d, ks, c, t)
    case Unaffected =>
      && !EverLegacy(d, ks, c, t) && !EverUncertain(d, ks, c, t) && !EverDual(d, ks, c, t)
      && !EverMigrated(d, ks, c, t)
  }

  ghost function ConsumersOf(d: Discovery, ks: seq<Change>, t: bool, kind: Classification): set<Consumer> {
    set c | c in d.consumers && Gravest(d, ks, c, t, kind)
  }

  /** The counts say of how many consumers each class is the gravest; the progress is the share of DUAL and
      MIGRATED ones among those affected, in percent rounded down. */
  ghost predicate SummarySays(s: Summary, d: Discovery, ks: seq<Change>, t: bool) {
    var legacy, uncertain := |ConsumersOf(d, ks, t, LegacyOnly)|, |ConsumersOf(d, ks, t, Uncertain)|;
    var dual, migrated := |ConsumersOf(d, ks, t, Dual)|, |ConsumersOf(d, ks, t, Migrated)|;
    var affected := legacy + uncertain + dual + migrated;
    && s.total == |d.consumers| && s.legacyOnly == legacy && s.uncertain == uncertain
    && s.dual == dual && s.migrated == migrated && s.unaffected == |d.consumers| - affected
    && IsShare(s.progress, migrated + dual, affected)
  }

  /** The part is this many percent of the whole, rounded down; all of it when there is nothing. */
  ghost predicate IsShare(percent: nat, part: nat, whole: nat) {
    if whole == 0 then percent == 100 else percent * whole <= 100 * part < (percent + 1) * whole
  }

  lemma GravestMeans(d: Discovery, ks: seq<Change>, c: Consumer, t: bool, kind: Classification)
    requires Faithful(d) && c in d.consumers && kind != Unaffected
    ensures Worst(ClassesFor(Input(d.references, GraphOf(d), t), ks, c)) == Some(kind) <==> Gravest(d, ks, c, t, kind)
  {
    EverMeans(d, ks, c, t);
    WorstIsGravest(ClassesFor(Input(d.references, GraphOf(d), t), ks, c));
  }

  /** The classes are the gravest ones of the consumers. */
  ghost predicate Grave(classes: seq<Option<Classification>>, d: Discovery, ks: seq<Change>, cs: seq<Consumer>,
                        t: bool)
  {
    |classes| == |cs| && forall i, kind :: 0 <= i < |cs| && kind != Unaffected ==>
                           (classes[i] == Some(kind) <==> Gravest(d, ks, cs[i], t, kind))
  }

  lemma WorstClassesAreGrave(d: Discovery, ks: seq<Change>, cs: seq<Consumer>, t: bool)
    requires Faithful(d) && forall c :: c in cs ==> c in d.consumers
    ensures Grave(WorstClasses(Input(d.references, GraphOf(d), t), ks, cs), d, ks, cs, t)
  {
    forall i, kind | 0 <= i < |cs| && kind != Unaffected
      ensures WorstClasses(Input(d.references, GraphOf(d), t), ks, cs)[i] == Some(kind) <==>
              Gravest(d, ks, cs[i], t, kind)
    {
      assert cs[i] in cs;
      GravestMeans(d, ks, cs[i], t, kind);
    }
  }

  lemma CountIsExact(classes: seq<Option<Classification>>, d: Discovery, ks: seq<Change>, cs: seq<Consumer>, t: bool,
                     kind: Classification)
    requires Grave(classes, d, ks, cs, t) && Distinct(cs) && (forall c :: c in cs <==> c in d.consumers)
    requires kind != Unaffected
    ensures Counted(Tally(classes, |cs|), kind) == |ConsumersOf(d, ks, t, kind)|
  {
    var keep := (c: Consumer) => Gravest(d, ks, c, t, kind);
    TallyCountsPlaces(classes, |cs|, kind);
    PlacesAreElements(cs, keep);
    assert Places(classes, k => k == Some(kind)) == Places(cs, keep);
    assert ConsumersOf(d, ks, t, kind) == Elements(cs, keep);
  }

  lemma ProgressIsShare(s: Summary)
    ensures IsShare(WithProgress(s).progress, s.migrated + s.dual, s.legacyOnly + s.uncertain + s.dual + s.migrated)
  {
    var affected, part := s.legacyOnly + s.migrated + s.dual + s.uncertain, (s.migrated + s.dual) * 100;
    if affected > 0 {
      Quotient(part, affected);
      assert (part / affected + 1) * affected == part / affected * affected + affected;
    }
  }

  ghost predicate Tallies(s: Summary, d: Discovery, ks: seq<Change>, t: bool) {
    && s.total == |d.consumers| == s.legacyOnly + s.migrated + s.dual + s.unaffected + s.uncertain
    && s.legacyOnly == |ConsumersOf(d, ks, t, LegacyOnly)| && s.uncertain == |ConsumersOf(d, ks, t, Uncertain)|
    && s.dual == |ConsumersOf(d, ks, t, Dual)| && s.migrated == |ConsumersOf(d, ks, t, Migrated)|
  }

  lemma TalliedSummary(s: Summary, d: Discovery, ks: seq<Change>, t: bool)
    requires Tallies(s, d, ks, t)
    ensures SummarySays(WithProgress(s), d, ks, t)
  {
    ProgressIsShare(s);
  }

  lemma AssessedSummary(ks: seq<Change>, d: Discovery, p: ReadinessPolicy, x: Input, cs: seq<Consumer>)
    requires Assessment(ks, d, GraphOf(d), p).Assessed?
    requires x == Input(d.references, GraphOf(d), p.includeTransitive) && cs == Sort(d.consumers, ConsumerKey)
    ensures Assessment(ks, d, GraphOf(d), p).summary == WithProgress(Tally(WorstClasses(x, ks, cs), |cs|))
  {
  }

  lemma TallyIsExact(classes: seq<Option<Classification>>, d: Discovery, ks: seq<Change>, cs: seq<Consumer>, t: bool)
    requires Grave(classes, d, ks, cs, t) && Distinct(cs) && (forall c :: c in cs <==> c in d.consumers)
    requires |cs| == |d.consumers|
    ensures Tallies(Tally(classes, |cs|), d, ks, t)
  {
    TallyCounts(classes, |cs|);
    CountIsExact(classes, d, ks, cs, t, LegacyOnly);
    CountIsExact(classes, d, ks, cs, t, Uncertain);
    CountIsExact(classes, d, ks, cs, t, Dual);
    CountIsExact(classes, d, ks, cs, t, Migrated);
  }

  /** The summary of an assessment, from the evidence. */
  lemma SummaryIsExact(ks: seq<Change>, d: Discovery, p: ReadinessPolicy)
    requires Faithful(d) && Assessment(ks, d, GraphOf(d), p).Assessed?
    ensures SummarySays(Assessment(ks, d, GraphOf(d), p).summary, d, ks, p.includeTransitive)
  {
    var x, cs := Input(d.references, GraphOf(d), p.includeTransitive), Sort(d.consumers, ConsumerKey);
    SortKeeps(d.consumers, ConsumerKey);
    DistinctIdsPermutation(d.consumers, cs);
    assert Distinct(cs) by { forall i, j | 0 <= i < j < |cs| ensures cs[i] != cs[j] { assert cs[i].id != cs[j].id; } }
    AssessedSummary(ks, d, p, x, cs);
    var classes := WorstClasses(x, ks, cs);
    WorstClassesAreGrave(d, ks, cs, p.includeTransitive);
    TallyIsExact(classes, d, ks, cs, p.includeTransitive);
    TalliedSummary(Tally(classes, |cs|), d, ks, p.includeTransitive);
  }
}
