/** What accepting or refusing a candidate says about the target, the proposal and the evidence, in terms
    of their fields alone. */
module RemediationFacts {
  import opened Ordering
  import opened Domain
  import opened Graphs
  import opened Build
  import opened Findings
  import opened Reach
  import opened Facts
  import opened Readiness
  import opened ReadinessFacts
  import opened Remediation

  // ----- the target

  /** The symbols of references that keep or drop the target's symbols: a metric counts with its family, and
      anything else with the family of its parent. */
  predicate Means(s: Symbol, target: Symbol) {
    && s.domain == target.domain && s.kind == target.kind
    && (s.kind == "metric" ==> s.name in Family(target.name))
    && (s.kind != "metric" ==> s.name == target.name && s.parent in Family(target.parent))
  }

  ghost predicate Resolved(rs: seq<Reference>, consumerId: string, target: Symbol) {
    exists r :: r in rs && r.consumerId == consumerId && !r.requiresResolution && Means(r.symbol, target)
  }

  /** The first change of the target's ID renames the target's symbol. */
  ghost predicate IsRename(target: Target, ks: seq<Change>) {
    exists i :: && 0 <= i < |ks| && ks[i].id == target.changeId && ks[i].from == target.from
                && ks[i].to == Some(target.to) && forall j :: 0 <= j < i ==> ks[j].id != target.changeId
  }

  /** The consumer is the first of its ID. */
  ghost predicate IsFirst(cs: seq<Consumer>, c: Consumer) {
    exists i :: 0 <= i < |cs| && cs[i] == c && forall j :: 0 <= j < i ==> cs[j].id != c.id
  }

  ghost predicate EndsIn(s: string, suffix: string) { exists front :: s == front + suffix }

  predicate StartsWith(s: string, prefix: string) { prefix <= s }

  /** Prometheus consumers live in YAML files, Grafana consumers in JSON files. */
  ghost predicate LivesIn(c: Consumer, kind: ArtifactKind) {
    var file := ToLower(c.source.file);
    match kind
    case PrometheusYaml => StartsWith(c.id, "prometheus:") && (EndsIn(file, ".yaml") || EndsIn(file, ".yml"))
    case GrafanaJson => StartsWith(c.id, "grafana:") && EndsIn(file, ".json")
  }

  /** The target is what the evidence says: a renamed symbol and a consumer that refers to it. */
  ghost predicate Traced(target: Target, ks: seq<Change>, original: Discovery) {
    && IsRename(target, ks)
    && (exists c: Consumer ::
          && c.id == target.consumerId && IsFirst(original.consumers, c) && LivesIn(c, target.artifactKind)
          && c.source.file == target.file && c.expression == target.beforeExpression)
    && Resolved(original.references, target.consumerId, target.from)
  }

  // ----- the proposal

  /** The query refers to the symbol: it names a metric of its family, or its label on such a metric. */
  ghost predicate Queries(q: Parsed, target: Symbol) {
    exists m :: && m in q.mentions && !m.open && target.domain == "prometheus"
                && match m
                   case MetricMention(name, _, _) => target.kind == "metric" && name in Family(target.name)
                   case LabelMention(name, parent, _, _) =>
                     target.kind == "label" && name != "" && name == target.name && parent in Family(target.parent)
  }

  /** The evidence in the patched artifact still has the consumer, with exactly the replacement. */
  ghost predicate Rewritten(target: Target, found: Discovery, expression: string) {
    exists c: Consumer :: c.id == target.consumerId && IsFirst(found.consumers, c) && c.expression == expression
  }

  ghost predicate Unharmed(found: Discovery) { forall g :: g in found.diagnostics ==> !g.required }

  // ----- the program's tests mean this

  lemma SuffixMeans(s: string, suffix: string)
    ensures HasSuffix(s, suffix) <==> EndsIn(s, suffix)
  {
    if HasSuffix(s, suffix) { assert s == s[..|s| - |suffix|] + suffix; }
  }

  lemma ArtifactMeans(c: Consumer, kind: ArtifactKind)
    ensures SupportedArtifact(c) == Some(kind) <==> LivesIn(c, kind)
  {
    var file := ToLower(c.source.file);
    SuffixMeans(file, ".yaml");
    SuffixMeans(file, ".yml");
    SuffixMeans(file, ".json");
    assert "prometheus:" <= c.id ==> c.id[0] == 'p';
    assert "grafana:" <= c.id ==> c.id[0] == 'g';
  }

  lemma SymbolsMean(s: Symbol, target: Symbol)
    ensures SymbolsMatch(s, target) <==> Means(s, target)
  {
    FamiliesAgree(s.name, target.name);
    FamiliesAgree(s.parent, target.parent);
    FamilyMeans(s.name, target.name);
    FamilyMeans(s.parent, target.parent);
  }

  lemma ResolvedMeans(rs: seq<Reference>, id: string, target: Symbol)
    ensures HasDirectReference(ReferencesByConsumer(rs, id), target) <==> Resolved(rs, id, target)
  {
    forall r
      ensures r in ReferencesByConsumer(rs, id) <==> r in rs && r.consumerId == id
      ensures SymbolsMatch(r.symbol, target) <==> Means(r.symbol, target)
    {
      FilterContents(rs, (r: Reference) => r.consumerId == id, r);
      SymbolsMean(r.symbol, target);
    }
  }

  lemma {:induction false} FirstChangeIs(ks: seq<Change>, id: string)
    ensures FirstChange(ks, id).None? ==> forall k :: k in ks ==> k.id != id
    ensures FirstChange(ks, id).Some? ==>
              exists i :: && 0 <= i < |ks| && ks[i] == FirstChange(ks, id).value && ks[i].id == id
                          && forall j :: 0 <= j < i ==> ks[j].id != id
  {
    if ks != [] && ks[0].id != id {
      FirstChangeIs(ks[1..], id);
      if FirstChange(ks, id).Some? {
        var i :| && 0 <= i < |ks[1..]| && ks[1..][i] == FirstChange(ks, id).value && ks[1..][i].id == id
                 && forall j :: 0 <= j < i ==> ks[1..][j].id != id;
        assert ks[i + 1].id == id;
        forall j | 0 <= j < i + 1 ensures ks[j].id != id { if j > 0 { assert ks[j] == ks[1..][j - 1]; } }
      }
    }
  }

  lemma RenameMeans(target: Target, ks: seq<Change>)
    ensures (&& FirstChange(ks, target.changeId).Some?
             && FirstChange(ks, target.changeId).value.from == target.from
             && FirstChange(ks, target.changeId).value.to == Some(target.to)) <==> IsRename(target, ks)
  {
    FirstChangeIs(ks, target.changeId);
    if IsRename(target, ks) {
      var i :| && 0 <= i < |ks| && ks[i].id == target.changeId && ks[i].from == target.from
               && ks[i].to == Some(target.to) && forall j :: 0 <= j < i ==> ks[j].id != target.changeId;
      assert ks[i] in ks;
    }
  }

  lemma {:induction false} FirstConsumerIs(cs: seq<Consumer>, id: string, c: Consumer)
    ensures ConsumerById(cs, id) == Some(c) <==> c.id == id && IsFirst(cs, c)
  {
    if cs != [] {
      var rest := cs[1..];
      FirstConsumerIs(rest, id, c);
      if cs[0].id == id {
        if IsFirst(cs, c) && c.id == id {
          var i :| 0 <= i < |cs| && cs[i] == c && forall j :: 0 <= j < i ==> cs[j].id != c.id;
        }
      } else {
        if IsFirst(rest, c) && c.id == id {
          var i :| 0 <= i < |rest| && rest[i] == c && forall j :: 0 <= j < i ==> rest[j].id != c.id;
          assert cs[i + 1] == c;
          forall j | 0 <= j < i + 1 ensures cs[j].id != c.id { if j > 0 { assert cs[j] == rest[j - 1]; } }
        }
        if IsFirst(cs, c) && c.id == id {
          var i :| 0 <= i < |cs| && cs[i] == c && forall j :: 0 <= j < i ==> cs[j].id != c.id;
          assert rest[i - 1] == c;
          forall j | 0 <= j < i - 1 ensures rest[j].id != c.id { assert rest[j] == cs[j + 1]; }
        }
      }
    }
  }

  lemma TracedMeans(target: Target, ks: seq<Change>, original: Discovery)
    ensures Provenance(target, ks, original) <==> Traced(target, ks, original)
  {
    RenameMeans(target, ks);
    ResolvedMeans(original.references, target.consumerId, target.from);
    forall c
      ensures ConsumerById(original.consumers, target.consumerId) == Some(c) <==>
              c.id == target.consumerId && IsFirst(original.consumers, c)
      ensures SupportedArtifact(c) == Some(target.artifactKind) <==> LivesIn(c, target.artifactKind)
    {
      FirstConsumerIs(original.consumers, target.consumerId, c);
      ArtifactMeans(c, target.artifactKind);
    }
  }

  lemma QueriesMean(q: Parsed, expression: string, target: Symbol)
    ensures HasDirectReference(QueryReferences(q, expression), target) <==> Queries(q, target)
  {
    var ms, rs := Filter(q.mentions, Collected), QueryReferences(q, expression);
    forall m ensures m in ms <==> m in q.mentions && Collected(m) { FilterContents(q.mentions, Collected, m); }
    if r :| r in rs && SymbolsMatch(r.symbol, target) && !r.requiresResolution {
      var i :| 0 <= i < |rs| && rs[i] == r;
      assert ms[i] in ms;
      SymbolsMean(r.symbol, target);
    }
    if Queries(q, target) {
      var m :| && m in q.mentions && !m.open && target.domain == "prometheus"
               && match m
                  case MetricMention(name, _, _) => target.kind == "metric" && name in Family(target.name)
                  case LabelMention(name, parent, _, _) =>
                    target.kind == "label" && name != "" && name == target.name && parent in Family(target.parent);
      var i :| 0 <= i < |ms| && ms[i] == m;
      assert rs[i] in rs;
      SymbolsMean(rs[i].symbol, target);
    }
  }

  // ----- refusals before the evidence is assessed again

  /** The replacement can be read and has left the old symbol for the new one. */
  ghost predicate Readable(target: Target, ks: seq<Change>, original: Discovery, p: Proposal) {
    Traced(target, ks, original) && !p.secretLike && p.query.Some? && !p.query.value.unresolved
  }

  ghost predicate Moved(target: Target, ks: seq<Change>, original: Discovery, p: Proposal) {
    && Readable(target, ks, original, p)
    && !Queries(p.query.value, target.from) && Queries(p.query.value, target.to)
  }

  /** The artifact was patched, and its evidence has the consumer with exactly the replacement. */
  ghost predicate Patched(target: Target, ks: seq<Change>, original: Discovery, p: Proposal) {
    && Moved(target, ks, original, p) && p.patched.Some? && Unharmed(p.patched.value)
    && Rewritten(target, p.patched.value, p.expression)
  }

  /** Nothing is wrong with the candidate by itself. */
  ghost predicate Proper(target: Target, ks: seq<Change>, original: Discovery, p: Proposal) {
    && Patched(target, ks, original, p)
    && !Resolved(p.patched.value.references, target.consumerId, target.from)
    && Resolved(p.patched.value.references, target.consumerId, target.to)
  }

  ghost predicate Lists(cs: seq<Consumer>, id: string) { exists c :: c in cs && c.id == id }

  lemma {:induction false} ListedIsFound(cs: seq<Consumer>, id: string)
    ensures Lists(cs, id) <==> ConsumerById(cs, id).Some?
  {
    if cs != [] {
      ListedIsFound(cs[1..], id);
      assert forall c :: c in cs <==> c == cs[0] || c in cs[1..];
    }
  }

  lemma RewrittenMeans(target: Target, found: Discovery, expression: string)
    ensures var c := ConsumerById(found.consumers, target.consumerId);
            && (c.Some? <==> Lists(found.consumers, target.consumerId))
            && (c.Some? && c.value.expression == expression <==> Rewritten(target, found, expression))
  {
    ListedIsFound(found.consumers, target.consumerId);
    forall c
      ensures ConsumerById(found.consumers, target.consumerId) == Some(c) <==>
              c.id == target.consumerId && IsFirst(found.consumers, c)
    {
      FirstConsumerIs(found.consumers, target.consumerId, c);
    }
  }

  /** The checks of the query, in their order. */
  lemma ScreenOfQuery(target: Target, ks: seq<Change>, original: Discovery, p: Proposal)
    ensures var r := Screen(target, ks, original, p);
            && (r == Some(BadProvenance) <==> !Traced(target, ks, original))
            && (r == Some(SecretLike) <==> Traced(target, ks, original) && p.secretLike)
            && (r == Some(InvalidQuery) <==> Traced(target, ks, original) && !p.secretLike && p.query.None?)
            && (r == Some(UnresolvedQuery) <==>
                  Traced(target, ks, original) && !p.secretLike && p.query.Some? && p.query.value.unresolved)
            && (Readable(target, ks, original, p) && Queries(p.query.value, target.from) ==> r == Some(StillLegacy))
            && (Readable(target, ks, original, p) ==>
                  !Queries(p.query.value, target.from) && !Queries(p.query.value, target.to) ==>
                  r == Some(NoDestination))
            && (r.None? || r.value in {BadArtifact, LostConsumer, WrongExpression} ==> Moved(target, ks, original, p))
  {
    TracedMeans(target, ks, original);
    if p.query.Some? {
      QueriesMean(p.query.value, p.expression, target.from);
      QueriesMean(p.query.value, p.expression, target.to);
    }
  }

  /** The checks of the patched artifact, in their order. */
  lemma ScreenOfArtifact(target: Target, ks: seq<Change>, original: Discovery, p: Proposal)
    requires Moved(target, ks, original, p)
    ensures var r := Screen(target, ks, original, p);
            && (r == Some(BadArtifact) <==> p.patched.None? || !Unharmed(p.patched.value))
            && (p.patched.Some? && Unharmed(p.patched.value) ==>
                  var found := p.patched.value;
                  && (r == Some(LostConsumer) <==> !Lists(found.consumers, target.consumerId))
                  && (r == Some(WrongExpression) <==>
                        Lists(found.consumers, target.consumerId) && !Rewritten(target, found, p.expression))
                  && (r == Some(StillLegacy) <==>
                        && Rewritten(target, found, p.expression)
                        && Resolved(found.references, target.consumerId, target.from))
                  && (r == Some(NoDestination) <==>
                        && Rewritten(target, found, p.expression)
                        && !Resolved(found.references, target.consumerId, target.from)
                        && !Resolved(found.references, target.consumerId, target.to))
                  && (r.None? <==> Proper(target, ks, original, p)))
  {
    TracedMeans(target, ks, original);
    QueriesMean(p.query.value, p.expression, target.from);
    QueriesMean(p.query.value, p.expression, target.to);
    if p.patched.Some? {
      var found := p.patched.value;
      RewrittenMeans(target, found, p.expression);
      ResolvedMeans(found.references, target.consumerId, target.from);
      ResolvedMeans(found.references, target.consumerId, target.to);
    }
  }

  lemma ScreenIsExact(target: Target, ks: seq<Change>, original: Discovery, p: Proposal)
    ensures var v, traced := Screen(target, ks, original, p), Traced(target, ks, original);
            var readable, moved := Readable(target, ks, original, p), Moved(target, ks, original, p);
            var patched := Patched(target, ks, original, p);
            && (v == Some(BadProvenance) <==> !traced)
            && (v == Some(SecretLike) <==> traced && p.secretLike)
            && (v == Some(InvalidQuery) <==> traced && !p.secretLike && p.query.None?)
            && (v == Some(UnresolvedQuery) <==>
                  traced && !p.secretLike && p.query.Some? && p.query.value.unresolved)
            && (v == Some(StillLegacy) <==>
                  || (readable && Queries(p.query.value, target.from))
                  || (patched && Resolved(p.patched.value.references, target.consumerId, target.from)))
            && (v == Some(NoDestination) <==>
                  || (readable && !Queries(p.query.value, target.from) && !Queries(p.query.value, target.to))
                  || (&& patched && !Resolved(p.patched.value.references, target.consumerId, target.from)
                      && !Resolved(p.patched.value.references, target.consumerId, target.to)))
            && (v == Some(BadArtifact) <==> moved && (p.patched.None? || !Unharmed(p.patched.value)))
            && (v == Some(WrongExpression) <==>
                  && moved && p.patched.Some? && Unharmed(p.patched.value)
                  && Lists(p.patched.value.consumers, target.consumerId) && !patched)
  {
    ScreenOfQuery(target, ks, original, p);
    if Moved(target, ks, original, p) { ScreenOfArtifact(target, ks, original, p); }
  }

  /** The assessment refuses for reasons of its own. */
  lemma JudgeRefuses(target: Target, r: ReadinessResult)
    ensures var v := Judge(target, r); v.Accepted? || v.why in {LostConsumer, Unevaluable} || v.why.StillBlocked?
  {
  }

  lemma ValidationRefuses(target: Target, ks: seq<Change>, original: Discovery, policy: ReadinessPolicy, p: Proposal,
                          w: Refusal)
    requires w !in {LostConsumer, Unbuildable, Unevaluable} && !w.StillBlocked?
    ensures Validation(target, ks, original, policy, p) == Declined(w) <==> Screen(target, ks, original, p) == Some(w)
  {
    if Screen(target, ks, original, p).None? {
      ScreenNeedsPatch(target, ks, original, p);
      var d := Splice(original, p.patched.value, target.file);
      JudgeRefuses(target, Assessment(ks, d, GraphOf(d), policy));
    }
  }

  /** Every refusal that needs no new assessment has its exact cause, and the causes are looked for in
      this order. */
  lemma RefusalIsExact(target: Target, ks: seq<Change>, original: Discovery, policy: ReadinessPolicy, p: Proposal)
    ensures var v, traced := Validation(target, ks, original, policy, p), Traced(target, ks, original);
            var readable, moved := Readable(target, ks, original, p), Moved(target, ks, original, p);
            var patched := Patched(target, ks, original, p);
            && (v == Declined(BadProvenance) <==> !traced)
            && (v == Declined(SecretLike) <==> traced && p.secretLike)
            && (v == Declined(InvalidQuery) <==> traced && !p.secretLike && p.query.None?)
            && (v == Declined(UnresolvedQuery) <==>
                  traced && !p.secretLike && p.query.Some? && p.query.value.unresolved)
            && (v == Declined(StillLegacy) <==>
                  || (readable && Queries(p.query.value, target.from))
                  || (patched && Resolved(p.patched.value.references, target.consumerId, target.from)))
            && (v == Declined(NoDestination) <==>
                  || (readable && !Queries(p.query.value, target.from) && !Queries(p.query.value, target.to))
                  || (&& patched && !Resolved(p.patched.value.references, target.consumerId, target.from)
                      && !Resolved(p.patched.value.references, target.consumerId, target.to)))
            && (v == Declined(BadArtifact) <==> moved && (p.patched.None? || !Unharmed(p.patched.value)))
            && (v == Declined(WrongExpression) <==>
                  && moved && p.patched.Some? && Unharmed(p.patched.value)
                  && Lists(p.patched.value.consumers, target.consumerId) && !patched)
  {
    ScreenIsExact(target, ks, original, p);
    forall w | w !in {LostConsumer, Unbuildable, Unevaluable} && !w.StillBlocked?
      ensures Validation(target, ks, original, policy, p) == Declined(w) <==> Screen(target, ks, original, p) == Some(w)
    {
      ValidationRefuses(target, ks, original, policy, p, w);
    }
  }

  // ----- the new assessment

  ghost predicate IsFirstChange(ks: seq<Change>, k: Change) {
    exists i :: 0 <= i < |ks| && ks[i] == k && forall j :: 0 <= j < i ==> ks[j].id != k.id
  }

  /** The evidence confirms the new symbol: the old one reaches the consumer too, or nothing is left open. */
  ghost predicate Confirms(d: Discovery, target: Target, ks: seq<Change>, t: bool) {
    exists k: Change, c: Consumer ::
      && k.id == target.changeId && IsFirstChange(ks, k) && c.id == target.consumerId && c in d.consumers
      && (Reaches(d, target.from, t, c.id) || !LeftOpen(d, k, c))
  }

  lemma ProperIsScreened(target: Target, ks: seq<Change>, original: Discovery, p: Proposal)
    ensures Screen(target, ks, original, p).None? <==> Proper(target, ks, original, p)
  {
    ScreenOfQuery(target, ks, original, p);
    if Moved(target, ks, original, p) { ScreenOfArtifact(target, ks, original, p); }
  }

  lemma {:induction false} FirstIsFirstChange(ks: seq<Change>, id: string, k: Change)
    requires k.id == id
    ensures FirstChange(ks, id) == Some(k) <==> IsFirstChange(ks, k)
  {
    FirstChangeIs(ks, id);
    if IsFirstChange(ks, k) {
      var i :| 0 <= i < |ks| && ks[i] == k && forall j :: 0 <= j < i ==> ks[j].id != k.id;
      assert ks[i] in ks;
    }
  }

  lemma TargetChange(target: Target, ks: seq<Change>, original: Discovery) returns (k: Change)
    requires Traced(target, ks, original)
    ensures FirstChange(ks, target.changeId) == Some(k) && k.from == target.from && k.to == Some(target.to)
    ensures k.id == target.changeId && IsFirstChange(ks, k)
  {
    RenameMeans(target, ks);
    FirstChangeIs(ks, target.changeId);
    k := FirstChange(ks, target.changeId).value;
  }

  /** What the assessment of the spliced evidence makes of a proper candidate. */
  lemma JudgementIsExact(target: Target, ks: seq<Change>, d: Discovery, p: ReadinessPolicy, k: Change, c: Consumer,
                         r: Reference)
    requires Faithful(d) && IdError(d.consumers).None? && FirstChange(ks, target.changeId) == Some(k)
    requires k.id == target.changeId && k.from == target.from && k.to == Some(target.to)
    requires c in d.consumers && c.id == target.consumerId
    requires r in d.references && r.consumerId == c.id && Denotes(r.symbol, target.to)
    ensures var v := Judge(target, Assessment(ks, d, GraphOf(d), p));
            var old_ := Reaches(d, target.from, p.includeTransitive, c.id);
            && (v.Accepted? <==> old_ || !LeftOpen(d, k, c))
            && (v.Accepted? ==> v.kind == (if old_ then Dual else Migrated) && StatusSays(v.status, d, ks, p))
            && (!v.Accepted? ==> v == Declined(StillBlocked(Classification.Uncertain)))
  {
    var result := Assessment(ks, d, GraphOf(d), p);
    AssessmentIsExact(ks, d, p);
    var b := JudgedClass(ks, d, p, result, target.changeId, c);
    SameIdSameConsumer(d.consumers, b, c);
    ClassIsExact(d, k, c, p.includeTransitive);
    assert Feeds(d, r.symbol, c.id, 0);
  }

  /** The consumer and a reference that keep a proper candidate's destination in the spliced evidence. */
  lemma ProperDestination(target: Target, ks: seq<Change>, original: Discovery, p: Proposal)
    returns (c: Consumer, r: Reference)
    requires Proper(target, ks, original, p)
    ensures var s := Splice(original, p.patched.value, target.file);
            c in s.consumers && c.id == target.consumerId && r in s.references && r.consumerId == c.id
    ensures Denotes(r.symbol, target.to)
  {
    ProperIsScreened(target, ks, original, p);
    ScreenedIsPrometheus(target, ks, original, p);
    c, r := ScreenedDestination(target, ks, original, p);
    MatchingMeans(r.symbol, target.to);
  }

  lemma ConfirmsMeans(d: Discovery, target: Target, ks: seq<Change>, t: bool, k: Change, c: Consumer)
    requires DistinctConsumerIds(d.consumers) && FirstChange(ks, target.changeId) == Some(k)
    requires k.id == target.changeId && IsFirstChange(ks, k) && c in d.consumers && c.id == target.consumerId
    ensures Confirms(d, target, ks, t) <==> Reaches(d, target.from, t, c.id) || !LeftOpen(d, k, c)
  {
    if Confirms(d, target, ks, t) {
      var j: Change, b: Consumer :|
        && j.id == target.changeId && IsFirstChange(ks, j) && b.id == target.consumerId && b in d.consumers
        && (Reaches(d, target.from, t, b.id) || !LeftOpen(d, j, b));
      FirstIsFirstChange(ks, target.changeId, j);
      SameIdSameConsumer(d.consumers, b, c);
    }
  }

  lemma ValidationOfProper(target: Target, ks: seq<Change>, original: Discovery, policy: ReadinessPolicy, p: Proposal)
    requires Proper(target, ks, original, p)
    ensures var d := Splice(original, p.patched.value, target.file);
            Validation(target, ks, original, policy, p) ==
            if Buildable(d) then Judge(target, Assessment(ks, d, GraphOf(d), policy)) else Declined(Unbuildable)
  {
    ProperIsScreened(target, ks, original, p);
  }

  lemma ImproperIsDeclined(target: Target, ks: seq<Change>, original: Discovery, policy: ReadinessPolicy, p: Proposal)
    requires !Proper(target, ks, original, p)
    ensures Validation(target, ks, original, policy, p).Declined?
  {
    ProperIsScreened(target, ks, original, p);
  }

  lemma BadIdsAreDeclined(target: Target, ks: seq<Change>, d: Discovery, policy: ReadinessPolicy)
    requires IdError(d.consumers).Some?
    ensures Judge(target, Assessment(ks, d, GraphOf(d), policy)) == Declined(Unevaluable)
  {
  }

  /** A candidate is accepted exactly when nothing is wrong with it by itself, the evidence with the patched
      artifact in place builds with proper consumer IDs, and that evidence confirms the new symbol. It is
      then DUAL if the old symbol still reaches the consumer and MIGRATED if not, with the status that the
      evidence has. */
  lemma AcceptanceIsExact(target: Target, ks: seq<Change>, original: Discovery, policy: ReadinessPolicy, p: Proposal)
    requires p.patched.Some? ==> Unambiguous(Splice(original, p.patched.value, target.file))
    ensures var v, t := Validation(target, ks, original, policy, p), policy.includeTransitive;
            && (v.Accepted? <==>
                  && Proper(target, ks, original, p)
                  && var d := Splice(original, p.patched.value, target.file);
                     && Buildable(d) && (forall c :: c in d.consumers ==> c.id != "")
                     && DistinctConsumerIds(d.consumers) && Confirms(d, target, ks, t))
            && (v.Accepted? ==>
                  var d := Splice(original, p.patched.value, target.file);
                  && v.kind == (if Reaches(d, target.from, t, target.consumerId) then Dual else Migrated)
                  && StatusSays(v.status, d, ks, policy))
  {
    if !Proper(target, ks, original, p) {
      ImproperIsDeclined(target, ks, original, policy, p);
    } else {
      var d := Splice(original, p.patched.value, target.file);
      ValidationOfProper(target, ks, original, policy, p);
      if Buildable(d) && IdError(d.consumers).None? {
        var k := TargetChange(target, ks, original);
        var c, r := ProperDestination(target, ks, original, p);
        ConfirmsMeans(d, target, ks, policy.includeTransitive, k, c);
        JudgementIsExact(target, ks, d, policy, k, c, r);
      } else if Buildable(d) {
        BadIdsAreDeclined(target, ks, d, policy);
      }
    }
  }

  lemma LostIsExact(target: Target, ks: seq<Change>, original: Discovery, p: Proposal)
    ensures Screen(target, ks, original, p) == Some(LostConsumer) <==>
            && Moved(target, ks, original, p) && p.patched.Some? && Unharmed(p.patched.value)
            && !Lists(p.patched.value.consumers, target.consumerId)
  {
    ScreenOfQuery(target, ks, original, p);
    if Moved(target, ks, original, p) { ScreenOfArtifact(target, ks, original, p); }
  }

  /** The refusals that need the evidence with the patched artifact in place. A proper candidate is never
      found to have lost its consumer or to be LEGACY_ONLY. */
  lemma ReassessmentIsExact(target: Target, ks: seq<Change>, original: Discovery, policy: ReadinessPolicy, p: Proposal)
    requires p.patched.Some? ==> Unambiguous(Splice(original, p.patched.value, target.file))
    ensures var v := Validation(target, ks, original, policy, p);
            && (v == Declined(LostConsumer) <==>
                  && Moved(target, ks, original, p) && p.patched.Some? && Unharmed(p.patched.value)
                  && !Lists(p.patched.value.consumers, target.consumerId))
            && v != Declined(StillBlocked(LegacyOnly))
            && (Proper(target, ks, original, p) ==>
                  var d := Splice(original, p.patched.value, target.file);
                  var named := (forall c :: c in d.consumers ==> c.id != "") && DistinctConsumerIds(d.consumers);
                  && (v == Declined(Unbuildable) <==> !Buildable(d))
                  && (v == Declined(Unevaluable) <==> Buildable(d) && !named)
                  && (v == Declined(StillBlocked(Classification.Uncertain)) <==>
                        Buildable(d) && named && !Confirms(d, target, ks, policy.includeTransitive)))
  {
    LostIsExact(target, ks, original, p);
    ProperIsScreened(target, ks, original, p);
    if Proper(target, ks, original, p) {
      var d := Splice(original, p.patched.value, target.file);
      ValidationOfProper(target, ks, original, policy, p);
      if Buildable(d) && IdError(d.consumers).None? {
        var k := TargetChange(target, ks, original);
        var c, r := ProperDestination(target, ks, original, p);
        ConfirmsMeans(d, target, ks, policy.includeTransitive, k, c);
        JudgementIsExact(target, ks, d, policy, k, c, r);
      } else if Buildable(d) {
        BadIdsAreDeclined(target, ks, d, policy);
      }
    }
  }
}
