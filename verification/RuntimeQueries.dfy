/** Aggregating observed queries (adapters/runtimequeries/loader.go): the newest event anchors a
    window, and the events inside it are summed up per query. Times are distances from the zero time. */
module RuntimeQueries {
  import opened Ordering

  datatype Event = Event(query: string, time: int, line: nat, origins: seq<string>, details: seq<string>)

  datatype Aggregate = Aggregate(
    query: string, count: nat, firstSeen: int, lastSeen: int, latestLine: nat,
    origins: set<string>, details: set<string>)

  // ----- the window

  ghost predicate IsNewest(events: seq<Event>, t: int) {
    (exists e :: e in events && e.time == t) && forall e :: e in events ==> e.time <= t
  }

  method Anchor(events: seq<Event>) returns (t: int)
    requires events != []
    ensures IsNewest(events, t)
  {
    t := events[0].time;
    var i := 1;
    while i < |events|
      invariant 1 <= i <= |events|
      invariant IsNewest(events[..i], t)
    {
      assert events[..i + 1] == events[..i] + [events[i]];
      if events[i].time > t {
        t := events[i].time;
        assert events[i] in events[..i + 1];
      }
      i := i + 1;
    }
    assert events[..i] == events;
  }

  /** No window means no cutoff, and the zero time counts as none. */
  function Cutoff(anchor: int, window: int): int { if window > 0 then anchor - window else 0 }

  predicate Inside(e: Event, cutoff: int) { cutoff == 0 || e.time >= cutoff }

  function Window(events: seq<Event>, cutoff: int): seq<Event> { Filter(events, (e: Event) => Inside(e, cutoff)) }

  function Of(events: seq<Event>, cutoff: int, q: string): seq<Event> {
    Filter(events, (e: Event) => Inside(e, cutoff) && e.query == q)
  }

  // ----- what an aggregate says about its events

  ghost predicate Latest(es: seq<Event>, t: int, line: nat) {
    && (forall e :: e in es ==> e.time <= t && (e.time == t ==> line <= e.line))
    && exists e :: e in es && e.time == t && e.line == line
  }

  ghost predicate Earliest(es: seq<Event>, t: int) {
    (forall e :: e in es ==> t <= e.time) && exists e :: e in es && e.time == t
  }

  ghost predicate Origins(es: seq<Event>, names: set<string>) {
    forall o :: o in names <==> exists e :: e in es && o in e.origins
  }

  ghost predicate Details(es: seq<Event>, names: set<string>) {
    forall o :: o in names <==> exists e :: e in es && o in e.details
  }

  ghost predicate Summarises(a: Aggregate, es: seq<Event>, q: string) {
    && a.query == q && a.count == |es| && Earliest(es, a.firstSeen) && Latest(es, a.lastSeen, a.latestLine)
    && Origins(es, a.origins) && Details(es, a.details)
  }

  ghost predicate Tabulated(m: map<string, Aggregate>, es: seq<Event>, q: string) {
    if q in m then es != [] && Summarises(m[q], es, q) else es == []
  }

  /** One aggregate for each query with an event in the window, and none else. */
  ghost predicate Tabulates(m: map<string, Aggregate>, events: seq<Event>, cutoff: int) {
    forall q :: Tabulated(m, Of(events, cutoff, q), q)
  }

  // ----- one event

  method AddAll(names: set<string>, more: seq<string>) returns (r: set<string>)
    ensures r == names + (set o | o in more)
  {
    r := names;
    for i := 0 to |more|
      invariant r == names + (set o | o in more[..i])
    {
      assert more[..i + 1] == more[..i] + [more[i]];
      r := r + {more[i]};
    }
    assert more[..|more|] == more;
  }

  /** One more event, in terms of the aggregate before it. */
  function Recorded(before: Option<Aggregate>, e: Event): Aggregate {
    var a := if before.Some? then before.value else Aggregate(e.query, 0, e.time, e.time, e.line, {}, {});
    var newer := e.time > a.lastSeen || (e.time == a.lastSeen && e.line < a.latestLine);
    Aggregate(a.query, a.count + 1, if e.time < a.firstSeen then e.time else a.firstSeen,
      if newer then e.time else a.lastSeen, if newer then e.line else a.latestLine,
      a.origins + (set o | o in e.origins), a.details + (set o | o in e.details))
  }

  ghost predicate Continues(before: Option<Aggregate>, es: seq<Event>, q: string) {
    if before.None? then es == [] else es != [] && Summarises(before.value, es, q)
  }

  lemma RecordedSummarises(before: Option<Aggregate>, e: Event, es: seq<Event>)
    requires Continues(before, es, e.query)
    ensures Summarises(Recorded(before, e), es + [e], e.query)
  {
    assert e in es + [e];
    assert forall x :: x in es ==> x in es + [e];
  }

  /** Takes one more event into account. */
  method Record(before: Option<Aggregate>, e: Event) returns (a: Aggregate)
    ensures a == Recorded(before, e)
  {
    a := if before.Some? then before.value else Aggregate(e.query, 0, e.time, e.time, e.line, {}, {});
    a := a.(count := a.count + 1);
    if e.time < a.firstSeen {
      a := a.(firstSeen := e.time);
    }
    if e.time > a.lastSeen || (e.time == a.lastSeen && e.line < a.latestLine) {
      a := a.(lastSeen := e.time, latestLine := e.line);
    }
    var origins := AddAll(a.origins, e.origins);
    var details := AddAll(a.details, e.details);
    a := a.(origins := origins, details := details);
  }

  // ----- all events

  ghost function Total(m: map<string, Aggregate>): nat {
    if m == map[] then 0
    else
      var q :| q in m;
      m[q].count + Total(m - {q})
  }

  lemma {:induction false} TotalWithout(m: map<string, Aggregate>, q: string)
    requires q in m
    ensures Total(m) == m[q].count + Total(m - {q})
    decreases |m|
  {
    var k :| k in m && Total(m) == m[k].count + Total(m - {k});
    if k != q {
      TotalWithout(m - {k}, q);
      TotalWithout(m - {q}, k);
      assert m - {k} - {q} == m - {q} - {k};
    }
  }

  lemma TotalUpdate(m: map<string, Aggregate>, q: string, a: Aggregate)
    requires a.count == 1 + (if q in m then m[q].count else 0)
    ensures Total(m[q := a]) == Total(m) + 1
  {
    TotalWithout(m[q := a], q);
    assert m[q := a] - {q} == m - {q};
    if q in m { TotalWithout(m, q); } else { assert m - {q} == m; }
  }

  lemma FilterNext(events: seq<Event>, i: nat, keep: Event -> bool)
    requires i < |events|
    ensures Filter(events[..i + 1], keep) == Filter(events[..i], keep) + (if keep(events[i]) then [events[i]] else [])
  {
    assert events[..i + 1][..i] == events[..i] && events[..i + 1][i] == events[i];
  }

  lemma OfNext(events: seq<Event>, i: nat, cutoff: int, q: string)
    requires i < |events|
    ensures Of(events[..i + 1], cutoff, q) ==
      Of(events[..i], cutoff, q) + (if Inside(events[i], cutoff) && events[i].query == q then [events[i]] else [])
  {
    FilterNext(events, i, (e: Event) => Inside(e, cutoff) && e.query == q);
  }

  lemma TabulateSkip(m: map<string, Aggregate>, events: seq<Event>, i: nat, cutoff: int)
    requires i < |events| && Tabulates(m, events[..i], cutoff) && !Inside(events[i], cutoff)
    ensures Tabulates(m, events[..i + 1], cutoff)
  {
    var next := events[..i + 1];
    forall q ensures Tabulated(m, Of(next, cutoff, q), q) {
      OfNext(events, i, cutoff, q);
      assert Tabulated(m, Of(events[..i], cutoff, q), q);
    }
  }

  lemma TabulateNext(m: map<string, Aggregate>, events: seq<Event>, i: nat, cutoff: int, a: Aggregate)
    requires i < |events| && Tabulates(m, events[..i], cutoff) && Inside(events[i], cutoff)
    requires Summarises(a, Of(events[..i], cutoff, events[i].query) + [events[i]], events[i].query)
    ensures Tabulates(m[events[i].query := a], events[..i + 1], cutoff)
  {
    var k, next := events[i].query, events[..i + 1];
    forall q ensures Tabulated(m[k := a], Of(next, cutoff, q), q) {
      OfNext(events, i, cutoff, q);
      assert Tabulated(m, Of(events[..i], cutoff, q), q);
    }
  }

  /** Sums up the events in the window. No event is lost or counted twice. */
  method AggregateEvents(events: seq<Event>, cutoff: int) returns (m: map<string, Aggregate>)
    ensures Tabulates(m, events, cutoff)
    ensures Total(m) == |Window(events, cutoff)|
  {
    m := map[];
    for i := 0 to |events|
      invariant Tabulates(m, events[..i], cutoff)
      invariant Total(m) == |Window(events[..i], cutoff)|
    {
      var e := events[i];
      FilterNext(events, i, (e: Event) => Inside(e, cutoff));
      if cutoff != 0 && e.time < cutoff {
        TabulateSkip(m, events, i, cutoff);
        continue;
      }
      var before := if e.query in m then Some(m[e.query]) else None;
      var a := Record(before, e);
      assert Tabulated(m, Of(events[..i], cutoff, e.query), e.query);
      RecordedSummarises(before, e, Of(events[..i], cutoff, e.query));
      TotalUpdate(m, e.query, a);
      TabulateNext(m, events, i, cutoff, a);
      m := m[e.query := a];
    }
    assert events[..|events|] == events;
  }

  /** What a log shows through a window that ends at its newest event. */
  ghost predicate Observed(m: map<string, Aggregate>, events: seq<Event>, window: int) {
    if events == [] then m == map[]
    else exists t :: IsNewest(events, t) && Shows(m, events, Cutoff(t, window))
  }

  ghost predicate Shows(m: map<string, Aggregate>, events: seq<Event>, cutoff: int) {
    Tabulates(m, events, cutoff) && Total(m) == |Window(events, cutoff)|
  }

  /** The queries in order, each with its aggregate; nothing when there are no events. */
  method Observe(events: seq<Event>, window: int) returns (queries: seq<string>, m: map<string, Aggregate>)
    ensures Observed(m, events, window)
    ensures queries == SortedElements(m.Keys, ByName)
  {
    m := map[];
    if events != [] {
      var anchor := Anchor(events);
      m := AggregateEvents(events, Cutoff(anchor, window));
    }
    queries := SortedNames(m.Keys);
  }

  /** The event counts: there is no window, or its start is the zero time, or the event is not before it. */
  predicate Recent(e: Event, anchor: int, window: int) {
    window <= 0 || anchor - window == 0 || e.time >= anchor - window
  }

  function RecentOf(events: seq<Event>, anchor: int, window: int, q: string): seq<Event> {
    Filter(events, (e: Event) => Recent(e, anchor, window) && e.query == q)
  }

  lemma RecentIsInside(events: seq<Event>, anchor: int, window: int, q: string)
    ensures Of(events, Cutoff(anchor, window), q) == RecentOf(events, anchor, window, q)
    ensures Window(events, Cutoff(anchor, window)) == Filter(events, (e: Event) => Recent(e, anchor, window))
  {
    var cutoff := Cutoff(anchor, window);
    FilterAlike(events, (e: Event) => Inside(e, cutoff) && e.query == q,
                (e: Event) => Recent(e, anchor, window) && e.query == q);
    FilterAlike(events, (e: Event) => Inside(e, cutoff), (e: Event) => Recent(e, anchor, window));
  }

  /** For every window, positive or not: each query with a recent event has the summary of exactly its recent
      events, no other query has one, and no recent event is lost or counted twice. */
  lemma ObservationIsExact(events: seq<Event>, window: int, m: map<string, Aggregate>, anchor: int)
    requires Observed(m, events, window) && IsNewest(events, anchor)
    ensures forall q :: Tabulated(m, RecentOf(events, anchor, window, q), q)
    ensures Total(m) == |Filter(events, (e: Event) => Recent(e, anchor, window))|
  {
    var t :| IsNewest(events, t) && Shows(m, events, Cutoff(t, window));
    assert t == anchor;
    forall q ensures Tabulated(m, RecentOf(events, anchor, window, q), q) {
      RecentIsInside(events, anchor, window, q);
      assert Tabulated(m, Of(events, Cutoff(anchor, window), q), q);
    }
    RecentIsInside(events, anchor, window, "");
  }

  lemma {:induction false} FilterAlike(events: seq<Event>, keep: Event -> bool, also: Event -> bool)
    requires forall e :: keep(e) == also(e)
    ensures Filter(events, keep) == Filter(events, also)
  {
    if events != [] { FilterAlike(events[..|events| - 1], keep, also); }
  }

  // ----- what does not depend on the order of the log

  lemma SummaryUnique(a: Aggregate, b: Aggregate, es: seq<Event>, fs: seq<Event>, q: string)
    requires multiset(es) == multiset(fs) && Summarises(a, es, q) && Summarises(b, fs, q)
    ensures a == b
  {
    SameElements(es, fs);
    assert a.origins == b.origins;
    assert a.details == b.details;
  }

  /** Any permutation of the log, lines included, gives the same aggregates. */
  lemma OrderIsIrrelevant(es: seq<Event>, fs: seq<Event>, cutoff: int, m: map<string, Aggregate>,
                          n: map<string, Aggregate>)
    requires multiset(es) == multiset(fs) && Tabulates(m, es, cutoff) && Tabulates(n, fs, cutoff)
    ensures m == n
  {
    forall q ensures (q in m <==> q in n) && (q in m ==> m[q] == n[q]) {
      FilterPermutation(es, fs, (e: Event) => Inside(e, cutoff) && e.query == q);
      TabulatedUnique(m, n, Of(es, cutoff, q), Of(fs, cutoff, q), q);
    }
  }

  lemma TabulatedUnique(m: map<string, Aggregate>, n: map<string, Aggregate>, es: seq<Event>, fs: seq<Event>, q: string)
    requires multiset(es) == multiset(fs) && Tabulated(m, es, q) && Tabulated(n, fs, q)
    ensures (q in m <==> q in n) && (q in m ==> m[q] == n[q])
  {
    SameElements(es, fs);
    if q in m && q in n { SummaryUnique(m[q], n[q], es, fs, q); }
  }

  lemma NewestIsUnique(es: seq<Event>, fs: seq<Event>, t: int, u: int)
    requires multiset(es) == multiset(fs) && IsNewest(es, t) && IsNewest(fs, u)
    ensures t == u
  {
    SameElements(es, fs);
  }

  /** Permuted logs are observed alike: the same aggregates, so the same queries in the same order. */
  lemma ObservationIgnoresOrder(es: seq<Event>, fs: seq<Event>, window: int, m: map<string, Aggregate>,
                                n: map<string, Aggregate>)
    requires multiset(es) == multiset(fs) && Observed(m, es, window) && Observed(n, fs, window)
    ensures m == n
  {
    SameElements(es, fs);
    if es != [] {
      var t :| IsNewest(es, t) && Shows(m, es, Cutoff(t, window));
      var u :| IsNewest(fs, u) && Shows(n, fs, Cutoff(u, window));
      NewestIsUnique(es, fs, t, u);
      OrderIsIrrelevant(es, fs, Cutoff(t, window), m, n);
    }
  }

  // ----- widening the window

  ghost predicate Seen(events: seq<Event>, cutoff: int, q: string) {
    exists e :: e in events && e.query == q && Inside(e, cutoff)
  }

  lemma SeenIsTabulated(m: map<string, Aggregate>, events: seq<Event>, cutoff: int, q: string)
    requires Tabulates(m, events, cutoff)
    ensures q in m <==> Seen(events, cutoff, q)
  {
    var keep := (e: Event) => Inside(e, cutoff) && e.query == q;
    assert Tabulated(m, Of(events, cutoff, q), q);
    forall e ensures e in Of(events, cutoff, q) <==> e in events && keep(e) { FilterContents(events, keep, e); }
    if Of(events, cutoff, q) != [] { assert Of(events, cutoff, q)[0] in events; }
  }

  /** Every log can be tabulated. */
  lemma {:induction false} TabulationExists(events: seq<Event>, cutoff: int, i: nat) returns (m: map<string, Aggregate>)
    requires i <= |events|
    ensures Tabulates(m, events[..i], cutoff)
  {
    m := map[];
    if i > 0 {
      m := TabulationExists(events, cutoff, i - 1);
      var e := events[i - 1];
      if !Inside(e, cutoff) {
        TabulateSkip(m, events, i - 1, cutoff);
      } else {
        var before := if e.query in m then Some(m[e.query]) else None;
        assert Tabulated(m, Of(events[..i - 1], cutoff, e.query), e.query);
        RecordedSummarises(before, e, Of(events[..i - 1], cutoff, e.query));
        TabulateNext(m, events, i - 1, cutoff, Recorded(before, e));
        m := m[e.query := Recorded(before, e)];
      }
    }
  }

  /** A log with this newest event and no event before the floor. */
  ghost predicate LogOf(events: seq<Event>, floor: int, anchor: int) {
    IsNewest(events, anchor) && forall e :: e in events ==> floor <= e.time
  }

  /** Every query aggregated with the narrower window is aggregated with the wider one. */
  ghost predicate Keeps(events: seq<Event>, anchor: int, narrow: int, wide: int) {
    var a, b := Cutoff(anchor, narrow), Cutoff(anchor, wide);
    forall m, n :: Tabulates(m, events, a) && Tabulates(n, events, b) ==> m.Keys <= n.Keys
  }

  lemma WideningKeeps(events: seq<Event>, floor: int, anchor: int, narrow: int, wide: int)
    requires 0 < narrow <= wide && LogOf(events, floor, anchor)
    requires anchor != narrow || narrow == wide || anchor - wide <= floor
    ensures Keeps(events, anchor, narrow, wide)
  {
    var a, b := Cutoff(anchor, narrow), Cutoff(anchor, wide);
    forall m, n | Tabulates(m, events, a) && Tabulates(n, events, b) ensures m.Keys <= n.Keys {
      forall q | q in m ensures q in n {
        SeenIsTabulated(m, events, a, q);
        SeenIsTabulated(n, events, b, q);
        var e :| e in events && e.query == q && Inside(e, a);
        assert Inside(e, b);
      }
    }
  }

  lemma WideningLoses(floor: int, anchor: int, narrow: int, wide: int) returns (events: seq<Event>)
    requires anchor == narrow && 0 < narrow < wide && floor < anchor - wide
    ensures LogOf(events, floor, anchor) && !Keeps(events, anchor, narrow, wide)
  {
    var newest, oldest := Event("a", anchor, 1, [], []), Event("b", floor, 2, [], []);
    events := [newest, oldest];
    assert newest in events && oldest in events;
    var a, b := Cutoff(anchor, narrow), Cutoff(anchor, wide);
    var m := TabulationExists(events, a, |events|);
    var n := TabulationExists(events, b, |events|);
    assert events[..|events|] == events;
    SeenIsTabulated(m, events, a, "b");
    SeenIsTabulated(n, events, b, "b");
    assert Inside(oldest, a);
    assert "b" in m.Keys && "b" !in n.Keys;
  }

  /** Widening a positive window drops no query of any log, unless the narrower cutoff happens to be the
      zero time, which turns filtering off, and the log can hold an event before the wider cutoff. */
  lemma WideningIsSafeExactly(floor: int, anchor: int, narrow: int, wide: int)
    requires 0 < narrow <= wide
    ensures (forall events :: LogOf(events, floor, anchor) ==> Keeps(events, anchor, narrow, wide)) <==>
            anchor != narrow || narrow == wide || anchor - wide <= floor
  {
    if anchor != narrow || narrow == wide || anchor - wide <= floor {
      forall events | LogOf(events, floor, anchor) ensures Keeps(events, anchor, narrow, wide) {
        WideningKeeps(events, floor, anchor, narrow, wide);
      }
    } else {
      var events := WideningLoses(floor, anchor, narrow, wide);
    }
  }
}
