/** Replacing one string of a JSON document and pointing at it (internal/remediation/artifact.go). */
module JsonPatch {
  import opened Ordering
  import opened Graphs
  import opened Escaping

  datatype Json =
    | Null | Bool(flag: bool) | Num(text: string) | Str(text: string)
    | Arr(items: seq<Json>) | Obj(fields: map<string, Json>)

  // ----- array indices in decimal

  function Digit(n: nat): char
    requires n < 10
  {
    "0123456789"[n]
  }

  predicate IsDigit(c: char) { '0' <= c <= '9' }

  function DigitValue(c: char): nat
    requires IsDigit(c)
  {
    (c - '0') as int
  }

  function Itoa(n: nat): string { if n < 10 then [Digit(n)] else Itoa(n / 10) + [Digit(n % 10)] }

  predicate AllDigits(s: string) { forall i :: 0 <= i < |s| ==> IsDigit(s[i]) }

  function Decimal(s: string): nat
    requires AllDigits(s)
  {
    if s == "" then 0 else 10 * Decimal(s[..|s| - 1]) + DigitValue(s[|s| - 1])
  }

  /** Section 4 of RFC 6901: digits without a leading zero. */
  function ParseIndex(s: string): Option<nat> {
    if s == "" || !AllDigits(s) || (|s| > 1 && s[0] == '0') then None else Some(Decimal(s))
  }

  lemma DigitRoundTrip(n: nat)
    requires n < 10
    ensures IsDigit(Digit(n)) && DigitValue(Digit(n)) == n
  {
  }

  lemma DigitOfValue(c: char)
    requires IsDigit(c)
    ensures DigitValue(c) < 10 && Digit(DigitValue(c)) == c
  {
  }

  lemma {:induction false} ItoaParses(n: nat)
    ensures Itoa(n) != "" && AllDigits(Itoa(n)) && Decimal(Itoa(n)) == n
    ensures Itoa(n)[0] == '0' ==> n == 0
  {
    if n < 10 {
      DigitRoundTrip(n);
      assert Itoa(n)[..0] == "";
    } else {
      ItoaParses(n / 10);
      DigitRoundTrip(n % 10);
      assert Itoa(n)[..|Itoa(n)| - 1] == Itoa(n / 10);
    }
  }

  lemma {:induction false} DecimalPrints(s: string)
    requires s != "" && AllDigits(s) && (|s| > 1 ==> s[0] != '0')
    ensures Itoa(Decimal(s)) == s
  {
    var rest, last := s[..|s| - 1], s[|s| - 1];
    DigitOfValue(last);
    assert Itoa(0) == [Digit(0)];
    if rest != "" {
      DecimalPrints(rest);
      ItoaParses(Decimal(rest));
      assert Decimal(s) / 10 == Decimal(rest) && Decimal(s) % 10 == DigitValue(last);
    } else {
      assert s == [last];
    }
  }

  /** An index and its token determine each other. */
  lemma IndexToken(s: string, n: nat)
    ensures ParseIndex(s) == Some(n) <==> s == Itoa(n)
  {
    ItoaParses(n);
    assert Itoa(0) == [Digit(0)];
    if ParseIndex(s) == Some(n) { DecimalPrints(s); }
  }

  // ----- looking up and setting a value by its tokens

  function Get(v: Json, path: seq<string>): Option<Json>
    decreases |path|
  {
    if path == [] then Some(v)
    else
      match v
      case Arr(items) =>
        var i := ParseIndex(path[0]);
        if i.Some? && i.value < |items| then Get(items[i.value], path[1..]) else None
      case Obj(fields) => if path[0] in fields then Get(fields[path[0]], path[1..]) else None
      case _ => None
  }

  /** The document with `x` in the place the tokens lead to. */
  function SetAt(v: Json, path: seq<string>, x: Json): Json
    decreases |path|
  {
    if path == [] then x
    else
      match v
      case Arr(items) =>
        var i := ParseIndex(path[0]);
        if i.Some? && i.value < |items| then Arr(items[i.value := SetAt(items[i.value], path[1..], x)]) else v
      case Obj(fields) =>
        if path[0] in fields then Obj(fields[path[0] := SetAt(fields[path[0]], path[1..], x)]) else v
      case _ => v
  }

  lemma {:induction false} SetAtGet(v: Json, path: seq<string>, x: Json)
    requires Get(v, path).Some?
    ensures Get(SetAt(v, path, x), path) == Some(x)
    decreases |path|
  {
    if path != [] {
      match v
      case Arr(items) => SetAtGet(items[ParseIndex(path[0]).value], path[1..], x);
      case Obj(fields) => SetAtGet(fields[path[0]], path[1..], x);
      case _ =>
    }
  }

  /** Only what lies at, above or below the place changes. */
  lemma {:induction false} SetAtFrame(v: Json, path: seq<string>, x: Json, other: seq<string>)
    requires Get(v, path).Some? && !(path <= other) && !(other <= path)
    ensures Get(SetAt(v, path, x), other) == Get(v, other)
    decreases |path|
  {
    if path != [] && other != [] {
      if path[0] == other[0] {
        assert path == [path[0]] + path[1..] && other == [other[0]] + other[1..];
        match v
        case Arr(items) => SetAtFrame(items[ParseIndex(path[0]).value], path[1..], x, other[1..]);
        case Obj(fields) => SetAtFrame(fields[path[0]], path[1..], x, other[1..]);
        case _ =>
      } else if v.Arr? && ParseIndex(other[0]).Some? {
        IndexToken(path[0], ParseIndex(path[0]).value);
        IndexToken(other[0], ParseIndex(other[0]).value);
      }
    }
  }

  // ----- what the traversal finds and makes

  ghost function Keys(fields: map<string, Json>): seq<string> { SortedElements(fields.Keys, ByName) }

  ghost function Below(token: string, paths: seq<seq<string>>): seq<seq<string>> {
    seq(|paths|, i requires 0 <= i < |paths| => [token] + paths[i])
  }

  /** The places of the strings equal to `before`, in traversal order. */
  ghost function Matches(v: Json, before: string): seq<seq<string>>
    decreases v, 1, 0
  {
    match v
    case Str(text) => if text == before then [[]] else []
    case Arr(items) => ItemMatches(v, |items|, before)
    case Obj(fields) => FieldMatches(v, Keys(fields), before)
    case _ => []
  }

  ghost function ItemMatches(v: Json, n: nat, before: string): seq<seq<string>>
    requires v.Arr? && n <= |v.items|
    decreases v, 0, n
  {
    if n == 0 then [] else ItemMatches(v, n - 1, before) + Below(Itoa(n - 1), Matches(v.items[n - 1], before))
  }

  ghost function FieldMatches(v: Json, keys: seq<string>, before: string): seq<seq<string>>
    requires v.Obj?
    decreases v, 0, |keys|
  {
    if keys == [] then [] else
      var k := keys[|keys| - 1];
      FieldMatches(v, keys[..|keys| - 1], before)
      + if k in v.fields then Below(k, Matches(v.fields[k], before)) else []
  }

  ghost function Replaced(v: Json, before: string, after: string): Json {
    match v
    case Str(text) => if text == before then Str(after) else v
    case Arr(items) => Arr(seq(|items|, i requires 0 <= i < |items| => Replaced(items[i], before, after)))
    case Obj(fields) => Obj(map k | k in fields :: Replaced(fields[k], before, after))
    case _ => v
  }

  function JsonPointer(path: seq<string>): string {
    if path == [] then "" else "/" + Join(EscapeAll(path), '/')
  }

  /** Sections 3 and 4 of RFC 6901. */
  function Resolve(v: Json, pointer: string): Option<Json> {
    if pointer == "" then Some(v)
    else if pointer[0] != '/' then None
    else Get(v, UnescapeAll(Split(pointer[1..], '/')))
  }

  lemma ResolvePointer(v: Json, path: seq<string>)
    ensures Resolve(v, JsonPointer(path)) == Get(v, path)
  {
    if path != [] {
      EscapedRoundTrip(path);
      assert JsonPointer(path)[1..] == Join(EscapeAll(path), '/');
    }
  }

  // ----- the matches are exactly the equal strings

  lemma BelowContents(token: string, paths: seq<seq<string>>, p: seq<string>)
    ensures p in Below(token, paths) <==> p != [] && p[0] == token && p[1..] in paths
  {
    if p in Below(token, paths) {
      var i :| 0 <= i < |paths| && p == [token] + paths[i];
      assert p[1..] == paths[i];
    }
    if p != [] && p[0] == token && p[1..] in paths {
      var i :| 0 <= i < |paths| && paths[i] == p[1..];
      assert p == Below(token, paths)[i];
    }
  }

  lemma {:induction false} MatchesAre(v: Json, before: string, p: seq<string>)
    ensures p in Matches(v, before) <==> Get(v, p) == Some(Str(before))
    decreases v, 1, 0
  {
    match v
    case Arr(items) =>
      ItemMatchesAre(v, |items|, before, p);
      if p != [] && ParseIndex(p[0]).Some? {
        IndexToken(p[0], ParseIndex(p[0]).value);
        assert ParseIndex(p[0]).value < |items| ==> IndexBelow(p[0], |items|);
      }
    case Obj(fields) =>
      FieldMatchesAre(v, Keys(fields), before, p);
      SortedElementsContents(fields.Keys, ByName);
    case _ =>
  }

  lemma GetItem(v: Json, p: seq<string>, i: nat)
    requires v.Arr? && i < |v.items| && p != [] && p[0] == Itoa(i)
    ensures ParseIndex(p[0]) == Some(i) && Get(v, p) == Get(v.items[i], p[1..])
  {
    IndexToken(p[0], i);
  }

  ghost predicate IndexBelow(token: string, n: nat) { exists i :: 0 <= i < n && token == Itoa(i) }

  lemma IndexBelowStep(token: string, n: nat)
    requires n > 0
    ensures IndexBelow(token, n) <==> IndexBelow(token, n - 1) || token == Itoa(n - 1)
  {
  }

  lemma NotBoth(token: string, n: nat)
    ensures token == Itoa(n) ==> !IndexBelow(token, n)
  {
    if i :| 0 <= i < n && token == Itoa(i) {
      IndexToken(token, i);
      IndexToken(token, n);
    }
  }

  lemma {:induction false} ItemMatchesAre(v: Json, n: nat, before: string, p: seq<string>)
    requires v.Arr? && n <= |v.items|
    ensures p in ItemMatches(v, n, before) <==>
            p != [] && IndexBelow(p[0], n) && Get(v, p) == Some(Str(before))
    decreases v, 0, n
  {
    if n > 0 {
      ItemMatchesAre(v, n - 1, before, p);
      BelowContents(Itoa(n - 1), Matches(v.items[n - 1], before), p);
      if p != [] { IndexBelowStep(p[0], n); }
      if p != [] && p[0] == Itoa(n - 1) {
        GetItem(v, p, n - 1);
        MatchesAre(v.items[n - 1], before, p[1..]);
      }
    }
  }

  lemma {:induction false} FieldMatchesAre(v: Json, keys: seq<string>, before: string, p: seq<string>)
    requires v.Obj?
    ensures p in FieldMatches(v, keys, before) <==> p != [] && p[0] in keys && Get(v, p) == Some(Str(before))
    decreases v, 0, |keys|
  {
    if keys != [] {
      var rest, k := keys[..|keys| - 1], keys[|keys| - 1];
      FieldMatchesAre(v, rest, before, p);
      assert p != [] ==> (p[0] in keys <==> p[0] in rest || p[0] == k);
      if k in v.fields {
        BelowContents(k, Matches(v.fields[k], before), p);
        if p != [] { MatchesAre(v.fields[k], before, p[1..]); }
      }
    }
  }

  // ----- each place is found once

  lemma {:induction false} ListingDistinct<T>(s: set<T>, q: seq<T>)
    requires multiset(q) == multiset(s)
    ensures Distinct(q)
  {
    forall i, j | 0 <= i < j < |q| ensures q[i] != q[j] {
      assert q == q[..j] + [q[j]] + q[j + 1..] && q[i] in q[..j];
      assert q[i] == q[j] ==> multiset(q)[q[i]] >= 2;
    }
  }

  lemma KeysDistinct(fields: map<string, Json>)
    ensures Distinct(Keys(fields))
  {
    ListingDistinct(fields.Keys, Keys(fields));
  }

  lemma DistinctBelow(token: string, paths: seq<seq<string>>)
    requires Distinct(paths)
    ensures Distinct(Below(token, paths))
  {
    forall i, j | 0 <= i < j < |paths| ensures [token] + paths[i] != [token] + paths[j] {
      assert ([token] + paths[i])[1..] == paths[i] && ([token] + paths[j])[1..] == paths[j];
    }
  }

  lemma {:induction false} MatchesDistinct(v: Json, before: string)
    ensures Distinct(Matches(v, before))
    decreases v, 1, 0
  {
    match v
    case Arr(items) => ItemMatchesDistinct(v, |items|, before);
    case Obj(fields) =>
      SortedElementsContents(fields.Keys, ByName);
      KeysDistinct(fields);
      FieldMatchesDistinct(v, Keys(fields), before);
    case _ =>
  }

  lemma {:induction false} ItemMatchesDistinct(v: Json, n: nat, before: string)
    requires v.Arr? && n <= |v.items|
    ensures Distinct(ItemMatches(v, n, before))
    decreases v, 0, n
  {
    if n > 0 {
      ItemMatchesDistinct(v, n - 1, before);
      MatchesDistinct(v.items[n - 1], before);
      DistinctBelow(Itoa(n - 1), Matches(v.items[n - 1], before));
      var left, right := ItemMatches(v, n - 1, before), Below(Itoa(n - 1), Matches(v.items[n - 1], before));
      forall p | p in left ensures p !in right {
        ItemMatchesAre(v, n - 1, before, p);
        NotBoth(p[0], n - 1);
        BelowContents(Itoa(n - 1), Matches(v.items[n - 1], before), p);
      }
      DistinctAppend(left, right);
    }
  }

  lemma {:induction false} FieldMatchesDistinct(v: Json, keys: seq<string>, before: string)
    requires v.Obj? && Distinct(keys)
    ensures Distinct(FieldMatches(v, keys, before))
    decreases v, 0, |keys|
  {
    if keys != [] {
      var rest, k := keys[..|keys| - 1], keys[|keys| - 1];
      FieldMatchesDistinct(v, rest, before);
      if k in v.fields {
        MatchesDistinct(v.fields[k], before);
        DistinctBelow(k, Matches(v.fields[k], before));
        forall p | p in FieldMatches(v, rest, before) ensures p !in Below(k, Matches(v.fields[k], before)) {
          FieldMatchesAre(v, rest, before, p);
          BelowContents(k, Matches(v.fields[k], before), p);
        }
        DistinctAppend(FieldMatches(v, rest, before), Below(k, Matches(v.fields[k], before)));
      }
    }
  }

  // ----- replacing all of one match is setting its place

  ghost predicate OnePlace(v: Json, w: Json, paths: seq<seq<string>>, after: string) {
    && (paths == [] ==> w == v)
    && (|paths| == 1 ==> w == SetAt(v, paths[0], Str(after)))
  }

  lemma {:induction false} ReplacedOnePlace(v: Json, before: string, after: string)
    ensures OnePlace(v, Replaced(v, before, after), Matches(v, before), after)
    decreases v, 2, 0
  {
    match v
    case Arr(_) => ReplacedArray(v, before, after);
    case Obj(_) => ReplacedObject(v, before, after);
    case _ =>
  }

  /** The first `n` elements of `r` are those of `items` but for the one place, if any. */
  ghost predicate ItemsOnePlace(items: seq<Json>, r: seq<Json>, n: nat, ps: seq<seq<string>>, after: string)
    requires n <= |items| == |r|
  {
    && (ps == [] ==> forall i :: 0 <= i < n ==> r[i] == items[i])
    && (|ps| == 1 ==>
          && ps[0] != [] && ParseIndex(ps[0][0]).Some? && ParseIndex(ps[0][0]).value < n
          && forall i :: 0 <= i < n ==>
               r[i] == if i == ParseIndex(ps[0][0]).value then SetAt(items[i], ps[0][1..], Str(after)) else items[i])
  }

  lemma ItemsStep(items: seq<Json>, r: seq<Json>, n: nat, rest: seq<seq<string>>, here: seq<seq<string>>, after: string)
    requires n < |items| == |r|
    requires ItemsOnePlace(items, r, n, rest, after) && OnePlace(items[n], r[n], here, after)
    ensures ItemsOnePlace(items, r, n + 1, rest + Below(Itoa(n), here), after)
  {
    if here == [] {
      assert rest + Below(Itoa(n), here) == rest;
    } else if |here| == 1 && rest == [] {
      IndexToken(Itoa(n), n);
      assert rest + Below(Itoa(n), here) == [[Itoa(n)] + here[0]];
      assert ([Itoa(n)] + here[0])[1..] == here[0];
    }
  }

  ghost function ReplacedItems(v: Json, before: string, after: string): seq<Json>
    requires v.Arr?
  {
    seq(|v.items|, i requires 0 <= i < |v.items| => Replaced(v.items[i], before, after))
  }

  lemma {:induction false} ItemsReplaced(v: Json, n: nat, before: string, after: string)
    requires v.Arr? && n <= |v.items|
    ensures ItemsOnePlace(v.items, ReplacedItems(v, before, after), n, ItemMatches(v, n, before), after)
    decreases v, 0, n
  {
    if n > 0 {
      ItemsReplaced(v, n - 1, before, after);
      ReplacedOnePlace(v.items[n - 1], before, after);
      ItemsStep(v.items, ReplacedItems(v, before, after), n - 1, ItemMatches(v, n - 1, before),
                Matches(v.items[n - 1], before), after);
    }
  }

  lemma {:induction false} ReplacedArray(v: Json, before: string, after: string)
    requires v.Arr?
    ensures OnePlace(v, Replaced(v, before, after), Matches(v, before), after)
    decreases v, 1, 0
  {
    var n, r := |v.items|, ReplacedItems(v, before, after);
    ItemsReplaced(v, n, before, after);
    assert Replaced(v, before, after).items == r;
  }

  ghost predicate FieldsOnePlace(fields: map<string, Json>, r: map<string, Json>, keys: seq<string>,
                                 ps: seq<seq<string>>, after: string)
    requires r.Keys == fields.Keys
  {
    && (ps == [] ==> forall k :: k in keys && k in fields ==> r[k] == fields[k])
    && (|ps| == 1 ==>
          && ps[0] != [] && ps[0][0] in keys && ps[0][0] in fields
          && forall k :: k in keys && k in fields ==>
               r[k] == if k == ps[0][0] then SetAt(fields[k], ps[0][1..], Str(after)) else fields[k])
  }

  ghost function ReplacedFields(v: Json, before: string, after: string): map<string, Json>
    requires v.Obj?
  {
    map k | k in v.fields :: Replaced(v.fields[k], before, after)
  }

  lemma {:induction false} FieldsReplaced(v: Json, keys: seq<string>, before: string, after: string)
    requires v.Obj? && Distinct(keys) && forall k :: k in keys ==> k in v.fields
    ensures FieldsOnePlace(v.fields, ReplacedFields(v, before, after), keys, FieldMatches(v, keys, before), after)
    decreases v, 0, |keys|
  {
    if keys != [] {
      var init, k := keys[..|keys| - 1], keys[|keys| - 1];
      assert keys == init + [k];
      FieldsReplaced(v, init, before, after);
      ReplacedOnePlace(v.fields[k], before, after);
    }
  }

  lemma SetField(v: Json, r: map<string, Json>, keys: seq<string>, ps: seq<seq<string>>, after: string)
    requires v.Obj? && r.Keys == v.fields.Keys && (forall k :: k in v.fields ==> k in keys)
    requires FieldsOnePlace(v.fields, r, keys, ps, after)
    ensures OnePlace(v, Obj(r), ps, after)
  {
    if ps == [] {
      assert r == v.fields;
    } else if |ps| == 1 {
      assert r == v.fields[ps[0][0] := SetAt(v.fields[ps[0][0]], ps[0][1..], Str(after))];
    }
  }

  lemma {:induction false} ReplacedObject(v: Json, before: string, after: string)
    requires v.Obj?
    ensures OnePlace(v, Replaced(v, before, after), Matches(v, before), after)
    decreases v, 1, 0
  {
    var keys, r := Keys(v.fields), ReplacedFields(v, before, after);
    KeysDistinct(v.fields);
    SortedElementsContents(v.fields.Keys, ByName);
    FieldsReplaced(v, keys, before, after);
    SetField(v, r, keys, FieldMatches(v, keys, before), after);
    assert Replaced(v, before, after).fields == r;
  }

  // ----- the traversal and the patch

  ghost function Pointers(path: seq<string>, found: seq<seq<string>>): seq<string> {
    seq(|found|, i requires 0 <= i < |found| => JsonPointer(path + found[i]))
  }

  lemma PointersAppend(path: seq<string>, a: seq<seq<string>>, b: seq<seq<string>>)
    ensures Pointers(path, a + b) == Pointers(path, a) + Pointers(path, b)
  {
  }

  lemma PointersBelow(path: seq<string>, token: string, found: seq<seq<string>>)
    ensures Pointers(path, Below(token, found)) == Pointers(path + [token], found)
  {
    forall i | 0 <= i < |found| ensures path + ([token] + found[i]) == path + [token] + found[i] {
    }
  }

  /** Rewrites every string equal to `before` and lists where each was. */
  method ReplaceScalar(v: Json, before: string, after: string, path: seq<string>)
    returns (w: Json, pointers: seq<string>)
    ensures w == Replaced(v, before, after)
    ensures pointers == Pointers(path, Matches(v, before))
    decreases v, 1
  {
    match v
    case Str(text) =>
      if text == before {
        assert path + [] == path;
        w, pointers := Str(after), [JsonPointer(path)];
      } else {
        w, pointers := v, [];
      }
    case Arr(items) =>
      var done;
      done, pointers := ReplaceItems(v, before, after, path);
      w := Arr(done);
      assert w.items == Replaced(v, before, after).items;
    case Obj(fields) =>
      var keys := SortedNames(fields.Keys);
      SortedElementsContents(fields.Keys, ByName);
      var done;
      done, pointers := ReplaceFields(v, keys, before, after, path);
      w := Obj(done);
      assert w.fields == Replaced(v, before, after).fields;
    case _ =>
      w, pointers := v, [];
  }

  /** The first i items are rewritten, the others are as they were. */
  ghost predicate Rewritten(items: seq<Json>, v: seq<Json>, i: nat, before: string, after: string) {
    && i <= |items| == |v|
    && (forall j :: 0 <= j < i ==> items[j] == Replaced(v[j], before, after))
    && (forall j :: i <= j < |items| ==> items[j] == v[j])
  }

  lemma RewriteNext(items: seq<Json>, v: seq<Json>, i: nat, before: string, after: string)
    requires Rewritten(items, v, i, before, after) && i < |v|
    ensures Rewritten(items[i := Replaced(v[i], before, after)], v, i + 1, before, after)
  {
  }

  lemma ItemPointersNext(v: Json, i: nat, before: string, path: seq<string>)
    requires v.Arr? && i < |v.items|
    ensures Pointers(path, ItemMatches(v, i + 1, before)) ==
            Pointers(path, ItemMatches(v, i, before)) + Pointers(path + [Itoa(i)], Matches(v.items[i], before))
  {
    PointersBelow(path, Itoa(i), Matches(v.items[i], before));
    PointersAppend(path, ItemMatches(v, i, before), Below(Itoa(i), Matches(v.items[i], before)));
  }

  method ReplaceItems(v: Json, before: string, after: string, path: seq<string>)
    returns (items: seq<Json>, pointers: seq<string>)
    requires v.Arr?
    ensures Rewritten(items, v.items, |v.items|, before, after)
    ensures pointers == Pointers(path, ItemMatches(v, |v.items|, before))
    decreases v, 0
  {
    items, pointers := v.items, [];
    var i := 0;
    while i < |v.items|
      invariant i <= |v.items| && Rewritten(items, v.items, i, before, after)
      invariant pointers == Pointers(path, ItemMatches(v, i, before))
    {
      var child, more := ReplaceScalar(v.items[i], before, after, path + [Itoa(i)]);
      RewriteNext(items, v.items, i, before, after);
      ItemPointersNext(v, i, before, path);
      items := items[i := child];
      pointers := pointers + more;
      i := i + 1;
    }
  }

  method ReplaceFields(v: Json, keys: seq<string>, before: string, after: string, path: seq<string>)
    returns (fields: map<string, Json>, pointers: seq<string>)
    requires v.Obj? && forall k :: k in keys <==> k in v.fields
    ensures fields.Keys == v.fields.Keys
    ensures forall k :: k in fields ==> fields[k] == Replaced(v.fields[k], before, after)
    ensures pointers == Pointers(path, FieldMatches(v, keys, before))
    decreases v, 0
  {
    fields, pointers := v.fields, [];
    var i := 0;
    while i < |keys|
      invariant i <= |keys| && fields.Keys == v.fields.Keys
      invariant forall k :: k in fields ==>
                  fields[k] == if k in keys[..i] then Replaced(v.fields[k], before, after) else v.fields[k]
      invariant pointers == Pointers(path, FieldMatches(v, keys[..i], before))
    {
      var k := keys[i];
      assert keys[..i + 1] == keys[..i] + [k] && keys[..i + 1][..i] == keys[..i];
      var child, more := ReplaceScalar(v.fields[k], before, after, path + [k]);
      PointersBelow(path, k, Matches(v.fields[k], before));
      PointersAppend(path, FieldMatches(v, keys[..i], before), Below(k, Matches(v.fields[k], before)));
      fields := fields[k := child];
      pointers := pointers + more;
      i := i + 1;
    }
    assert keys[..i] == keys;
  }

  datatype Patched = Patched(document: Json, pointer: string)

  /** Refuses the document unless exactly one string matches. */
  method PatchJson(v: Json, before: string, after: string) returns (r: Option<Patched>)
    ensures r.Some? <==> |Matches(v, before)| == 1
    ensures r.Some? ==> r.value == Patched(Replaced(v, before, after), JsonPointer(Matches(v, before)[0]))
  {
    var w, pointers := ReplaceScalar(v, before, after, []);
    if |pointers| != 1 {
      return None;
    }
    var place := Matches(v, before)[0];
    assert pointers[0] == JsonPointer([] + place) && [] + place == place;
    r := Some(Patched(w, pointers[0]));
  }

  /** The string occurs in one place and no other. */
  ghost predicate OccursOnlyAt(v: Json, before: string, p: seq<string>) {
    forall q :: Get(v, q) == Some(Str(before)) <==> q == p
  }

  /** A patch succeeds exactly when one string leaf equals `before`. */
  lemma PatchesUniqueOccurrence(v: Json, before: string)
    ensures |Matches(v, before)| == 1 <==> exists p :: OccursOnlyAt(v, before, p)
    ensures |Matches(v, before)| == 1 ==> OccursOnlyAt(v, before, Matches(v, before)[0])
  {
    var ps := Matches(v, before);
    forall q ensures q in ps <==> Get(v, q) == Some(Str(before)) { MatchesAre(v, before, q); }
    MatchesDistinct(v, before);
    if p :| OccursOnlyAt(v, before, p) {
      assert p in ps;
      forall i | 0 <= i < |ps| ensures ps[i] == p {
        assert ps[i] in ps;
        assert Get(v, ps[i]) == Some(Str(before));
      }
      DistinctMultiset(ps, {p});
      assert |ps| == |multiset(ps)| == |multiset({p})|;
    }
    if |ps| == 1 {
      assert ps == [ps[0]] && OccursOnlyAt(v, before, ps[0]);
    }
  }

  /** The patched document differs only there, and the pointer leads from `before` to `after`. */
  lemma PatchChangesOnlyThat(v: Json, before: string, after: string)
    requires |Matches(v, before)| == 1
    ensures var p, w := Matches(v, before)[0], Replaced(v, before, after);
            && w == SetAt(v, p, Str(after))
            && Resolve(v, JsonPointer(p)) == Some(Str(before)) && Resolve(w, JsonPointer(p)) == Some(Str(after))
            && forall q :: !(p <= q) && !(q <= p) ==> Get(w, q) == Get(v, q)
  {
    var p, w := Matches(v, before)[0], Replaced(v, before, after);
    ReplacedOnePlace(v, before, after);
    assert p in Matches(v, before);
    MatchesAre(v, before, p);
    ResolvePointer(v, p);
    ResolvePointer(w, p);
    SetAtGet(v, p, Str(after));
    forall q | !(p <= q) && !(q <= p) ensures Get(w, q) == Get(v, q) { SetAtFrame(v, p, Str(after), q); }
  }
}
