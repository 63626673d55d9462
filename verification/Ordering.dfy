/** Total orders on strings and on lists of record fields, and sorting by such a key.

    Every slice the program sorts is compared field by field, so a comparison is
    modelled by the list of fields it looks at, in the order it looks at them. */
module Ordering {

  datatype Option<+T> = None | Some(value: T)

  predicate StringLe(a: string, b: string) {
    if a == [] then true
    else if b == [] then false
    else if a[0] != b[0] then a[0] < b[0]
    else StringLe(a[1..], b[1..])
  }

  datatype Field = Text(text: string) | Number(number: int) | Flag(flag: bool)

  type Key = seq<Field>

  predicate FieldLe(a: Field, b: Field) {
    match a
    case Text(s) => !b.Text? || StringLe(s, b.text)
    case Number(n) => if b.Number? then n <= b.number else b.Flag?
    case Flag(f) => b.Flag? && (f ==> b.flag)
  }

  predicate KeyLe(a: Key, b: Key) {
    if a == [] then true
    else if b == [] then false
    else if a[0] != b[0] then FieldLe(a[0], b[0])
    else KeyLe(a[1..], b[1..])
  }

  lemma {:induction false} StringTotal(a: string, b: string)
    ensures StringLe(a, b) || StringLe(b, a)
    ensures StringLe(a, b) && StringLe(b, a) ==> a == b
  {
    if a != [] && b != [] && a[0] == b[0] {
      StringTotal(a[1..], b[1..]);
      assert a == [a[0]] + a[1..] && b == [b[0]] + b[1..];
    }
  }

  lemma {:induction false} StringTransitive(a: string, b: string, c: string)
    requires StringLe(a, b) && StringLe(b, c)
    ensures StringLe(a, c)
  {
    if a != [] && b != [] && c != [] && a[0] == b[0] && b[0] == c[0] {
      StringTransitive(a[1..], b[1..], c[1..]);
    }
  }

  lemma FieldTotal(a: Field, b: Field)
    ensures FieldLe(a, b) || FieldLe(b, a)
    ensures FieldLe(a, b) && FieldLe(b, a) ==> a == b
  {
    if a.Text? && b.Text? {
      StringTotal(a.text, b.text);
    }
  }

  lemma FieldTransitive(a: Field, b: Field, c: Field)
    requires FieldLe(a, b) && FieldLe(b, c)
    ensures FieldLe(a, c)
  {
    if a.Text? && b.Text? && c.Text? {
      StringTransitive(a.text, b.text, c.text);
    }
  }

  lemma {:induction false} KeyTotal(a: Key, b: Key)
    ensures KeyLe(a, b) || KeyLe(b, a)
    ensures KeyLe(a, b) && KeyLe(b, a) ==> a == b
  {
    if a != [] && b != [] {
      FieldTotal(a[0], b[0]);
      if a[0] == b[0] {
        KeyTotal(a[1..], b[1..]);
        assert a == [a[0]] + a[1..] && b == [b[0]] + b[1..];
      }
    }
  }

  lemma {:induction false} KeyTransitive(a: Key, b: Key, c: Key)
    requires KeyLe(a, b) && KeyLe(b, c)
    ensures KeyLe(a, c)
  {
    if a != [] && b != [] && c != [] {
      FieldTotal(a[0], b[0]);
      FieldTotal(b[0], c[0]);
      FieldTransitive(a[0], b[0], c[0]);
      if a[0] == b[0] && b[0] == c[0] {
        KeyTransitive(a[1..], b[1..], c[1..]);
      }
    }
  }

  // ----- sorting

  ghost predicate SortedBy<T>(s: seq<T>, key: T -> Key) {
    forall i, j :: 0 <= i < j < |s| ==> KeyLe(key(s[i]), key(s[j]))
  }

  /** No two different elements compare as equal. */
  ghost predicate Identifies<T>(s: seq<T>, key: T -> Key) {
    forall x, y :: x in s && y in s && key(x) == key(y) ==> x == y
  }

  ghost predicate Distinct<T>(s: seq<T>) {
    forall i, j :: 0 <= i < j < |s| ==> s[i] != s[j]
  }

  function Insert<T>(x: T, s: seq<T>, key: T -> Key): (r: seq<T>)
    ensures multiset(r) == multiset(s) + multiset{x}
  {
    if s == [] then [x]
    else if KeyLe(key(x), key(s[0])) then [x] + s
    else
      assert s == [s[0]] + s[1..];
      [s[0]] + Insert(x, s[1..], key)
  }

  /** Go's sort.Slice, as far as its result is determined; `SortUnique` says when it is. */
  function Sort<T>(s: seq<T>, key: T -> Key): (r: seq<T>)
    ensures multiset(r) == multiset(s)
    ensures |r| == |s|
  {
    if s == [] then [] else
      assert s == [s[0]] + s[1..];
      var r := Insert(s[0], Sort(s[1..], key), key);
      assert |multiset(r)| == |multiset(s)|;
      r
  }

  lemma SameElements<T>(a: seq<T>, b: seq<T>)
    requires multiset(a) == multiset(b)
    ensures |a| == |b|
    ensures forall x :: x in a <==> x in b
  {
    assert |multiset(a)| == |multiset(b)|;
    forall x ensures x in a <==> x in b {
      assert x in a <==> x in multiset(a);
      assert x in b <==> x in multiset(b);
    }
  }

  lemma {:induction false} InsertSorted<T>(x: T, s: seq<T>, key: T -> Key)
    requires SortedBy(s, key)
    ensures SortedBy(Insert(x, s, key), key)
  {
    if s == [] {
    } else if KeyLe(key(x), key(s[0])) {
      forall i | 0 <= i < |s| ensures KeyLe(key(x), key(s[i])) {
        if i > 0 { KeyTransitive(key(x), key(s[0]), key(s[i])); }
      }
    } else {
      var t := Insert(x, s[1..], key);
      InsertSorted(x, s[1..], key);
      KeyTotal(key(x), key(s[0]));
      forall i | 0 <= i < |t| ensures KeyLe(key(s[0]), key(t[i])) {
        assert t[i] in multiset(t);
        assert t[i] == x || t[i] in s[1..];
      }
    }
  }

  lemma {:induction false} SortSorted<T>(s: seq<T>, key: T -> Key)
    ensures SortedBy(Sort(s, key), key)
  {
    if s != [] {
      SortSorted(s[1..], key);
      InsertSorted(s[0], Sort(s[1..], key), key);
    }
  }

  lemma LeastComesFirst<T>(a: seq<T>, x: T, key: T -> Key)
    requires SortedBy(a, key) && x in a
    ensures KeyLe(key(a[0]), key(x))
  {
    KeyTotal(key(x), key(x));
  }

  lemma TailMultiset<T>(a: seq<T>)
    requires a != []
    ensures multiset(a[1..]) == multiset(a) - multiset{a[0]}
  {
    assert a == [a[0]] + a[1..];
  }

  /** When equal keys mean equal elements, there is only one sorted arrangement, so
      neither the input order nor the sorting algorithm shows in the result. */
  lemma {:induction false} SortUnique<T>(a: seq<T>, b: seq<T>, key: T -> Key)
    requires multiset(a) == multiset(b)
    requires SortedBy(a, key) && SortedBy(b, key)
    requires Identifies(a, key)
    ensures a == b
  {
    assert |a| == |multiset(a)| == |multiset(b)| == |b|;
    if a != [] {
      assert b[0] in multiset(a) && a[0] in multiset(b);
      LeastComesFirst(a, b[0], key);
      LeastComesFirst(b, a[0], key);
      KeyTotal(key(a[0]), key(b[0]));
      TailMultiset(a);
      TailMultiset(b);
      SortUnique(a[1..], b[1..], key);
    }
  }

  lemma SortPermutation<T>(a: seq<T>, b: seq<T>, key: T -> Key)
    requires multiset(a) == multiset(b)
    requires Identifies(a, key)
    ensures Sort(a, key) == Sort(b, key)
  {
    SortSorted(a, key);
    SortSorted(b, key);
    assert Identifies(Sort(a, key), key) by {
      forall x, y | x in Sort(a, key) && y in Sort(a, key) && key(x) == key(y) ensures x == y {
        assert x in multiset(a) && y in multiset(a);
      }
    }
    SortUnique(Sort(a, key), Sort(b, key), key);
  }

  // ----- listing a set in key order

  ghost function Listing<T>(s: set<T>): (r: seq<T>)
    ensures multiset(r) == multiset(s)
  {
    if s == {} then [] else
      var x :| x in s;
      assert s == {x} + (s - {x});
      [x] + Listing(s - {x})
  }

  ghost function SortedElements<T>(s: set<T>, key: T -> Key): (r: seq<T>)
    ensures multiset(r) == multiset(s)
  {
    Sort(Listing(s), key)
  }

  lemma SortedElementsContents<T>(s: set<T>, key: T -> Key)
    ensures var r := SortedElements(s, key); forall x :: x in r <==> x in s
  {
    var r := SortedElements(s, key);
    forall x ensures x in r <==> x in s {
      assert x in r <==> x in multiset(r);
    }
  }

  lemma SortListsSet<T>(q: seq<T>, s: set<T>, key: T -> Key)
    requires multiset(q) == multiset(s)
    requires forall x, y :: x in s && y in s && key(x) == key(y) ==> x == y
    ensures Sort(q, key) == SortedElements(s, key)
  {
    forall x ensures x in q <==> x in s {
      assert x in q <==> x in multiset(q);
    }
    SortPermutation(q, Listing(s), key);
  }

  /** A duplicate-free list holds each element of its set exactly once. */
  lemma {:induction false} DistinctMultiset<T>(q: seq<T>, s: set<T>)
    requires Distinct(q)
    requires forall x :: x in q <==> x in s
    ensures multiset(q) == multiset(s)
  {
    if q == [] {
      assert s == {};
    } else {
      assert q == [q[0]] + q[1..];
      DistinctMultiset(q[1..], s - {q[0]});
      assert s == {q[0]} + (s - {q[0]});
    }
  }

  lemma DistinctPermutation<T>(a: seq<T>, b: seq<T>)
    requires multiset(a) == multiset(b) && Distinct(a)
    ensures Distinct(b)
  {
    forall i, j | 0 <= i < j < |b| ensures b[i] != b[j] {
      if b[i] == b[j] {
        assert b == b[..j] + [b[j]] + b[j + 1..];
        assert b[i] in b[..j];
        assert multiset(a)[b[i]] >= 2;
        DistinctMultiset(a, set x | x in a);
      }
    }
  }

  /** Plain strings in their own order. */
  function ByName(s: string): Key { [Text(s)] }

  /** Collects the names in any order, then sorts them. */
  method SortedNames(names: set<string>) returns (r: seq<string>)
    ensures r == SortedElements(names, ByName) && Distinct(r) && forall q :: q in r <==> q in names
  {
    r := [];
    var rest := names;
    while rest != {}
      invariant rest <= names && Distinct(r) && forall q :: q in r <==> q in names - rest
    {
      var q :| q in rest;
      assert q !in r;
      r, rest := r + [q], rest - {q};
    }
    DistinctMultiset(r, names);
    forall x, y | x in names && y in names && ByName(x) == ByName(y) ensures x == y { }
    SortListsSet(r, names, ByName);
    DistinctPermutation(r, Sort(r, ByName));
    SameElements(r, Sort(r, ByName));
    r := Sort(r, ByName);
  }

  // ----- appending

  lemma Regroup<T>(a: seq<T>, b: seq<T>, c: seq<T>)
    ensures a + (b + c) == a + b + c
  {
  }

  lemma DistinctAppend<T>(a: seq<T>, b: seq<T>)
    requires Distinct(a) && Distinct(b) && forall x :: x in a ==> x !in b
    ensures Distinct(a + b)
  {
    forall i, j | 0 <= i < j < |a + b| ensures (a + b)[i] != (a + b)[j] {
      assert if i < |a| then (a + b)[i] in a else (a + b)[i] == b[i - |a|];
      assert if j < |a| then (a + b)[j] == a[j] else (a + b)[j] in b;
    }
  }

  lemma SameFront<T>(a: seq<T>, x: seq<T>, y: seq<T>)
    requires a + x == a + y
    ensures x == y
  {
    assert x == (a + x)[|a|..] && y == (a + y)[|a|..];
  }

  lemma SameBack<T>(x: seq<T>, y: seq<T>, b: seq<T>)
    requires x + b == y + b
    ensures x == y
  {
    assert x == (x + b)[..|x|] && y == (y + b)[..|y|];
  }

  function Flat<T>(parts: seq<seq<T>>): seq<T> { if parts == [] then [] else parts[0] + Flat(parts[1..]) }

  lemma {:induction false} FlatAppend<T>(a: seq<seq<T>>, b: seq<seq<T>>)
    ensures Flat(a + b) == Flat(a) + Flat(b)
  {
    if a == [] {
      assert a + b == b;
    } else {
      FlatAppend(a[1..], b);
      assert (a + b)[0] == a[0] && (a + b)[1..] == a[1..] + b;
      Regroup(a[0], Flat(a[1..]), Flat(b));
    }
  }

  // ----- filtering

  function Filter<T>(s: seq<T>, keep: T -> bool): seq<T> {
    if s == [] then []
    else Filter(s[..|s| - 1], keep) + (if keep(s[|s| - 1]) then [s[|s| - 1]] else [])
  }

  lemma {:induction false} FilterCount<T>(s: seq<T>, keep: T -> bool, x: T)
    ensures multiset(Filter(s, keep))[x] == if keep(x) then multiset(s)[x] else 0
  {
    if s != [] {
      FilterCount(s[..|s| - 1], keep, x);
      assert s == s[..|s| - 1] + [s[|s| - 1]];
    }
  }

  lemma FilterContents<T>(s: seq<T>, keep: T -> bool, x: T)
    ensures x in Filter(s, keep) <==> x in s && keep(x)
  {
    FilterCount(s, keep, x);
    assert x in Filter(s, keep) <==> x in multiset(Filter(s, keep));
    assert x in s <==> x in multiset(s);
  }

  lemma FilterPermutation<T(!new)>(a: seq<T>, b: seq<T>, keep: T -> bool)
    requires multiset(a) == multiset(b)
    ensures multiset(Filter(a, keep)) == multiset(Filter(b, keep))
  {
    forall x ensures multiset(Filter(a, keep))[x] == multiset(Filter(b, keep))[x] {
      FilterCount(a, keep, x);
      FilterCount(b, keep, x);
    }
  }

  // ----- loops as folds

  /** The state of a loop over `ts` after `i` turns. */
  ghost function Fold<S, T>(step: (S, T) -> S, start: S, ts: seq<T>, i: nat): S
    requires i <= |ts|
  {
    if i == 0 then start else step(Fold(step, start, ts, i - 1), ts[i - 1])
  }

  lemma {:induction false} FoldPrefix<S, T>(step: (S, T) -> S, start: S, a: seq<T>, b: seq<T>, i: nat)
    requires i <= |a|
    ensures Fold(step, start, a + b, i) == Fold(step, start, a, i)
  {
    if i > 0 { FoldPrefix(step, start, a, b, i - 1); }
  }

  lemma {:induction false} FoldAppend<S, T>(step: (S, T) -> S, start: S, a: seq<T>, b: seq<T>, j: nat)
    requires j <= |b|
    ensures Fold(step, start, a + b, |a| + j) == Fold(step, Fold(step, start, a, |a|), b, j)
  {
    if j == 0 { FoldPrefix(step, start, a, b, |a|); } else { FoldAppend(step, start, a, b, j - 1); }
  }

  /** A state that no turn leaves is kept to the end. */
  lemma {:induction false} FoldStuck<S, T(!new)>(step: (S, T) -> S, start: S, ts: seq<T>, i: nat, j: nat, stuck: S)
    requires i <= j <= |ts| && forall t :: step(stuck, t) == stuck
    ensures Fold(step, start, ts, i) == stuck ==> Fold(step, start, ts, j) == stuck
    decreases j
  {
    if i < j { FoldStuck(step, start, ts, i, j - 1, stuck); }
  }
}
