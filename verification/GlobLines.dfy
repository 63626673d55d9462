/** What line breaks in paths do to compiled patterns (internal/ownership/matcher.go): the dot of a
    regular expression does not match one. */
module GlobLines {
  import opened Ordering
  import opened Regexes
  import opened Glob

  // ----- line breaks

  lemma {:induction false} LinesDoNotMatter(p: string, s: string)
    requires '\n' !in s
    ensures Matches(p, s, LINES) <==> Matches(p, s, {})
    decreases |p|
  {
    forall k | 0 <= k <= |s| ensures Free(s[..k], LINES) && '\n' !in s[k..] { FreeOfLines(s[..k]); }
    if p != "" {
      var n := if "**/" <= p then 3 else if "**" <= p then 2 else 1;
      forall k | 0 <= k <= |s| ensures Matches(p[n..], s[k..], LINES) <==> Matches(p[n..], s[k..], {}) {
        LinesDoNotMatter(p[n..], s[k..]);
      }
      assert s[0..] == s;
    }
  }

  /** On a path without line breaks the expression accepts what the pattern means with nothing in the way. */
  lemma PlainPaths(p: string, path: string)
    requires '\n' !in path
    ensures AcceptsAll(Expression(p), path) <==> MatchesPath(p, path, {})
  {
    ExpressionMeans(p, path);
    forall i: nat, j: nat ensures MatchesAt(p, path, i, j, LINES) <==> MatchesAt(p, path, i, j, {}) {
      if i <= j <= |path| {
        FreeOfLines(path[..i]);
        FreeOfLines(path[j..]);
        LinesDoNotMatter(Body(p), path[i..j]);
      }
    }
  }

  /** The pattern agrees with its plain meaning about the path. */
  ghost predicate AgreesOn(p: string, path: string) {
    AcceptsAll(Expression(p), path) <==> MatchesPath(p, path, {})
  }

  lemma SpanIsFree(s: string, walls: set<char>)
    ensures Matches("**", s, walls) <==> Free(s, walls)
  {
    assert s[..|s|] == s && s[|s|..] == "";
    assert "**"[2..] == "";
    if Free(s, walls) {
      assert Matches("", s[|s|..], walls);
    }
    if Matches("**", s, walls) {
      var k :| 0 <= k <= |s| && Free(s[..k], walls) && Matches("**"[2..], s[k..], walls);
      assert |s[k..]| == 0;
    }
  }

  lemma SpanIsSupported()
    ensures !Unsupported("**") && Body("**") == "**"
  {
    assert "**"[1..] == "*" && "*"[1..] == "";
  }

  lemma SpanNeedsFreePath(path: string, i: nat, j: nat)
    requires MatchesAt("**", path, i, j, LINES)
    ensures '\n' !in path
  {
    SpanIsSupported();
    SpanIsFree(path[i..j], LINES);
    FreeOfLines(path[..i]);
    FreeOfLines(path[i..j]);
    FreeOfLines(path[j..]);
    assert path == path[..i] + path[i..j] + path[j..];
  }

  /** A line break anywhere hides the path from the pattern for everything. */
  lemma LineBreaksHide(path: string)
    requires '\n' in path
    ensures !Unsupported("**") && !AgreesOn("**", path)
  {
    SpanIsSupported();
    SpanIsFree(path, {});
    assert path[0..|path|] == path && MatchesAt("**", path, 0, |path|, {});
    ExpressionMeans("**", path);
    if MatchesPath("**", path, LINES) {
      var i: nat, j: nat :| MatchesAt("**", path, i, j, LINES);
      SpanNeedsFreePath(path, i, j);
    }
  }

  /** A path is treated as every supported pattern means exactly when it holds no line break. */
  lemma PathAgreesExactly(path: string)
    ensures '\n' !in path <==> forall p :: !Unsupported(p) ==> AgreesOn(p, path)
  {
    if '\n' in path {
      LineBreaksHide(path);
    } else {
      forall p ensures AgreesOn(p, path) { PlainPaths(p, path); }
    }
  }

  // ----- which patterns are safe on every path

  /** How often a slash is followed by a line break. */
  function Breaks(s: string): nat {
    if |s| < 2 then 0 else (if s[0] == '/' && s[1] == '\n' then 1 else 0) + Breaks(s[1..])
  }

  lemma {:induction false} BreaksAppend(a: string, b: string)
    ensures Breaks(a) + Breaks(b) <= Breaks(a + b) <= Breaks(a) + Breaks(b) + 1
  {
    if a == "" {
      assert a + b == b;
    } else {
      var s := a + b;
      BreaksAppend(a[1..], b);
      assert s[1..] == a[1..] + b && s[0] == a[0];
      assert |a| > 1 ==> s[1] == a[1];
      assert |a| == 1 ==> a[1..] == "";
    }
  }

  lemma {:induction false} NoBreaks(s: string)
    requires '/' !in s || '\n' !in s || |s| < 2
    ensures Breaks(s) == 0
  {
    if |s| >= 2 {
      assert s[1] in s && s[0] in s;
      NoBreaks(s[1..]);
    }
  }

  /** The expressions that the compiler emits. */
  predicate Emitted(r: Regex) {
    r == Lead || r == Trail || r.Exactly? || r.Except? || r == Star(Except('/')) || r == Star(Except('\n'))
  }

  lemma EmittedHasNoBreaks(r: Regex, s: string)
    requires Emitted(r) && Accepts(r, s)
    ensures Breaks(s) == 0
  {
    if r == Lead {
      LeadMeans(s);
    } else if r == Trail {
      TrailMeans(s);
    } else if r.Star? {
      StarMeansRun(r.body.c, s);
    }
    NoBreaks(s);
  }

  lemma {:induction false} FlatBreaks(rs: seq<Regex>, parts: seq<string>)
    requires Parses(rs, parts) && forall r :: r in rs ==> Emitted(r)
    ensures Breaks(Flat(parts)) <= |rs|
  {
    if rs != [] {
      EmittedHasNoBreaks(rs[0], parts[0]);
      FlatBreaks(rs[1..], parts[1..]);
      BreaksAppend(parts[0], Flat(parts[1..]));
    }
  }

  lemma {:induction false} PiecesAreEmitted(p: string)
    ensures |Pieces(p)| <= |p| && forall r :: r in Pieces(p) ==> Emitted(r)
    decreases |p|
  {
    if p != "" {
      PiecesAreEmitted(p[if "**/" <= p then 3 else if "**" <= p then 2 else 1..]);
    }
  }

  /** An expression accepts no more breaks than it has pieces. */
  lemma ExpressionBreaks(p: string, path: string)
    requires AcceptsAll(Expression(p), path)
    ensures Breaks(path) <= |p| + 2
  {
    PiecesAreEmitted(Body(p));
    var parts :| Parses(Expression(p), parts) && Flat(parts) == path;
    FlatBreaks(Expression(p), parts);
  }

  function Chain(n: nat): string { if n == 0 then "" else "/\n" + Chain(n - 1) }

  lemma {:induction false} ChainBreaks(n: nat)
    ensures Breaks(Chain(n)) >= n && |Chain(n)| == 2 * n && (n > 0 ==> Chain(n)[0] == '/')
  {
    if n > 0 {
      ChainBreaks(n - 1);
      BreaksAppend("/\n", Chain(n - 1));
      assert Breaks("/\n") >= 1;
    }
  }

  /** A text that the body of a pattern matches. */
  function Sample(p: string): string
    decreases |p|
  {
    if p == "" then ""
    else if "**/" <= p then Sample(p[3..])
    else if "**" <= p then Sample(p[2..])
    else if p[0] == '*' then Sample(p[1..])
    else [if p[0] == '?' then 'x' else p[0]] + Sample(p[1..])
  }

  lemma {:induction false} SampleMatches(p: string)
    ensures Matches(p, Sample(p), {})
    decreases |p|
  {
    var s := Sample(p);
    assert s[0..] == s;
    if p == "" {
    } else if "**/" <= p {
      SampleMatches(p[3..]);
    } else if "**" <= p {
      SampleMatches(p[2..]);
      assert Matches(p[2..], s[0..], {});
    } else if p[0] == '*' {
      SampleMatches(p[1..]);
      assert '/' !in s[..0] && Matches(p[1..], s[0..], {});
    } else {
      SampleMatches(p[1..]);
      assert s[1..] == Sample(p[1..]);
    }
  }

  /** A pattern with `**` matches texts with any number of breaks. */
  lemma {:induction false} SpanningSample(p: string, n: nat) returns (s: string)
    requires Contains(p, "**")
    ensures Matches(p, s, {}) && Breaks(s) >= n
    decreases |p|
  {
    ChainBreaks(n);
    if "**/" <= p {
      var rest := Sample(p[3..]);
      SampleMatches(p[3..]);
      s := Chain(n) + "/" + rest;
      var k := |Chain(n)| + 1;
      assert s[k - 1] == '/' && s[k..] == rest && Free(s[..k], {});
      BreaksAppend(Chain(n), "/");
      BreaksAppend(Chain(n) + "/", rest);
    } else if "**" <= p {
      var rest := Sample(p[2..]);
      SampleMatches(p[2..]);
      s := Chain(n) + rest;
      assert s[|Chain(n)|..] == rest && Free(s[..|Chain(n)|], {});
      BreaksAppend(Chain(n), rest);
    } else if p[0] == '*' {
      s := SpanningSample(p[1..], n);
      assert s[0..] == s && '/' !in s[..0];
    } else {
      var rest := SpanningSample(p[1..], n);
      var c := if p[0] == '?' then 'x' else p[0];
      s := [c] + rest;
      assert s[1..] == rest;
      BreaksAppend([c], rest);
    }
  }

  /** The body holds nothing that a line break could stop. */
  lemma {:induction false} WallsDoNotMatter(p: string, s: string)
    requires !Contains(p, "**")
    ensures Matches(p, s, LINES) <==> Matches(p, s, {})
    decreases |p|
  {
    if p != "" {
      assert !("**" <= p) && !("**/" <= p);
      forall k | 0 <= k <= |s| ensures Matches(p[1..], s[k..], LINES) <==> Matches(p[1..], s[k..], {}) {
        WallsDoNotMatter(p[1..], s[k..]);
      }
    }
  }

  /** Nothing in the pattern becomes a dot. */
  predicate Dotless(p: string) { !Covers(p) && !Contains(Body(p), "**") }

  lemma DotlessAgrees(p: string, path: string)
    requires Dotless(p)
    ensures AgreesOn(p, path)
  {
    ExpressionMeans(p, path);
    forall i: nat, j: nat ensures MatchesAt(p, path, i, j, LINES) <==> MatchesAt(p, path, i, j, {}) {
      if i <= j <= |path| { WallsDoNotMatter(Body(p), path[i..j]); }
    }
  }

  /** Otherwise some path with enough breaks is missed. */
  lemma DotsMiss(p: string) returns (path: string)
    requires !Dotless(p)
    ensures !AgreesOn(p, path)
  {
    var n, body := |p| + 3, Body(p);
    if Covers(p) {
      var s := Sample(body);
      SampleMatches(body);
      ChainBreaks(n);
      BreaksAppend(s, Chain(n));
      path := s + Chain(n);
      assert path[0..|s|] == s && path[|s|] == '/';
      assert MatchesAt(p, path, 0, |s|, {});
    } else {
      path := SpanningSample(body, n);
      assert path[0..|path|] == path;
      assert MatchesAt(p, path, 0, |path|, {});
    }
    if AcceptsAll(Expression(p), path) { ExpressionBreaks(p, path); }
  }

  /** A pattern means what it says on every path, line breaks or not, exactly when it neither covers what
      lies below its match nor holds `**`. */
  lemma PatternAgreesExactly(p: string)
    ensures Dotless(p) <==> forall path :: AgreesOn(p, path)
  {
    if Dotless(p) {
      forall path ensures AgreesOn(p, path) { DotlessAgrees(p, path); }
    } else {
      var path := DotsMiss(p);
    }
  }
}
