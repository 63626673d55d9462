/** CODEOWNERS patterns (internal/ownership/matcher.go): what a pattern means, and the regular
    expression it is compiled to. The compiler reads a pattern byte by byte, so a pattern is the sequence
    of its bytes, one character each; a path is the sequence of its code points. */
module Glob {
  import opened Ordering
  import opened Escaping
  import opened Regexes

  // ----- what a pattern means

  /** The text holds none of the given characters. */
  ghost predicate Free(s: string, walls: set<char>) { forall c :: c in walls ==> c !in s }

  /** How the body of a pattern matches a text. `*` stays inside a segment, `**` stops only at walls. */
  ghost predicate Matches(p: string, s: string, walls: set<char>)
    decreases |p|
  {
    if p == "" then s == ""
    else if "**/" <= p then
      || Matches(p[3..], s, walls)
      || exists k :: 0 < k <= |s| && s[k - 1] == '/' && Free(s[..k], walls) && Matches(p[3..], s[k..], walls)
    else if "**" <= p then
      exists k :: 0 <= k <= |s| && Free(s[..k], walls) && Matches(p[2..], s[k..], walls)
    else if p[0] == '*' then
      exists k :: 0 <= k <= |s| && '/' !in s[..k] && Matches(p[1..], s[k..], walls)
    else
      && s != "" && (if p[0] == '?' then s[0] != '/' else s[0] == p[0]) && Matches(p[1..], s[1..], walls)
  }

  predicate Contains(s: string, t: string) { t <= s || (s != "" && Contains(s[1..], t)) }

  function Trimmed(p: string): string { if p != "" && p[0] == '/' then p[1..] else p }

  predicate DirectoryOnly(p: string) { Trimmed(p) != "" && Trimmed(p)[|Trimmed(p)| - 1] == '/' }

  /** The pattern without the slashes at its ends. */
  function Body(p: string): string {
    if DirectoryOnly(p) then Trimmed(p)[..|Trimmed(p)| - 1] else Trimmed(p)
  }

  function LastSegment(p: string): string { if '/' in p then LastSegment(p[1..]) else p }

  /** A single name that is not tied to the root matches at any depth. */
  predicate Floating(p: string) { '/' !in Body(p) && !("/" <= p) }

  /** The pattern also covers everything below what its body matches. */
  predicate Covers(p: string) {
    || DirectoryOnly(p)
    || '/' !in Body(p)
    || !('*' in LastSegment(Body(p)) || '?' in LastSegment(Body(p)))
  }

  predicate Unsupported(p: string) {
    || p == "" || p[0] == '!' || '[' in p || ']' in p || '\\' in p || '\0' in p
    || Contains(p, "//") || Contains(p, "***") || Body(p) == ""
  }

  ghost predicate StartsAt(p: string, path: string, i: nat, walls: set<char>)
    requires i <= |path|
  {
    i == 0 || (Floating(p) && path[i - 1] == '/' && Free(path[..i], walls))
  }

  ghost predicate EndsAt(p: string, path: string, j: nat, walls: set<char>)
    requires j <= |path|
  {
    j == |path| || (Covers(p) && path[j] == '/' && Free(path[j..], walls))
  }

  ghost predicate MatchesAt(p: string, path: string, i: nat, j: nat, walls: set<char>) {
    i <= j <= |path| && StartsAt(p, path, i, walls) && EndsAt(p, path, j, walls) && Matches(Body(p), path[i..j], walls)
  }

  /** The body of the pattern matches a stretch of whole segments of the path. */
  ghost predicate MatchesPath(p: string, path: string, walls: set<char>) {
    exists i, j :: MatchesAt(p, path, i, j, walls)
  }

  // ----- compilation

  function Pieces(p: string): seq<Regex>
    decreases |p|
  {
    if p == "" then []
    else if "**/" <= p then [Lead] + Pieces(p[3..])
    else if "**" <= p then [Star(Except('\n'))] + Pieces(p[2..])
    else
      [if p[0] == '*' then Star(Except('/')) else if p[0] == '?' then Except('/') else Exactly(p[0])] + Pieces(p[1..])
  }

  const LINES := {'\n'}

  lemma FreeOfLines(s: string)
    ensures Free(s, LINES) <==> '\n' !in s
  {
    assert '\n' in LINES;
  }

  lemma HeadJoin(r: Regex, rs: seq<Regex>, s: string, k: nat)
    requires k <= |s| && Accepts(r, s[..k]) && AcceptsAll(rs, s[k..])
    ensures AcceptsAll([r] + rs, s)
  {
    HeadIntro(r, rs, s[..k], s[k..]);
    assert s[..k] + s[k..] == s;
  }

  lemma HeadCut(r: Regex, rs: seq<Regex>, s: string) returns (k: nat)
    requires AcceptsAll([r] + rs, s)
    ensures k <= |s| && Accepts(r, s[..k]) && AcceptsAll(rs, s[k..])
  {
    var u, v := HeadElim(r, rs, s);
    k := |u|;
    assert s[..k] == u && s[k..] == v;
  }

  /** One piece at a time: what the first accepts, then what the others accept. */
  lemma HeadTail(r: Regex, rs: seq<Regex>, s: string)
    ensures AcceptsAll([r] + rs, s) <==> exists k :: 0 <= k <= |s| && Accepts(r, s[..k]) && AcceptsAll(rs, s[k..])
  {
    if AcceptsAll([r] + rs, s) {
      var k := HeadCut(r, rs, s);
    }
    if exists k :: 0 <= k <= |s| && Accepts(r, s[..k]) && AcceptsAll(rs, s[k..]) {
      var k :| 0 <= k <= |s| && Accepts(r, s[..k]) && AcceptsAll(rs, s[k..]);
      HeadJoin(r, rs, s, k);
    }
  }

  lemma {:induction false} PiecesMean(p: string, s: string)
    ensures AcceptsAll(Pieces(p), s) <==> Matches(p, s, LINES)
    decreases |p|, 1
  {
    if p == "" {
      assert Parses([], []) && Flat([]) == "";
    } else if "**/" <= p {
      LeadingPieces(p, s);
    } else if "**" <= p {
      SpanningPieces(p, s);
    } else if p[0] == '*' {
      StarPieces(p, s);
    } else {
      SinglePieces(p, s);
    }
  }

  lemma {:induction false} LeadingPieces(p: string, s: string)
    requires "**/" <= p
    ensures AcceptsAll(Pieces(p), s) <==> Matches(p, s, LINES)
    decreases |p|, 0
  {
    var rest := p[3..];
    HeadTail(Lead, Pieces(rest), s);
    assert s[0..] == s && s[..0] == "";
    forall k | 0 <= k <= |s|
      ensures Accepts(Lead, s[..k]) && AcceptsAll(Pieces(rest), s[k..]) <==>
              (k == 0 || (s[k - 1] == '/' && Free(s[..k], LINES))) && Matches(rest, s[k..], LINES)
    {
      LeadMeans(s[..k]);
      FreeOfLines(s[..k]);
      PiecesMean(rest, s[k..]);
    }
  }

  lemma {:induction false} SpanningPieces(p: string, s: string)
    requires "**" <= p && !("**/" <= p)
    ensures AcceptsAll(Pieces(p), s) <==> Matches(p, s, LINES)
    decreases |p|, 0
  {
    var dots, rest := Star(Except('\n')), p[2..];
    HeadTail(dots, Pieces(rest), s);
    forall k | 0 <= k <= |s|
      ensures Accepts(dots, s[..k]) && AcceptsAll(Pieces(rest), s[k..]) <==>
              Free(s[..k], LINES) && Matches(rest, s[k..], LINES)
    {
      StarMeansRun('\n', s[..k]);
      FreeOfLines(s[..k]);
      PiecesMean(rest, s[k..]);
    }
  }

  lemma {:induction false} StarPieces(p: string, s: string)
    requires "*" <= p && !("**" <= p)
    ensures AcceptsAll(Pieces(p), s) <==> Matches(p, s, LINES)
    decreases |p|, 0
  {
    var star, rest := Star(Except('/')), p[1..];
    HeadTail(star, Pieces(rest), s);
    forall k | 0 <= k <= |s|
      ensures Accepts(star, s[..k]) && AcceptsAll(Pieces(rest), s[k..]) <==>
              '/' !in s[..k] && Matches(rest, s[k..], LINES)
    {
      StarMeansRun('/', s[..k]);
      PiecesMean(rest, s[k..]);
    }
  }

  lemma {:induction false} SinglePieces(p: string, s: string)
    requires p != "" && p[0] != '*'
    ensures AcceptsAll(Pieces(p), s) <==> Matches(p, s, LINES)
    decreases |p|, 0
  {
    var r, rest := if p[0] == '?' then Except('/') else Exactly(p[0]), p[1..];
    if AcceptsAll(Pieces(p), s) {
      var u, v := HeadElim(r, Pieces(rest), s);
      assert s[1..] == v;
      PiecesMean(rest, v);
    }
    if Matches(p, s, LINES) {
      PiecesMean(rest, s[1..]);
      HeadIntro(r, Pieces(rest), [s[0]], s[1..]);
      assert [s[0]] + s[1..] == s;
    }
  }

  // ----- the compiler

  datatype Matcher = Refused | Compiled(pattern: string, pieces: seq<Regex>)

  function Opening(p: string): seq<Regex> { if Floating(p) then [Lead] else [] }

  function Closing(p: string): seq<Regex> { if Covers(p) then [Trail] else [] }

  lemma OpeningMeans(p: string, s: string)
    ensures AcceptsAll(Opening(p), s) <==> StartsAt(p, s, |s|, LINES)
  {
    FreeOfLines(s);
    assert s[..|s|] == s;
    if Floating(p) {
      AcceptsOne(Lead, s);
      LeadMeans(s);
    } else {
      assert Parses([], []) && Flat([]) == "";
    }
  }

  lemma ClosingMeans(p: string, s: string)
    ensures AcceptsAll(Closing(p), s) <==> EndsAt(p, s, 0, LINES)
  {
    FreeOfLines(s);
    assert s[0..] == s;
    if Covers(p) {
      AcceptsOne(Trail, s);
      TrailMeans(s);
    } else {
      assert Parses([], []) && Flat([]) == "";
    }
  }

  function Expression(p: string): seq<Regex> { Opening(p) + Pieces(Body(p)) + Closing(p) }

  /** Compilation preserves meaning, on every path. */
  lemma ExpressionMeans(p: string, path: string)
    ensures AcceptsAll(Expression(p), path) <==> MatchesPath(p, path, LINES)
  {
    if AcceptsAll(Expression(p), path) {
      ExpressionSound(p, path);
    }
    if MatchesPath(p, path, LINES) {
      var i, j :| MatchesAt(p, path, i, j, LINES);
      ExpressionComplete(p, path, i, j);
    }
  }

  lemma ExpressionSound(p: string, path: string)
    requires AcceptsAll(Expression(p), path)
    ensures MatchesPath(p, path, LINES)
  {
    var front, c := AppendElim(Opening(p) + Pieces(Body(p)), Closing(p), path);
    var a, b := AppendElim(Opening(p), Pieces(Body(p)), front);
    OpeningMeans(p, a);
    PiecesMean(Body(p), b);
    ClosingMeans(p, c);
    var i, j := |a|, |a| + |b|;
    assert path[..i] == a && path[i..j] == b && path[j..] == c;
    assert MatchesAt(p, path, i, j, LINES);
  }

  lemma ExpressionComplete(p: string, path: string, i: nat, j: nat)
    requires MatchesAt(p, path, i, j, LINES)
    ensures AcceptsAll(Expression(p), path)
  {
    var a, b, c := path[..i], path[i..j], path[j..];
    assert StartsAt(p, a, |a|, LINES) by { assert a[..i] == a && (i > 0 ==> a[i - 1] == path[i - 1]); }
    assert EndsAt(p, c, 0, LINES) by { assert c[0..] == c && (j < |path| ==> c[0] == path[j]); }
    PartsAccepted(p, a, b, c);
    assert a + b + c == path;
  }

  lemma PartsAccepted(p: string, a: string, b: string, c: string)
    requires StartsAt(p, a, |a|, LINES) && Matches(Body(p), b, LINES) && EndsAt(p, c, 0, LINES)
    ensures AcceptsAll(Expression(p), a + b + c)
  {
    OpeningMeans(p, a);
    PiecesMean(Body(p), b);
    ClosingMeans(p, c);
    AppendIntro(Opening(p), Pieces(Body(p)), a, b);
    AppendIntro(Opening(p) + Pieces(Body(p)), Closing(p), a + b, c);
  }

  /** Refuses exactly the unsupported patterns; the expression for any other pattern accepts
      exactly the paths that the pattern matches. */
  method Compile(pattern: string) returns (r: Matcher)
    ensures r.Refused? <==> Unsupported(pattern)
    ensures r.Compiled? ==> r.pattern == pattern
    ensures r.Compiled? ==> forall path :: AcceptsAll(r.pieces, path) <==> MatchesPath(pattern, path, LINES)
  {
    if pattern == "" || "!" <= pattern || '[' in pattern || ']' in pattern || '\\' in pattern || '\0' in pattern
      || Contains(pattern, "//") || Contains(pattern, "***") {
      return Refused;
    }
    var anchored := "/" <= pattern;
    var p := if anchored then pattern[1..] else pattern;
    var directoryOnly := p != "" && p[|p| - 1] == '/';
    p := if directoryOnly then p[..|p| - 1] else p;
    if p == "" {
      return Refused;
    }
    assert p == Body(pattern);
    var hasSlash := '/' in p;
    var expression := if !hasSlash && !anchored then [Lead] else [];
    var body := CompileBody(p);
    expression := expression + body;
    var last := LastSegment(p);
    if directoryOnly || !hasSlash || !('*' in last || '?' in last) {
      expression := expression + [Trail];
    }
    assert expression == Expression(pattern);
    forall path ensures AcceptsAll(expression, path) <==> MatchesPath(pattern, path, LINES) {
      ExpressionMeans(pattern, path);
    }
    r := Compiled(pattern, expression);
  }

  /** The loop over the body of a pattern. */
  method CompileBody(p: string) returns (expression: seq<Regex>)
    ensures expression == Pieces(p)
  {
    expression := [];
    var i := 0;
    assert p[0..] == p;
    while i < |p|
      invariant 0 <= i <= |p| && expression + Pieces(p[i..]) == Pieces(p)
      decreases |p| - i
    {
      PiecesStep(p, i, expression);
      if p[i] == '*' {
        if i + 1 < |p| && p[i + 1] == '*' {
          i := i + 2;
          if i < |p| && p[i] == '/' {
            expression := expression + [Lead];
            i := i + 1;
          } else {
            expression := expression + [Star(Except('\n'))];
          }
          continue;
        }
        expression := expression + [Star(Except('/'))];
      } else if p[i] == '?' {
        expression := expression + [Except('/')];
      } else {
        expression := expression + [Exactly(p[i])];
      }
      i := i + 1;
    }
    assert p[i..] == "" && expression + [] == expression;
  }

  lemma PiecesStep(p: string, i: nat, done: seq<Regex>)
    requires i < |p|
    ensures p[i] == '*' && i + 1 < |p| && p[i + 1] == '*' && i + 2 < |p| && p[i + 2] == '/' ==>
      done + Pieces(p[i..]) == done + [Lead] + Pieces(p[i + 3..])
    ensures p[i] == '*' && i + 1 < |p| && p[i + 1] == '*' && !(i + 2 < |p| && p[i + 2] == '/') ==>
      done + Pieces(p[i..]) == done + [Star(Except('\n'))] + Pieces(p[i + 2..])
    ensures p[i] == '*' && !(i + 1 < |p| && p[i + 1] == '*') ==>
      done + Pieces(p[i..]) == done + [Star(Except('/'))] + Pieces(p[i + 1..])
    ensures p[i] == '?' ==> done + Pieces(p[i..]) == done + [Except('/')] + Pieces(p[i + 1..])
    ensures p[i] != '*' && p[i] != '?' ==> done + Pieces(p[i..]) == done + [Exactly(p[i])] + Pieces(p[i + 1..])
  {
    var q := p[i..];
    assert q[0] == p[i] && q[1..] == p[i + 1..];
    if p[i] == '*' && i + 1 < |p| && p[i + 1] == '*' {
      assert q[1] == '*' && q[2..] == p[i + 2..];
      if i + 2 < |p| && p[i + 2] == '/' {
        assert "**/" <= q && q[3..] == p[i + 3..];
      } else {
        assert "**" <= q && !("**/" <= q);
      }
    } else {
      assert !("**" <= q);
    }
  }

  // ----- matching a path

  function Normal(path: string): string {
    var forward := ReplaceChar(path, '\\', "/");
    if "./" <= forward then forward[2..] else forward
  }

  ghost predicate Match(m: Matcher, path: string)
    requires m.Compiled?
  {
    Normal(path) != "" && AcceptsAll(m.pieces, Normal(path))
  }

  /** Backslashes are slashes, and a leading dot makes no difference to any other path. */
  lemma MatchIgnoresSpelling(m: Matcher, path: string)
    requires m.Compiled?
    ensures Match(m, path) == Match(m, ReplaceChar(path, '\\', "/"))
    ensures !("./" <= ReplaceChar(path, '\\', "/")) ==> Match(m, "./" + path) == Match(m, path)
  {
    var forward := ReplaceChar(path, '\\', "/");
    ForwardHasNoBackslash(path);
    NoBackslash(forward);
    NoBackslash("./");
    ReplaceCharAppend("./", path, '\\', "/");
    assert ("./" + forward)[2..] == forward;
  }

  lemma {:induction false} ForwardHasNoBackslash(s: string)
    ensures '\\' !in ReplaceChar(s, '\\', "/")
  {
    if s != "" { ForwardHasNoBackslash(s[1..]); }
  }

  lemma {:induction false} NoBackslash(s: string)
    requires '\\' !in s
    ensures ReplaceChar(s, '\\', "/") == s
  {
    if s != "" {
      NoBackslash(s[1..]);
      assert s == [s[0]] + s[1..];
    }
  }
}
