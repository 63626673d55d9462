/** Regular expressions, in the subset that CODEOWNERS patterns are compiled to, and the texts they
    accept. */
module Regexes {
  import opened Ordering

  /** Except('\n') is the dot, Except('/') is [^/]. */
  datatype Regex =
    | Exactly(c: char) | Except(c: char) | Star(body: Regex) | Both(first: Regex, second: Regex) | Maybe(body: Regex)

  ghost predicate Accepts(r: Regex, s: string)
    decreases r, |s|
  {
    match r
    case Exactly(c) => s == [c]
    case Except(c) => |s| == 1 && s[0] != c
    case Maybe(body) => s == "" || Accepts(body, s)
    case Both(a, b) => exists k :: 0 <= k <= |s| && Accepts(a, s[..k]) && Accepts(b, s[k..])
    case Star(body) => s == "" || exists k :: 0 < k <= |s| && Accepts(body, s[..k]) && Accepts(r, s[k..])
  }

  ghost predicate Parses(rs: seq<Regex>, parts: seq<string>) {
    |parts| == |rs| && forall i :: 0 <= i < |rs| ==> Accepts(rs[i], parts[i])
  }

  /** A sequence of expressions, one after the other, from the beginning to the end of the text. */
  ghost predicate AcceptsAll(rs: seq<Regex>, s: string) {
    exists parts :: Parses(rs, parts) && Flat(parts) == s
  }

  const Lead := Maybe(Both(Star(Except('\n')), Exactly('/')))    // (.*/)?
  const Trail := Maybe(Both(Exactly('/'), Star(Except('\n'))))   // (/.*)?

  lemma {:induction false} StarMeansRun(c: char, s: string)
    ensures Accepts(Star(Except(c)), s) <==> c !in s
  {
    if s != "" {
      StarMeansRun(c, s[1..]);
      var r := Star(Except(c));
      if Accepts(r, s) {
        var k :| 0 < k <= |s| && Accepts(Except(c), s[..k]) && Accepts(r, s[k..]);
        assert k == 1 && s == [s[0]] + s[1..];
      }
      if c !in s {
        assert s[..1] == [s[0]] && Accepts(Except(c), s[..1]) && Accepts(r, s[1..]);
      }
    }
  }

  lemma BothIntro(a: Regex, b: Regex, s: string, t: string)
    requires Accepts(a, s) && Accepts(b, t)
    ensures Accepts(Both(a, b), s + t)
  {
    assert (s + t)[..|s|] == s && (s + t)[|s|..] == t;
  }

  lemma BothElim(a: Regex, b: Regex, u: string) returns (s: string, t: string)
    requires Accepts(Both(a, b), u)
    ensures u == s + t && Accepts(a, s) && Accepts(b, t)
  {
    var k :| 0 <= k <= |u| && Accepts(a, u[..k]) && Accepts(b, u[k..]);
    s, t := u[..k], u[k..];
  }

  lemma LeadAccepted(s: string)
    requires Accepts(Lead, s) && s != ""
    ensures s[|s| - 1] == '/' && '\n' !in s
  {
    var a, b := BothElim(Star(Except('\n')), Exactly('/'), s);
    StarMeansRun('\n', a);
  }

  lemma LeadAccepts(a: string)
    requires '\n' !in a
    ensures Accepts(Lead, a + "/")
  {
    StarMeansRun('\n', a);
    BothIntro(Star(Except('\n')), Exactly('/'), a, "/");
  }

  lemma LeadMeans(s: string)
    ensures Accepts(Lead, s) <==> s == "" || (s[|s| - 1] == '/' && '\n' !in s)
  {
    if s != "" && Accepts(Lead, s) {
      LeadAccepted(s);
    }
    if s != "" && s[|s| - 1] == '/' && '\n' !in s {
      LeadAccepts(s[..|s| - 1]);
      assert s == s[..|s| - 1] + "/";
    }
  }

  lemma TrailMeans(s: string)
    ensures Accepts(Trail, s) <==> s == "" || (s[0] == '/' && '\n' !in s)
  {
    if s != "" && Accepts(Trail, s) {
      TrailAccepted(s);
    }
    if s != "" && s[0] == '/' && '\n' !in s {
      TrailAccepts(s[1..]);
      assert s == "/" + s[1..];
    }
  }

  lemma TrailAccepted(s: string)
    requires Accepts(Trail, s) && s != ""
    ensures s[0] == '/' && '\n' !in s
  {
    var a, b := BothElim(Exactly('/'), Star(Except('\n')), s);
    StarMeansRun('\n', b);
  }

  lemma TrailAccepts(b: string)
    requires '\n' !in b
    ensures Accepts(Trail, "/" + b)
  {
    StarMeansRun('\n', b);
    BothIntro(Exactly('/'), Star(Except('\n')), "/", b);
  }

  lemma FlatOne(s: string)
    ensures Flat([s]) == s
  {
    assert [s][1..] == [];
  }

  lemma ParsesAppend(a: seq<Regex>, b: seq<Regex>, p: seq<string>, q: seq<string>)
    requires |p| == |a|
    ensures Parses(a + b, p + q) <==> Parses(a, p) && Parses(b, q)
  {
    if Parses(a + b, p + q) {
      forall i | 0 <= i < |a| ensures Accepts(a[i], p[i]) { assert (a + b)[i] == a[i] && (p + q)[i] == p[i]; }
      forall i | 0 <= i < |b| ensures Accepts(b[i], q[i]) {
        assert (a + b)[|a| + i] == b[i] && (p + q)[|a| + i] == q[i];
      }
    }
  }

  lemma AppendIntro(a: seq<Regex>, b: seq<Regex>, s: string, t: string)
    requires AcceptsAll(a, s) && AcceptsAll(b, t)
    ensures AcceptsAll(a + b, s + t)
  {
    var p :| Parses(a, p) && Flat(p) == s;
    var q :| Parses(b, q) && Flat(q) == t;
    FlatAppend(p, q);
    ParsesAppend(a, b, p, q);
  }

  lemma AppendElim(a: seq<Regex>, b: seq<Regex>, u: string) returns (s: string, t: string)
    requires AcceptsAll(a + b, u)
    ensures u == s + t && AcceptsAll(a, s) && AcceptsAll(b, t)
  {
    var parts :| Parses(a + b, parts) && Flat(parts) == u;
    var p, q := parts[..|a|], parts[|a|..];
    assert parts == p + q;
    ParsesAppend(a, b, p, q);
    FlatAppend(p, q);
    s, t := Flat(p), Flat(q);
  }

  lemma AcceptsOne(r: Regex, s: string)
    ensures AcceptsAll([r], s) <==> Accepts(r, s)
  {
    FlatOne(s);
    if AcceptsAll([r], s) {
      var parts :| Parses([r], parts) && Flat(parts) == s;
      assert Accepts([r][0], parts[0]) && parts == [parts[0]];
      FlatOne(parts[0]);
    }
    if Accepts(r, s) {
      assert Parses([r], [s]);
    }
  }

  lemma HeadIntro(r: Regex, rs: seq<Regex>, s: string, t: string)
    requires Accepts(r, s) && AcceptsAll(rs, t)
    ensures AcceptsAll([r] + rs, s + t)
  {
    AcceptsOne(r, s);
    AppendIntro([r], rs, s, t);
  }

  lemma HeadElim(r: Regex, rs: seq<Regex>, u: string) returns (s: string, t: string)
    requires AcceptsAll([r] + rs, u)
    ensures u == s + t && Accepts(r, s) && AcceptsAll(rs, t)
  {
    s, t := AppendElim([r], rs, u);
    AcceptsOne(r, s);
  }
}
