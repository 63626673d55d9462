/** Patterns that are a single name (internal/ownership/matcher.go), and the segments they match. */
module GlobNames {
  import opened Escaping
  import opened Regexes
  import opened Glob
  import opened GlobLines

  lemma {:induction false} StaysInSegment(p: string, s: string, walls: set<char>)
    requires '/' !in p && !Contains(p, "**") && Matches(p, s, walls)
    ensures '/' !in s
    decreases |p|
  {
    if p != "" {
      assert !("**" <= p);
      if p[0] == '*' {
        var k :| 0 <= k <= |s| && '/' !in s[..k] && Matches(p[1..], s[k..], walls);
        StaysInSegment(p[1..], s[k..], walls);
        assert s == s[..k] + s[k..];
      } else {
        StaysInSegment(p[1..], s[1..], walls);
        assert s == [s[0]] + s[1..];
      }
    }
  }

  /** The stretch from i to j lies between two slashes, or an end of the path, and holds none. */
  predicate IsSegment(s: string, i: nat, j: nat) {
    && i <= j <= |s| && '/' !in s[i..j] && (i == 0 || s[i - 1] == '/') && (j == |s| || s[j] == '/')
  }

  lemma {:induction false} FirstSlash(s: string) returns (a: string, b: string)
    requires '/' in s
    ensures s == a + "/" + b && '/' !in a
  {
    if s[0] == '/' {
      a, b := "", s[1..];
    } else {
      a, b := FirstSlash(s[1..]);
      a := [s[0]] + a;
    }
  }

  lemma FirstSegment(a: string, b: string, i: nat, j: nat)
    requires '/' !in a && IsSegment(a + "/" + b, i, j) && i <= |a|
    ensures i == 0 && j == |a|
  {
    var s := a + "/" + b;
    forall k | i <= k < j ensures s[k] != '/' { assert s[i..j][k - i] == s[k]; }
    assert s[|a|] == '/';
  }

  lemma LaterSegment(a: string, b: string, i: nat, j: nat)
    requires i <= j <= |b|
    ensures var n := |a| + 1; IsSegment(a + "/" + b, i + n, j + n) <==> IsSegment(b, i, j)
    ensures var n := |a| + 1; (a + "/" + b)[i + n..j + n] == b[i..j]
  {
    var s, n := a + "/" + b, |a| + 1;
    assert s[i + n..j + n] == b[i..j];
    assert s[i + n - 1] == if i == 0 then '/' else b[i - 1];
    assert j < |b| ==> s[j + n] == b[j];
  }

  lemma OnlySegment(s: string, i: nat, j: nat)
    requires '/' !in s && IsSegment(s, i, j)
    ensures s[i..j] == s
  {
  }

  lemma FirstIsListed(a: string, b: string, i: nat, j: nat)
    requires '/' !in a && IsSegment(a + "/" + b, i, j) && i <= |a|
    ensures (a + "/" + b)[i..j] in Split(a + "/" + b, '/')
  {
    SplitHead(a, b, '/');
    FirstSegment(a, b, i, j);
    FirstIsSegment(a, b);
  }

  lemma LaterIsListed(a: string, b: string, i: nat, j: nat)
    requires '/' !in a && i <= j <= |b| && b[i..j] in Split(b, '/')
    ensures var n := |a| + 1; (a + "/" + b)[i + n..j + n] in Split(a + "/" + b, '/')
  {
    SplitHead(a, b, '/');
    LaterSegment(a, b, i, j);
    InTail(a, Split(b, '/'), b[i..j]);
  }

  /** Splitting lists every segment. */
  lemma {:induction false} SegmentIsListed(s: string, i: nat, j: nat)
    requires IsSegment(s, i, j)
    ensures s[i..j] in Split(s, '/')
    decreases |s|
  {
    if '/' !in s {
      SplitPlain(s, '/');
      OnlySegment(s, i, j);
    } else {
      var a, b := FirstSlash(s);
      if i <= |a| {
        FirstIsListed(a, b, i, j);
      } else {
        var n := |a| + 1;
        LaterSegment(a, b, i - n, j - n);
        SegmentIsListed(b, i - n, j - n);
        LaterIsListed(a, b, i - n, j - n);
      }
    }
  }

  lemma InTail(a: string, rest: seq<string>, x: string)
    requires x in rest
    ensures x in [a] + rest
  {
  }

  lemma FirstIsSegment(a: string, b: string)
    requires '/' !in a
    ensures IsSegment(a + "/" + b, 0, |a|) && (a + "/" + b)[0..|a|] == a
  {
  }

  /** Splitting lists only segments. */
  lemma {:induction false} ListedIsSegment(s: string, segment: string) returns (i: nat, j: nat)
    requires segment in Split(s, '/')
    ensures IsSegment(s, i, j) && s[i..j] == segment
    decreases |s|
  {
    if '/' !in s {
      SplitPlain(s, '/');
      i, j := 0, |s|;
      assert s[0..|s|] == s;
    } else {
      var a, b := FirstSlash(s);
      SplitHead(a, b, '/');
      if segment == a {
        FirstIsSegment(a, b);
        i, j := 0, |a|;
      } else {
        i, j := ListedIsSegment(b, segment);
        LaterSegment(a, b, i, j);
        i, j := i + |a| + 1, j + |a| + 1;
      }
    }
  }

  /** A pattern that is one name, not tied to the root, matches a path exactly when one of the
      path's segments matches the name. */
  lemma NamesMatchSegments(p: string, path: string)
    requires Floating(p) && !Contains(Body(p), "**") && '\n' !in path
    ensures AcceptsAll(Expression(p), path) <==>
            exists segment :: segment in Split(path, '/') && Matches(Body(p), segment, {})
  {
    PlainPaths(p, path);
    if MatchesPath(p, path, {}) {
      var i: nat, j: nat :| MatchesAt(p, path, i, j, {});
      StaysInSegment(Body(p), path[i..j], {});
      SegmentIsListed(path, i, j);
    }
    if exists segment :: segment in Split(path, '/') && Matches(Body(p), segment, {}) {
      var segment :| segment in Split(path, '/') && Matches(Body(p), segment, {});
      var i, j := ListedIsSegment(path, segment);
      assert MatchesAt(p, path, i, j, {});
    }
  }
}
