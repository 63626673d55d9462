/** Joining and escaping of path segments, as JSON Pointers (RFC 6901) and qualified
    artifact names write them. */
module Escaping {
  import opened Graphs

  function ReplaceChar(s: string, c: char, with: string): string {
    if s == "" then "" else (if s[0] == c then with else [s[0]]) + ReplaceChar(s[1..], c, with)
  }

  /** Left to right, `~` and `digit` together become `with`. */
  function ReplacePair(s: string, digit: char, with: char): string {
    if |s| < 2 then s
    else if s[0] == '~' && s[1] == digit then [with] + ReplacePair(s[2..], digit, with)
    else [s[0]] + ReplacePair(s[1..], digit, with)
  }

  function Escape(s: string): string { ReplaceChar(ReplaceChar(s, '~', "~0"), '/', "~1") }

  /** Section 4 of RFC 6901: first `~1` becomes `/`, then `~0` becomes `~`. */
  function Unescape(s: string): string { ReplacePair(ReplacePair(s, '1', '/'), '0', '~') }

  lemma {:induction false} ReplaceCharAppend(a: string, b: string, c: char, with: string)
    ensures ReplaceChar(a + b, c, with) == ReplaceChar(a, c, with) + ReplaceChar(b, c, with)
  {
    if a == "" {
      assert a + b == b;
    } else {
      ReplaceCharAppend(a[1..], b, c, with);
      assert (a + b)[0] == a[0] && (a + b)[1..] == a[1..] + b;
      var head := if a[0] == c then with else [a[0]];
      assert ReplaceChar(a + b, c, with) == head + (ReplaceChar(a[1..], c, with) + ReplaceChar(b, c, with));
    }
  }

  function EscapedChar(c: char): string { if c == '~' then "~0" else if c == '/' then "~1" else [c] }

  lemma EscapeHead(s: string)
    requires s != ""
    ensures Escape(s) == EscapedChar(s[0]) + Escape(s[1..])
  {
    var first := if s[0] == '~' then "~0" else [s[0]];
    ReplaceCharAppend(first, ReplaceChar(s[1..], '~', "~0"), '/', "~1");
    if s[0] == '~' {
      assert first == "~" + "0";
      ReplaceCharAppend("~", "0", '/', "~1");
      assert "~"[1..] == "" && "0"[1..] == "";
    } else {
      assert first[1..] == "";
    }
  }

  /** No escaped segment holds a separator. */
  lemma {:induction false} EscapeIsSlashFree(s: string)
    ensures '/' !in Escape(s)
  {
    if s != "" {
      EscapeHead(s);
      EscapeIsSlashFree(s[1..]);
    }
  }

  lemma {:induction false} UnescapeSlash(s: string)
    ensures ReplacePair(Escape(s), '1', '/') == ReplaceChar(s, '~', "~0")
  {
    if s != "" {
      EscapeHead(s);
      UnescapeSlash(s[1..]);
      var rest, e := Escape(s[1..]), Escape(s);
      if s[0] == '~' {
        assert e[0] == '~' && e[1] == '0' && e[1..][0] == '0' && e[1..][1..] == rest;
        assert ReplacePair(e[1..], '1', '/') == "0" + ReplacePair(rest, '1', '/');
      } else if s[0] == '/' {
        assert e[0] == '~' && e[1] == '1' && e[2..] == rest;
      } else {
        assert e[0] == s[0] && e[1..] == rest;
      }
    }
  }

  lemma {:induction false} UnescapeTilde(s: string)
    ensures ReplacePair(ReplaceChar(s, '~', "~0"), '0', '~') == s
  {
    if s != "" {
      UnescapeTilde(s[1..]);
      var rest, e := ReplaceChar(s[1..], '~', "~0"), ReplaceChar(s, '~', "~0");
      if s[0] == '~' {
        assert e[0] == '~' && e[1] == '0' && e[2..] == rest;
      } else {
        assert e[0] == s[0] && e[1..] == rest;
      }
    }
  }

  lemma UnescapeEscape(s: string)
    ensures Unescape(Escape(s)) == s
  {
    UnescapeSlash(s);
    UnescapeTilde(s);
  }

  // ----- splitting

  function Split(s: string, c: char): (r: seq<string>)
    ensures r != []
  {
    if s == "" then [""]
    else
      var rest := Split(s[1..], c);
      if s[0] == c then [""] + rest else [[s[0]] + rest[0]] + rest[1..]
  }

  lemma {:induction false} SplitHead(a: string, b: string, c: char)
    requires c !in a
    ensures Split(a + [c] + b, c) == [a] + Split(b, c)
  {
    var s := a + [c] + b;
    if a == "" {
      assert s[1..] == b;
    } else {
      SplitHead(a[1..], b, c);
      assert s[1..] == a[1..] + [c] + b;
      assert a == [a[0]] + a[1..];
    }
  }

  lemma {:induction false} SplitPlain(a: string, c: char)
    requires c !in a
    ensures Split(a, c) == [a]
  {
    if a != "" {
      SplitPlain(a[1..], c);
      assert a == [a[0]] + a[1..];
    }
  }

  lemma {:induction false} SplitJoin(parts: seq<string>, c: char)
    requires parts != [] && forall p :: p in parts ==> c !in p
    ensures Split(Join(parts, c), c) == parts
  {
    if |parts| == 1 {
      SplitPlain(parts[0], c);
    } else {
      SplitJoin(parts[1..], c);
      SplitHead(parts[0], Join(parts[1..], c), c);
    }
  }

  // ----- escaped segments

  function EscapeAll(path: seq<string>): seq<string> {
    seq(|path|, i requires 0 <= i < |path| => Escape(path[i]))
  }

  function UnescapeAll(parts: seq<string>): seq<string> {
    seq(|parts|, i requires 0 <= i < |parts| => Unescape(parts[i]))
  }

  lemma EscapedRoundTrip(path: seq<string>)
    requires path != []
    ensures UnescapeAll(Split(Join(EscapeAll(path), '/'), '/')) == path
  {
    forall p | p in EscapeAll(path) ensures '/' !in p {
      var i :| 0 <= i < |path| && p == Escape(path[i]);
      EscapeIsSlashFree(path[i]);
    }
    SplitJoin(EscapeAll(path), '/');
    forall i | 0 <= i < |path| ensures Unescape(Escape(path[i])) == path[i] { UnescapeEscape(path[i]); }
  }

  /** The name of an artifact inside nested assemblies. */
  function QualifyArtifact(assemblyPath: seq<string>, artifactId: string): string {
    Join(EscapeAll(assemblyPath + [artifactId]), '/')
  }

  /** Artifacts of different assemblies, or with different IDs, never share a qualified name. */
  lemma QualifiedNamesAreUnique(a: seq<string>, x: string, b: seq<string>, y: string)
    requires QualifyArtifact(a, x) == QualifyArtifact(b, y)
    ensures a == b && x == y
  {
    EscapedRoundTrip(a + [x]);
    EscapedRoundTrip(b + [y]);
    assert a + [x] == b + [y];
    assert a == (a + [x])[..|a|] && b == (b + [y])[..|b|];
    assert x == (a + [x])[|a|] && y == (b + [y])[|b|];
  }
}
