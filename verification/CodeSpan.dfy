/** Printing untrusted text as a CommonMark code span (internal/report/sanitize.go), and reading it
    back as section 6.1 of the CommonMark Spec 0.31.2 prescribes. */
module CodeSpan {
  import opened Ordering

  /** Which characters are controls or format characters, and which are white space. */
  datatype Classes = Classes(control: char -> bool, space: char -> bool)

  /** What the printer relies on. */
  predicate Sensible(u: Classes) {
    u.space(' ') && !u.control(' ') && u.control('\n') && u.control('\r')
  }

  // ----- one printable line

  function Blanked(u: Classes, s: string): string {
    seq(|s|, i requires 0 <= i < |s| => if u.control(s[i]) then ' ' else s[i])
  }

  /** The words of a text; word is the one being read. */
  function Fields(u: Classes, s: string, word: string): seq<string> {
    if s == "" then (if word == "" then [] else [word])
    else if u.space(s[0]) then (if word == "" then [] else [word]) + Fields(u, s[1..], "")
    else Fields(u, s[1..], word + [s[0]])
  }

  function Spaced(words: seq<string>): string {
    if words == [] then "" else if |words| == 1 then words[0] else words[0] + " " + Spaced(words[1..])
  }

  function TerminalValue(u: Classes, s: string): string { Spaced(Fields(u, Blanked(u, s), "")) }

  /** Not empty, and neither space nor control. */
  ghost predicate IsWord(u: Classes, w: string) {
    w != "" && forall i :: 0 <= i < |w| ==> !u.space(w[i]) && !u.control(w[i])
  }

  ghost predicate AllWords(u: Classes, words: seq<string>) {
    forall i :: 0 <= i < |words| ==> IsWord(u, words[i])
  }

  lemma {:induction false} FieldsAreWords(u: Classes, s: string, word: string)
    requires forall i :: 0 <= i < |s| ==> !u.control(s[i])
    requires word == "" || IsWord(u, word)
    ensures AllWords(u, Fields(u, s, word))
  {
    if s != "" {
      if u.space(s[0]) { FieldsAreWords(u, s[1..], ""); } else { FieldsAreWords(u, s[1..], word + [s[0]]); }
    }
  }

  lemma {:induction false} FieldsOfWord(u: Classes, w: string, rest: string, word: string)
    requires IsWord(u, w) || w == ""
    ensures Fields(u, w + rest, word) == Fields(u, rest, word + w)
    decreases |w|
  {
    if w == "" {
      assert w + rest == rest && word + w == word;
    } else {
      assert (w + rest)[0] == w[0] && (w + rest)[1..] == w[1..] + rest;
      FieldsOfWord(u, w[1..], rest, word + [w[0]]);
      assert word + [w[0]] + w[1..] == word + w;
    }
  }

  /** Spaced-out words are read back as they are. */
  lemma {:induction false} FieldsOfSpaced(u: Classes, words: seq<string>)
    requires Sensible(u) && AllWords(u, words)
    ensures Fields(u, Spaced(words), "") == words
  {
    if words != [] {
      var w := words[0];
      assert IsWord(u, w) && "" + w == w && w + "" == w;
      if |words| == 1 {
        FieldsOfWord(u, w, "", "");
      } else {
        var rest := " " + Spaced(words[1..]);
        assert Spaced(words) == w + rest && rest[1..] == Spaced(words[1..]);
        FieldsOfWord(u, w, rest, "");
        FieldsOfSpaced(u, words[1..]);
      }
    }
  }

  ghost predicate Printable(u: Classes, s: string) { forall i :: 0 <= i < |s| ==> !u.control(s[i]) }

  lemma {:induction false} SpacedIsPrintable(u: Classes, words: seq<string>)
    requires Sensible(u) && AllWords(u, words)
    ensures Printable(u, Spaced(words))
    ensures words != [] ==> Trimmed(Spaced(words))
  {
    if words != [] {
      var w := words[0];
      assert IsWord(u, w);
      if |words| > 1 { SpacedIsPrintable(u, words[1..]); }
    }
  }

  /** Begins and ends with something other than a space. */
  predicate Trimmed(s: string) { s != "" && s[0] != ' ' && s[|s| - 1] != ' ' }

  lemma TerminalValueIsPrintable(u: Classes, s: string)
    requires Sensible(u)
    ensures Printable(u, TerminalValue(u, s)) && (TerminalValue(u, s) != "" ==> Trimmed(TerminalValue(u, s)))
    ensures AllWords(u, Fields(u, Blanked(u, s), ""))
  {
    FieldsAreWords(u, Blanked(u, s), "");
    SpacedIsPrintable(u, Fields(u, Blanked(u, s), ""));
  }

  /** Sanitising twice is sanitising once. */
  lemma TerminalValueIsIdempotent(u: Classes, s: string)
    requires Sensible(u)
    ensures TerminalValue(u, TerminalValue(u, s)) == TerminalValue(u, s)
  {
    var words := Fields(u, Blanked(u, s), "");
    TerminalValueIsPrintable(u, s);
    assert Blanked(u, Spaced(words)) == Spaced(words);
    FieldsOfSpaced(u, words);
  }

  // ----- the printer

  function Ticks(n: nat): string { seq(n, _ => '`') }

  /** Positions i to j hold nothing but backticks. */
  ghost predicate IsRun(s: string, i: int, j: int) {
    0 <= i <= j <= |s| && forall k :: i <= k < j ==> s[k] == '`'
  }

  /** n is the length of the longest backtick run. */
  ghost predicate IsLongest(s: string, n: nat) {
    (forall i, j :: IsRun(s, i, j) ==> j - i <= n) && exists i, j :: IsRun(s, i, j) && j - i == n
  }

  /** current backticks end the text read so far. */
  ghost predicate Counted(s: string, i: nat, current: nat, longest: nat) {
    && i <= |s| && current <= i && IsRun(s, i - current, i) && (current < i ==> s[i - current - 1] != '`')
    && (forall a, b :: IsRun(s, a, b) && b <= i ==> b - a <= longest)
    && current <= longest && exists a, b :: b <= i && IsRun(s, a, b) && b - a == longest
  }

  method LongestRun(s: string) returns (longest: nat)
    ensures IsLongest(s, longest)
  {
    var current := 0;
    longest := 0;
    assert IsRun(s, 0, 0);
    for i := 0 to |s|
      invariant Counted(s, i, current, longest)
    {
      CountNext(s, i, current, longest);
      if s[i] == '`' {
        current := current + 1;
        if current > longest {
          longest := current;
        }
        continue;
      }
      current := 0;
    }
  }

  lemma CountNext(s: string, i: nat, current: nat, longest: nat)
    requires Counted(s, i, current, longest) && i < |s|
    ensures s[i] != '`' ==> Counted(s, i + 1, 0, longest)
    ensures s[i] == '`' ==> Counted(s, i + 1, current + 1, if current + 1 > longest then current + 1 else longest)
  {
    var a, b :| b <= i && IsRun(s, a, b) && b - a == longest;
    if s[i] != '`' {
      RunsStopHere(s, i, longest);
      assert IsRun(s, i + 1 - 0, i + 1);
    } else {
      var now := current + 1;
      assert IsRun(s, i + 1 - now, i + 1);
      forall a, b | IsRun(s, a, b) && b <= i + 1 ensures b - a <= if now > longest then now else longest {}
    }
  }

  lemma RunsStopHere(s: string, i: nat, longest: nat)
    requires i < |s| && s[i] != '`' && forall a, b :: IsRun(s, a, b) && b <= i ==> b - a <= longest
    ensures forall a, b :: IsRun(s, a, b) && b <= i + 1 ==> b - a <= longest
  {
    forall a, b | IsRun(s, a, b) && b <= i + 1 ensures b - a <= longest {}
  }

  /** The code span of a text: its sanitised value between fences longer than any run inside. */
  method MarkdownCode(u: Classes, text: string) returns (r: string)
    requires Sensible(u)
    ensures TerminalValue(u, text) == "" ==> r == "``"
    ensures TerminalValue(u, text) != "" ==> ParseSpan(r) == Some((TerminalValue(u, text), |r|))
  {
    var value := TerminalValue(u, text);
    if value == "" {
      return "``";
    }
    var longest := LongestRun(value);
    var fence := Ticks(longest + 1);
    r := fence + " " + value + " " + fence;
    assert r == Span(value, longest + 1);
    TerminalValueIsPrintable(u, text);
    LongestIsShort(value, longest);
    SpanRoundTrip(u, value, longest + 1);
  }

  lemma LongestIsShort(s: string, n: nat)
    requires IsLongest(s, n)
    ensures ShortRuns(s, 0, |s|, n + 1)
  {
  }

  // ----- the reader

  /** The length of the backtick run at position i. */
  function RunAt(s: string, i: nat): (n: nat)
    requires i <= |s|
    ensures i + n <= |s| && (forall k :: i <= k < i + n ==> s[k] == '`') && (i + n < |s| ==> s[i + n] != '`')
    decreases |s| - i
  {
    if i < |s| && s[i] == '`' then 1 + RunAt(s, i + 1) else 0
  }

  /** The next run of exactly n backticks. */
  function ClosingRun(s: string, i: nat, n: nat): (r: Option<nat>)
    requires i <= |s|
    ensures r.Some? ==> i <= r.value <= |s|
    decreases |s| - i
  {
    if i == |s| then None
    else if s[i] != '`' then ClosingRun(s, i + 1, n)
    else if RunAt(s, i) == n then Some(i)
    else ClosingRun(s, i + RunAt(s, i), n)
  }

  /** Line endings become spaces, then one space is taken off each end unless all is space. */
  function SpanContent(s: string): string {
    var t := seq(|s|, i requires 0 <= i < |s| => if s[i] == '\n' || s[i] == '\r' then ' ' else s[i]);
    if |t| >= 2 && t[0] == ' ' && t[|t| - 1] == ' ' && !AllSpaces(t) then t[1..|t| - 1] else t
  }

  predicate AllSpaces(s: string) { forall c :: c in s ==> c == ' ' }

  /** Reads a code span at the beginning: its content and where it ends. */
  function ParseSpan(s: string): Option<(string, nat)> {
    var n := RunAt(s, 0);
    if n == 0 then None
    else match ClosingRun(s, n, n)
      case None => None
      case Some(j) => if j + n <= |s| then Some((SpanContent(s[n..j]), j + n)) else None
  }

  // ----- reading what was printed

  /** No run between the positions is as long as n. */
  ghost predicate ShortRuns(s: string, i: int, j: int, n: nat) {
    forall a, b :: i <= a && b <= j && IsRun(s, a, b) ==> b - a < n
  }

  /** Scanning passes over everything before position j, where runs are shorter than n. */
  lemma {:induction false} ScanPasses(s: string, i: nat, j: nat, n: nat)
    requires i <= j < |s| && s[j] == '`' && (j > 0 ==> s[j - 1] != '`') && RunAt(s, j) == n
    requires i > 0 ==> (s[i - 1] != '`' || s[i] != '`')
    requires ShortRuns(s, i, j, n)
    ensures ClosingRun(s, i, n) == Some(j)
    decreases j - i
  {
    if i < j {
      if s[i] != '`' {
        ScanPasses(s, i + 1, j, n);
      } else {
        var m := RunAt(s, i);
        assert i + m <= j;
        assert IsRun(s, i, i + m);
        ScanPasses(s, i + m, j, n);
      }
    }
  }

  lemma RunIs(s: string, i: nat, n: nat)
    requires IsRun(s, i, i + n) && (i + n < |s| ==> s[i + n] != '`')
    ensures RunAt(s, i) == n
  {
    var m := RunAt(s, i);
  }

  function Span(value: string, n: nat): string { Ticks(n) + (" " + value + " ") + Ticks(n) }

  /** Where everything is in a printed span. */
  lemma SpanLayout(value: string, n: nat)
    ensures var s, j := Span(value, n), n + 2 + |value|;
      && |s| == j + n && IsRun(s, 0, n) && IsRun(s, j, j + n) && s[n] == ' ' && s[j - 1] == ' '
      && s[n..j] == " " + value + " "
      && forall k :: 0 <= k < |value| ==> s[n + 1 + k] == value[k]
  {
    var s, j := Span(value, n), n + 2 + |value|;
    assert s[n..j] == " " + value + " ";
  }

  /** Runs between the fences are runs of the value. */
  lemma InnerRuns(value: string, n: nat)
    requires n > 0 && ShortRuns(value, 0, |value|, n)
    ensures ShortRuns(Span(value, n), n, n + 2 + |value|, n)
  {
    SpanLayout(value, n);
    var s := Span(value, n);
    forall a, b | n <= a && b <= n + 2 + |value| && IsRun(s, a, b) ensures b - a < n {
      if a < b {
        var i, j := a - n - 1, b - n - 1;
        assert a != n && b != n + 2 + |value|;
        forall k | i <= k < j ensures value[k] == '`' { assert s[n + 1 + k] == '`'; }
        assert IsRun(value, i, j);
      }
    }
  }

  lemma ContentOfSpan(u: Classes, value: string)
    requires Sensible(u) && Printable(u, value) && Trimmed(value)
    ensures SpanContent(" " + value + " ") == value
  {
    var padded := " " + value + " ";
    var t := seq(|padded|, i requires 0 <= i < |padded| =>
                   if padded[i] == '\n' || padded[i] == '\r' then ' ' else padded[i]);
    assert t == padded;
    assert padded[1] == value[0] && value[0] in padded;
    assert padded[1..|padded| - 1] == value;
  }

  lemma SpanCloses(value: string, n: nat)
    requires n > 0 && ShortRuns(value, 0, |value|, n)
    ensures ClosingRun(Span(value, n), n, n) == Some(n + 2 + |value|)
  {
    var s, j := Span(value, n), n + 2 + |value|;
    SpanLayout(value, n);
    RunIs(s, j, n);
    assert s[j] == '`';
    InnerRuns(value, n);
    ScanPasses(s, n, j, n);
  }

  lemma SpanOpens(value: string, n: nat)
    ensures RunAt(Span(value, n), 0) == n
  {
    SpanLayout(value, n);
    RunIs(Span(value, n), 0, n);
  }

  lemma ParseAt(s: string, n: nat, j: nat)
    requires RunAt(s, 0) == n > 0 && ClosingRun(s, n, n) == Some(j) && n <= j && j + n == |s|
    ensures ParseSpan(s) == Some((SpanContent(s[n..j]), |s|))
  {
  }

  /** Reading a printed span consumes all of it and yields the value. */
  lemma SpanRoundTrip(u: Classes, value: string, n: nat)
    requires Sensible(u) && Printable(u, value) && Trimmed(value)
    requires n > 0 && ShortRuns(value, 0, |value|, n)
    ensures ParseSpan(Span(value, n)) == Some((value, |Span(value, n)|))
  {
    SpanOpens(value, n);
    SpanCloses(value, n);
    SpanLayout(value, n);
    ParseAt(Span(value, n), n, n + 2 + |value|);
    ContentOfSpan(u, value);
  }
}
