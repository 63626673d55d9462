/** Matching of path segments against a pattern with `**` (internal/source/files.go). How one segment
    matches one candidate is a parameter: None is a malformed pattern segment. */
module Segments {
  import opened Ordering

  type SegmentMatch = (string, string) -> Option<bool>

  /** None is an error. The measure is the number of segments left on both sides. */
  function MatchSegments(pattern: seq<string>, candidate: seq<string>, match1: SegmentMatch): Option<bool>
    decreases |pattern| + |candidate|
  {
    if pattern == [] then Some(candidate == [])
    else if pattern[0] == "**" then
      var matched := MatchSegments(pattern[1..], candidate, match1);
      if matched.None? || matched.value then matched
      else if candidate == [] then Some(false)
      else MatchSegments(pattern, candidate[1..], match1)
    else if candidate == [] then Some(false)
    else
      var matched := match1(pattern[0], candidate[0]);
      if matched.None? || !matched.value then matched
      else MatchSegments(pattern[1..], candidate[1..], match1)
  }

  predicate Fits(p: string, piece: seq<string>, match1: SegmentMatch) {
    p == "**" || (|piece| == 1 && match1(p, piece[0]) == Some(true))
  }

  /** One piece of the candidate for each pattern segment: anything for `**`, otherwise a single match. */
  predicate Divides(pattern: seq<string>, pieces: seq<seq<string>>, candidate: seq<string>, match1: SegmentMatch) {
    && |pieces| == |pattern| && Flat(pieces) == candidate
    && forall i :: 0 <= i < |pattern| ==> Fits(pattern[i], pieces[i], match1)
  }

  ghost predicate Matches(pattern: seq<string>, candidate: seq<string>, match1: SegmentMatch) {
    exists pieces :: Divides(pattern, pieces, candidate, match1)
  }

  lemma MatchesCons(pattern: seq<string>, piece: seq<string>, rest: seq<string>, match1: SegmentMatch)
    requires pattern != [] && Fits(pattern[0], piece, match1) && Matches(pattern[1..], rest, match1)
    ensures Matches(pattern, piece + rest, match1)
  {
    var pieces :| Divides(pattern[1..], pieces, rest, match1);
    var more := [piece] + pieces;
    assert more[1..] == pieces;
    forall i | 0 <= i < |pattern| ensures Fits(pattern[i], more[i], match1) {
      if i > 0 { assert Fits(pattern[1..][i - 1], pieces[i - 1], match1); }
    }
    assert Divides(pattern, more, piece + rest, match1);
  }

  lemma MatchesUncons(pattern: seq<string>, candidate: seq<string>, match1: SegmentMatch)
    returns (piece: seq<string>, rest: seq<string>)
    requires pattern != [] && Matches(pattern, candidate, match1)
    ensures Fits(pattern[0], piece, match1) && Matches(pattern[1..], rest, match1) && candidate == piece + rest
  {
    var pieces :| Divides(pattern, pieces, candidate, match1);
    piece, rest := pieces[0], Flat(pieces[1..]);
    assert Divides(pattern[1..], pieces[1..], rest, match1);
  }

  /** The recursion decides the relation, and reports an error only when some segment of the pattern
      is malformed for some segment of the candidate. */
  lemma {:induction false} MatchSegmentsDecides(pattern: seq<string>, candidate: seq<string>, match1: SegmentMatch)
    ensures MatchSegments(pattern, candidate, match1) == Some(true) ==> Matches(pattern, candidate, match1)
    ensures MatchSegments(pattern, candidate, match1) == Some(false) ==> !Matches(pattern, candidate, match1)
    ensures MatchSegments(pattern, candidate, match1).None? ==>
      exists p, c :: p in pattern && p != "**" && c in candidate && match1(p, c).None?
    decreases |pattern| + |candidate|
  {
    if pattern == [] {
      assert candidate == [] ==> Divides([], [], candidate, match1);
    } else if pattern[0] == "**" {
      DoubleStarDecides(pattern, candidate, match1);
    } else if candidate == [] {
      if Matches(pattern, candidate, match1) { var piece, rest := MatchesUncons(pattern, candidate, match1); }
    } else {
      SingleDecides(pattern, candidate, match1);
    }
  }

  lemma {:induction false} DoubleStarDecides(pattern: seq<string>, candidate: seq<string>, match1: SegmentMatch)
    requires pattern != [] && pattern[0] == "**"
    ensures MatchSegments(pattern, candidate, match1) == Some(true) ==> Matches(pattern, candidate, match1)
    ensures MatchSegments(pattern, candidate, match1) == Some(false) ==> !Matches(pattern, candidate, match1)
    ensures MatchSegments(pattern, candidate, match1).None? ==>
      exists p, c :: p in pattern && p != "**" && c in candidate && match1(p, c).None?
    decreases |pattern| + |candidate|, 0
  {
    MatchSegmentsDecides(pattern[1..], candidate, match1);
    if Matches(pattern[1..], candidate, match1) {
      MatchesCons(pattern, [], candidate, match1);
      assert [] + candidate == candidate;
    }
    if candidate != [] {
      MatchSegmentsDecides(pattern, candidate[1..], match1);
      if Matches(pattern, candidate[1..], match1) {
        var piece, rest := MatchesUncons(pattern, candidate[1..], match1);
        MatchesCons(pattern, [candidate[0]] + piece, rest, match1);
        assert [candidate[0]] + piece + rest == candidate;
      }
    }
    if Matches(pattern, candidate, match1) {
      var piece, rest := MatchesUncons(pattern, candidate, match1);
      if piece == [] {
        assert rest == candidate;
      } else {
        MatchesCons(pattern, piece[1..], rest, match1);
        assert piece[1..] + rest == candidate[1..];
      }
    }
  }

  lemma {:induction false} SingleDecides(pattern: seq<string>, candidate: seq<string>, match1: SegmentMatch)
    requires pattern != [] && pattern[0] != "**" && candidate != []
    ensures MatchSegments(pattern, candidate, match1) == Some(true) ==> Matches(pattern, candidate, match1)
    ensures MatchSegments(pattern, candidate, match1) == Some(false) ==> !Matches(pattern, candidate, match1)
    ensures MatchSegments(pattern, candidate, match1).None? ==>
      exists p, c :: p in pattern && p != "**" && c in candidate && match1(p, c).None?
    decreases |pattern| + |candidate|, 0
  {
    MatchSegmentsDecides(pattern[1..], candidate[1..], match1);
    if match1(pattern[0], candidate[0]) == Some(true) && Matches(pattern[1..], candidate[1..], match1) {
      MatchesCons(pattern, [candidate[0]], candidate[1..], match1);
      assert [candidate[0]] + candidate[1..] == candidate;
    }
    if Matches(pattern, candidate, match1) {
      var piece, rest := MatchesUncons(pattern, candidate, match1);
      assert piece[0] == candidate[0] && rest == candidate[1..];
    }
  }

  /** With well-formed segments the answer is always given, and it is exact. */
  lemma MatchSegmentsIsExact(pattern: seq<string>, candidate: seq<string>, match1: SegmentMatch)
    requires forall p, c :: p in pattern && c in candidate ==> match1(p, c).Some?
    ensures MatchSegments(pattern, candidate, match1) == Some(Matches(pattern, candidate, match1))
  {
    MatchSegmentsDecides(pattern, candidate, match1);
  }
}
