/** The scan that `content.match(re)` performs for a global regular expression: from the start of the
    text, take the match at the leftmost offset, resume right after it, and collect every match. */
module Scanning {
  import opened Text

  /** A pattern, given by the length of its match at each offset of a text (0 when it does not match there). */
  type Pattern = (string, nat) -> nat

  /** All matches of p in s at or after offset i, in order. */
  function ScanFrom(p: Pattern, s: string, i: nat): seq<string>
    requires i <= |s|
    decreases |s| - i
  {
    if i == |s| then []
    else
      var n := p(s, i);
      if 0 < n && i + n <= |s| then [s[i..i + n]] + ScanFrom(p, s, i + n)
      else ScanFrom(p, s, i + 1)
  }

  /** m is the match of p at offset j of s. */
  ghost predicate MatchedAt(p: Pattern, s: string, j: nat, m: string) {
    && j < |s|
    && 0 < p(s, j)
    && j + p(s, j) <= |s|
    && m == s[j..j + p(s, j)]
  }

  /** Every string the scan returns is the match of the pattern at some offset of the text. */
  lemma {:induction false} ScanReturnsMatches(p: Pattern, s: string, i: nat)
    requires i <= |s|
    ensures forall m :: m in ScanFrom(p, s, i) ==> exists j :: i <= j && MatchedAt(p, s, j, m)
    decreases |s| - i
  {
    if i < |s| {
      var n := p(s, i);
      if 0 < n && i + n <= |s| {
        ScanReturnsMatches(p, s, i + n);
        assert MatchedAt(p, s, i, s[i..i + n]);
      } else {
        ScanReturnsMatches(p, s, i + 1);
      }
    }
  }

  /** Every string the scan returns occurs in the text. */
  lemma ScanReturnsSubstrings(p: Pattern, s: string)
    ensures forall m :: m in ScanFrom(p, s, 0) ==> Contains(s, m)
  {
    ScanReturnsMatches(p, s, 0);
    forall m | m in ScanFrom(p, s, 0)
      ensures Contains(s, m)
    {
      var j :| 0 <= j && MatchedAt(p, s, j, m);
      assert OccursAt(s, m, j);
    }
  }

  /** Offsets where the pattern does not match are passed over without a match. */
  lemma {:induction false} ScanSkips(p: Pattern, s: string, i: nat, j: nat)
    requires i <= j <= |s|
    requires forall k :: i <= k < j ==> p(s, k) == 0
    ensures ScanFrom(p, s, i) == ScanFrom(p, s, j)
    decreases j - i
  {
    if i < j {
      ScanSkips(p, s, i + 1, j);
    }
  }

  /** A pattern that matches nowhere in the text yields no matches. */
  lemma ScanOfNoMatch(p: Pattern, s: string, i: nat)
    requires i <= |s|
    requires forall j :: i <= j < |s| ==> p(s, j) == 0
    ensures ScanFrom(p, s, i) == []
  {
    ScanSkips(p, s, i, |s|);
  }
}
