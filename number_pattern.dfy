/** The numeric pattern of the analyzer, `/(\d+%|\d+\s?(days?|weeks?|months?)|\$\d+)/gi`, written out.

    Backtracking never changes its outcome: a shorter choice for `\d+` is followed by a digit, which neither
    `%`, white space nor a unit word can start with, and when `\s?` skips a white-space character the unit
    word would have to start with that character. So at each offset the alternatives can be tried in turn
    with the longest digit run, as below. */
module NumberPattern {
  import opened Text
  import Scanning

  /** `days?|weeks?|months?` at offset j: the length of the unit word, or 0. A unit word holds no `%`. */
  function UnitLength(s: string, j: nat): (n: nat)
    requires j <= |s|
    ensures j + n <= |s|
    ensures forall k :: j <= k < j + n ==> s[k] != '%'
  {
    WordHasNoPercent(s, j, "day");
    WordHasNoPercent(s, j, "week");
    WordHasNoPercent(s, j, "month");
    var stem := if WordAt(s, j, "day") then 3 else if WordAt(s, j, "week") then 4 else if WordAt(s, j, "month") then 5 else 0;
    WordHasNoPercent(s, j + stem, "s");
    if stem == 0 then 0 else if WordAt(s, j + stem, "s") then stem + 1 else stem
  }

  /** `\d+%` at offset i: its length, or 0. */
  function PercentLength(s: string, i: nat): (n: nat)
    requires i < |s|
    ensures i + n <= |s|
  {
    var d := DigitRun(s, i);
    if d > 0 && i + d < |s| && s[i + d] == '%' then d + 1 else 0
  }

  /** `\d+\s?(days?|weeks?|months?)` at offset i: its length, or 0. A duration never takes in a `%`. */
  function DurationLength(s: string, i: nat): (n: nat)
    requires i < |s|
    ensures i + n <= |s|
    ensures forall k :: i <= k < i + n ==> s[k] != '%'
  {
    var d := DigitRun(s, i);
    if d > 0 && i + d < |s| && IsSpace(s[i + d]) && UnitLength(s, i + d + 1) > 0 then d + 1 + UnitLength(s, i + d + 1)
    else if d > 0 && UnitLength(s, i + d) > 0 then d + UnitLength(s, i + d)
    else 0
  }

  /** `\$\d+` at offset i: its length, or 0. */
  function AmountLength(s: string, i: nat): (n: nat)
    requires i < |s|
    ensures i + n <= |s|
  {
    if s[i] == '$' && DigitRun(s, i + 1) > 0 then 1 + DigitRun(s, i + 1) else 0
  }

  /** The length of the pattern's match at offset i, or 0 when it does not match there: the first
      alternative that matches wins. */
  function MatchLength(s: string, i: nat): (n: nat)
    ensures i + n <= |s| || n == 0
  {
    if i >= |s| then 0
    else if PercentLength(s, i) > 0 then PercentLength(s, i)
    else if DurationLength(s, i) > 0 then DurationLength(s, i)
    else AmountLength(s, i)
  }

  /** `content.match(pattern) || []`: every match in the text, in order. */
  function Matches(content: string): seq<string> {
    Scanning.ScanFrom(MatchLength, content, 0)
  }

  /** A percentage: one or more digits followed by `%`. */
  predicate IsPercentage(t: string) {
    |t| >= 2 && t[|t| - 1] == '%' && forall k :: 0 <= k < |t| - 1 ==> IsDigit(t[k])
  }

  /** A character that a case-insensitive letter of a unit word accepts is not `%`. */
  lemma WordHasNoPercent(s: string, j: nat, word: string)
    requires '%' !in word
    ensures WordAt(s, j, word) ==> forall k :: j <= k < j + |word| ==> s[k] != '%'
  {
    if WordAt(s, j, word) {
      forall k | j <= k < j + |word|
        ensures s[k] != '%'
      {
        assert Lower(s[j..j + |word|])[k - j] == LowerChar(s[k]);
      }
    }
  }

  /** A match holds a `%` exactly when it is a percentage: the day, week, month and dollar alternatives
      never produce one. */
  lemma MatchAtShape(s: string, i: nat)
    requires MatchLength(s, i) > 0
    ensures var t := s[i..i + MatchLength(s, i)]; '%' in t <==> IsPercentage(t)
  {
    var n := MatchLength(s, i);
    var t := s[i..i + n];
    assert forall k :: 0 <= k < |t| ==> t[k] == s[i + k];
    if PercentLength(s, i) > 0 {
      assert t[|t| - 1] == '%';
    } else {
      assert forall k :: 0 <= k < |t| ==> t[k] != '%';
    }
  }

  /** The matches that contain `%` are exactly the percentages among them. */
  lemma MatchesPercentShape(content: string)
    ensures forall m :: m in Matches(content) ==> ('%' in m <==> IsPercentage(m))
  {
    Scanning.ScanReturnsMatches(MatchLength, content, 0);
    forall m | m in Matches(content)
      ensures '%' in m <==> IsPercentage(m)
    {
      var j :| 0 <= j && Scanning.MatchedAt(MatchLength, content, j, m);
      assert m == content[j..j + MatchLength(content, j)];
      MatchAtShape(content, j);
    }
  }

  /** Text without a digit has no matches. */
  lemma MatchesNeedDigits(content: string)
    requires forall k :: 0 <= k < |content| ==> !IsDigit(content[k])
    ensures Matches(content) == []
  {
    forall j | 0 <= j < |content|
      ensures MatchLength(content, j) == 0
    {
      if j + 1 < |content| {
        assert DigitRun(content, j + 1) == 0;
      }
    }
    Scanning.ScanOfNoMatch(MatchLength, content, 0);
  }
}
