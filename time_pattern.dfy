/** The clock-time pattern of the analyzer,
    `/(\d{1,2}:\d{2}\s?(AM|PM|am|pm)|\d{1,2}\s?(PM|AM|pm|am)|midnight|noon|before\s+\d{1,2}:\d{2})/gi`,
    written out.

    Backtracking never changes its outcome: when `\d{1,2}` gives back its second digit, the next character
    is that digit, which neither `:`, white space nor a meridiem can start with; when `\s?` skips a
    white-space character, or `\s+` gives one back, the next item would have to start with white space.
    So at each offset the alternatives can be tried in turn with the longest choices, as below. */
module TimePattern {
  import opened Text
  import Scanning

  /** `\d{1,2}` at offset i: the number of digits taken (greedy), or 0. */
  function HourDigits(s: string, i: nat): (n: nat)
    requires i <= |s|
    ensures n <= 2 && i + n <= |s|
  {
    var d := DigitRun(s, i);
    if d > 2 then 2 else d
  }

  /** `\d{1,2}:\d{2}` at offset i: its length, or 0. */
  function ClockLength(s: string, i: nat): (n: nat)
    requires i <= |s|
    ensures i + n <= |s|
  {
    var h := HourDigits(s, i);
    if h > 0 && i + h + 2 < |s| && s[i + h] == ':' && IsDigit(s[i + h + 1]) && IsDigit(s[i + h + 2]) then h + 3
    else 0
  }

  /** `\s?(AM|PM|am|pm)` at offset j, the letters in any case: its length, or 0. */
  function MeridiemLength(s: string, j: nat): (n: nat)
    requires j <= |s|
    ensures j + n <= |s|
  {
    if j < |s| && IsSpace(s[j]) && (WordAt(s, j + 1, "am") || WordAt(s, j + 1, "pm")) then 3
    else if WordAt(s, j, "am") || WordAt(s, j, "pm") then 2
    else 0
  }

  /** `\d{1,2}:\d{2}\s?(AM|PM|am|pm)` at offset i: its length, or 0. */
  function ClockWithMeridiemLength(s: string, i: nat): (n: nat)
    requires i <= |s|
    ensures i + n <= |s|
  {
    var c := ClockLength(s, i);
    if c > 0 && MeridiemLength(s, i + c) > 0 then c + MeridiemLength(s, i + c) else 0
  }

  /** `\d{1,2}\s?(PM|AM|pm|am)` at offset i: its length, or 0. */
  function HourWithMeridiemLength(s: string, i: nat): (n: nat)
    requires i <= |s|
    ensures i + n <= |s|
  {
    var h := HourDigits(s, i);
    if h > 0 && MeridiemLength(s, i + h) > 0 then h + MeridiemLength(s, i + h) else 0
  }

  /** `before\s+\d{1,2}:\d{2}` at offset i: its length, or 0. */
  function BeforeLength(s: string, i: nat): (n: nat)
    requires i <= |s|
    ensures i + n <= |s|
  {
    if WordAt(s, i, "before") then
      var w := SpaceRun(s, i + 6);
      var c := ClockLength(s, i + 6 + w);
      if w > 0 && c > 0 then 6 + w + c else 0
    else 0
  }

  /** The length of the pattern's match at offset i, or 0 when it does not match there: the first
      alternative that matches wins. */
  function MatchLength(s: string, i: nat): (n: nat)
    ensures i + n <= |s| || n == 0
  {
    if i >= |s| then 0
    else if ClockWithMeridiemLength(s, i) > 0 then ClockWithMeridiemLength(s, i)
    else if HourWithMeridiemLength(s, i) > 0 then HourWithMeridiemLength(s, i)
    else if WordAt(s, i, "midnight") then 8
    else if WordAt(s, i, "noon") then 4
    else BeforeLength(s, i)
  }

  /** `content.match(pattern) || []`: every match in the text, in order. */
  function Matches(content: string): seq<string> {
    Scanning.ScanFrom(MatchLength, content, 0)
  }

  /** Every alternative of the pattern starts with a digit or with one of the letters m, n, b. */
  lemma MatchStart(s: string, i: nat)
    requires i < |s|
    ensures MatchLength(s, i) > 0 ==> IsDigit(s[i]) || LowerChar(s[i]) in {'m', 'n', 'b'}
  {
    if !IsDigit(s[i]) && MatchLength(s, i) > 0 {
      assert HourDigits(s, i) == 0;
      var c := LowerChar(s[i]);
      if WordAt(s, i, "midnight") {
        assert Lower(s[i..i + 8])[0] == c;
      } else if WordAt(s, i, "noon") {
        assert Lower(s[i..i + 4])[0] == c;
      } else {
        assert WordAt(s, i, "before");
        assert Lower(s[i..i + 6])[0] == c;
      }
    }
  }

  /** Text in which no character is a digit or one of m, n, b in either case has no clock times. */
  lemma MatchesNeedStart(content: string)
    requires forall k :: 0 <= k < |content| ==> !IsDigit(content[k]) && LowerChar(content[k]) !in {'m', 'n', 'b'}
    ensures Matches(content) == []
  {
    forall j | 0 <= j < |content|
      ensures MatchLength(content, j) == 0
    {
      MatchStart(content, j);
    }
    Scanning.ScanOfNoMatch(MatchLength, content, 0);
  }
}
