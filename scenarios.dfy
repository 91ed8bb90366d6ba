/** Worked cases of the three passes on short documents: two classes starting at different times, two
    attendance thresholds, and an attendance policy stated as required in one document and optional in
    another. The general lemmas come first; each case instantiates them with the documents' text. */
module Scenarios {
  import opened Types
  import opened Text
  import opened Collections
  import Scanning
  import TimePattern
  import NumberPattern
  import opened Detector
  import DetectorProperties

  // ---------------------------------------------------------------- scanning a sentence

  /** When the pattern matches nowhere before offset i and its match at i runs to the end of the text,
      that match is all the scan returns. */
  lemma LastMatch(p: Scanning.Pattern, s: string, i: nat)
    requires i < |s|
    requires forall k :: 0 <= k < i ==> p(s, k) == 0
    requires p(s, i) == |s| - i
    ensures Scanning.ScanFrom(p, s, 0) == [s[i..]]
  {
    Scanning.ScanSkips(p, s, 0, i);
    assert Scanning.ScanFrom(p, s, i) == [s[i..i + p(s, i)]] + Scanning.ScanFrom(p, s, |s|);
    assert s[i..i + p(s, i)] == s[i..];
  }

  /** Text made of words without digits or the letters m, n, b, followed by `h:mm am` (or pm, in any
      case), has that clock time as its only time match. */
  lemma ClockTimeAtEnd(s: string, i: nat)
    requires i + 7 == |s|
    requires forall c :: c in s[..i] ==> !IsDigit(c) && LowerChar(c) !in {'m', 'n', 'b'}
    requires IsDigit(s[i]) && s[i + 1] == ':' && IsDigit(s[i + 2]) && IsDigit(s[i + 3]) && IsSpace(s[i + 4])
    requires WordAt(s, i + 5, "am") || WordAt(s, i + 5, "pm")
    ensures TimePattern.Matches(s) == [s[i..]]
  {
    forall k | 0 <= k < i
      ensures TimePattern.MatchLength(s, k) == 0
    {
      assert s[k] == s[..i][k];
      TimePattern.MatchStart(s, k);
    }
    assert DigitRun(s, i + 1) == 0;
    assert TimePattern.ClockLength(s, i) == 4;
    assert TimePattern.MeridiemLength(s, i + 4) == 3;
    LastMatch(TimePattern.MatchLength, s, i);
  }

  /** Text without digits or `$`, followed by a number and `%`, has that percentage as its only numeric
      match. */
  lemma PercentageAtEnd(s: string, i: nat)
    requires i + 1 < |s|
    requires forall c :: c in s[..i] ==> !IsDigit(c) && c != '$'
    requires forall k :: i <= k < |s| - 1 ==> IsDigit(s[k])
    requires s[|s| - 1] == '%'
    ensures NumberPattern.Matches(s) == [s[i..]]
  {
    forall k | 0 <= k < i
      ensures NumberPattern.MatchLength(s, k) == 0
    {
      assert s[k] == s[..i][k];
    }
    assert DigitRun(s, i) == |s| - 1 - i;
    LastMatch(NumberPattern.MatchLength, s, i);
  }

  // ---------------------------------------------------------------- policy sentences

  /** A keyword whose first letter, lower-cased, is not in the text does not occur in it. */
  lemma FirstLetterAbsent(s: string, w: string)
    requires |w| > 0
    requires forall c :: c in s ==> LowerChar(c) != w[0]
    ensures !Contains(Lower(s), w)
  {
    forall i | 0 <= i <= |s| - |w|
      ensures !OccursAt(Lower(s), w, i)
    {
      assert s[i] in s;
      assert Lower(s)[i..i + |w|][0] != w[0];
    }
  }

  /** A single sentence with a keyword, ended by a period and without white space at its ends, is the one
      policy statement of its text. */
  lemma OneSentence(w: string)
    requires '.' !in w && MentionsPolicy(w)
    requires |w| > 0 && !IsSpace(w[0]) && !IsSpace(w[|w| - 1])
    ensures PolicyStatements(w + ".") == [w]
  {
    SplitAfterPiece(w, "", '.');
    assert w + ['.'] + "" == w + ".";
    assert Split("", '.') == [""];
    assert !MentionsPolicy("");
    assert Filter([w, ""], MentionsPolicy) == [w];
    assert LeadingSpaces(w) == 0 && TrailingSpaces(w) == 0;
    assert Trim(w) == w;
  }

  /** Every keyword is a non-empty run of lower-case letters. */
  lemma KeywordsAreLowerCase(kw: string)
    requires kw in PolicyKeywords
    ensures |kw| > 0 && forall c :: c in kw ==> 'a' <= c <= 'z'
  {
  }

  /** A text of lower-case letters is its own lower-case form. */
  lemma LowerOfLowerCase(t: string)
    requires forall c :: c in t ==> 'a' <= c <= 'z'
    ensures Lower(t) == t
  {
    assert forall k :: 0 <= k < |t| ==> t[k] in t;
  }

  /** A sentence that ends in a keyword, ended by a period, is the one policy statement of its text. */
  lemma KeywordSentence(head: string, kw: string)
    requires kw in PolicyKeywords
    requires '.' !in head && |head| > 0 && !IsSpace(head[0])
    ensures Contains(Lower(head + kw), kw)
    ensures PolicyStatements(head + kw + ".") == [head + kw]
  {
    var w := head + kw;
    KeywordsAreLowerCase(kw);
    LowerOfLowerCase(kw);
    assert Lower(w)[|head|..] == Lower(kw);
    assert OccursAt(Lower(w), kw, |head|);
    var n :| 0 <= n < |PolicyKeywords| && PolicyKeywords[n] == kw;
    assert MentionsPolicy(w);
    assert kw[|kw| - 1] in kw;
    assert '.' !in w by {
      forall c | c in w
        ensures c != '.'
      {
        assert c in head || c in kw;
      }
    }
    OneSentence(w);
  }

  // ---------------------------------------------------------------- the cases

  /** The opening words of the class sentences hold no digits and none of m, n, b. */
  lemma ClassHead(s: string)
    requires |s| >= 16 && s[..16] == "Class starts at "
    ensures forall c :: c in s[..16] ==> !IsDigit(c) && LowerChar(c) !in {'m', 'n', 'b'}
  {
  }

  /** `"Class starts at " + t`, for a clock time t of the form `h:mm am` (or pm, in either case), matches t alone. */
  lemma ClassStart(s: string, t: string)
    requires s == "Class starts at " + t
    requires |t| == 7 && IsDigit(t[0]) && t[1] == ':' && IsDigit(t[2]) && IsDigit(t[3]) && t[4] == ' '
    requires LowerChar(t[5]) in {'a', 'p'} && LowerChar(t[6]) == 'm'
    ensures TimePattern.Matches(s) == [t]
  {
    assert s[..16] == "Class starts at ";
    ClassHead(s);
    assert s[16..] == t;
    var meridiem := Lower(s[21..23]);
    assert meridiem == [LowerChar(t[5]), 'm'];
    assert meridiem == "am" || meridiem == "pm";
    ClockTimeAtEnd(s, 16);
  }

  /** `"Class starts at h:00 AM"` (or PM), for a one-digit hour h, matches `h:00 AM` alone. */
  lemma ClassOnTheHour(s: string, t: string, hour: char, meridiem: char)
    requires IsDigit(hour) && meridiem in {'A', 'P'}
    requires t == [hour] + ":00 " + [meridiem, 'M']
    requires s == "Class starts at " + t
    ensures TimePattern.Matches(s) == [t]
  {
    ClassStart(s, t);
  }

  /** Two hits whose texts start with different characters, letter case aside, give one time record
      listing both. */
  lemma TwoDifferentTimes(first: Hit, second: Hit, stamp: string)
    requires |first.statement| > 0 && |second.statement| > 0
    requires LowerChar(first.statement[0]) != LowerChar(second.statement[0])
    ensures TimeRecords([first, second], stamp) == [TimeRecord([first, second], stamp)]
  {
    var hits := [first, second];
    assert Lower(first.statement)[0] != Lower(second.statement)[0];
    DetectorProperties.DistinctCountAboveOne(LowerTexts(hits));
    assert LowerTexts(hits)[0] != LowerTexts(hits)[1];
  }

  /** Two classes starting at 9:00 AM and at 2:00 PM give one high-severity time conflict with the two
      clock times as its statements. */
  lemma ClassStartTimes(a: Document, b: Document, stamp: string)
    requires a.content == "Class starts at 9:00 AM" && b.content == "Class starts at 2:00 PM"
    ensures TimeRecords(TimeHits([a, b]), stamp) == [TimeRecord([Hit(a.name, "9:00 AM"), Hit(b.name, "2:00 PM")], stamp)]
  {
    ClassOnTheHour(a.content, "9:00 AM", '9', 'A');
    ClassOnTheHour(b.content, "2:00 PM", '2', 'P');
    TwoDocuments(a, b, TimePattern.Matches);
    var nine, two := Hit(a.name, "9:00 AM"), Hit(b.name, "2:00 PM");
    assert TimeHits([a, b]) == [nine, two];
    assert nine.statement[0] == '9' && two.statement[0] == '2';
    TwoDifferentTimes(nine, two, stamp);
  }

  /** Two classes that both start at 9:00 AM give no time conflict. */
  lemma ClassSameTime(a: Document, b: Document, stamp: string)
    requires a.content == "Class starts at 9:00 AM" && b.content == "Class starts at 9:00 AM"
    ensures TimeRecords(TimeHits([a, b]), stamp) == []
  {
    ClassOnTheHour(a.content, "9:00 AM", '9', 'A');
    ClassOnTheHour(b.content, "9:00 AM", '9', 'A');
    TwoDocuments(a, b, TimePattern.Matches);
    assert TimeHits([a, b]) == [Hit(a.name, "9:00 AM"), Hit(b.name, "9:00 AM")];
    DetectorProperties.TimePassSameTime(TimeHits([a, b]), stamp);
  }

  /** The opening words of the attendance sentences hold no digits and no `$`. */
  lemma AttendanceHead(s: string)
    requires |s| >= 19 && s[..19] == "Attendance must be "
    ensures forall c :: c in s[..19] ==> !IsDigit(c) && c != '$'
  {
  }

  /** `"Attendance must be " + t`, for a two-digit percentage t, matches t alone. */
  lemma AttendanceAt(s: string, t: string)
    requires s == "Attendance must be " + t
    requires |t| == 3 && IsDigit(t[0]) && IsDigit(t[1]) && t[2] == '%'
    ensures NumberPattern.Matches(s) == [t]
  {
    assert s[..19] == "Attendance must be ";
    AttendanceHead(s);
    assert s[19..] == t;
    PercentageAtEnd(s, 19);
  }

  /** Attendance thresholds of 75% and 70% give one medium-severity numeric conflict. */
  lemma AttendanceThresholds(a: Document, b: Document, stamp: string)
    requires a.content == "Attendance must be 75%" && b.content == "Attendance must be 70%"
    ensures NumericRecords(NumberHits([a, b]), stamp) == [NumericRecord([Hit(a.name, "75%"), Hit(b.name, "70%")], stamp)]
  {
    AttendanceAt(a.content, "75%");
    AttendanceAt(b.content, "70%");
    var hits := [Hit(a.name, "75%"), Hit(b.name, "70%")];
    TwoDocuments(a, b, NumberPattern.Matches);
    assert NumberHits([a, b]) == hits;
    assert IsPercentHit(hits[0]) by { assert hits[0].statement[2] == '%'; }
    assert IsPercentHit(hits[1]) by { assert hits[1].statement[2] == '%'; }
    FilterKeepsAll(hits, IsPercentHit);
    DetectorProperties.DistinctCountAboveOne(Texts(hits));
    assert Texts(hits)[0][1] != Texts(hits)[1][1];
  }

  /** `"Attendance is " + kw + "."` has one policy statement, which mentions kw. */
  lemma AttendancePolicy(s: string, kw: string)
    requires s == "Attendance is " + kw + "."
    requires kw in PolicyKeywords
    ensures PolicyStatements(s) == ["Attendance is " + kw]
    ensures Contains(Lower("Attendance is " + kw), kw)
  {
    KeywordSentence("Attendance is ", kw);
  }

  /** Attendance required in one document and optional in another gives a high-severity policy conflict
      for the pair (required, optional), first among the policy records. */
  lemma AttendanceRequiredOrOptional(a: Document, b: Document, stamp: string)
    requires a.content == "Attendance is required." && b.content == "Attendance is optional."
    ensures var r := PolicyRecords(PolicyHits([a, b]), stamp);
      && |r| > 0
      && r[0].id == "policy-" + stamp + "-required"
      && r[0].kind == PolicyConflict && r[0].severity == High
  {
    assert PolicyKeywords[0] == "required" && PolicyKeywords[2] == "optional";
    AttendancePolicy(a.content, "required");
    AttendancePolicy(b.content, "optional");
    TwoDocuments(a, b, PolicyStatements);
    var hits := [Hit(a.name, "Attendance is " + "required"), Hit(b.name, "Attendance is " + "optional")];
    assert PolicyHits([a, b]) == hits;
    RequiredAndOptional(hits, 0, 1, stamp);
  }

  /** A statement with `required` and one with `optional` give one record for the pair (required, optional). */
  lemma RequiredOptionalRound(hits: seq<Hit>, i: nat, j: nat, stamp: string)
    requires i < |hits| && j < |hits|
    requires HasKeyword(hits[i], "required") && HasKeyword(hits[j], "optional")
    ensures var first := PairRecords(hits, ("required", "optional"), stamp);
      && |first| == 1
      && first[0].id == "policy-" + stamp + "-required"
      && first[0].kind == PolicyConflict && first[0].severity == High
  {
    PairFires(hits, ("required", "optional"), i, j, stamp);
  }

  /** A statement with the first keyword of a pair and one with the second give one record for that pair. */
  lemma PairFires(hits: seq<Hit>, pair: (string, string), i: nat, j: nat, stamp: string)
    requires i < |hits| && j < |hits|
    requires HasKeyword(hits[i], pair.0) && HasKeyword(hits[j], pair.1)
    ensures var first := PairRecords(hits, pair, stamp);
      && |first| == 1
      && first[0].id == "policy-" + stamp + "-" + pair.0
      && first[0].kind == PolicyConflict && first[0].severity == High
  {
    var first := PairRecords(hits, pair, stamp);
    DetectorProperties.PairRound(hits, pair, stamp);
    assert first[0] in first;
  }

  /** A statement with `required` and another with `optional` make the first policy record the one for
      the pair (required, optional). */
  lemma RequiredAndOptional(hits: seq<Hit>, i: nat, j: nat, stamp: string)
    requires i < |hits| && j < |hits| && i != j
    requires HasKeyword(hits[i], "required") && HasKeyword(hits[j], "optional")
    ensures var r := PolicyRecords(hits, stamp);
      && |r| > 0
      && r[0].id == "policy-" + stamp + "-required"
      && r[0].kind == PolicyConflict && r[0].severity == High
  {
    RequiredOptionalRound(hits, i, j, stamp);
    DetectorProperties.PolicyPass(hits, stamp);
    assert OpposingPairs[0] == ("required", "optional");
  }

  /** Text with no o, p or f in either case contains none of the negative keywords. */
  lemma NoNegativeKeyword(s: string)
    requires forall c :: c in s ==> LowerChar(c) !in {'o', 'p', 'f'}
    ensures !Contains(Lower(s), "optional") && !Contains(Lower(s), "prohibited") && !Contains(Lower(s), "forbidden")
  {
    FirstLetterAbsent(s, "optional");
    FirstLetterAbsent(s, "prohibited");
    FirstLetterAbsent(s, "forbidden");
  }

  /** `"Badges are required."` has one policy statement. */
  lemma BadgePolicy(s: string)
    requires s == "Badges are required."
    ensures PolicyStatements(s) == ["Badges are required"]
  {
    assert PolicyKeywords[0] == "required";
    assert s == "Badges are " + "required" + ".";
    KeywordSentence("Badges are ", "required");
    assert "Badges are " + "required" == "Badges are required";
  }

  /** Attendance and badges both required, with no opposing keyword anywhere, give no policy conflict. */
  lemma OnlyRequired(a: Document, b: Document, stamp: string)
    requires a.content == "Attendance is required." && b.content == "Badges are required."
    ensures PolicyRecords(PolicyHits([a, b]), stamp) == []
  {
    assert PolicyKeywords[0] == "required";
    AttendancePolicy(a.content, "required");
    BadgePolicy(b.content);
    TwoDocuments(a, b, PolicyStatements);
    var hits := [Hit(a.name, "Attendance is required"), Hit(b.name, "Badges are required")];
    assert "Attendance is " + "required" == "Attendance is required";
    assert PolicyHits([a, b]) == hits;
    RequiredStatements(hits[0].statement);
    RequiredStatements(hits[1].statement);
    NoOppositionInTwo(hits[0], hits[1], stamp);
  }

  /** Two statements that mention no negative keyword give no policy record. */
  lemma NoOppositionInTwo(first: Hit, second: Hit, stamp: string)
    requires !HasKeyword(first, "optional") && !HasKeyword(first, "prohibited") && !HasKeyword(first, "forbidden")
    requires !HasKeyword(second, "optional") && !HasKeyword(second, "prohibited") && !HasKeyword(second, "forbidden")
    ensures PolicyRecords([first, second], stamp) == []
  {
    NoOpposition([first, second], stamp);
  }

  /** The two required statements mention no negative keyword. */
  lemma RequiredStatements(s: string)
    requires s == "Attendance is required" || s == "Badges are required"
    ensures !Contains(Lower(s), "optional") && !Contains(Lower(s), "prohibited") && !Contains(Lower(s), "forbidden")
  {
    NoNegativeKeyword(s);
  }

  /** A round pushes nothing when no statement mentions the pair's negative keyword. */
  lemma NegativeAbsent(hits: seq<Hit>, pair: (string, string), stamp: string)
    requires forall k :: 0 <= k < |hits| ==> !HasKeyword(hits[k], pair.1)
    ensures PairRecords(hits, pair, stamp) == []
  {
    DetectorProperties.PairRound(hits, pair, stamp);
  }

  /** Statements that mention none of the negative keywords give no policy record. */
  lemma NoOpposition(hits: seq<Hit>, stamp: string)
    requires forall k :: 0 <= k < |hits| ==>
               !HasKeyword(hits[k], "optional") && !HasKeyword(hits[k], "prohibited") && !HasKeyword(hits[k], "forbidden")
    ensures PolicyRecords(hits, stamp) == []
  {
    DetectorProperties.PolicyPass(hits, stamp);
    NegativeAbsent(hits, OpposingPairs[0], stamp);
    NegativeAbsent(hits, OpposingPairs[1], stamp);
    NegativeAbsent(hits, OpposingPairs[2], stamp);
    NegativeAbsent(hits, OpposingPairs[3], stamp);
  }

  /** The hits of two documents are those of the first, then those of the second. */
  lemma TwoDocuments(a: Document, b: Document, matcher: Matcher)
    ensures Collect([a, b], matcher) == Tag(a.name, matcher(a.content)) + Tag(b.name, matcher(b.content))
  {
    var docs := [a, b];
    assert docs[1..] == [b];
    assert [b][1..] == [];
    assert Collect([b], matcher) == Tag(b.name, matcher(b.content)) + Collect([], matcher);
  }
}
