/** `detectContradictions` (src/hooks/useDocumentAnalyzer.ts): three passes over the documents, a time
    pass, a numeric pass and a policy pass, whose records are pushed onto one list in that order. */
module Detector {
  import opened Types
  import opened Text
  import opened Collections
  import TimePattern
  import NumberPattern

  /** What a pass extracts from one document's text, in order. */
  type Matcher = string -> seq<string>

  /** One extracted string, tagged with the name of the document it came from. */
  datatype Hit = Hit(doc: string, statement: string)

  function Tag(name: string, found: seq<string>): seq<Hit> {
    seq(|found|, k requires 0 <= k < |found| => Hit(name, found[k]))
  }

  /** `docs.flatMap(doc => matcher(doc.content).map(...))`: every hit, by document and then in scan order. */
  function Collect(docs: seq<Document>, matcher: Matcher): seq<Hit> {
    if docs == [] then [] else Tag(docs[0].name, matcher(docs[0].content)) + Collect(docs[1..], matcher)
  }

  /** The documents named by a list of hits, one per hit. */
  function Sources(hits: seq<Hit>): seq<string> {
    seq(|hits|, k requires 0 <= k < |hits| => hits[k].doc)
  }

  /** The `conflictingStatements` built from a list of hits, one per hit, all at the same location. */
  function Statements(hits: seq<Hit>, location: string): seq<Statement> {
    seq(|hits|, k requires 0 <= k < |hits| => Statement(hits[k].doc, hits[k].statement, location))
  }

  /** The hit texts, lower-cased. */
  function LowerTexts(hits: seq<Hit>): seq<string> {
    seq(|hits|, k requires 0 <= k < |hits| => Lower(hits[k].statement))
  }

  /** The hit texts. */
  function Texts(hits: seq<Hit>): seq<string> {
    seq(|hits|, k requires 0 <= k < |hits| => hits[k].statement)
  }

  /** `[...new Set(xs)].length`. */
  function DistinctCount(xs: seq<string>): nat {
    |set x | x in xs|
  }

  // ---------------------------------------------------------------- time pass

  const TimeLocation := "Section 1"
  const TimeExplanation := "Multiple documents specify different time requirements or deadlines."
  const TimeSuggestion := "Standardize all time requirements across documents to avoid confusion."

  function TimeRecord(hits: seq<Hit>, stamp: string): Contradiction {
    Contradiction("time-" + stamp, TimeConflict, High, Sources(hits), Statements(hits, TimeLocation),
                  TimeExplanation, TimeSuggestion)
  }

  /** What the time pass pushes, given the clock-time hits. */
  function TimeRecords(hits: seq<Hit>, stamp: string): seq<Contradiction> {
    if |hits| > 1 && DistinctCount(LowerTexts(hits)) > 1 then [TimeRecord(hits, stamp)] else []
  }

  // ---------------------------------------------------------------- numeric pass

  const NumericLocation := "Requirements Section"
  const NumericExplanation := "Documents contain different percentage requirements or thresholds."
  const NumericSuggestion := "Review and align all percentage-based requirements across documents."

  predicate IsPercentHit(h: Hit) {
    '%' in h.statement
  }

  /** `numberPatterns.filter(n => n.statement.includes('%'))`. */
  function Percentages(hits: seq<Hit>): seq<Hit> {
    Filter(hits, IsPercentHit)
  }

  function NumericRecord(percentages: seq<Hit>, stamp: string): Contradiction {
    Contradiction("numerical-" + stamp, NumericalConflict, Medium, Sources(percentages),
                  Statements(percentages, NumericLocation), NumericExplanation, NumericSuggestion)
  }

  /** What the numeric pass pushes, given the numeric hits. */
  function NumericRecords(hits: seq<Hit>, stamp: string): seq<Contradiction> {
    if |hits| > 1 then
      var percentages := Percentages(hits);
      if |percentages| > 1 && DistinctCount(Texts(percentages)) > 1 then [NumericRecord(percentages, stamp)] else []
    else []
  }

  // ---------------------------------------------------------------- policy pass

  const PolicyKeywords: seq<string> := ["required", "mandatory", "optional", "prohibited", "allowed", "forbidden"]

  /** The opposing keyword pairs, positive keyword first. */
  const OpposingPairs: seq<(string, string)> :=
    [("required", "optional"), ("mandatory", "optional"), ("allowed", "prohibited"), ("allowed", "forbidden")]

  const PolicyLocation := "Policy Section"

  /** The sentence, lower-cased, contains one of the policy keywords. */
  predicate MentionsPolicy(sentence: string) {
    exists k | 0 <= k < |PolicyKeywords| :: Contains(Lower(sentence), PolicyKeywords[k])
  }

  /** Trims every sentence. */
  function TrimAll(sentences: seq<string>): seq<string> {
    seq(|sentences|, k requires 0 <= k < |sentences| => Trim(sentences[k]))
  }

  /** `content.split('.').filter(mentions a keyword)`, each kept sentence trimmed. */
  function PolicyStatements(content: string): seq<string> {
    TrimAll(Filter(Split(content, '.'), MentionsPolicy))
  }

  /** The hit, lower-cased, contains kw. */
  predicate HasKeyword(h: Hit, kw: string) {
    Contains(Lower(h.statement), kw)
  }

  /** `policies.filter(p => p.statement.toLowerCase().includes(kw))`. */
  function WithKeyword(hits: seq<Hit>, kw: string): seq<Hit> {
    Filter(hits, h => HasKeyword(h, kw))
  }

  function PolicyRecord(positives: seq<Hit>, negatives: seq<Hit>, positive: string, negative: string, stamp: string): Contradiction {
    Contradiction("policy-" + stamp + "-" + positive, PolicyConflict, High,
                  Sources(positives) + Sources(negatives),
                  Statements(positives, PolicyLocation) + Statements(negatives, PolicyLocation),
                  "Documents contain conflicting policies regarding " + positive + " vs " + negative + " requirements.",
                  "Clarify whether the requirement is " + positive + " or " + negative + " and update all documents consistently.")
  }

  /** What one round of the loop over the opposing pairs pushes. */
  function PairRecords(hits: seq<Hit>, pair: (string, string), stamp: string): seq<Contradiction> {
    var positives := WithKeyword(hits, pair.0);
    var negatives := WithKeyword(hits, pair.1);
    if |positives| > 0 && |negatives| > 0 then [PolicyRecord(positives, negatives, pair.0, pair.1, stamp)] else []
  }

  /** What the loop pushes over the given pairs, in order. */
  function PairsRecords(hits: seq<Hit>, pairs: seq<(string, string)>, stamp: string): seq<Contradiction> {
    if pairs == [] then []
    else PairsRecords(hits, pairs[..|pairs| - 1], stamp) + PairRecords(hits, pairs[|pairs| - 1], stamp)
  }

  /** One more round of the loop appends the records of one more pair. */
  lemma PairsRecordsStep(hits: seq<Hit>, pairs: seq<(string, string)>, i: nat, stamp: string)
    requires i < |pairs|
    ensures PairsRecords(hits, pairs[..i + 1], stamp) == PairsRecords(hits, pairs[..i], stamp) + PairRecords(hits, pairs[i], stamp)
  {
    assert pairs[..i + 1][..i] == pairs[..i];
  }

  /** After one more round, the records pushed so far are those of one more pair. */
  lemma RoundAppends(before: seq<Contradiction>, hits: seq<Hit>, pairs: seq<(string, string)>, i: nat, stamp: string)
    requires i < |pairs|
    ensures before + PairsRecords(hits, pairs[..i + 1], stamp)
         == (before + PairsRecords(hits, pairs[..i], stamp)) + PairRecords(hits, pairs[i], stamp)
  {
    PairsRecordsStep(hits, pairs, i, stamp);
    AppendAssociative(before, PairsRecords(hits, pairs[..i], stamp), PairRecords(hits, pairs[i], stamp));
  }

  /** What the policy pass pushes, given the policy hits. */
  function PolicyRecords(hits: seq<Hit>, stamp: string): seq<Contradiction> {
    if |hits| > 1 then PairsRecords(hits, OpposingPairs, stamp) else []
  }

  // ---------------------------------------------------------------- the whole detector

  function TimeHits(docs: seq<Document>): seq<Hit> { Collect(docs, TimePattern.Matches) }
  function NumberHits(docs: seq<Document>): seq<Hit> { Collect(docs, NumberPattern.Matches) }
  function PolicyHits(docs: seq<Document>): seq<Hit> { Collect(docs, PolicyStatements) }

  /** The list `detectContradictions` returns. `stamp` is the clock reading its ids are made from. */
  function Contradictions(docs: seq<Document>, stamp: string): seq<Contradiction> {
    TimeRecords(TimeHits(docs), stamp) + NumericRecords(NumberHits(docs), stamp) + PolicyRecords(PolicyHits(docs), stamp)
  }

  /** `detectContradictions`: the passes push their records onto one list, the policy pass in a loop
      over the opposing pairs. */
  method DetectContradictions(docs: seq<Document>, stamp: string) returns (contradictions: seq<Contradiction>)
    ensures contradictions == Contradictions(docs, stamp)
  {
    contradictions := [];

    var timePatterns := TimeHits(docs);
    if |timePatterns| > 1 {
      var uniqueTimes := DistinctCount(LowerTexts(timePatterns));
      if uniqueTimes > 1 {
        contradictions := contradictions + [TimeRecord(timePatterns, stamp)];
      }
    }
    assert contradictions == TimeRecords(timePatterns, stamp);

    var numberPatterns := NumberHits(docs);
    if |numberPatterns| > 1 {
      var percentages := Percentages(numberPatterns);
      if |percentages| > 1 {
        var uniquePercentages := DistinctCount(Texts(percentages));
        if uniquePercentages > 1 {
          contradictions := contradictions + [NumericRecord(percentages, stamp)];
        }
      }
    }
    assert contradictions == TimeRecords(timePatterns, stamp) + NumericRecords(numberPatterns, stamp);

    var policies := PolicyHits(docs);
    ghost var before := contradictions;
    if |policies| > 1 {
      var opposingPairs := OpposingPairs;
      for i := 0 to |opposingPairs|
        invariant contradictions == before + PairsRecords(policies, opposingPairs[..i], stamp)
      {
        var positive, negative := opposingPairs[i].0, opposingPairs[i].1;
        ghost var round := contradictions;
        var positiveStatements := WithKeyword(policies, positive);
        var negativeStatements := WithKeyword(policies, negative);
        if |positiveStatements| > 0 && |negativeStatements| > 0 {
          contradictions := contradictions + [PolicyRecord(positiveStatements, negativeStatements, positive, negative, stamp)];
        }
        assert contradictions == round + PairRecords(policies, opposingPairs[i], stamp);
        RoundAppends(before, policies, opposingPairs, i, stamp);
      }
      assert opposingPairs[..|opposingPairs|] == opposingPairs;
      assert contradictions == before + PairsRecords(policies, OpposingPairs, stamp);
    } else {
      assert contradictions == before + [];
    }
    assert contradictions == before + PolicyRecords(policies, stamp);
  }
}
