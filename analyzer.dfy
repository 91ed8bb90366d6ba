/** The state of the analyzer hook (src/hooks/useDocumentAnalyzer.ts): the uploaded documents, the
    reports generated so far, newest first, and the usage and billing counters. */
module Analyzer {
  import opened Types
  import opened Collections
  import Detector
  import DetectorProperties

  /** `DOCUMENT_COST` (2.99) and `REPORT_COST` (4.99), in cents. */
  const DocumentCost: nat := 299
  const ReportCost: nat := 499

  // ---------------------------------------------------------------- reports

  /** `documents.map(d => d.name)`. */
  function Names(docs: seq<Document>): seq<string> {
    seq(|docs|, k requires 0 <= k < |docs| => docs[k].name)
  }

  predicate IsHigh(c: Contradiction) { c.severity == High }
  predicate IsMedium(c: Contradiction) { c.severity == Medium }
  predicate IsLow(c: Contradiction) { c.severity == Low }

  /** `severityBreakdown`: how many records there are of each severity. */
  function Breakdown(cs: seq<Contradiction>): SeverityBreakdown {
    SeverityBreakdown(|Filter(cs, IsHigh)|, |Filter(cs, IsMedium)|, |Filter(cs, IsLow)|)
  }

  /** Every record has exactly one severity, so the three counts add up to the number of records. */
  lemma {:induction false} BreakdownSums(cs: seq<Contradiction>)
    ensures Breakdown(cs).high + Breakdown(cs).medium + Breakdown(cs).low == |cs|
  {
    if cs != [] {
      BreakdownSums(cs[1..]);
    }
  }

  /** A report is consistent when its total is its number of records and the breakdown adds up to it. */
  predicate Consistent(r: Report) {
    && r.totalIssues == |r.contradictions|
    && r.breakdown == Breakdown(r.contradictions)
    && r.breakdown.high + r.breakdown.medium + r.breakdown.low == r.totalIssues
  }

  /** The report object built from the documents and the records found in them. */
  function BuildReport(id: string, now: Timestamp, docs: seq<Document>, cs: seq<Contradiction>): (r: Report)
    ensures Consistent(r)
    ensures r.id == id && r.generatedAt == now && r.contradictions == cs
    ensures r.documents == Names(docs)
  {
    BreakdownSums(cs);
    Report(id, now, Names(docs), cs, |cs|, Breakdown(cs))
  }

  /** The report `analyzeDocuments` generates for the documents at clock reading now. */
  function Analysis(docs: seq<Document>, now: Timestamp): Report {
    var stamp := Decimal(now);
    BuildReport("report-" + stamp, now, docs, Detector.Contradictions(docs, stamp))
  }

  /** The breakdown of time, numeric and policy records, one pass after another: nothing is low, and the
      medium records are the numeric ones. */
  lemma BreakdownOfPasses(t: seq<Contradiction>, n: seq<Contradiction>, p: seq<Contradiction>)
    requires DetectorProperties.PassShape(t, TimeConflict, High)
    requires DetectorProperties.PassShape(n, NumericalConflict, Medium)
    requires DetectorProperties.PassShape(p, PolicyConflict, High)
    ensures Breakdown(t + n + p).low == 0
    ensures Breakdown(t + n + p).medium == |n|
  {
    FilterAppend(t + n, p, IsMedium);
    FilterAppend(t, n, IsMedium);
    FilterNonEmpty(t, IsMedium);
    FilterNonEmpty(p, IsMedium);
    FilterKeepsAll(n, IsMedium);
    FilterAppend(t + n, p, IsLow);
    FilterAppend(t, n, IsLow);
    FilterNonEmpty(t, IsLow);
    FilterNonEmpty(n, IsLow);
    FilterNonEmpty(p, IsLow);
  }

  /** The breakdown of a generated report: nothing is low severity, at most the one numeric record is
      medium, and every other record is high. */
  lemma AnalysisBreakdown(docs: seq<Document>, now: Timestamp)
    ensures var r := Analysis(docs, now);
      && r.breakdown.low == 0
      && r.breakdown.medium <= 1
      && r.breakdown.high == r.totalIssues - r.breakdown.medium
  {
    var stamp := Decimal(now);
    DetectorProperties.TimeShape(Detector.TimeHits(docs), stamp);
    DetectorProperties.NumericShape(Detector.NumberHits(docs), stamp);
    DetectorProperties.PolicyShape(Detector.PolicyHits(docs), stamp);
    BreakdownOfPasses(Detector.TimeRecords(Detector.TimeHits(docs), stamp),
                      Detector.NumericRecords(Detector.NumberHits(docs), stamp),
                      Detector.PolicyRecords(Detector.PolicyHits(docs), stamp));
  }

  // ---------------------------------------------------------------- usage and billing

  /** What one analysis of count documents costs, in cents. */
  function Bill(count: nat): nat {
    count * DocumentCost + ReportCost
  }

  /** The usage counters after an analysis of count documents at clock reading now. */
  function RecordAnalysis(usage: UsageStats, count: nat, now: Timestamp): (u: UsageStats)
    ensures u.documentsAnalyzed == usage.documentsAnalyzed + count
    ensures u.reportsGenerated == usage.reportsGenerated + 1
    ensures u.totalBilled == usage.totalBilled + count * DocumentCost + ReportCost
    ensures u.lastAnalysis == Some(now)
  {
    UsageStats(usage.documentsAnalyzed + count, usage.reportsGenerated + 1, usage.totalBilled + Bill(count), Some(now))
  }

  /** How many documents the reports covered, counted once per report. */
  function DocumentsIn(reports: seq<Report>): nat {
    if reports == [] then 0 else |reports[0].documents| + DocumentsIn(reports[1..])
  }

  /** What the reports were billed, one analysis each. */
  function BilledFor(reports: seq<Report>): nat {
    if reports == [] then 0 else Bill(|reports[0].documents|) + BilledFor(reports[1..])
  }

  /** The bill is the document price per covered document plus the report price per report. */
  lemma {:induction false} BilledForFormula(reports: seq<Report>)
    ensures BilledFor(reports) == DocumentCost * DocumentsIn(reports) + ReportCost * |reports|
  {
    if reports != [] {
      BilledForFormula(reports[1..]);
    }
  }

  // ---------------------------------------------------------------- the document list

  /** The document `addDocument` creates from a file and its text at clock reading now. */
  function NewDocument(file: FileInfo, content: string, now: Timestamp): Document {
    Document("doc-" + Decimal(now), file.name, content, now, file.size, file.mimeType)
  }

  /** The test of `removeDocument`'s filter: the document does not carry that id. */
  function OtherThan(id: string): Document -> bool {
    (d: Document) => d.id != id
  }

  /** `prev.filter(doc => doc.id !== id)`. */
  function WithoutId(docs: seq<Document>, id: string): seq<Document> {
    Filter(docs, OtherThan(id))
  }

  /** A document remains exactly when it was there and carries another id. */
  lemma WithoutIdMembership(docs: seq<Document>, id: string)
    ensures forall d :: d in WithoutId(docs, id) <==> d in docs && d.id != id
  {
    FilterMembership(docs, OtherThan(id));
  }

  /** Removal keeps the other documents in their order: removing from a concatenation removes from each part. */
  lemma WithoutIdAppend(a: seq<Document>, b: seq<Document>, id: string)
    ensures WithoutId(a + b, id) == WithoutId(a, id) + WithoutId(b, id)
  {
    FilterAppend(a, b, OtherThan(id));
  }

  /** Removing an id no document carries changes nothing. */
  lemma WithoutAbsentId(docs: seq<Document>, id: string)
    requires forall k :: 0 <= k < |docs| ==> docs[k].id != id
    ensures WithoutId(docs, id) == docs
  {
    FilterKeepsAll(docs, OtherThan(id));
  }

  /** Removing the same id twice is removing it once. */
  lemma WithoutIdIdempotent(docs: seq<Document>, id: string)
    ensures WithoutId(WithoutId(docs, id), id) == WithoutId(docs, id)
  {
    var once := WithoutId(docs, id);
    assert forall k :: 0 <= k < |once| ==> OtherThan(id)(once[k]);
    WithoutAbsentId(once, id);
  }

  /** Adding a document and then removing it by its id gives back the list, provided no earlier
      document was added at the same clock reading. */
  lemma AddThenRemove(docs: seq<Document>, file: FileInfo, content: string, now: Timestamp)
    requires forall k :: 0 <= k < |docs| ==> docs[k].id != "doc-" + Decimal(now)
    ensures WithoutId(docs + [NewDocument(file, content, now)], NewDocument(file, content, now).id) == docs
  {
    var id := NewDocument(file, content, now).id;
    WithoutIdAppend(docs, [NewDocument(file, content, now)], id);
    WithoutAbsentId(docs, id);
  }

  /** Ids are made from the clock alone: two documents added at the same clock reading share an id, and
      removing one removes both. */
  lemma SameReadingSameId(docs: seq<Document>, first: FileInfo, second: FileInfo, content1: string, content2: string, now: Timestamp)
    ensures var id := NewDocument(first, content1, now).id;
      && id == NewDocument(second, content2, now).id
      && WithoutId(docs + [NewDocument(first, content1, now), NewDocument(second, content2, now)], id) == WithoutId(docs, id)
  {
    var id := NewDocument(first, content1, now).id;
    var pair := [NewDocument(first, content1, now), NewDocument(second, content2, now)];
    WithoutIdAppend(docs, pair, id);
    assert pair == [pair[0]] + [pair[1]];
    WithoutIdAppend([pair[0]], [pair[1]], id);
  }

  /** Documents added at different clock readings get different ids, so removing the first one's id
      keeps the second. */
  lemma DifferentReadingsDifferentIds(docs: seq<Document>, first: FileInfo, second: FileInfo, content1: string, content2: string,
                                      m: Timestamp, n: Timestamp)
    requires m != n
    ensures var id := NewDocument(first, content1, m).id;
      && id != NewDocument(second, content2, n).id
      && WithoutId(docs + [NewDocument(first, content1, m), NewDocument(second, content2, n)], id)
         == WithoutId(docs, id) + [NewDocument(second, content2, n)]
  {
    var id, other := NewDocument(first, content1, m).id, NewDocument(second, content2, n).id;
    DecimalInjective(m, n);
    assert id[4..] == Decimal(m) && other[4..] == Decimal(n);
    var pair := [NewDocument(first, content1, m), NewDocument(second, content2, n)];
    WithoutIdAppend(docs, pair, id);
    assert pair == [pair[0]] + [pair[1]];
    WithoutIdAppend([pair[0]], [pair[1]], id);
  }

  // ---------------------------------------------------------------- the hook's state

  /** The state `useDocumentAnalyzer` keeps; its methods are the callbacks it returns. */
  class DocumentAnalyzer {
    var documents: seq<Document>
    /** Newest first. */
    var reports: seq<Report>
    var usage: UsageStats

    /** Every report is consistent; the counters cover exactly the reports generated; the bill is the
        document and report prices over them; the last analysis is the time of the newest report. */
    ghost predicate Valid()
      reads this
    {
      && (forall k :: 0 <= k < |reports| ==> Consistent(reports[k]))
      && usage.reportsGenerated == |reports|
      && usage.documentsAnalyzed == DocumentsIn(reports)
      && usage.totalBilled == BilledFor(reports)
      && usage.lastAnalysis == (if reports == [] then None else Some(reports[0].generatedAt))
    }

    /** The initial state: no documents, no reports, zero counters. */
    constructor ()
      ensures Valid()
      ensures documents == [] && reports == [] && usage == UsageStats(0, 0, 0, None)
    {
      documents := [];
      reports := [];
      usage := UsageStats(0, 0, 0, None);
    }

    /** `analyzeDocuments`: with fewer than two documents nothing happens and there is no report;
        otherwise the report is put in front of the earlier ones and the analysis is billed. */
    method AnalyzeDocuments(now: Timestamp) returns (report: Option<Report>)
      requires Valid()
      modifies this
      ensures Valid()
      ensures documents == old(documents)
      ensures |documents| < 2 ==> report == None && reports == old(reports) && usage == old(usage)
      ensures |documents| >= 2 ==>
                && report == Some(Analysis(documents, now))
                && reports == [report.value] + old(reports)
                && usage == RecordAnalysis(old(usage), |documents|, now)
    {
      if |documents| < 2 {
        return None;
      }
      var stamp := Decimal(now);
      var contradictions := Detector.DetectContradictions(documents, stamp);
      var r := BuildReport("report-" + stamp, now, documents, contradictions);
      reports := [r] + reports;
      usage := RecordAnalysis(usage, |documents|, now);
      assert reports[1..] == old(reports);
      report := Some(r);
    }

    /** `addDocument`: the new document goes at the end of the list. */
    method AddDocument(file: FileInfo, content: string, now: Timestamp)
      requires Valid()
      modifies this
      ensures Valid()
      ensures documents == old(documents) + [NewDocument(file, content, now)]
      ensures reports == old(reports) && usage == old(usage)
    {
      documents := documents + [NewDocument(file, content, now)];
    }

    /** `removeDocument`: every document with that id leaves the list. */
    method RemoveDocument(id: string)
      requires Valid()
      modifies this
      ensures Valid()
      ensures documents == WithoutId(old(documents), id)
      ensures reports == old(reports) && usage == old(usage)
    {
      documents := WithoutId(documents, id);
    }

    /** `clearAll`: the document list is emptied; reports and counters stay. */
    method ClearAll()
      requires Valid()
      modifies this
      ensures Valid()
      ensures documents == []
      ensures reports == old(reports) && usage == old(usage)
    {
      documents := [];
    }
  }
}
