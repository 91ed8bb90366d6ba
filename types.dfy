/** The records the analyzer hook reads and produces (src/types/index.ts). */
module Types {

  datatype Option<+T> = None | Some(value: T)

  /** Milliseconds since the epoch, as `Date.now()` gives them; the model treats a clock reading as an opaque input. */
  type Timestamp = nat

  /** An uploaded document. */
  datatype Document = Document(
    id: string,
    name: string,
    content: string,
    uploadedAt: Timestamp,
    size: nat,
    mimeType: string)

  /** What the browser's `File` object contributes to a document. */
  datatype FileInfo = FileInfo(name: string, size: nat, mimeType: string)

  datatype ContradictionKind = TimeConflict | NumericalConflict | PolicyConflict | RequirementConflict

  datatype Severity = High | Medium | Low

  /** One entry of a contradiction's `conflictingStatements`. */
  datatype Statement = Statement(document: string, statement: string, location: string)

  datatype Contradiction = Contradiction(
    id: string,
    kind: ContradictionKind,
    severity: Severity,
    documents: seq<string>,
    statements: seq<Statement>,
    explanation: string,
    suggestion: string)

  datatype SeverityBreakdown = SeverityBreakdown(high: nat, medium: nat, low: nat)

  datatype Report = Report(
    id: string,
    generatedAt: Timestamp,
    documents: seq<string>,
    contradictions: seq<Contradiction>,
    totalIssues: nat,
    breakdown: SeverityBreakdown)

  /** The billing counters; `totalBilled` is kept in integer cents. */
  datatype UsageStats = UsageStats(
    documentsAnalyzed: nat,
    reportsGenerated: nat,
    totalBilled: nat,
    lastAnalysis: Option<Timestamp>)

  /** The decimal rendering of a number, as a template literal `${n}` gives it for a non-negative integer. */
  function Decimal(n: nat): (r: string)
    ensures |r| > 0
    ensures forall k :: 0 <= k < |r| ==> '0' <= r[k] <= '9'
    decreases n
  {
    var digit := [(48 + n % 10) as char];
    if n < 10 then digit else Decimal(n / 10) + digit
  }

  /** Different numbers have different renderings: the last digit fixes n % 10 and the digits before it
      fix n / 10. */
  lemma {:induction false} DecimalInjective(m: nat, n: nat)
    ensures Decimal(m) == Decimal(n) ==> m == n
    decreases n
  {
    if Decimal(m) == Decimal(n) {
      var dm, dn := Decimal(m), Decimal(n);
      assert dm[|dm| - 1] == (48 + m % 10) as char;
      assert dn[|dn| - 1] == (48 + n % 10) as char;
      assert m % 10 == n % 10;
      if m >= 10 && n >= 10 {
        assert Decimal(m / 10) == dm[..|dm| - 1];
        assert Decimal(n / 10) == dn[..|dn| - 1];
        DecimalInjective(m / 10, n / 10);
      }
    }
  }
}
