/** What the detector's passes promise, stated over any list of hits and then over whole corpora. */
module DetectorProperties {
  import opened Types
  import opened Text
  import opened Collections
  import opened Detector
  import NumberPattern
  import TimePattern

  // ---------------------------------------------------------------- hits and distinct values

  /** Collecting over two lists of documents is collecting over each, in order. */
  lemma {:induction false} CollectAppend(a: seq<Document>, b: seq<Document>, matcher: Matcher)
    ensures Collect(a + b, matcher) == Collect(a, matcher) + Collect(b, matcher)
  {
    if a == [] {
      assert a + b == b;
    } else {
      assert (a + b)[1..] == a[1..] + b;
      CollectAppend(a[1..], b, matcher);
    }
  }

  /** Every hit comes from some document's matches, and every match of every document is a hit. */
  lemma {:induction false} CollectHits(docs: seq<Document>, matcher: Matcher)
    ensures forall h :: h in Collect(docs, matcher) ==>
              exists d :: d in docs && h.doc == d.name && h.statement in matcher(d.content)
    ensures forall d, x :: d in docs && x in matcher(d.content) ==> Hit(d.name, x) in Collect(docs, matcher)
  {
    if docs != [] {
      CollectHits(docs[1..], matcher);
      var here := Tag(docs[0].name, matcher(docs[0].content));
      assert Collect(docs, matcher) == here + Collect(docs[1..], matcher);
      forall x | x in matcher(docs[0].content)
        ensures Hit(docs[0].name, x) in here
      {
        var k :| 0 <= k < |matcher(docs[0].content)| && matcher(docs[0].content)[k] == x;
        assert here[k] == Hit(docs[0].name, x);
      }
      assert forall d :: d in docs ==> d == docs[0] || d in docs[1..];
    }
  }

  /** A corpus in which the matcher finds nothing has no hits. */
  lemma {:induction false} CollectNothing(docs: seq<Document>, matcher: Matcher)
    requires forall k :: 0 <= k < |docs| ==> matcher(docs[k].content) == []
    ensures Collect(docs, matcher) == []
  {
    if docs != [] {
      CollectNothing(docs[1..], matcher);
    }
  }

  /** A list has more than one distinct value exactly when two of its entries differ. */
  lemma DistinctCountAboveOne(xs: seq<string>)
    ensures DistinctCount(xs) > 1 <==> exists i, j :: 0 <= i < |xs| && 0 <= j < |xs| && xs[i] != xs[j]
  {
    var values := set x | x in xs;
    if exists i, j :: 0 <= i < |xs| && 0 <= j < |xs| && xs[i] != xs[j] {
      var i, j :| 0 <= i < |xs| && 0 <= j < |xs| && xs[i] != xs[j];
      var two := {xs[i], xs[j]};
      assert |two| == 2;
      assert values == two + (values - two);
      assert two * (values - two) == {};
    } else if xs == [] {
      assert values == {};
    } else {
      assert values == {xs[0]};
    }
  }

  // ---------------------------------------------------------------- the time pass

  /** The time pass pushes at most one record, and does so exactly when two clock-time hits differ once
      lower-cased (the gate on more than one hit follows). Its record is high severity and carries one
      statement per hit, in scan order. */
  lemma TimePass(hits: seq<Hit>, stamp: string)
    ensures |TimeRecords(hits, stamp)| <= 1
    ensures |TimeRecords(hits, stamp)| == 1 <==>
              exists i, j :: 0 <= i < |hits| && 0 <= j < |hits| && Lower(hits[i].statement) != Lower(hits[j].statement)
    ensures forall c :: c in TimeRecords(hits, stamp) ==>
              && c.kind == TimeConflict && c.severity == High
              && |c.statements| == |hits|
              && forall k :: 0 <= k < |hits| ==> c.statements[k].document == hits[k].doc && c.statements[k].statement == hits[k].statement
  {
    var lowered := LowerTexts(hits);
    DistinctCountAboveOne(lowered);
    if exists i, j :: 0 <= i < |hits| && 0 <= j < |hits| && Lower(hits[i].statement) != Lower(hits[j].statement) {
      var i, j :| 0 <= i < |hits| && 0 <= j < |hits| && Lower(hits[i].statement) != Lower(hits[j].statement);
      assert lowered[i] != lowered[j];
      assert i != j;
    }
  }

  /** When every clock-time hit reads the same once lower-cased, the time pass pushes nothing. */
  lemma TimePassSameTime(hits: seq<Hit>, stamp: string)
    requires forall k :: 0 <= k < |hits| ==> Lower(hits[k].statement) == Lower(hits[0].statement)
    ensures TimeRecords(hits, stamp) == []
  {
    TimePass(hits, stamp);
  }

  // ---------------------------------------------------------------- the numeric pass

  /** The numeric pass looks only at the hits that contain `%`. It pushes at most one medium-severity
      record, exactly when two of those differ (both gates on more than one hit follow); the record lists
      exactly the percentage hits, in scan order. */
  lemma NumericPass(hits: seq<Hit>, stamp: string)
    ensures |NumericRecords(hits, stamp)| <= 1
    ensures |NumericRecords(hits, stamp)| == 1 <==>
              var p := Percentages(hits);
              exists i, j :: 0 <= i < |p| && 0 <= j < |p| && p[i].statement != p[j].statement
    ensures forall h :: h in Percentages(hits) <==> h in hits && '%' in h.statement
    ensures forall c :: c in NumericRecords(hits, stamp) ==>
              && c.kind == NumericalConflict && c.severity == Medium
              && c.statements == Statements(Percentages(hits), NumericLocation)
              && forall k :: 0 <= k < |c.statements| ==> '%' in c.statements[k].statement
  {
    var p := Percentages(hits);
    FilterMembership(hits, IsPercentHit);
    DistinctCountAboveOne(Texts(p));
    if exists i, j :: 0 <= i < |p| && 0 <= j < |p| && p[i].statement != p[j].statement {
      var i, j :| 0 <= i < |p| && 0 <= j < |p| && p[i].statement != p[j].statement;
      assert Texts(p)[i] != Texts(p)[j];
      assert i != j;
      assert |hits| >= |p| > 1;
    }
  }

  /** With the analyzer's numeric pattern, every statement of the numeric record is a percentage (digits
      followed by `%`): day, week, month and dollar matches never reach it. */
  lemma NumericPassOnlyPercentages(docs: seq<Document>, stamp: string)
    ensures forall c :: c in NumericRecords(NumberHits(docs), stamp) ==>
              forall k :: 0 <= k < |c.statements| ==> NumberPattern.IsPercentage(c.statements[k].statement)
  {
    var hits := NumberHits(docs);
    NumericPass(hits, stamp);
    CollectHits(docs, NumberPattern.Matches);
    forall h | h in hits
      ensures '%' in h.statement ==> NumberPattern.IsPercentage(h.statement)
    {
      var d :| d in docs && h.doc == d.name && h.statement in NumberPattern.Matches(d.content);
      NumberPattern.MatchesPercentShape(d.content);
    }
    forall c | c in NumericRecords(hits, stamp)
      ensures forall k :: 0 <= k < |c.statements| ==> NumberPattern.IsPercentage(c.statements[k].statement)
    {
      var p := Percentages(hits);
      forall k | 0 <= k < |c.statements|
        ensures NumberPattern.IsPercentage(c.statements[k].statement)
      {
        assert c.statements[k].statement == p[k].statement;
        assert p[k] in p;
      }
    }
  }

  // ---------------------------------------------------------------- the policy pass

  /** Every stored policy statement is a trimmed `.`-piece of the text that mentions a keyword, every such
      piece is stored, and the stored (trimmed) statement still mentions a keyword. */
  lemma PolicyStatementsOfText(content: string)
    ensures forall st :: st in PolicyStatements(content) ==>
              exists piece :: piece in Split(content, '.') && MentionsPolicy(piece) && st == Trim(piece)
    ensures forall piece :: piece in Split(content, '.') && MentionsPolicy(piece) ==> Trim(piece) in PolicyStatements(content)
    ensures forall st :: st in PolicyStatements(content) ==> MentionsPolicy(st)
  {
    var kept := Filter(Split(content, '.'), MentionsPolicy);
    FilterMembership(Split(content, '.'), MentionsPolicy);
    forall st | st in PolicyStatements(content)
      ensures exists piece :: piece in Split(content, '.') && MentionsPolicy(piece) && st == Trim(piece)
      ensures MentionsPolicy(st)
    {
      var k :| 0 <= k < |kept| && st == Trim(kept[k]);
      assert kept[k] in kept;
      var n :| 0 <= n < |PolicyKeywords| && Contains(Lower(kept[k]), PolicyKeywords[n]);
      KeywordsHaveNoSpace();
      TrimKeepsWords(kept[k], PolicyKeywords[n]);
    }
    forall piece | piece in Split(content, '.') && MentionsPolicy(piece)
      ensures Trim(piece) in PolicyStatements(content)
    {
      var k :| 0 <= k < |kept| && kept[k] == piece;
      assert PolicyStatements(content)[k] == Trim(piece);
    }
  }

  /** The keywords are non-empty and free of white space, so trimming cannot affect them. */
  lemma KeywordsHaveNoSpace()
    ensures forall n, k :: 0 <= n < |PolicyKeywords| && 0 <= k < |PolicyKeywords[n]| ==> !IsSpace(PolicyKeywords[n][k])
    ensures forall n :: 0 <= n < |PolicyKeywords| ==> |PolicyKeywords[n]| > 0
  {
  }

  /** One round of the pair loop pushes at most one high-severity record, exactly when some hit mentions the
      positive keyword and some hit mentions the negative one. The record lists the positive statements
      first and then the negative ones, and names both keywords. */
  lemma PairRound(hits: seq<Hit>, pair: (string, string), stamp: string)
    ensures |PairRecords(hits, pair, stamp)| <= 1
    ensures |PairRecords(hits, pair, stamp)| == 1 <==>
              (exists i :: 0 <= i < |hits| && HasKeyword(hits[i], pair.0)) && (exists j :: 0 <= j < |hits| && HasKeyword(hits[j], pair.1))
    ensures forall c :: c in PairRecords(hits, pair, stamp) ==>
              var split := |WithKeyword(hits, pair.0)|;
              && c.kind == PolicyConflict && c.severity == High
              && c.id == "policy-" + stamp + "-" + pair.0
              && split <= |c.statements| == split + |WithKeyword(hits, pair.1)|
              && (forall k :: 0 <= k < split ==> Contains(Lower(c.statements[k].statement), pair.0))
              && (forall k :: split <= k < |c.statements| ==> Contains(Lower(c.statements[k].statement), pair.1))
  {
    FilterNonEmpty(hits, h => HasKeyword(h, pair.0));
    FilterNonEmpty(hits, h => HasKeyword(h, pair.1));
    var positives, negatives := WithKeyword(hits, pair.0), WithKeyword(hits, pair.1);
    forall c | c in PairRecords(hits, pair, stamp)
      ensures forall k :: |positives| <= k < |c.statements| ==> Contains(Lower(c.statements[k].statement), pair.1)
    {
      forall k | |positives| <= k < |c.statements|
        ensures Contains(Lower(c.statements[k].statement), pair.1)
      {
        assert c.statements[k] == Statements(negatives, PolicyLocation)[k - |positives|];
        assert HasKeyword(negatives[k - |positives|], pair.1);
      }
    }
  }

  /** The statements built from a list of hits are exactly those of its hits, at that location. */
  lemma StatementsMembership(hits: seq<Hit>, location: string)
    ensures forall h :: h in hits ==> Statement(h.doc, h.statement, location) in Statements(hits, location)
    ensures forall st :: st in Statements(hits, location) ==>
              exists h :: h in hits && st == Statement(h.doc, h.statement, location)
  {
    var sts := Statements(hits, location);
    forall h | h in hits
      ensures Statement(h.doc, h.statement, location) in sts
    {
      var k :| 0 <= k < |hits| && hits[k] == h;
      assert sts[k] == Statement(h.doc, h.statement, location);
    }
    forall st | st in sts
      ensures exists h :: h in hits && st == Statement(h.doc, h.statement, location)
    {
      var k :| 0 <= k < |sts| && sts[k] == st;
      assert hits[k] in hits;
    }
  }

  /** A pair's record lists, first, a statement for every hit that mentions the positive keyword and for no
      other hit, and then a statement for every hit that mentions the negative keyword and for no other. */
  lemma PairStatements(hits: seq<Hit>, pair: (string, string), stamp: string)
    ensures forall c :: c in PairRecords(hits, pair, stamp) ==>
              var split := |WithKeyword(hits, pair.0)|;
              && split <= |c.statements|
              && (forall h :: h in hits && HasKeyword(h, pair.0) ==>
                    Statement(h.doc, h.statement, PolicyLocation) in c.statements[..split])
              && (forall st :: st in c.statements[..split] ==>
                    exists h :: h in hits && HasKeyword(h, pair.0) && st == Statement(h.doc, h.statement, PolicyLocation))
              && (forall h :: h in hits && HasKeyword(h, pair.1) ==>
                    Statement(h.doc, h.statement, PolicyLocation) in c.statements[split..])
              && (forall st :: st in c.statements[split..] ==>
                    exists h :: h in hits && HasKeyword(h, pair.1) && st == Statement(h.doc, h.statement, PolicyLocation))
  {
    var positives, negatives := WithKeyword(hits, pair.0), WithKeyword(hits, pair.1);
    FilterMembership(hits, h => HasKeyword(h, pair.0));
    FilterMembership(hits, h => HasKeyword(h, pair.1));
    StatementsMembership(positives, PolicyLocation);
    StatementsMembership(negatives, PolicyLocation);
    forall c | c in PairRecords(hits, pair, stamp)
      ensures c.statements[..|positives|] == Statements(positives, PolicyLocation)
      ensures c.statements[|positives|..] == Statements(negatives, PolicyLocation)
    {
      assert c.statements == Statements(positives, PolicyLocation) + Statements(negatives, PolicyLocation);
    }
  }

  /** A walk over four pairs pushes the records of each pair in turn. */
  lemma PairsInOrder(hits: seq<Hit>, pairs: seq<(string, string)>, stamp: string)
    requires |pairs| == 4
    ensures PairsRecords(hits, pairs, stamp) ==
              PairRecords(hits, pairs[0], stamp) + PairRecords(hits, pairs[1], stamp)
              + PairRecords(hits, pairs[2], stamp) + PairRecords(hits, pairs[3], stamp)
  {
    var p1, p2, p3 := pairs[..1], pairs[..2], pairs[..3];
    assert pairs[..3] == p3 && p3[..2] == p2 && p2[..1] == p1 && p1[..0] == [];
    assert p3[2] == pairs[2] && p2[1] == pairs[1] && p1[0] == pairs[0];
    assert PairsRecords(hits, p1, stamp) == PairRecords(hits, pairs[0], stamp);
    assert PairsRecords(hits, p2, stamp) == PairsRecords(hits, p1, stamp) + PairRecords(hits, pairs[1], stamp);
    assert PairsRecords(hits, p3, stamp) == PairsRecords(hits, p2, stamp) + PairRecords(hits, pairs[2], stamp);
    assert PairsRecords(hits, pairs, stamp) == PairsRecords(hits, p3, stamp) + PairRecords(hits, pairs[3], stamp);
  }

  /** The policy pass pushes nothing unless more than one statement was kept; otherwise it pushes, pair by
      pair, the records of the four opposing pairs. So it pushes at most four records, all high-severity
      policy conflicts. */
  lemma PolicyPass(hits: seq<Hit>, stamp: string)
    ensures |hits| <= 1 ==> PolicyRecords(hits, stamp) == []
    ensures |hits| > 1 ==> (PolicyRecords(hits, stamp) ==
              PairRecords(hits, OpposingPairs[0], stamp) + PairRecords(hits, OpposingPairs[1], stamp)
              + PairRecords(hits, OpposingPairs[2], stamp) + PairRecords(hits, OpposingPairs[3], stamp))
    ensures |PolicyRecords(hits, stamp)| <= 4
    ensures forall c :: c in PolicyRecords(hits, stamp) ==> c.kind == PolicyConflict && c.severity == High
  {
    PairsInOrder(hits, OpposingPairs, stamp);
    PairRound(hits, OpposingPairs[0], stamp);
    PairRound(hits, OpposingPairs[1], stamp);
    PairRound(hits, OpposingPairs[2], stamp);
    PairRound(hits, OpposingPairs[3], stamp);
  }

  // ---------------------------------------------------------------- the whole output

  /** A record's `documents` names the same documents, in the same order, as its statements. */
  predicate Coherent(c: Contradiction) {
    |c.documents| == |c.statements| && forall k :: 0 <= k < |c.documents| ==> c.documents[k] == c.statements[k].document
  }

  /** The position of each kind of record in the detector's output. */
  function Rank(kind: ContradictionKind): nat {
    match kind
    case TimeConflict => 0
    case NumericalConflict => 1
    case PolicyConflict => 2
    case RequirementConflict => 3
  }

  /** No later record has a kind that ranks before an earlier one. */
  predicate RankOrdered(cs: seq<Contradiction>) {
    forall i, j :: 0 <= i < j < |cs| ==> Rank(cs[i].kind) <= Rank(cs[j].kind)
  }

  /** Time records, then numeric records, then policy records, are in rank order. */
  lemma ConcatenationOrdered(t: seq<Contradiction>, n: seq<Contradiction>, p: seq<Contradiction>)
    requires PassShape(t, TimeConflict, High) && PassShape(n, NumericalConflict, Medium) && PassShape(p, PolicyConflict, High)
    ensures RankOrdered(t + n + p)
  {
    var r := t + n + p;
    assert forall k :: 0 <= k < |t| ==> r[k] == t[k];
    assert forall k :: |t| <= k < |t| + |n| ==> r[k] == n[k - |t|];
    assert forall k :: |t| + |n| <= k < |r| ==> r[k] == p[k - |t| - |n|];
    assert forall k :: 0 <= k < |r| ==> Rank(r[k].kind) == if k < |t| then 0 else if k < |t| + |n| then 1 else 2;
  }

  /** A policy record lists positive statements, then negative ones, each with its document. */
  lemma PolicyRecordCoherent(positives: seq<Hit>, negatives: seq<Hit>, positive: string, negative: string, stamp: string)
    ensures Coherent(PolicyRecord(positives, negatives, positive, negative, stamp))
  {
    var c := PolicyRecord(positives, negatives, positive, negative, stamp);
    forall k | 0 <= k < |c.documents|
      ensures c.documents[k] == c.statements[k].document
    {
      if k < |positives| {
        assert c.documents[k] == Sources(positives)[k];
        assert c.statements[k] == Statements(positives, PolicyLocation)[k];
      } else {
        assert c.documents[k] == Sources(negatives)[k - |positives|];
        assert c.statements[k] == Statements(negatives, PolicyLocation)[k - |positives|];
      }
    }
  }

  /** Every record of the policy pass is coherent. */
  lemma PolicyRecordsCoherent(hits: seq<Hit>, stamp: string)
    ensures forall c :: c in PolicyRecords(hits, stamp) ==> Coherent(c)
  {
    PolicyPass(hits, stamp);
    forall k | 0 <= k < 4
      ensures forall c :: c in PairRecords(hits, OpposingPairs[k], stamp) ==> Coherent(c)
    {
      var pair := OpposingPairs[k];
      PolicyRecordCoherent(WithKeyword(hits, pair.0), WithKeyword(hits, pair.1), pair.0, pair.1, stamp);
    }
  }

  /** What one pass's records have in common: the kind, the severity that goes with it, coherence. */
  predicate PassShape(cs: seq<Contradiction>, kind: ContradictionKind, severity: Severity) {
    forall k :: 0 <= k < |cs| ==> cs[k].kind == kind && cs[k].severity == severity && Coherent(cs[k])
  }

  lemma TimeShape(hits: seq<Hit>, stamp: string)
    ensures |TimeRecords(hits, stamp)| <= 1 && PassShape(TimeRecords(hits, stamp), TimeConflict, High)
  {
    TimePass(hits, stamp);
  }

  lemma NumericShape(hits: seq<Hit>, stamp: string)
    ensures |NumericRecords(hits, stamp)| <= 1 && PassShape(NumericRecords(hits, stamp), NumericalConflict, Medium)
  {
    NumericPass(hits, stamp);
  }

  lemma PolicyShape(hits: seq<Hit>, stamp: string)
    ensures |PolicyRecords(hits, stamp)| <= 4 && PassShape(PolicyRecords(hits, stamp), PolicyConflict, High)
  {
    PolicyPass(hits, stamp);
    PolicyRecordsCoherent(hits, stamp);
    var p := PolicyRecords(hits, stamp);
    assert forall k :: 0 <= k < |p| ==> p[k] in p;
  }

  /** Three passes' records, one after another, keep each pass's shape and come in rank order. */
  lemma ConcatenationShape(t: seq<Contradiction>, n: seq<Contradiction>, p: seq<Contradiction>)
    requires PassShape(t, TimeConflict, High) && PassShape(n, NumericalConflict, Medium) && PassShape(p, PolicyConflict, High)
    ensures var r := t + n + p;
      && RankOrdered(r)
      && (forall c :: c in r ==> c.kind != RequirementConflict && c.severity != Low)
      && (forall c :: c in r ==> (c.severity == Medium <==> c.kind == NumericalConflict))
      && (forall c :: c in r ==> Coherent(c))
  {
    ConcatenationOrdered(t, n, p);
    var r := t + n + p;
    forall c | c in r
      ensures c.kind != RequirementConflict && c.severity != Low
      ensures c.severity == Medium <==> c.kind == NumericalConflict
      ensures Coherent(c)
    {
      var k :| 0 <= k < |r| && r[k] == c;
      if k < |t| {
        assert c == t[k];
      } else if k < |t| + |n| {
        assert c == n[k - |t|];
      } else {
        assert c == p[k - |t| - |n|];
      }
    }
  }

  /** What `detectContradictions` returns: at most six records; all time records, then all numeric
      records, then all policy records; never a `requirement_conflict` and never low severity; only the
      numeric record is medium severity; and every record's `documents` follows its statements. */
  lemma DetectorOutput(docs: seq<Document>, stamp: string)
    ensures var r := Contradictions(docs, stamp);
      && |r| <= 6
      && RankOrdered(r)
      && (forall c :: c in r ==> c.kind != RequirementConflict && c.severity != Low)
      && (forall c :: c in r ==> (c.severity == Medium <==> c.kind == NumericalConflict))
      && (forall c :: c in r ==> Coherent(c))
  {
    TimeShape(TimeHits(docs), stamp);
    NumericShape(NumberHits(docs), stamp);
    PolicyShape(PolicyHits(docs), stamp);
    ConcatenationShape(TimeRecords(TimeHits(docs), stamp), NumericRecords(NumberHits(docs), stamp), PolicyRecords(PolicyHits(docs), stamp));
  }

  /** A corpus in which neither pattern matches and no sentence mentions a keyword yields no records. */
  lemma NothingFound(docs: seq<Document>, stamp: string)
    requires forall k :: 0 <= k < |docs| ==>
               && TimePattern.Matches(docs[k].content) == []
               && NumberPattern.Matches(docs[k].content) == []
               && PolicyStatements(docs[k].content) == []
    ensures Contradictions(docs, stamp) == []
  {
    CollectNothing(docs, TimePattern.Matches);
    CollectNothing(docs, NumberPattern.Matches);
    CollectNothing(docs, PolicyStatements);
  }

  /** One document is enough for a time conflict: two different clock times in its text give a record,
      with both statements from that document. */
  lemma OneDocumentTimeConflict(d: Document, stamp: string)
    requires var m := TimePattern.Matches(d.content);
      exists i, j :: 0 <= i < |m| && 0 <= j < |m| && Lower(m[i]) != Lower(m[j])
    ensures |TimeRecords(TimeHits([d]), stamp)| == 1
    ensures forall c :: c in TimeRecords(TimeHits([d]), stamp) ==> forall k :: 0 <= k < |c.documents| ==> c.documents[k] == d.name
  {
    var m := TimePattern.Matches(d.content);
    SingleDocument(d, TimePattern.Matches);
    var hits := TimeHits([d]);
    var i, j :| 0 <= i < |m| && 0 <= j < |m| && Lower(m[i]) != Lower(m[j]);
    assert LowerTexts(hits)[i] != LowerTexts(hits)[j];
    TimePass(hits, stamp);
  }

  /** The hits of one document are its matches, tagged with its name. */
  lemma SingleDocument(d: Document, matcher: Matcher)
    ensures Collect([d], matcher) == Tag(d.name, matcher(d.content))
  {
    assert [d][1..] == [];
  }
}
