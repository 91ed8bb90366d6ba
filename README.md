# Document contradiction analyzer, modelled in Dafny

The analyzer hook (`useDocumentAnalyzer`) keeps three pieces of state: a list of uploaded documents, a
history of analysis reports (newest first) and billing counters. Asking for an analysis of two or more
documents runs the contradiction detector over them, builds a report, puts it at the front of the
history and bills it. The price is 2.99 per document plus 4.99 per report. The model keeps money in
integer cents, so these prices are 299 and 499.

The detector makes three passes over the documents and pushes their records onto one list, in this order:

- **Time pass.** It collects the clock times found in every document. It reports one high-severity time
  conflict when there is more than one time and the times differ once lower-cased.
- **Numeric pass.** It collects percentages, durations and dollar amounts, then keeps only the
  percentages. It reports one medium-severity numerical conflict when more than one percentage is kept
  and they differ.
- **Policy pass.** It splits every document on `.` and keeps, trimmed, the sentences that mention one of
  six policy keywords. When more than one sentence is kept, it walks four opposing keyword pairs in
  order. It reports one high-severity policy conflict for each pair whose two keywords both occur among
  the kept sentences.

Modules, one per part of the program:

| module | file | what it holds |
|---|---|---|
| `Types` | types.dfy | the records: `Document`, `Contradiction`, `Report`, `UsageStats`, and the decimal rendering of a clock reading |
| `Text` | text.dfy | lower-casing, `includes`, `split` on one character, `trim`, and the white space of regular expressions |
| `Collections` | collections.dfy | `filter` on sequences |
| `Scanning` | scanning.dfy | a global, left-to-right scan of a text by a pattern that gives the match length at each offset |
| `TimePattern`, `NumberPattern` | time_pattern.dfy, number_pattern.dfy | the time and number regular expressions, each written out as a pattern for that scan |
| `Detector` | detector.dfy | the three passes as functions, and `DetectContradictions`, the imperative detector proved equal to them |
| `DetectorProperties` | detector_properties.dfy | what each pass reports, when it reports it, and the shape of the whole output |
| `Analyzer` | analyzer.dfy | report construction, billing, the document-list operations, and the `DocumentAnalyzer` class holding the hook's state |
| `Scenarios` | scenarios.dfy | worked cases on short documents: two class start times, two attendance thresholds, required against optional |

## Model

| member | source | states |
|---|---|---|
| `Types.Decimal` | src/hooks/useDocumentAnalyzer.ts:31 | the rendering of a clock reading used in every id is a non-empty string of decimal digits |
| `Types.DecimalInjective` | src/hooks/useDocumentAnalyzer.ts:31 | different clock readings are rendered differently, so ids made from different readings differ |
| `Text.LowerLeavesNoCapitals` | src/hooks/useDocumentAnalyzer.ts:28 | ASCII lower-casing: no capital letter A to Z is left, and every character that is not one stays in its place |
| `Text.LowerIdempotent` | src/hooks/useDocumentAnalyzer.ts:28 | lower-casing twice is lower-casing once |
| `Text.Split` | src/hooks/useDocumentAnalyzer.ts:77 | `split('.')` gives at least one piece, and no piece contains the separator |
| `Text.JoinSplit` | src/hooks/useDocumentAnalyzer.ts:77 | gluing the pieces of a split back together with the separator gives the original text |
| `Text.SplitJoin` | src/hooks/useDocumentAnalyzer.ts:77 | splitting a join of separator-free pieces gives those pieces back |
| `Text.SplitAfterPiece` | src/hooks/useDocumentAnalyzer.ts:77 | a separator-free piece followed by a separator is split off as the first piece |
| `Text.SplitWithoutSeparator` | src/hooks/useDocumentAnalyzer.ts:77 | a text without the separator splits into itself alone |
| `Text.Trim` | src/hooks/useDocumentAnalyzer.ts:80 | `trim` gives a slice of the text that starts and ends with no white space, with only white space cut off on either side |
| `Text.TrimIdempotent` | src/hooks/useDocumentAnalyzer.ts:80 | trimming twice is trimming once |
| `Text.TrimKeepsWords` | src/hooks/useDocumentAnalyzer.ts:78-80 | a word without white space occurs in the lower-cased trimmed sentence exactly when it occurs in the lower-cased sentence, so the stored sentence still carries its keywords |
| `Scanning.ScanReturnsMatches` | src/hooks/useDocumentAnalyzer.ts:23 | every string a global scan returns is the pattern's match at some offset of the text |
| `Scanning.ScanReturnsSubstrings` | src/hooks/useDocumentAnalyzer.ts:48 | every returned match occurs in the document's text |
| `Scanning.ScanSkips` | src/hooks/useDocumentAnalyzer.ts:23 | the scan passes over offsets where the pattern does not match |
| `Scanning.ScanOfNoMatch` | src/hooks/useDocumentAnalyzer.ts:23 | a text where the pattern matches nowhere gives no matches (the fallback to an empty list) |
| `TimePattern.MatchStart` | src/hooks/useDocumentAnalyzer.ts:23 | each alternative of the time pattern starts with a digit or with the letter m, n or b, in either case |
| `TimePattern.MatchesNeedStart` | src/hooks/useDocumentAnalyzer.ts:23 | a text with no digit and no m, n or b yields no time match |
| `NumberPattern.WordHasNoPercent` | src/hooks/useDocumentAnalyzer.ts:48 | the letters of a unit word matched case-insensitively are never `%` |
| `NumberPattern.UnitLength` | src/hooks/useDocumentAnalyzer.ts:48 | a matched `days?`, `weeks?` or `months?` stays within the text and contains no `%` |
| `NumberPattern.DurationLength` | src/hooks/useDocumentAnalyzer.ts:48 | a duration match (digits, an optional space, then day, week or month, singular or plural) stays within the text and contains no `%` |
| `NumberPattern.MatchAtShape` | src/hooks/useDocumentAnalyzer.ts:48 | a number match contains `%` exactly when it is digits followed by `%` |
| `NumberPattern.MatchesPercentShape` | src/hooks/useDocumentAnalyzer.ts:48 | of all the number matches in a text, those containing `%` are exactly the percentages |
| `NumberPattern.MatchesNeedDigits` | src/hooks/useDocumentAnalyzer.ts:48 | a text without digits yields no number match |
| `Collections.Filter` | src/hooks/useDocumentAnalyzer.ts:53 | `filter` keeps no more elements than it is given, and every one it keeps passes the test |
| `Collections.FilterMembership` | src/hooks/useDocumentAnalyzer.ts:53 | an element survives exactly when it was present and passes the test |
| `Collections.FilterAppend` | src/hooks/useDocumentAnalyzer.ts:93 | filtering a concatenation filters each part and keeps the survivors' order |
| `Collections.FilterNonEmpty` | src/hooks/useDocumentAnalyzer.ts:96 | the filter keeps something exactly when some element passes the test |
| `Collections.FilterKeepsAll` | src/hooks/useDocumentAnalyzer.ts:178 | when every element passes, the filter keeps the whole sequence |
| `Detector.PairsRecordsStep` | src/hooks/useDocumentAnalyzer.ts:92-118 | one more round of the loop over the opposing pairs appends the records of one more pair |
| `Detector.RoundAppends` | src/hooks/useDocumentAnalyzer.ts:92-118 | after one more round, the list built so far is the earlier records followed by the rounds done so far |
| `Detector.DetectContradictions` | src/hooks/useDocumentAnalyzer.ts:18-122 | the imperative detector, with its pushes and its loop over the four pairs, returns exactly the time, then numeric, then policy records of the passes |
| `DetectorProperties.CollectAppend` | src/hooks/useDocumentAnalyzer.ts:22-25 | collecting over two document lists one after the other collects each list in turn |
| `DetectorProperties.CollectHits` | src/hooks/useDocumentAnalyzer.ts:22-25 | every collected hit is a match in the document it names, and every match of every document is collected |
| `DetectorProperties.CollectNothing` | src/hooks/useDocumentAnalyzer.ts:47-50 | documents without matches give no hits |
| `DetectorProperties.SingleDocument` | src/hooks/useDocumentAnalyzer.ts:76-81 | one document's hits are its matches in scan order, tagged with its name |
| `DetectorProperties.DistinctCountAboveOne` | src/hooks/useDocumentAnalyzer.ts:28-29 | a set built from a list has more than one element exactly when the list holds two different strings |
| `DetectorProperties.TimePass` | src/hooks/useDocumentAnalyzer.ts:27-44 | the time pass reports at most one record, and reports one exactly when two matches differ once lower-cased; that record is high severity with one conflicting statement per match, in scan order |
| `DetectorProperties.TimePassSameTime` | src/hooks/useDocumentAnalyzer.ts:27-29 | when every match is the same time once lower-cased, the time pass reports nothing |
| `DetectorProperties.OneDocumentTimeConflict` | src/hooks/useDocumentAnalyzer.ts:22-44 | a single document holding two different times already gives a time record, and all of its documents are that one |
| `DetectorProperties.NumericPass` | src/hooks/useDocumentAnalyzer.ts:52-72 | the numeric pass considers only the matches containing `%`; it reports at most one record, exactly when two of those differ; that record is medium severity and lists exactly those matches |
| `DetectorProperties.NumericPassOnlyPercentages` | src/hooks/useDocumentAnalyzer.ts:47-72 | every statement of a numeric record is digits followed by `%`: no day, week, month or dollar match ever appears |
| `DetectorProperties.PolicyStatementsOfText` | src/hooks/useDocumentAnalyzer.ts:76-81 | the stored policy sentences are exactly the trimmed `.`-pieces that mention a keyword, and each stored sentence still mentions one |
| `DetectorProperties.KeywordsHaveNoSpace` | src/hooks/useDocumentAnalyzer.ts:75 | the six keywords are non-empty and contain no white space |
| `DetectorProperties.PairRound` | src/hooks/useDocumentAnalyzer.ts:92-117 | each opposing pair gives at most one record, exactly when some sentence contains the first keyword and some contains the second; the record is high severity, its id ends in the positive keyword, and its positive-keyword statements come before its negative-keyword ones (`DetectorProperties.PairStatements` says which statements they are) |
| `DetectorProperties.StatementsMembership` | src/hooks/useDocumentAnalyzer.ts:103-112 | the statements built from a list of hits are exactly a statement per hit, at the given location |
| `DetectorProperties.PairStatements` | src/hooks/useDocumentAnalyzer.ts:93-113 | a pair's record lists first a statement for every kept sentence that contains the positive keyword and for no other, then one for every kept sentence that contains the negative keyword and for no other |
| `DetectorProperties.PairsInOrder` | src/hooks/useDocumentAnalyzer.ts:85-92 | walking four pairs gives the records of each pair in turn |
| `DetectorProperties.PolicyPass` | src/hooks/useDocumentAnalyzer.ts:83-119 | one kept sentence or none gives no policy record; more give the records of the four pairs in their fixed order; at most four records, all high-severity policy conflicts |
| `DetectorProperties.PolicyRecordCoherent` | src/hooks/useDocumentAnalyzer.ts:101-113 | a policy record lists the same document names, in the same order, as its conflicting statements |
| `DetectorProperties.PolicyRecordsCoherent` | src/hooks/useDocumentAnalyzer.ts:96-117 | every record of the policy pass lists its documents in the order of its statements |
| `DetectorProperties.TimeShape` | src/hooks/useDocumentAnalyzer.ts:30-42 | the time pass gives at most one record, a high-severity time conflict whose documents match its statements |
| `DetectorProperties.NumericShape` | src/hooks/useDocumentAnalyzer.ts:57-69 | the numeric pass gives at most one record, a medium-severity numerical conflict whose documents match its statements |
| `DetectorProperties.PolicyShape` | src/hooks/useDocumentAnalyzer.ts:83-119 | the policy pass gives at most four records, high-severity policy conflicts whose documents match their statements |
| `DetectorProperties.ConcatenationOrdered` | src/hooks/useDocumentAnalyzer.ts:19-121 | time records, then numeric records, then policy records, come out in that kind order |
| `DetectorProperties.ConcatenationShape` | src/hooks/useDocumentAnalyzer.ts:19-121 | the concatenated passes are kind-ordered, hold no requirement conflict and nothing low, and a record is medium exactly when it is numeric |
| `DetectorProperties.DetectorOutput` | src/hooks/useDocumentAnalyzer.ts:18-122 | the detector returns at most six records: all time, then all numeric, then all policy records; none is a requirement conflict or low; medium exactly when numeric; documents always match statements |
| `DetectorProperties.NothingFound` | src/hooks/useDocumentAnalyzer.ts:18-122 | documents without times, numbers or policy sentences give no records |
| `Analyzer.BreakdownSums` | src/hooks/useDocumentAnalyzer.ts:140-144 | the high, medium and low counts add up to the number of records |
| `Analyzer.BuildReport` | src/hooks/useDocumentAnalyzer.ts:134-145 | the report carries the given id, time and records, lists the document names in order, counts the records as its total, and tallies them by severity so that the tally sums to the total |
| `Analyzer.BreakdownOfPasses` | src/hooks/useDocumentAnalyzer.ts:140-144 | over the passes' records no record is low and the medium ones are exactly the numeric records |
| `Analyzer.AnalysisBreakdown` | src/hooks/useDocumentAnalyzer.ts:132-145 | in every report of an analysis no issue is low, at most one is medium, and the rest are high |
| `Analyzer.RecordAnalysis` | src/hooks/useDocumentAnalyzer.ts:150-158 | an analysis of n documents adds n to the documents analyzed, one to the reports generated, n times 299 plus 499 cents to the bill, and sets the last analysis time |
| `Analyzer.BilledForFormula` | src/hooks/useDocumentAnalyzer.ts:150-156 | the total billed over a history is 299 cents per analyzed document plus 499 cents per report |
| `Analyzer.WithoutIdMembership` | src/hooks/useDocumentAnalyzer.ts:178 | removing an id keeps exactly the documents with another id |
| `Analyzer.WithoutIdAppend` | src/hooks/useDocumentAnalyzer.ts:178 | removal works piece by piece and keeps the remaining documents in order |
| `Analyzer.WithoutAbsentId` | src/hooks/useDocumentAnalyzer.ts:178 | removing an id no document carries changes nothing |
| `Analyzer.WithoutIdIdempotent` | src/hooks/useDocumentAnalyzer.ts:178 | removing the same id twice is removing it once |
| `Analyzer.AddThenRemove` | src/hooks/useDocumentAnalyzer.ts:164-179 | removing the id of a document just added gives back the earlier list, provided no earlier document shares that id |
| `Analyzer.DifferentReadingsDifferentIds` | src/hooks/useDocumentAnalyzer.ts:164-179 | documents added at different clock readings get different ids, so removing the first one's id keeps the second |
| `Analyzer.SameReadingSameId` | src/hooks/useDocumentAnalyzer.ts:164-179 | two documents added at the same clock reading get the same id, and removing it removes both |
| `Analyzer.DocumentAnalyzer.constructor` | src/hooks/useDocumentAnalyzer.ts:8-16 | the hook starts with no documents, no reports and zeroed counters with no last analysis |
| `Analyzer.DocumentAnalyzer.AnalyzeDocuments` | src/hooks/useDocumentAnalyzer.ts:124-162 | fewer than two documents: no report and nothing changes; otherwise the report of the detector's records is returned and put at the front of the unchanged history, and the counters are billed for it; the documents never change, and the history stays consistent with the counters |
| `Analyzer.DocumentAnalyzer.AddDocument` | src/hooks/useDocumentAnalyzer.ts:164-175 | the new document, with id `doc-` and the clock reading and with the file's name, size and type, is appended at the end; history and counters are unchanged, and stay consistent with each other |
| `Analyzer.DocumentAnalyzer.RemoveDocument` | src/hooks/useDocumentAnalyzer.ts:177-179 | the documents with that id are removed and the rest stay in order; history and counters are unchanged, and stay consistent with each other |
| `Analyzer.DocumentAnalyzer.ClearAll` | src/hooks/useDocumentAnalyzer.ts:181-183 | the document list becomes empty; history and counters are unchanged, and stay consistent with each other |
| `Scenarios.LastMatch` | src/hooks/useDocumentAnalyzer.ts:23 | a pattern that first matches at an offset and runs to the end of the text gives that tail as the only match |
| `Scenarios.ClockTimeAtEnd` | src/hooks/useDocumentAnalyzer.ts:23 | text without digits and without m, n or b, followed by `h:mm am` or `h:mm pm`, has that time as its only time match |
| `Scenarios.PercentageAtEnd` | src/hooks/useDocumentAnalyzer.ts:48 | text without digits or `$`, followed by digits and `%`, has that percentage as its only number match |
| `Scenarios.FirstLetterAbsent` | src/hooks/useDocumentAnalyzer.ts:93-94 | a sentence without the first letter of a keyword, in either case, does not contain that keyword |
| `Scenarios.OneSentence` | src/hooks/useDocumentAnalyzer.ts:77-80 | one keyword sentence ended by `.` gives that sentence alone |
| `Scenarios.KeywordsAreLowerCase` | src/hooks/useDocumentAnalyzer.ts:75 | every policy keyword is a non-empty word of lower-case letters |
| `Scenarios.LowerOfLowerCase` | src/hooks/useDocumentAnalyzer.ts:78 | lower-casing leaves lower-case text alone |
| `Scenarios.KeywordSentence` | src/hooks/useDocumentAnalyzer.ts:77-80 | a sentence ending in a keyword mentions it and is kept whole |
| `Scenarios.ClassHead` | src/hooks/useDocumentAnalyzer.ts:23 | `Class starts at ` holds nothing a time match can start with |
| `Scenarios.ClassStart` | src/hooks/useDocumentAnalyzer.ts:22-25 | `Class starts at h:mm am` or `pm`, in either case, gives that time as its only match |
| `Scenarios.ClassOnTheHour` | src/hooks/useDocumentAnalyzer.ts:22-25 | `Class starts at h:00 AM` or `PM`, for a one-digit hour, gives that time as its only match |
| `Scenarios.TwoDifferentTimes` | src/hooks/useDocumentAnalyzer.ts:27-44 | two times whose first characters differ once lower-cased give one time record over both |
| `Scenarios.ClassStartTimes` | src/hooks/useDocumentAnalyzer.ts:22-44 | documents saying class starts at 9:00 AM and at 2:00 PM give exactly one time record, listing both times in document order |
| `Scenarios.ClassSameTime` | src/hooks/useDocumentAnalyzer.ts:22-44 | two documents giving the same start time give no time record |
| `Scenarios.AttendanceHead` | src/hooks/useDocumentAnalyzer.ts:48 | `Attendance must be ` holds no digit and no `$` |
| `Scenarios.AttendanceAt` | src/hooks/useDocumentAnalyzer.ts:47-50 | `Attendance must be NN%` gives that percentage as its only number match |
| `Scenarios.AttendanceThresholds` | src/hooks/useDocumentAnalyzer.ts:47-72 | documents requiring 75% and 70% attendance give exactly one numerical record, listing both percentages in document order |
| `Scenarios.AttendancePolicy` | src/hooks/useDocumentAnalyzer.ts:76-81 | `Attendance is <keyword>.` is kept as the one policy sentence `Attendance is <keyword>` |
| `Scenarios.RequiredOptionalRound` | src/hooks/useDocumentAnalyzer.ts:92-117 | a required sentence and an optional sentence make the first pair report one high-severity policy record with id ending in `-required` |
| `Scenarios.PairFires` | src/hooks/useDocumentAnalyzer.ts:93-117 | a sentence with the first keyword of a pair and one with the second make that pair report exactly one high-severity policy record, whose id ends in the first keyword |
| `Scenarios.RequiredAndOptional` | src/hooks/useDocumentAnalyzer.ts:83-119 | with a required and an optional sentence, the policy pass's first record is that required against optional one |
| `Scenarios.AttendanceRequiredOrOptional` | src/hooks/useDocumentAnalyzer.ts:76-119 | documents saying attendance is required and attendance is optional give a high-severity policy record for required against optional, first in the policy output |
| `Scenarios.NoNegativeKeyword` | src/hooks/useDocumentAnalyzer.ts:94 | a sentence without o, p or f contains none of the negative keywords |
| `Scenarios.BadgePolicy` | src/hooks/useDocumentAnalyzer.ts:76-81 | `Badges are required.` is kept as the one policy sentence `Badges are required` |
| `Scenarios.RequiredStatements` | src/hooks/useDocumentAnalyzer.ts:94 | the two required sentences contain no negative keyword |
| `Scenarios.NegativeAbsent` | src/hooks/useDocumentAnalyzer.ts:96 | a pair whose negative keyword occurs in no sentence gives no record |
| `Scenarios.NoOpposition` | src/hooks/useDocumentAnalyzer.ts:83-119 | sentences with no negative keyword give no policy record |
| `Scenarios.NoOppositionInTwo` | src/hooks/useDocumentAnalyzer.ts:83-119 | two sentences with no negative keyword give no policy record |
| `Scenarios.OnlyRequired` | src/hooks/useDocumentAnalyzer.ts:76-119 | two documents that both say something is required give no policy record |
| `Scenarios.TwoDocuments` | src/hooks/useDocumentAnalyzer.ts:22-25 | two documents' hits are the first one's matches followed by the second one's |

## Left out

- The regular-expression engine is not modelled. The two patterns of the detector are written out by hand as scanners that give the match length at each offset, matched left to right and globally. The alternatives are tried in order at each offset, each with its longest choices; for these two patterns, backtracking inside an alternative never changes the result, so each scanner returns what the engine returns.
- `Text.Lower` folds only the letters A to Z, and keeps the length. JavaScript also folds other letters, and two of them lower-case to ASCII: the Kelvin sign U+212A to `k`, and U+0130 to `i` followed by U+0307. No keyword contains `k`, and every `i` in a keyword is followed by another letter rather than U+0307, so folding them would not change any keyword test the detector makes. The time comparison on lower-cased matches only involves pattern matches, whose letters are ASCII.
- Money is kept in integer cents (299 and 499). JavaScript adds the floating-point values 2.99 and 4.99, so its rounding error in `totalBilled` is not modelled.
- `Date.now()` and `new Date()` are modelled as a single clock reading passed to each operation. All the ids, the report time and `lastAnalysis` are made from that reading. Within one operation the source may read the clock more than once, and the model does not capture that.
- Every hit record also carries the document's `content`. No pass reads it, so the model drops it.
- The `isAnalyzing` flag, the two-second `setTimeout` delay, and React's `useState` and `useCallback` plumbing are left out. That includes callbacks that capture a stale `documents` list. `AnalyzeDocuments` runs as one step on the current state.
- JavaScript numbers are modelled as unbounded naturals: sizes, counters and clock readings.
- `ExternalSource` (src/types/index.ts:44-51) and all the UI components are not part of this model.
- The detector on its own reports records for a single document: one document holding two different times gives a time record (`DetectorProperties.OneDocumentTimeConflict`). Only `analyzeDocuments` refuses fewer than two documents.
- A policy record concatenates the positive-keyword statements and the negative-keyword statements. A sentence containing both keywords therefore appears in it twice.
- Two documents added at the same clock reading share an id, and removing that id removes both (`Analyzer.SameReadingSameId`).
