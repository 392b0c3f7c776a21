# JaCoCoReader coverage model

JaCoCoReader reads JaCoCo execution data into a coverage report of its own. It then answers set-algebra questions about test sessions: which lines any session covers, which lines all of them cover, and which lines only one session or one group of sessions covers. It can also compare two sessions, and save a report to JSON and load it back.

This project is a Dafny model of the reader's data model and of those operations:

- **Static registry** (`structure.dfy`, module `Structure`).
  - Packages own classes, classes own methods, and methods own lines, each as a value datatype.
  - A child names its parent by the parent's full name, which is what every lookup keys on.
  - The constructors that register a node with its parent are functions that return the parent with the new child added.
- **Coverage of one method** (`coverage.dfy`, module `Coverage`).
  - The covered lines of a method are a map from line number to line coverage.
  - Union keeps the larger covered-instruction count, retain keeps the smaller one, and subtract drops lines by number.
  - The three in-place loops of the source are methods proved against the functions `UnionLines`, `SubtractLines` and `RetainLines`.
- **Sessions** (`session.dfy`, module `Session`).
  - `JacocoSession` is a class whose `coverage` map its methods `Add`, `Remove` and `Retain` update in place.
  - Each of them is proved against `SessionUnion`, `SessionSubtract` and `SessionRetain`.
  - Those functions are characterised line by line through `Covers`.
- **The report** (`report.dfy`, module `Report`).
  - `JacocoCoverageReport` keeps its sessions by id in insertion order: a map plus the order of its keys.
  - Union, intersection (with the early break), the unique contribution of a session and of a group, and the lookup of sessions by id are methods.
  - Each method is proved against a fold over the sessions' coverage (`UnionAll`, `IntersectAll`, `UniqueOf`), whose meaning is proved line by line.
- **The difference of two sessions** (`diff.dfy`, module `Diff`): `computeDiff` and `containsDifference`.
- **Serialisation** (`serial.dfy`, module `Serial`).
  - Every entity is encoded to and decoded from a JSON tree datatype.
  - Round trips are proved for lines, methods, classes, packages, line and method coverage, sessions and whole reports.
  - `importReport` is a method that builds a fresh report and is proved against the pure decoder.
- **Generator helpers** (`filter.dfy`, module `Filter`).
  - The include/exclude class-file filter and the wildcard pattern translation, with a direct wildcard matcher for the regular expressions that translation produces.
  - The package and class name helpers.
- **Report format** (`format.dfy`, module `ReportFormat`): `Format.fromString` and the HTML fallback of `main`.
- **Shared helpers** (`util.dfy`, module `Util`): `Option`, sums over maps, trimming, integer printing and generated session ids.

The clock readings that the source puts into generated session ids are integer parameters: `millis` in the report, and `t1`/`t2`/`t3` in the difference. Both render them in decimal after the id's prefix and a space (`Util.StampedId`).

## Model

All source paths are under `src/main/java/at/scch/jacoco/reader/`; the table writes them in full.

| member | source | states |
|---|---|---|
| Structure.Identifier | src/main/java/at/scch/jacoco/reader/JacocoLine.java:52-54 | defines the identifier as the method full name, ':' and the line number in decimal; `IdentifierInjective` shows it tells lines of different methods or numbers apart |
| Structure.IdentifierInjective | src/main/java/at/scch/jacoco/reader/JacocoLine.java:52-54 | two lines with the same identifier (method full name, ':' and number) belong to the same method and have the same number |
| Structure.NewLine | src/main/java/at/scch/jacoco/reader/JacocoLine.java:24-30 | the new line keeps its number, totals and owner; it is registered in the method under its number; the method's name and complexity are unchanged; well-formedness is kept |
| Structure.Method.AddLine | src/main/java/at/scch/jacoco/reader/JacocoMethod.java:89-91 | afterwards `GetLine` of the line's number gives the line; every other number gives what it gave before; the line numbers grow by exactly that number |
| Structure.Method.GetLine | src/main/java/at/scch/jacoco/reader/JacocoMethod.java:70-72 | defines the lookup: the line stored under a number, None when there is none; `Method.AddLine` states how adding a line changes it |
| Structure.Method.NumberOfLines | src/main/java/at/scch/jacoco/reader/JacocoMethod.java:77-79 | defines the line count as the number of line numbers held; `AddLineCount` states how adding a line changes it |
| Structure.AddLineCount | src/main/java/at/scch/jacoco/reader/JacocoMethod.java:77-91 | adding a line raises the count by one exactly when its number is new; a replacement keeps the count |
| Structure.Method.FullName | src/main/java/at/scch/jacoco/reader/JacocoMethod.java:85-87 | defines the full name as the class full name, '.' and the signature; `NewMethod` builds it and the lookups `Clazz.GetMethodByFullName` and `MethodByFullName` key on it |
| Structure.Method.Name | src/main/java/at/scch/jacoco/reader/JacocoMethod.java:58-60 | defines getName as the trimmed signature text before the first '(', None where Java's split leaves no piece; characterised by `NameOfSignature` and `NameHasNoParen` |
| Structure.NameOfSignature | src/main/java/at/scch/jacoco/reader/JacocoMethod.java:58-60 | for a signature `name(args)`, getName is the trimmed text before the first '(' |
| Structure.NameHasNoParen | src/main/java/at/scch/jacoco/reader/JacocoMethod.java:58-60 | a method name never contains '(' |
| Structure.GetInstructions | src/main/java/at/scch/jacoco/reader/JacocoMethod.java:101-107 | the accumulator loop returns the sum of the lines' instruction totals |
| Structure.GetBranches | src/main/java/at/scch/jacoco/reader/JacocoMethod.java:93-99 | the accumulator loop returns the sum of the lines' branch totals |
| Structure.NewMethod | src/main/java/at/scch/jacoco/reader/JacocoMethod.java:41-48 | the new method's full name is the class full name, '.' and the signature; it has no lines; it joins the class's methods and nothing else changes in the class |
| Structure.Clazz.AddMethod | src/main/java/at/scch/jacoco/reader/JacocoClass.java:67-69 | set insertion: the methods afterwards are the old ones plus the new one, and a duplicate-free list stays duplicate-free |
| Structure.AddMethodIdempotent | src/main/java/at/scch/jacoco/reader/JacocoClass.java:67-69 | adding the same method twice is the same as adding it once |
| Structure.Clazz.GetMethodByFullName | src/main/java/at/scch/jacoco/reader/JacocoClass.java:53-61 | returns a method of the class with exactly that full name, and None exactly when no method of the class has it |
| Structure.NewClass | src/main/java/at/scch/jacoco/reader/JacocoClass.java:37-43 | the new class's full name is the package name, '.' and the class name; it has no methods and joins the package's classes |
| Structure.Clazz.FullName | src/main/java/at/scch/jacoco/reader/JacocoClass.java:75-77 | defines the class full name as the package name, '.' and the class name; `NewClass` builds it and `Package.GetMethodByFullName` prunes by it |
| Structure.Package.AddClass | src/main/java/at/scch/jacoco/reader/JacocoPackage.java:63-65 | set insertion: the classes afterwards are the old ones plus the new one |
| Structure.AddClassIdempotent | src/main/java/at/scch/jacoco/reader/JacocoPackage.java:63-65 | adding the same class twice is the same as adding it once |
| Structure.Package.GetMethodByFullName | src/main/java/at/scch/jacoco/reader/JacocoPackage.java:46-57 | a result has exactly the queried full name and lies in a class whose full name prefixes the query; None exactly when no such class holds such a method |
| Structure.MethodByFullName | src/main/java/at/scch/jacoco/reader/JacocoCoverageReport.java:47-58 | a result has exactly the queried full name and lies in a package whose name prefixes the query |
| Structure.FoundIsRegistered | src/main/java/at/scch/jacoco/reader/JacocoCoverageReport.java:47-58 | a method the report lookup finds is a method of some class of some package |
| Structure.RegisteredIsFound | src/main/java/at/scch/jacoco/reader/JacocoCoverageReport.java:47-58 | in a well-formed registry every registered method is found by its full name, because the search goes on past packages and classes that miss |
| Structure.LookupMissesOnlyUnregistered | src/main/java/at/scch/jacoco/reader/JacocoCoverageReport.java:47-58 | in a well-formed registry the lookup gives null exactly when no registered method has that full name |
| Coverage.MethodCoverage.IsLineCovered | src/main/java/at/scch/jacoco/reader/JacocoMethodCoverage.java:52-54 | defines a line as covered when its number has a record; `SubtractAndRetainCounts` and `Session.CoversLineMeaning` use it |
| Coverage.MethodCoverage.NumberOfLinesCovered | src/main/java/at/scch/jacoco/reader/JacocoMethodCoverage.java:56-58 | defines the covered-line count as the number of records; `SubtractAndRetainCounts` and `Session.JacocoSession.NumberOfLinesCovered` use it |
| Coverage.UnionLines | src/main/java/at/scch/jacoco/reader/JacocoMethodCoverage.java:85-101 | the covered line numbers of a union are those of either operand |
| Coverage.UnionLinesEntries | src/main/java/at/scch/jacoco/reader/JacocoMethodCoverage.java:87-99 | a line of one side keeps its record; a line of both keeps the larger covered-instruction count, and the receiver's record on ties |
| Coverage.SubtractLines | src/main/java/at/scch/jacoco/reader/JacocoMethodCoverage.java:107-115 | the covered numbers are the receiver's minus the operand's, whatever the counts, and survivors keep their record |
| Coverage.RetainLines | src/main/java/at/scch/jacoco/reader/JacocoMethodCoverage.java:122-143 | the covered line numbers of a retain are those of both operands |
| Coverage.RetainLinesEntries | src/main/java/at/scch/jacoco/reader/JacocoMethodCoverage.java:125-131 | a kept line has the smaller covered-instruction count, with the receiver's record on ties |
| Coverage.AddLinesCovered | src/main/java/at/scch/jacoco/reader/JacocoMethodCoverage.java:85-101 | the loop over the operand's entries yields the union of the line maps and keeps the receiver's method |
| Coverage.RemoveLinesCovered | src/main/java/at/scch/jacoco/reader/JacocoMethodCoverage.java:107-115 | the collect-then-remove loops yield the subtraction and keep the receiver's method |
| Coverage.RetainLinesCovered | src/main/java/at/scch/jacoco/reader/JacocoMethodCoverage.java:122-143 | the loop that replaces or marks entries, followed by the removal loop, yields the retain and keeps the receiver's method |
| Coverage.GetInstructionsCovered | src/main/java/at/scch/jacoco/reader/JacocoMethodCoverage.java:72-78 | the accumulator loop returns the sum of covered instructions over the lines |
| Coverage.GetBranchesCovered | src/main/java/at/scch/jacoco/reader/JacocoMethodCoverage.java:64-70 | the accumulator loop returns the sum of covered branches over the lines |
| Coverage.UnionCommutes | src/main/java/at/scch/jacoco/reader/JacocoMethodCoverage.java:85-101 | union gives the same lines and counts in either order |
| Coverage.UnionAssociates | src/main/java/at/scch/jacoco/reader/JacocoMethodCoverage.java:85-101 | union gives the same lines and counts however it is grouped |
| Coverage.UnionWithEmpty | src/main/java/at/scch/jacoco/reader/JacocoMethodCoverage.java:85-101 | the empty map is a unit of union on both sides |
| Coverage.RetainIdempotent | src/main/java/at/scch/jacoco/reader/JacocoMethodCoverage.java:122-143 | retaining a map with itself leaves it unchanged |
| Coverage.SubtractAndRetainPartition | src/main/java/at/scch/jacoco/reader/JacocoMethodCoverage.java:107-143 | subtracting and retaining the same operand split the receiver's line numbers into two disjoint parts |
| Coverage.SubtractAndRetainCounts | src/main/java/at/scch/jacoco/reader/JacocoMethodCoverage.java:107-143 | removing and retaining the same operand split a record: a line is covered exactly when one of the two results covers it, and their covered-line counts add up to the record's |
| Coverage.SubtractThenUnionIsLossy | src/main/java/at/scch/jacoco/reader/JacocoMethodCoverage.java:85-115 | subtracting and adding back an operand need not restore the union: counts can differ |
| Session.SessionUnion | src/main/java/at/scch/jacoco/reader/JacocoSession.java:82-93 | the method keys of a union are those of either session |
| Session.SessionSubtract | src/main/java/at/scch/jacoco/reader/JacocoSession.java:99-109 | a subtraction keeps only methods of the receiver |
| Session.SessionRetain | src/main/java/at/scch/jacoco/reader/JacocoSession.java:116-132 | a retain keeps only methods of both sessions |
| Session.CoversUnion | src/main/java/at/scch/jacoco/reader/JacocoSession.java:82-93 | a union covers a line exactly when either session covers it |
| Session.CoversSubtract | src/main/java/at/scch/jacoco/reader/JacocoSession.java:99-109 | a subtraction covers a line exactly when the receiver covers it and the operand does not |
| Session.CoversRetain | src/main/java/at/scch/jacoco/reader/JacocoSession.java:116-132 | a retain covers a line exactly when both sessions cover it |
| Session.OperationsKeepInvariants | src/main/java/at/scch/jacoco/reader/JacocoSession.java:99-132 | remove and retain leave no empty method entry, and add keeps that property; every entry stays keyed by its method's full name |
| Session.SessionUnionWithNothing | src/main/java/at/scch/jacoco/reader/JacocoSession.java:82-93 | adding an empty session changes nothing |
| Session.SessionSubtractNothing | src/main/java/at/scch/jacoco/reader/JacocoSession.java:99-109 | removing an empty session changes nothing |
| Session.MergeEntry | src/main/java/at/scch/jacoco/reader/JacocoSession.java:84-91 | one turn of add's loop: a missing method gets a fresh record merged with the entry, a present one is merged, and the result is the union with one more entry |
| Session.RetainFirstPass | src/main/java/at/scch/jacoco/reader/JacocoSession.java:117-128 | retain's first loop narrows every shared method and collects exactly the methods the operand lacks or that become empty |
| Session.RetainPassComplete | src/main/java/at/scch/jacoco/reader/JacocoSession.java:116-132 | removing the collected methods after the first pass gives exactly the retain |
| Session.JacocoSession.constructor | src/main/java/at/scch/jacoco/reader/JacocoSession.java:34-38 | a new session has its id and no coverage |
| Session.JacocoSession.AddCoverage | src/main/java/at/scch/jacoco/reader/JacocoSession.java:48-50 | stores the record under its method's full name, replacing any earlier one, and changes nothing else |
| Session.JacocoSession.GetCoverage | src/main/java/at/scch/jacoco/reader/JacocoSession.java:52-54 | defines the lookup: the record stored under a full name, None when there is none; `CoversLine` goes through it |
| Session.JacocoSession.CoversLine | src/main/java/at/scch/jacoco/reader/JacocoSession.java:56-63 | defines coversLine: false without a record for the line's method, otherwise whether that record covers the line's number; `CoversLineMeaning` characterises it |
| Session.CoversLineMeaning | src/main/java/at/scch/jacoco/reader/JacocoSession.java:56-63 | a session covers a line exactly when its coverage map covers the line's number under the line's method |
| Session.JacocoSession.NumberOfCoveredMethods | src/main/java/at/scch/jacoco/reader/JacocoSession.java:65-67 | defines the number of covered methods as the number of method entries; `Diff.ContainsDifferenceMeaning` says what it being zero means for a difference |
| Session.JacocoSession.NumberOfLinesCovered | src/main/java/at/scch/jacoco/reader/JacocoSession.java:69-75 | the accumulator loop returns the sum of the per-method line counts |
| Session.JacocoSession.Add | src/main/java/at/scch/jacoco/reader/JacocoSession.java:82-93 | the new coverage is the union of the old coverage and the operand's |
| Session.JacocoSession.Remove | src/main/java/at/scch/jacoco/reader/JacocoSession.java:99-109 | the new coverage is the old one minus the operand's, and emptied methods are dropped |
| Session.JacocoSession.Retain | src/main/java/at/scch/jacoco/reader/JacocoSession.java:116-132 | the new coverage is the retain of the old one and the operand's |
| Session.SessionUnionCommutes | src/main/java/at/scch/jacoco/reader/JacocoSession.java:82-93 | a union covers the same lines with the same counts in either order |
| Session.LinesOfUnion | src/main/java/at/scch/jacoco/reader/JacocoSession.java:82-93 | a union's lines for a method are the union of the two sessions' lines for it |
| Session.SessionUnionAssociates | src/main/java/at/scch/jacoco/reader/JacocoSession.java:82-93 | union covers the same lines with the same counts however it is grouped |
| Session.SessionUnionEmpty | src/main/java/at/scch/jacoco/reader/JacocoSession.java:82-93 | adding a session into an empty one copies it exactly |
| Session.SessionRetainIdempotent | src/main/java/at/scch/jacoco/reader/JacocoSession.java:116-132 | a session without empty entries retained with itself is unchanged |
| Session.EmptyStaysEmpty | src/main/java/at/scch/jacoco/reader/JacocoSession.java:99-132 | removing from or retaining into an empty session leaves it empty |
| Report.JacocoCoverageReport.constructor | src/main/java/at/scch/jacoco/reader/JacocoCoverageReport.java:37-41 | a new report holds the given packages and no sessions |
| Report.JacocoCoverageReport.AddSession | src/main/java/at/scch/jacoco/reader/JacocoCoverageReport.java:60-62 | the session is stored under its id, replacing an earlier one in place; a new id goes to the end of the order; `GetSession` then finds it |
| Report.JacocoCoverageReport.GetSession | src/main/java/at/scch/jacoco/reader/JacocoCoverageReport.java:64-66 | defines the lookup: the session filed under an id, None when there is none; `AddSession` states that it finds a session just filed |
| Report.JacocoCoverageReport.Sessions | src/main/java/at/scch/jacoco/reader/JacocoCoverageReport.java:68-70 | defines the sessions as those filed, in the order their ids were first added; `SessionsAreTheValues` characterises it |
| Report.JacocoCoverageReport.NumberOfSessions | src/main/java/at/scch/jacoco/reader/JacocoCoverageReport.java:72-74 | defines the number of sessions as the number of ids filed; `FilingCount` and `SessionsAreTheValues` characterise it |
| Report.FilingCount | src/main/java/at/scch/jacoco/reader/JacocoCoverageReport.java:60-74 | filing a session grows the number of sessions by one exactly when its id is new, and a replacement keeps the number |
| Report.JacocoCoverageReport.GetSessionsByIds | src/main/java/at/scch/jacoco/reader/JacocoCoverageReport.java:80-91 | null gives no sessions; otherwise exactly the sessions whose ids are listed, with unknown ids skipped |
| Report.SessionsAreTheValues | src/main/java/at/scch/jacoco/reader/JacocoCoverageReport.java:68-74 | the sessions in insertion order are exactly the map's values, each once |
| Report.JacocoCoverageReport.Union | src/main/java/at/scch/jacoco/reader/JacocoCoverageReport.java:112-118 | a fresh session named "union " and the clock reading in decimal, whose coverage is the union of the members' coverage before the call |
| Report.JacocoCoverageReport.Intersection | src/main/java/at/scch/jacoco/reader/JacocoCoverageReport.java:124-139 | a fresh session named "intersection " and the clock reading in decimal, whose coverage is the intersection of the members' coverage, the early break included |
| Report.JacocoCoverageReport.ReportUnion | src/main/java/at/scch/jacoco/reader/JacocoCoverageReport.java:96-98 | the union over all sessions of the report |
| Report.JacocoCoverageReport.ReportIntersection | src/main/java/at/scch/jacoco/reader/JacocoCoverageReport.java:104-106 | the intersection over all sessions of the report |
| Report.CoversUnionAll | src/main/java/at/scch/jacoco/reader/JacocoCoverageReport.java:112-118 | the union covers a line exactly when some member covers it, so an empty collection gives an empty session |
| Report.UnionAllCountIsMax | src/main/java/at/scch/jacoco/reader/JacocoCoverageReport.java:112-118 | the union's count for a line is at least every member's and equal to one member's count |
| Report.CoversIntersectAll | src/main/java/at/scch/jacoco/reader/JacocoCoverageReport.java:124-139 | the intersection covers a line exactly when the collection is non-empty and every member covers it |
| Report.IntersectAllCountIsMin | src/main/java/at/scch/jacoco/reader/JacocoCoverageReport.java:124-139 | the intersection's count for a line is at most every member's and equal to one member's count, so it is the smallest |
| Report.IntersectEmptyPrefix | src/main/java/at/scch/jacoco/reader/JacocoCoverageReport.java:132-134 | once the running intersection is empty, the remaining members cannot change it, so the break is harmless |
| Report.JacocoCoverageReport.UniqueContribution | src/main/java/at/scch/jacoco/reader/JacocoCoverageReport.java:145-157 | a fresh session named "unique " and the session id, holding the session's coverage minus that of every other report session, the early break included |
| Report.JacocoCoverageReport.UniqueContributionOfGroup | src/main/java/at/scch/jacoco/reader/JacocoCoverageReport.java:163-174 | a fresh union session holding the group's union minus the coverage of every report session outside the group |
| Report.RemoveOthers | src/main/java/at/scch/jacoco/reader/JacocoCoverageReport.java:148-155 | the loop that removes every session not skipped, with the break when nothing is left, yields the subtraction of all of them |
| Report.CoversSubtractEach | src/main/java/at/scch/jacoco/reader/JacocoCoverageReport.java:148-155 | the result covers a line exactly when the start covers it and no non-skipped session does |
| Report.SubtractEachEmptyPrefix | src/main/java/at/scch/jacoco/reader/JacocoCoverageReport.java:151-153 | once the running result is empty, later removals keep it empty, so the break is harmless |
| Report.CoversUniqueOf | src/main/java/at/scch/jacoco/reader/JacocoCoverageReport.java:145-174 | a unique contribution covers a line exactly when the start covers it and no session outside the skip set does |
| Report.UniqueInReport | src/main/java/at/scch/jacoco/reader/JacocoCoverageReport.java:145-174 | the same, stated over the report's sessions |
| Report.UniqueContributionMeaning | src/main/java/at/scch/jacoco/reader/JacocoCoverageReport.java:145-157 | a session's unique contribution covers exactly its lines that no other session of the report covers |
| Report.GroupContributionMeaning | src/main/java/at/scch/jacoco/reader/JacocoCoverageReport.java:163-174 | a group's unique contribution covers exactly the lines some member covers and no report session outside the group covers |
| Diff.UniqueOfPairIsOnlyA | src/main/java/at/scch/jacoco/reader/JacocoCoverageReport.java:145-157 | in a report of exactly two sessions, the unique contribution of one of them is the `onlyA` part of their difference, in either order of addition |
| Diff.JacocoSessionDiff.constructor | src/main/java/at/scch/jacoco/reader/JacocoSessionDiff.java:8-24 | the three parts are the constructor arguments and never change |
| Diff.ComputeDiff | src/main/java/at/scch/jacoco/reader/JacocoSessionDiffer.java:5-20 | three fresh sessions with their ids: onlyA is a minus b, common is a retained with b, and onlyB is b minus a |
| Diff.DiffPartitionsLines | src/main/java/at/scch/jacoco/reader/JacocoSessionDiffer.java:10-17 | onlyA and common split a's lines; onlyB and common split b's lines; no line is in two parts |
| Diff.DiffCounts | src/main/java/at/scch/jacoco/reader/JacocoSessionDiffer.java:10-14 | a line of onlyA keeps a's record; a line of common has the smaller count of a and b |
| Diff.UncoveredLineStaysInDifference | src/main/java/at/scch/jacoco/reader/JacocoSessionDiffer.java:10-11 | a line a covers and b does not keeps its method in onlyA |
| Diff.SubtractWitness | src/main/java/at/scch/jacoco/reader/JacocoSessionDiffer.java:10-11 | a method of onlyA exposes a line of a that b does not cover |
| Diff.JacocoSessionDiff.ContainsDifference | src/main/java/at/scch/jacoco/reader/JacocoSessionDiff.java:26-28 | defines containsDifference as onlyA or onlyB having a method entry; `ContainsDifferenceMeaning` characterises it for a computed difference |
| Diff.DifferenceMeansLinesDiffer | src/main/java/at/scch/jacoco/reader/JacocoSessionDiff.java:26-28 | for sessions without empty entries, onlyA or onlyB has an entry exactly when the sessions' covered lines differ |
| Diff.ContainsDifferenceMeaning | src/main/java/at/scch/jacoco/reader/JacocoSessionDiff.java:26-28 | containsDifference of a computed difference holds exactly when the two sessions cover different lines |
| Diff.DiffWithItself | src/main/java/at/scch/jacoco/reader/JacocoSessionDiffer.java:5-20 | a session compared with itself has empty one-sided parts and itself as the common part |
| Diff.EmptyEntryCountsAsDifference | src/main/java/at/scch/jacoco/reader/JacocoSessionDiff.java:26-28 | with an empty method entry, containsDifference can hold for sessions that cover the same lines |
| Serial.EncodeLine | src/main/java/at/scch/jacoco/reader/JacocoLine.java:56-62 | defines the line's JSON: number, instructions and branches; `LineRoundTrip` reads it back |
| Serial.DecodeLine | src/main/java/at/scch/jacoco/reader/JacocoLine.java:64-69 | a decoded line belongs to the method it is read into |
| Serial.LineRoundTrip | src/main/java/at/scch/jacoco/reader/JacocoLine.java:56-69 | a serialised line reads back with the same number, instructions and branches |
| Serial.DecodeLineRegisters | src/main/java/at/scch/jacoco/reader/JacocoLine.java:64-69 | deserialising constructs the line, which registers it in its method |
| Serial.EncodeMethod | src/main/java/at/scch/jacoco/reader/JacocoMethod.java:113-127 | defines the method's JSON: signature, complexity and its lines; `MethodRoundTrip` reads it back |
| Serial.DecodeMethod | src/main/java/at/scch/jacoco/reader/JacocoMethod.java:129-142 | a decoded method belongs to the class it is read into |
| Serial.MethodRoundTrip | src/main/java/at/scch/jacoco/reader/JacocoMethod.java:113-142 | a well-formed method reads back with the same signature, complexity and line map |
| Serial.DecodeMethods | src/main/java/at/scch/jacoco/reader/JacocoClass.java:98-103 | reading the methods keeps the class's owner and name |
| Serial.EncodeClass | src/main/java/at/scch/jacoco/reader/JacocoClass.java:79-92 | defines the class's JSON: name and its methods; `ClassRoundTrip` reads it back |
| Serial.DecodeClass | src/main/java/at/scch/jacoco/reader/JacocoClass.java:94-106 | a decoded class belongs to the package it is read into |
| Serial.DecodeMethodsRoundTrip | src/main/java/at/scch/jacoco/reader/JacocoClass.java:79-106 | distinct well-formed methods read back into an empty class give exactly those methods |
| Serial.ClassRoundTrip | src/main/java/at/scch/jacoco/reader/JacocoClass.java:79-106 | a well-formed class reads back with its name and methods |
| Serial.DecodeClasses | src/main/java/at/scch/jacoco/reader/JacocoPackage.java:86-91 | reading the classes keeps the package's name |
| Serial.DecodeClassesRoundTrip | src/main/java/at/scch/jacoco/reader/JacocoPackage.java:67-94 | distinct well-formed classes read back into an empty package give exactly those classes |
| Serial.EncodePackage | src/main/java/at/scch/jacoco/reader/JacocoPackage.java:67-80 | defines the package's JSON: name and its classes; `PackageRoundTrip` reads it back |
| Serial.DecodePackage | src/main/java/at/scch/jacoco/reader/JacocoPackage.java:82-94 | defines reading a package: its name, then its classes read into it one by one; `PackageRoundTrip` characterises it |
| Serial.PackageRoundTrip | src/main/java/at/scch/jacoco/reader/JacocoPackage.java:67-94 | a serialisable package reads back with its name and classes |
| Serial.EncodeLineCoverage | src/main/java/at/scch/jacoco/reader/JacocoLineCoverage.java:37-43 | defines the record's JSON: line number and the two covered counts; `LineCoverageRoundTrip` reads it back |
| Serial.DecodeLineCoverage | src/main/java/at/scch/jacoco/reader/JacocoLineCoverage.java:45-51 | a decoded record is the method's line with the stored number, carrying the two stored counts |
| Serial.LineCoverageRoundTrip | src/main/java/at/scch/jacoco/reader/JacocoLineCoverage.java:37-51 | a record whose line belongs to the method reads back unchanged |
| Serial.UnknownLineFails | src/main/java/at/scch/jacoco/reader/JacocoLineCoverage.java:45-51 | a line number the method lacks makes decoding fail |
| Serial.EncodeMethodCoverage | src/main/java/at/scch/jacoco/reader/JacocoMethodCoverage.java:145-158 | defines the record's JSON: the method's full name and its line records; `MethodCoverageRoundTrip` reads it back |
| Serial.DecodeMethodCoverage | src/main/java/at/scch/jacoco/reader/JacocoMethodCoverage.java:160-178 | a decoded record targets the method the report lookup finds for the stored name |
| Serial.MethodCoverageRoundTrip | src/main/java/at/scch/jacoco/reader/JacocoMethodCoverage.java:145-178 | a record whose method the registry holds reads back with the same lines and counts |
| Serial.EncodeSession | src/main/java/at/scch/jacoco/reader/JacocoSession.java:134-147 | defines the session's JSON: its id and its method records; `SessionRoundTrip` reads it back |
| Serial.DecodeSession | src/main/java/at/scch/jacoco/reader/JacocoSession.java:149-162 | a decoded session carries the stored id |
| Serial.SessionRoundTrip | src/main/java/at/scch/jacoco/reader/JacocoSession.java:134-162 | a session whose methods the registry holds reads back with its id and the same records |
| Serial.DeserializeSession | src/main/java/at/scch/jacoco/reader/JacocoSession.java:149-162 | the loop adding decoded records to a fresh session succeeds exactly when the session decodes, and gives its id and coverage |
| Serial.EncodeReport | src/main/java/at/scch/jacoco/reader/JacocoCoverageReport.java:189-209 | defines the report's JSON: its packages, then its sessions in order; `ReportRoundTrip` reads it back |
| Serial.Serialize | src/main/java/at/scch/jacoco/reader/JacocoCoverageReport.java:189-209 | defines serialize for a report object: its packages and its sessions in insertion order; `ExportImport` reads it back |
| Serial.DecodeReport | src/main/java/at/scch/jacoco/reader/JacocoCoverageReport.java:211-235 | defines importReport as a value: the packages, then every session read against them; `ReportRoundTrip` and `ImportReport` characterise it |
| Serial.FileSessions | src/main/java/at/scch/jacoco/reader/JacocoCoverageReport.java:227-232 | the ids in the order are exactly the keys of the sessions filed |
| Serial.ReportRoundTrip | src/main/java/at/scch/jacoco/reader/JacocoCoverageReport.java:189-235 | an encoded report decodes to the same packages and the same session entries in order |
| Serial.FileSessionsRestore | src/main/java/at/scch/jacoco/reader/JacocoCoverageReport.java:227-232 | filing the sessions written in insertion order restores that order and the coverage by id |
| Serial.ExportImport | src/main/java/at/scch/jacoco/reader/JacocoCoverageReport.java:189-235 | a serialised report decodes to the same packages and the same sessions by id, in the same order |
| Serial.ReadSession | src/main/java/at/scch/jacoco/reader/JacocoCoverageReport.java:228-232 | one turn of the import loop succeeds exactly when the session decodes, and files it in the report |
| Serial.AddSessionsFrom | src/main/java/at/scch/jacoco/reader/JacocoCoverageReport.java:227-232 | the import loop succeeds exactly when every session decodes, and leaves the report holding them filed by id |
| Serial.ImportReport | src/main/java/at/scch/jacoco/reader/JacocoCoverageReport.java:211-235 | succeeds exactly when the report decodes; gives a fresh valid report with the decoded packages and sessions |
| Filter.ReplaceChar | src/main/java/at/scch/jacoco/reader/JacocoReportGenerator.java:257 | replacing a character by text without it leaves no occurrence of it |
| Filter.NormalizePathMeaning | src/main/java/at/scch/jacoco/reader/JacocoReportGenerator.java:257 | every backslash becomes '/', every other character is kept, and no backslash remains |
| Filter.NormalizeWithoutBackslash | src/main/java/at/scch/jacoco/reader/JacocoReportGenerator.java:257 | a path without backslashes is left as it is |
| Filter.FileRegexFromPattern | src/main/java/at/scch/jacoco/reader/JacocoReportGenerator.java:292-296 | defines the regex as any prefix, then the pattern with '.', '*' and '?' replaced in three passes; `ThreePassesPerChar` and `RegexTokens` characterise it |
| Filter.ThreePassesPerChar | src/main/java/at/scch/jacoco/reader/JacocoReportGenerator.java:292-296 | the three replace passes translate the pattern character by character |
| Filter.PatternTokens | src/main/java/at/scch/jacoco/reader/JacocoReportGenerator.java:292-296 | '.' stands for '/', '*' for any run, '?' for any one character, and every other character for itself |
| Filter.RegexTokens | src/main/java/at/scch/jacoco/reader/JacocoReportGenerator.java:292-296 | the generated regular expression reads as a leading any-run followed by the pattern's tokens |
| Filter.PatternMatchesSuffix | src/main/java/at/scch/jacoco/reader/JacocoReportGenerator.java:259-260 | a path matches a pattern exactly when the pattern matches some suffix after a prefix with no line terminator |
| Filter.LiteralPatternMatchesItself | src/main/java/at/scch/jacoco/reader/JacocoReportGenerator.java:292-296 | a pattern without wildcards matches exactly its text with dots read as slashes |
| Filter.AnyPatternMatchesMeaning | src/main/java/at/scch/jacoco/reader/JacocoReportGenerator.java:258-265 | the search loop succeeds exactly when some pattern matches |
| Filter.IncludeClassFile | src/main/java/at/scch/jacoco/reader/JacocoReportGenerator.java:252-266 | defines includeClassFile: no or empty includes admit the path, otherwise some include must match its normalised form; `IncludeMeaning` characterises it |
| Filter.ExcludeClassFile | src/main/java/at/scch/jacoco/reader/JacocoReportGenerator.java:268-282 | defines excludeClassFile: no or empty excludes exclude nothing, otherwise some exclude must match; `ExcludeMeaning` characterises it |
| Filter.PassesFilter | src/main/java/at/scch/jacoco/reader/JacocoReportGenerator.java:248-250 | defines the three-argument filter as included and not excluded; `PassesFilterMeaning` characterises it |
| Filter.IncludeMeaning | src/main/java/at/scch/jacoco/reader/JacocoReportGenerator.java:252-266 | a null or empty include set admits every path, otherwise the normalised path must match some include |
| Filter.ExcludeMeaning | src/main/java/at/scch/jacoco/reader/JacocoReportGenerator.java:268-282 | a null or empty exclude set excludes nothing, otherwise the path is excluded when its normalised form matches some exclude |
| Filter.PassesFilterMeaning | src/main/java/at/scch/jacoco/reader/JacocoReportGenerator.java:248-250 | a path passes exactly when it is included and not excluded |
| Filter.FilterSeesNormalPath | src/main/java/at/scch/jacoco/reader/JacocoReportGenerator.java:248-282 | the filter gives the same verdict for a path and for its slash-normalised form |
| Filter.PackageName | src/main/java/at/scch/jacoco/reader/JacocoReportGenerator.java:334-337 | defines the package name as the name with every '/' replaced by '.'; `PackageNameMeaning` characterises it |
| Filter.ClassName | src/main/java/at/scch/jacoco/reader/JacocoReportGenerator.java:339-342 | defines the class name as the last piece of the name split at '/', None when there is no piece; `ClassNameAfterLastSlash` and `ClassNameOfSlashes` characterise it |
| Filter.PackageNameMeaning | src/main/java/at/scch/jacoco/reader/JacocoReportGenerator.java:334-337 | every '/' becomes '.', every other character is kept, and no '/' remains |
| Filter.ClassNameAfterLastSlash | src/main/java/at/scch/jacoco/reader/JacocoReportGenerator.java:339-342 | for a name not ending in '/', the class name is the whole text after its last '/' |
| Filter.ClassNameOfSlashes | src/main/java/at/scch/jacoco/reader/JacocoReportGenerator.java:339-342 | a name made only of slashes splits into nothing, so there is no class name |
| ReportFormat.ToUpper | src/main/java/at/scch/jacoco/reader/ReportGenerator.java:52 | upper-casing keeps the length and maps each character on its own |
| ReportFormat.UpperCharIs | src/main/java/at/scch/jacoco/reader/ReportGenerator.java:52 | a character upper-cases to an ASCII capital exactly when it is that capital, its lower-case form, or (for I and S) the dotless i or long s |
| ReportFormat.UpperIsName | src/main/java/at/scch/jacoco/reader/ReportGenerator.java:52-58 | a text upper-cases to a format's name exactly when it spells the name in any letter case |
| ReportFormat.FromString | src/main/java/at/scch/jacoco/reader/ReportGenerator.java:48-62 | defines fromString: null for null, otherwise the format whose name equals the upper-cased text, or null; `FromStringMeaning` characterises it |
| ReportFormat.ChooseFormat | src/main/java/at/scch/jacoco/reader/ReportGenerator.java:330-339 | defines the chosen format: the one -f names, HTML otherwise; `ChooseFormatMeaning` characterises it |
| ReportFormat.FromStringMeaning | src/main/java/at/scch/jacoco/reader/ReportGenerator.java:48-62 | null gives null; a text gives the format whose name it spells in any case, and null when it spells none |
| ReportFormat.ChooseFormatMeaning | src/main/java/at/scch/jacoco/reader/ReportGenerator.java:330-339 | the chosen format is the one -f spells, and HTML when the option is absent or unrecognised |
| Util.StampedId | src/main/java/at/scch/jacoco/reader/JacocoCoverageReport.java:112-118 | defines a generated id as the prefix, a space and the clock reading in decimal; `StampedIdInjective` characterises it |
| Util.StampedIdInjective | src/main/java/at/scch/jacoco/reader/JacocoSessionDiffer.java:6-8 | ids generated with the same prefix differ whenever the clock readings differ |

## Left out

- JSON text: tokenising, printing, indentation, and the file reads and writes of `exportReport` and `importReport` are not modelled. Encoding and decoding work on a JSON tree datatype.
- Iteration order: the source writes map and set contents in HashMap/HashSet order. The encoders take the entries in an arbitrary order, and the round trips compare maps, so they hold for every order.
- Object identity:
  - Classes and methods live in identity HashSets in the source. Here they are values in sequences, and `AddMethod`/`AddClass` drop an equal value rather than the same object.
  - Sessions are objects compared by reference, as in the source.
  - Line and method coverage records are values. The sharing of one `JacocoMethodCoverage` object between two sessions (aliasing) is therefore not modelled.
- Structure.NewLine, Structure.NewMethod, Structure.NewClass: registration files a copy of the child as it is at that moment, because the registry is made of values. A child changed later (a line added to a method after the method was registered in its class) must be added to its parent again. The model therefore matches registries built bottom-up, as the decoders build them; the source's shared mutable objects would see such later changes.
- Session.JacocoSession.Remove: requires that a session is not removed from itself. In the source that call mutates the map being iterated.
- Decode failures:
  - An unknown method name, or a line number its method lacks, makes decoding return a failure with the source's message.
  - The source prints the message and continues, and then dereferences null as soon as a line is read. Decoding an empty coverage list for an unknown method, which `JacocoMethodCoverage.deserialize` alone would accept with a null method, is also a failure here. Its only caller, `JacocoSession.deserialize`, then passes that record to `addCoverage`, which reads the null method's full name and throws, so `DecodeSession` and `ImportReport` fail exactly where the source does.
  - Missing fields and wrong JSON types are failures too. The type coercions of the JSON library's `getInt`/`getString` are not modelled.
- Integer width: the sums in `GetInstructions`, `GetBranches`, `GetInstructionsCovered`, `GetBranchesCovered` and `NumberOfLinesCovered` are unbounded integers. Java's 32-bit and 64-bit overflow is not modelled.
- Generated ids: `System.currentTimeMillis()` is an integer parameter (`millis`, `t1`, `t2`, `t3`), written in decimal after the prefix and a space.
- Regular expressions: the filter's pattern language is matched directly. Regex metacharacters other than the translated `.`, `*` and `?` (`$`, `[`, `+` and so on) are read as literal characters; the source passes them to `String.matches`.
- Characters: strings here are sequences of Unicode scalar values, while Java strings are sequences of UTF-16 code units. A Java string holding an unpaired surrogate has no counterpart, and indices and lengths count code points rather than UTF-16 units. For the filter this matches the source: Java's regex `.` (what a `?` wildcard becomes) consumes one code point, a surrogate pair included, just as the model's any-character token consumes one character. Line terminators beyond `\n`, `\r`, U+0085, U+2028 and U+2029 get no special treatment.
- ReportFormat.ToUpper: models `String.toUpperCase` only for the ASCII letters and the two non-ASCII characters whose upper case is an ASCII letter (dotless i and long s). Other characters are kept, which cannot change whether a text spells a format name.
- Filter.ClassName: the source throws `ArrayIndexOutOfBoundsException` for a name made only of slashes; the model gives None.
- ExecutionDataVisitor.java is not part of this model: its probe merging lives in the JaCoCo library.
- The rest of JacocoReportGenerator.java is not part of this model: execution-file parsing, the class-file and archive walk, the JaCoCo analyzer, and signature naming. Two details there also stay outside:
  - line 324 passes the covered branch count where the record expects covered instructions, and the reverse;
  - lines 214, 228 and 235 call `isEmpty()` on include and exclude sets that can be null.
- The rest of ReportGenerator.java is not part of this model: command-line parsing, report rendering, and output files. Only `Format.fromString` and the format fallback are modelled.
- Covered counts are not checked against the line totals, in the model as in the source.
