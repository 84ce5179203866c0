# Verification of the repository's decision logic

These Dafny modules model the scripts whose results other steps of the project rely on, and prove what those results
mean. Each operation that the scripts carry out step by step is a method, proved against a specification function;
the lemmas then say what that function promises over every input, every run or every trace.

## What is modelled

**Test sharding.** `compute_shard_balance` (`ShardBalance`) sorts the tests by weight and gives each to the lightest
shard, updating two arrays in place. `Schedule` holds the scheduling theory behind it, over exact real numbers: the load
gap, the list-scheduling bound and the approximation ratio 4/3 - 1/(3m) of longest-processing-time scheduling (R. L.
Graham, "Bounds on Multiprocessing Timing Anomalies", 1969); `Tightness` is the family of job lists that attains it for
every number of shards, and `TightBalance` the same as durations that `compute_shard_balance` is given. `BalanceReport`
reads every reported number off the names on the shards.

**Documentation claims.** `Candidates` and `CandidateScan` are the scanner with its code-fence flag and its
content-derived ids, `CandidateText` what becomes of links, marks and white space and of the other fields;
`CandidateShards` splits the table over shard files and reads them back; `LedgerGenerator` triages candidates into a
ledger; `DispositionRules`, `RegistryIds` and `RegistryLinks` are the separately written checkers, whose silence is
characterised, for the ten ledger checks together in `LedgerVerdict`, and whose errors are, row by row, in
`LedgerReports` and `RegistryReports`; `Pipeline` joins the stages; `DispositionDiff` compares two ledgers and
`DiffReports` says what is listed and counted.

**Workflow gates.** `WorkflowParser` is the line scanner over workflow text, `WorkflowPrinter` an abstract syntax with a
printer. `PrintedLines`, `WorkflowRuns` and `WorkflowUses` say what the parser reads on printed lines, and
`WorkflowRoundTrip` for exactly which jobs it undoes the printer. `JobHeaders` says which jobs are found in any text.
`ShardMatrix` reads a job's test matrix, `GateChecks` is the verdict computed from the parsed jobs, and `GateReports`
says of each problem when it is reported.

**Review feedback.** `FeedbackImport` is the append-only review store, `ImportRules` what it asks of an entry and
writes; `DuplicateGroups` groups and marks the entries of an export.

**Diagnostic pack.** `LifecycleJoin` joins candidates with approvals and executions through dictionaries, and
`LifecycleEntries` reads each entry off the artifacts; `TopNextChecks` is the bounded collector with its early exits.

**Image preflight.** `ImageRef` parses image references (what it yields is put into the pull address of section "Pulling
manifests" of the OCI Distribution Specification); `PullClassifier` and `NodePull` are the failure scans and the poll
loop over an arbitrary trace of the cluster's answers, and `PullReports` says what a report contains.

`Text`, `Ordering`, `Wrappers` and `Checks` hold what several modules share: Python's string operations, string order
and sorted sets, optional values, and the check-result object with its error list.

## Assumptions

- SHA-1 and SHA-256 prefixes are functions that do not collide on the inputs at hand, and UUIDs are eight-character
  texts that occur nowhere yet; each theorem that needs this says so in a precondition. The one exception is the set of
  keys by which an import counts repeats in its own file: it holds the hashed texts themselves.
- Claim-type detection is an arbitrary function from texts to lists of type names.
- A table written to a file is read back as it was; a directory is a map from file names to rows.

## Where the code departs from its apparent intent

- `DOC-CLAIM-\d{4}` accepts decimal digits of every script. Registries written in a given set of digits always count up
  exactly when of two of these characters the later one is the larger digit (`PassingCountsUpExactly`), which holds for
  the digits of any one script (`OneScriptInOrder`); `OtherScriptsBreakTheOrder` is a registry in two scripts that
  passes every id check and counts down. `CuratedTestAgrees` says exactly when the string test for curated claims is the
  numeric one.
- The check of high-risk notes also rejects a candidate of the default route when its document path contains one of the
  generic phrases: `RowHighRisk`, `GeneratedHighRisk`, and `DefaultRouteCanFail` for the scan of a one-line document
  below `docs` (`PathWitnessIsFound`).
- With a 101st shard in use the rows come back in another order (`ShardRoundTripExactly`), since two-digit names stop
  sorting numerically. Shards of an earlier, larger run are read back too (`ReshardReadsBack`), after the new rows
  exactly while at most 100 shards are used and the old ones sort after them (`ReshardInOrderExactly`); rows of an old
  shard 100 come between new ones as soon as twelve shards are used (`StaleHundredComesBetween`).
- Notes longer than 120 characters are shortened in the diff, so a diff is a patch exactly when the changed notes are
  short (`DiffIsPatch`).
- The workflow parser reads any line that begins with `needs:` or `uses:` as that key, also inside a script, and a job's
  header as a key when the job is named `needs`, `uses` or `run`. A job is read as it is meant exactly when it
  `ReadsCleanly` (`JobRoundTrip`); `ScriptLineSetsNeeds`, `ScriptLineAddsAction` and `ReservedNames` are jobs that are
  not.
- A dry run of the import announces too few skipped entries: it misses one for every entry that repeats an earlier one
  and is not on record yet (`DryRunForecast`). It is right exactly when there is none (`DryRunIsRightExactly`), and
  `ForecastCanBeWrong` is an import where it is not.
- The guard against empty duplicate keys never fires, so entries without any text form one group (`KeyIsNeverEmpty`). A
  bar within a part moves freely between parts, so different entries can share a key (`BarsMoveBetweenParts`); without
  bars in family and description keys agree exactly for entries that agree part by part (`KeysAgreeExactly`). The
  scanner's code-block test never fires on a stripped line either (`CodeBlockTestIsIdle`).
- A payload index of 0 is dropped by an `or` chain, so an approval or execution that names its candidate by that index
  alone is not found (`PayloadIndexZeroIsLost`).
- The limit of six next checks is missed exactly when the external loop is entered, after sections that did not fill the
  list, and its first round leaves more than six (`Overflows`, `SizeOfTop`); eight are reached (`EightIsReached`).
- A tag may contain slashes. A reference shares its manifest address with another one exactly when its repository and
  tag can be cut at another place (`SharesAddressExactly`); `TwoImagesOneAddress` gives two image texts.
- The two scans for pull failures know different phrases and can classify one message differently
  (`ScansDisagreeExactly`).
- The message reported with a pull failure is that of the pod's first container, also when another container's reason is
  reported; `MessageIsOwnExactly` says when they agree and `AnotherMessageIsReported` is a pod where they do not. The
  script's own pod has one container, and then they agree: it takes a second one, injected by the cluster.
- A shard index that is no integer makes the gate check raise instead of reporting an error (`RaisesExactly`).

## Model

| member | source | states |
|---|---|---|
| ShardBalance.PlaceTests | scripts/_duration_utils.py:113-119 | the placing loop leaves in the two arrays the loads and the test lists of greedy placement, heaviest test first, each onto the first lightest shard |
| ShardBalance.ComputeShardBalance | scripts/_duration_utils.py:109-133 | the reported metrics are those of that placement; tests without shards are an error, no tests at all are not |
| BalanceReport.ReportedShards | scripts/_duration_utils.py:113-129 | each weight reported is the sum of the durations of the names on that shard, each count their number, in shard order, and the number of shards is the one asked for |
| BalanceReport.ReportedExtremes | scripts/_duration_utils.py:121-132 | the least and the greatest weight are weights of shards and bound all of them, and the ratio is theirs, infinite when the least is not positive |
| BalanceReport.ReportWithoutShards | scripts/_duration_utils.py:109-133 | without shards there is an empty report when there are no tests and otherwise an error |
| BalanceReport.PlacingOrderIsSorted | scripts/_duration_utils.py:111-115 | tests are placed heaviest first, those of one weight by name, each with its own duration |
| ShardBalance.BalanceApproximation | scripts/_duration_utils.py:111-121 | for every map of non-negative durations, every shard count m and every placement of the same tests, the heaviest reported shard is at most 4/3 - 1/(3m) times the heaviest shard of that placement |
| Tightness.RatioIsAttained | scripts/_duration_utils.py:116-119 | the ratio cannot be improved for any m: on the jobs 2m-1, 2m-1, .., m+1, m+1, m, m, m greedy placement loads a shard with 4m-1 and a rival none with more than 3m |
| Tightness.EveryLoadIsAverage | scripts/_duration_utils.py:116-119 | before the last of these jobs every shard carries 3m-1 |
| TightBalance.RatioIsReported | scripts/_duration_utils.py:109-133 | so for every number m of shards there are durations for which the reported maximum is 4m-1 and some placement's heaviest shard carries 3m |
| ShardBalance.EachTestOnOneShard | scripts/_duration_utils.py:113-119 | every test id is on exactly one shard, once, and the shards hold nothing else |
| ShardBalance.BalanceConserves | scripts/_duration_utils.py:111-133 | the total weight reported is the sum of the durations in the map, and the shard counts add up to the number of tests |
| ShardBalance.BalanceLoadGap | scripts/_duration_utils.py:116-119 | without its last placed test no shard is heavier than the lightest one |
| ShardBalance.BalanceAgainstTotal | scripts/_duration_utils.py:111-133 | m times the heaviest shard is at most the total plus m - 1 times the largest test |
| ShardBalance.AcceptedExactly | scripts/_duration_utils.py:136-141 | the threshold check accepts exactly when the lightest shard is not empty and the heaviest is at most k times it; the quotient is always defined |
| ShardBalance.SmallTestsAreAccepted | scripts/_duration_utils.py:109-141 | when no test exceeds k - 1 times the lightest shard, the check accepts the balance at k |
| Schedule.LoadGap | scripts/_duration_utils.py:116-119 | the load gap for any job list and any two shards |
| Schedule.ListSchedulingBound | scripts/_duration_utils.py:116-119 | the 2 - 1/m stage: every load is bounded by the average and the largest job, for jobs in any order |
| Schedule.RivalPair | scripts/_duration_utils.py:116-119 | when every job exceeds a third of a rival's heaviest load, the rival must pair the last job with a large one |
| Schedule.SomeShardIsLight | scripts/_duration_utils.py:116-119 | and the greedy placement then has a shard no heavier than that partner |
| Schedule.LptApproximation | scripts/_duration_utils.py:116-119 | the approximation ratio for job lists in descending order against every rival assignment |
| Candidates.ScanDocument | scripts/docs_claim_candidates_rules.py:124-204 | a scanned document yields its candidates in order, an unreadable one an error |
| Candidates.CollectLines | scripts/docs_claim_candidates_rules.py:139-202 | the loop with the code-fence flag appends what the lines outside fences offer |
| Candidates.ScanIsExact | scripts/docs_claim_candidates_rules.py:139-204 | a line yields a candidate exactly when it is no fence, an even number of fences precede it and it passes the filters; candidates come in line order |
| CandidateText.LinkBecomesCaption | scripts/docs_claim_candidates_rules.py:115-121 | a link with a caption and a target becomes its caption, and the rest is read on |
| CandidateText.NoLinkIsKept | scripts/docs_claim_candidates_rules.py:115-121 | where no link begins the character is kept |
| CandidateText.LinkInside | scripts/docs_claim_candidates_rules.py:115-121 | text before the first bracket is kept, the link after it becomes its caption |
| CandidateText.WithoutLinks | scripts/docs_claim_candidates_rules.py:115-121 | a text in which no link begins is kept |
| CandidateText.DropMarksOfOne | scripts/docs_claim_candidates_rules.py:115-121 | of one character nothing is left when it is one of the four marks, and otherwise itself |
| CandidateText.DropMarksJoined | scripts/docs_claim_candidates_rules.py:115-121 | and of a text what is left of its parts, in order |
| CandidateText.WordAndGap | scripts/docs_claim_candidates_rules.py:115-121 | a word stays and the run of white space after it becomes one blank |
| CandidateText.LinkedLineText | scripts/docs_claim_candidates_rules.py:115-204 | the candidate of a line of prose with a link has the prose with the link's caption as its text |
| CandidateText.CandidateFields | scripts/docs_claim_candidates_rules.py:26-204 | the candidate's text, types, path, class, status, line number, anchor and the text its id is the digest of |
| CandidateText.SeverityExactly | scripts/docs_claim_candidates_rules.py:51-64 | severity is high for security and source-of-truth types, medium for four others, else low |
| CandidateText.StatusExactly | scripts/docs_claim_candidates_rules.py:67-77 | the registration status by class and status of the document |
| CandidateText.TakenExactly | scripts/docs_claim_candidates_rules.py:139-170 | a line is taken exactly when it is not blank, no table rule, no heading but of levels one to four, and its text is long enough and makes a claim |
| CandidateText.InfoExactly | scripts/docs_claim_candidates_rules.py:124-132 | a document has the class, status and trace flag of its first inventory row, and without one is unknown |
| CandidateScan.ScanAllDocuments | scripts/scan_docs_claim_candidates.py:42-67 | candidates and errors of all documents, in order |
| CandidateScan.CandidateIsScanned | scripts/docs_claim_candidates_rules.py:139-204 | every candidate has at least thirty characters, a digest id of its own fields, and is unregistered |
| CandidateScan.PreimageNamesOrigin | scripts/docs_claim_candidates_rules.py:26-32 | with bar-free paths the hashed text determines document and line |
| CandidateScan.ScannedIdsAreDistinct | scripts/docs_claim_candidates_rules.py:26-32 | ids are pairwise distinct over all documents when paths are distinct and bar-free and the digest does not collide |
| CandidateScan.CodeBlockTestIsIdle | scripts/docs_claim_candidates_rules.py:80-82 | the code-block test is false on every stripped line that is no fence |
| CandidateShards.Store.ShardCsv | scripts/docs_claim_candidates_shard.py:27-62 | the directory after the writing loop, and the paths returned; empty chunks write nothing and delete nothing |
| CandidateShards.Store.ReadAllShards | scripts/docs_claim_candidates_shard.py:65-94 | the shards' rows in name order, or the main table when there is no shard |
| CandidateShards.NamesInOrder | scripts/docs_claim_candidates_shard.py:17-24 | below 100, name order is numeric order |
| CandidateShards.HundredSortsBeforeEleven | scripts/docs_claim_candidates_shard.py:17-24 | at 100 it is not |
| CandidateShards.ReshardReadsBack | scripts/docs_claim_candidates_shard.py:27-94 | sharding over any old shards, however numbered or named, reads back the new rows followed by those of the shards not overwritten, in name order, when at most 100 are used and those sort after them |
| CandidateShards.StaleBelow100 | scripts/docs_claim_candidates_shard.py:27-94 | which old shards numbered below 100 do |
| CandidateShards.ReshardInOrderExactly | scripts/docs_claim_candidates_shard.py:27-94 | and for distinct rows and no empty old shard only then |
| CandidateShards.StaleHundredComesBetween | scripts/docs_claim_candidates_shard.py:27-94 | with twelve to 100 shards in use, an old shard 100 is read between the used shards 10 and 11 |
| CandidateShards.ShardRoundTrip | scripts/docs_claim_candidates_shard.py:27-94 | from a directory without shards, with at most 100 in use, reading gives the rows written |
| CandidateShards.ShardRoundTripExactly | scripts/docs_claim_candidates_shard.py:27-94 | and for distinct rows only then |
| CandidateShards.ShardSizes | scripts/docs_claim_candidates_shard.py:40-60 | every used shard but the last holds exactly ceil(n/k) rows, the last at least one |
| CandidateShards.ShardsAreTheUsedOnes | scripts/docs_claim_candidates_shard.py:40-62 | from a directory without shards, the shards present afterwards are exactly those numbered below the used count |
| CandidateShards.ChunksFitShards | scripts/docs_claim_candidates_shard.py:40-46 | the used count is positive and at most the number asked for |
| CandidateShards.ShardSizeExactly | scripts/docs_claim_candidates_shard.py:40-40 | the size of a shard is the least with which all rows fit into the shards asked for |
| CandidateShards.NamesReturned | scripts/docs_claim_candidates_shard.py:41-62 | the paths returned are those of the used shards, in order |
| CandidateShards.ReadWithoutShards | scripts/docs_claim_candidates_shard.py:70-82 | without shards the main table is read, when there is one |
| ClaimIds.AsciiOrder | scripts/docs_claims_registry_rules.py:124-137 | for ids in ASCII digits string order is numeric order |
| ClaimIds.CuratedTestAgrees | scripts/docs_claims_registry_rules_candidates.py:73-75 | the string test against DOC-CLAIM-0019 agrees with the numeric one exactly for ids that are numerically at least 19, ASCII, or begin with three ASCII zeros |
| ClaimIds.SortedIdsCountUp | scripts/docs_claims_registry_rules.py:105-137 | sorted distinct ids in digits whose character order is their numeric order have strictly increasing numbers |
| ClaimIds.CountingUpExactly | scripts/docs_claims_registry_rules.py:105-137 | for any set of digits, all sorted distinct id lists written in them count up if and only if a later character is always a larger digit |
| ClaimIds.CountingUpIsBounded | scripts/docs_claims_registry_rules.py:105-137 | ids that count up are at most 10000 |
| ClaimIds.OneScriptInOrder | scripts/docs_claims_registry_rules.py:105-137 | which it is for the digits of any one script |
| ClaimIds.OtherScriptsBreakTheOrder | scripts/docs_claims_registry_rules.py:105-137 | two ids that pass all id checks and count down |
| RegistryIds.CheckClaimIdFormat | scripts/docs_claims_registry_rules.py:105-121 | the errors of the format check |
| RegistryIds.CheckNoDuplicateIds | scripts/docs_claims_registry_rules.py:64-79 | the errors of the duplicate check, each naming the first row of the id |
| RegistryIds.CheckClaimIdsSorted | scripts/docs_claims_registry_rules.py:124-137 | the errors of the sortedness check |
| RegistryIds.NoDuplicateProblems | scripts/docs_claims_registry_rules.py:64-79 | the duplicate check is silent exactly when the ids are pairwise different |
| RegistryIds.PassingIds | scripts/docs_claims_registry_rules.py:64-137 | the three id checks are silent exactly when all ids are well-formed, distinct and sorted |
| RegistryIds.RegistryCountsUp | scripts/docs_claims_registry_rules.py:64-137 | a registry that passes the three checks, written in such digits, has strictly increasing numbers and at most 10000 claims |
| RegistryIds.PassingCountsUpExactly | scripts/docs_claims_registry_rules.py:64-137 | every registry in the given digits that passes the checks counts up if and only if a later character is always a larger digit |
| RegistryIds.AsciiRegistryCountsUp | scripts/docs_claims_registry_rules.py:64-137 | so every passing registry in ASCII digits counts up |
| ClaimIds.ClaimIdExactly | scripts/docs_claims_registry_rules.py:105-121 | a claim id is the prefix and four digits |
| ClaimIds.CandidateIdExactly | scripts/docs_claims_registry_rules_candidates.py:91-97 | a candidate id is the prefix and twelve characters from 0 to 9 and a to f |
| RegistryReports.FormatReported | scripts/docs_claims_registry_rules.py:105-121 | the format check lists exactly the rows whose id is blank or malformed, by number |
| RegistryReports.DuplicatesReported | scripts/docs_claims_registry_rules.py:64-79 | a duplicate is listed for every row that repeats an id, with the number of the first row that has it |
| DispositionRules.CheckNoDuplicateDispositions | scripts/docs_claim_disposition_rules.py:48-64 | the errors of the duplicate check, blank ids passed over |
| DispositionRules.CheckDispositionEnumValid | scripts/docs_claim_disposition_rules.py:67-81 | the loop reports what the disposition check asks of each row; `LedgerVerdict.DispositionsHold` says when nothing |
| DispositionRules.CheckReasonCodeEnumValid | scripts/docs_claim_disposition_rules.py:84-109 | the loop reports what the reason-code check asks of each row; `LedgerVerdict.ReasonsHold` says when nothing |
| DispositionRules.CheckClaimIdValid | scripts/docs_claim_disposition_rules.py:112-136 | the loop reports what the claim-reference check asks of each row; `LedgerVerdict.ClaimsHold` says when nothing |
| DispositionRules.CheckCoveredByClaimIdValid | scripts/docs_claim_disposition_rules.py:139-163 | the loop reports what the covering-claim check asks of each row; `LedgerVerdict.CoveringClaimsHold` says when nothing |
| DispositionRules.CheckCandidateIdValid | scripts/docs_claim_disposition_rules.py:166-185 | the errors of the candidate-id check, row by row |
| DispositionRules.CheckReviewedAtValid | scripts/docs_claim_disposition_rules.py:188-197 | the loop reports what the review-date check asks of each row; `LedgerVerdict.ReviewsHold` says when nothing |
| DispositionRules.CheckReviewerNotesRequired | scripts/docs_claim_disposition_rules.py:200-213 | the loop reports what the notes check asks of each row; `LedgerVerdict.ReviewsHold` says when nothing |
| DispositionRules.CheckAllCandidatesHaveDisposition | scripts/docs_claim_disposition_rules.py:216-245 | the errors of the completeness check, in both directions |
| DispositionRules.CheckHighRiskIgnoredHasSpecificNotes | scripts/docs_claim_disposition_rules.py:327-391 | the errors of the high-risk notes check, row by row |
| DispositionRules.NoDuplicateProblems | scripts/docs_claim_disposition_rules.py:48-64 | the duplicate check is silent exactly when no two rows share an id that is not blank |
| DispositionRules.CompletenessHolds | scripts/docs_claim_disposition_rules.py:216-245 | the completeness check is silent exactly when the ledger's ids are the candidate ids |
| DispositionRules.LedgerIsBijection | scripts/docs_claim_disposition_rules.py:48-245 | the duplicate, candidate-id and completeness checks are all silent exactly when the ledger lists every candidate id once, well-formed, and nothing else |
| DispositionRules.LedgerCounts | scripts/docs_claim_disposition_rules.py:48-245 | then there are as many rows as candidates |
| LedgerVerdict.SilentExactly | scripts/docs_claim_disposition_rules.py:48-391 | all ten checks are silent exactly when every candidate id has exactly one row and nothing else has, ids are well-formed, every row has an allowed disposition, a reason, claims and covering claims of the registry where required, a date and notes, and no high-risk statement is dismissed with a generic note |
| LedgerVerdict.ReasonsHold | scripts/docs_claim_disposition_rules.py:84-109 | the reason-code check is silent exactly when every reason is allowed and every dismissal gives one |
| LedgerVerdict.DispositionsHold | scripts/docs_claim_disposition_rules.py:67-81 | the disposition check is silent exactly when every disposition is allowed, blank ones included |
| LedgerVerdict.ClaimsHold | scripts/docs_claim_disposition_rules.py:112-136 | the claim-reference check is silent exactly when registered rows name well-formed claims of the registry |
| LedgerVerdict.CoveringClaimsHold | scripts/docs_claim_disposition_rules.py:139-163 | likewise for the covering claims of covered rows |
| LedgerVerdict.ReviewsHold | scripts/docs_claim_disposition_rules.py:188-213 | the date and notes checks are silent exactly when every row is dated and has notes unless its disposition allows none |
| LedgerVerdict.NotesAreSpecific | scripts/docs_claim_disposition_rules.py:327-391 | the high-risk check is silent exactly when no high-risk statement is dismissed with a generic note |
| LedgerVerdict.EveryCandidateIsSettled | scripts/docs_claim_disposition_rules.py:48-245 | each candidate id then has one sound row and no other |
| LedgerReports.DispositionsReported | scripts/docs_claim_disposition_rules.py:67-81 | an error of the disposition check is listed exactly when some row is due it, with that row's number and disposition |
| LedgerReports.ReasonsReported | scripts/docs_claim_disposition_rules.py:84-109 | likewise for missing and invalid reasons |
| LedgerReports.ClaimsReported | scripts/docs_claim_disposition_rules.py:112-136 | likewise for claim references of registered rows |
| LedgerReports.CoveringClaimsReported | scripts/docs_claim_disposition_rules.py:139-163 | likewise for covering claims |
| LedgerReports.CandidatesReported | scripts/docs_claim_disposition_rules.py:166-185 | likewise for candidate ids |
| LedgerReports.ReviewsReported | scripts/docs_claim_disposition_rules.py:188-197 | likewise for dates |
| LedgerReports.NotesReported | scripts/docs_claim_disposition_rules.py:200-213 | likewise for notes |
| LedgerReports.SpecificNotesReported | scripts/docs_claim_disposition_rules.py:327-391 | likewise for generic notes on high-risk statements |
| LedgerReports.HighRiskExactly | scripts/docs_claim_disposition_rules.py:288-324 | a text is high-risk when it has thirty characters, is no table row or plain list item, and holds one of the phrases in any letter case |
| LedgerReports.DuplicatesReported | scripts/docs_claim_disposition_rules.py:48-64 | a duplicate is listed for every row that repeats an id that is not blank, with the number of the first row that has it |
| LedgerReports.CompletenessReported | scripts/docs_claim_disposition_rules.py:216-245 | an error of the completeness check gives the number of ids missing on a side and the ten smallest of them |
| LedgerReports.CompletenessCounts | scripts/docs_claim_disposition_rules.py:216-245 | one error for each side on which ids are missing |
| LedgerGenerator.GenerateLedger | scripts/generate_disposition_ledger.py:140-155 | the loop gives one triaged row per candidate, in order |
| LedgerGenerator.DispositionExactly | scripts/generate_disposition_ledger.py:39-121 | each disposition is given exactly on its condition on status, class, severity and claim of the candidate |
| LedgerGenerator.ReasonExactly | scripts/generate_disposition_ledger.py:39-121 | and so is each reason code |
| LedgerGenerator.NoteExactly | scripts/generate_disposition_ledger.py:39-121 | and the note says why and names the claim or the document |
| LedgerGenerator.RowFields | scripts/generate_disposition_ledger.py:140-155 | the row has the candidate's id, the date, no covering claim, and the claim when the candidate is registered to one |
| LedgerGenerator.GeneratedAlwaysPasses | scripts/generate_disposition_ledger.py:39-155 | whatever the candidates, the ledger passes the enum, reason, covering-claim, notes and completeness checks |
| LedgerGenerator.GeneratedClaimIds | scripts/generate_disposition_ledger.py:39-155 | it passes the claim-reference check exactly when every registered candidate's claim is well-formed and known |
| LedgerGenerator.GeneratedCandidateIds | scripts/generate_disposition_ledger.py:140-155 | and the candidate-id check exactly when all candidate ids are well-formed |
| LedgerGenerator.GeneratedDuplicates | scripts/generate_disposition_ledger.py:140-155 | and the duplicate check exactly when no two candidates share an id that is not blank |
| LedgerGenerator.GeneratedReviewedAt | scripts/generate_disposition_ledger.py:140-155 | and the review-date check exactly when the date is not blank or there is nothing to date |
| LedgerGenerator.RowHighRisk | scripts/docs_claim_disposition_rules.py:327-391 | one triaged row fails the high-risk check exactly when its note is generic and its candidate's text is high-risk |
| LedgerGenerator.GeneratedHighRisk | scripts/docs_claim_disposition_rules.py:288-391 | the generated ledger passes the high-risk check exactly when no candidate with a generic note has a high-risk text |
| Pipeline.GeneratedLedgerPasses | scripts/generate_disposition_ledger.py:39-155 | the generated ledger passes every other check exactly when ids are well-formed and distinct, claim references hold and the date is not blank |
| Pipeline.ScanFeedsLedger | scripts/docs_claim_candidates_rules.py:124-204 | a scan of any sound corpus meets these conditions |
| Pipeline.ReadBackIsScan | scripts/docs_claim_candidates_shard.py:27-94 | what is read back after sharding is what was scanned while at most 100 shards are used, also when nothing was scanned |
| Pipeline.PipelineLedger | scripts/generate_disposition_ledger.py:124-155 | scan, shard, re-read and triage: the ledger passes every check but the high-risk one, and that one exactly when no candidate with a generic note has a high-risk text |
| Pipeline.PathWitnessIsFound | scripts/docs_claim_candidates_rules.py:124-204 | from a one-line document below docs whose name holds a generic phrase the scanner takes the witness of the next row, when the patterns call its line normative |
| Pipeline.DefaultRouteCanFail | scripts/docs_claim_disposition_rules.py:327-391 | the ledger generated from that scan, all on the default route, fails the high-risk check |
| Pipeline.HighRiskOfScanned | scripts/docs_claim_disposition_rules.py:288-324 | on scanned texts the high-risk test is the phrase list minus table rows and list items |
| Pipeline.LinksMakeLedgerPass | scripts/docs_claims_registry_rules_candidates.py:15-123 | a silent two-way link check makes the generated ledger pass the claim-reference check |
| RegistryLinks.CheckCandidateIdsValid | scripts/docs_claims_registry_rules_candidates.py:15-123 | the errors of the two passes, in order |
| RegistryLinks.SilenceIsOk | scripts/docs_claims_registry_rules_candidates.py:15-123 | silence of the two passes as conditions on back-links, listed ids and new claims |
| RegistryLinks.LinkSymmetry | scripts/docs_claims_registry_rules_candidates.py:15-123 | with unique claims, silence holds exactly when listing and back-linking are the same relation, all listed ids are well-formed and known, registered means back-linked, back-links name claims, and new claims list candidates |
| RegistryLinks.ListsPartitionRegistered | scripts/docs_claims_registry_rules_candidates.py:15-123 | the claims' lists are then disjoint, cover the registered candidates, and their sizes sum to their number |
| RegistryReports.LinksReported | scripts/docs_claims_registry_rules_candidates.py:15-123 | an error is listed exactly when some candidate's back-link or some row of the registry gives rise to it, with its ids, statuses and row number |
| RegistryReports.AsksFromNineteen | scripts/docs_claims_registry_rules_candidates.py:73-90 | a row asks for candidates when it is a current claim with evidence numbered from 19 on, wherever the string test is the numeric one |
| RegistryReports.ByIdExactly | scripts/docs_claims_registry_rules_candidates.py:15-40 | candidates are looked up by id, the last of several winning |
| RegistryReports.ListExactly | scripts/docs_claims_registry_rules_candidates.py:15-70 | a claim's list is that of its last row that has one |
| DispositionDiff.ComputeDiff | scripts/docs_claim_disposition_diff_model.py:29-106 | added, removed, changed rows and counts of two ledgers |
| DispositionDiff.CompareRows | scripts/docs_claim_disposition_diff_model.py:57-82 | the changed fields of one pair of rows, notes shortened |
| DiffReports.SidesExactly | scripts/docs_claim_disposition_diff_model.py:42-56 | added and removed are the ids only one side has, sorted, and the row counts are those of the two ledgers |
| DiffReports.ChangedRowExactly | scripts/docs_claim_disposition_diff_model.py:57-82 | a row is listed as changed exactly when it is common and some field differs |
| DiffReports.ChangeExactly | scripts/docs_claim_disposition_diff_model.py:57-82 | a change is listed exactly for a field that differs, with its old and new value |
| DiffReports.FieldCountsReported | scripts/docs_claim_disposition_diff_model.py:57-106 | each field is counted once for every common id whose rows differ in it |
| DiffReports.DispositionCountsReported | scripts/docs_claim_disposition_diff_model.py:84-106 | the disposition counts before and after are those of the two ledgers |
| DispositionDiff.DiffIsPatch | scripts/docs_claim_disposition_diff_model.py:42-116 | removing, adding and applying the changes to the base gives the target exactly when changed notes have at most 120 characters |
| DispositionDiff.DiffMirrors | scripts/docs_claim_disposition_diff_model.py:42-106 | swapping the inputs gives the mirrored diff as a whole: row counts, added and removed, before and after in every change and in the disposition counts, and the same field counts |
| DispositionDiff.DispositionFlow | scripts/docs_claim_disposition_diff_model.py:42-106 | with unique ids (scripts/diff_docs_claim_dispositions.py:92-102), after plus moves out plus removed equals before plus moves in plus added, for each disposition |
| WorkflowParser.ExtractJobsFromWorkflow | scripts/ci_gate_drift_parser.py:86-142 | the line scan gives each job's parsed content, later jobs replacing earlier ones of the same name |
| WorkflowParser.ParseJobContent | scripts/ci_gate_drift_parser.py:145-199 | runs in order, then uses, and whether a needs line occurs |
| WorkflowParser.ReadRuns | scripts/ci_gate_drift_parser.py:155-191 | the outer loop terminates and collects the commands of the recursive reading |
| WorkflowParser.ReadBlock | scripts/ci_gate_drift_parser.py:168-189 | the inner loop stops at the first line that is not empty and not deeper, and collects the stripped lines |
| JobHeaders.JobsExactly | scripts/ci_gate_drift_parser.py:86-142 | the jobs found in any text are exactly the names of its header lines, from the line that opens the jobs on, that are no trigger events |
| PrintedLines.JobNeeds | scripts/ci_gate_drift_parser.py:150-153 | the flag read from a printed job is set exactly when it has a dependency, a script line that begins with needs: or that name |
| WorkflowRuns.JobRuns | scripts/ci_gate_drift_parser.py:155-191 | the commands read are those meant, in order, unless the header of a job named run takes lines for its block; then more is read than is there |
| WorkflowUses.PatternFinds | scripts/ci_gate_drift_parser.py:193-197 | the pattern for actions, whose white space may run over line breaks, finds the actions on the lines themselves unless a bare key has something to take; then it finds more |
| WorkflowUses.JobUses | scripts/ci_gate_drift_parser.py:193-197 | the actions read are those meant exactly when no script line is taken for one, a bare trailing one excepted, and a job named uses has no lines; otherwise more is read than is there |
| WorkflowRoundTrip.JobRoundTrip | scripts/ci_gate_drift_parser.py:145-199 | parsing a printed job gives its commands, actions and dependencies if and only if it reads cleanly |
| WorkflowRoundTrip.ParsedText | scripts/ci_gate_drift_parser.py:86-142 | extracting from any printed workflow gives, for each name, what is read from the lines of the last job of that name |
| WorkflowRoundTrip.ParseUndoesPrint | scripts/ci_gate_drift_parser.py:86-199 | this is the meaning of the job list if and only if every job that is the last of its name reads cleanly |
| WorkflowRoundTrip.DistinctNamesAllPresent | scripts/ci_gate_drift_parser.py:86-142 | with distinct names every job is in the result with its own data |
| WorkflowRoundTrip.ScriptLineSetsNeeds | scripts/ci_gate_drift_parser.py:150-153 | under any job name a script line that begins with needs: sets the flag of a job without dependencies |
| WorkflowRoundTrip.ScriptLineAddsAction | scripts/ci_gate_drift_parser.py:193-197 | and one that begins with uses: and goes on makes the parse differ from the meaning |
| WorkflowRoundTrip.ReservedNames | scripts/ci_gate_drift_parser.py:145-199 | for jobs named needs, uses and run, without such script lines, exactly which are read as they are meant |
| GateChecks.CheckShardUnion | scripts/ci_gate_drift_checks.py:36-56 | whether a shard-union job exists and whether one has dependencies |
| ShardMatrix.ListAtExactly | scripts/ci_gate_drift_checks.py:20-22 | the index pattern matches at a place exactly when key, white space and a bracketed list on one line stand there |
| ShardMatrix.IndexListIsFirst | scripts/ci_gate_drift_checks.py:20-22 | the list found is that of the first such place, and none only when there is none |
| ShardMatrix.NumberedShards | scripts/ci_gate_drift_checks.py:22-26 | a list of the numbers below n is read as n shards |
| ShardMatrix.IndicesExactly | scripts/ci_gate_drift_checks.py:22-26 | the indices are the parts between commas that are not blank, and one that is no integer raises |
| GateChecks.CheckMatrices | scripts/ci_gate_drift_checks.py:97-109 | the loop over the jobs raises exactly when some matrix has a bad index, and otherwise reports a missing matrix or one error for each matrix with fewer than two shards |
| GateChecks.RunChecks | scripts/ci_gate_drift_checks.py:59-128 | a gate without a matching job stops at that error; otherwise the matrix, shard-union and fragment errors follow in order, or the check raises |
| GateChecks.VerifyGateMapping | scripts/ci_gate_drift_checks.py:59-128 | the same with the script's reading of the matrix |
| GateReports.ReportedExactly | scripts/ci_gate_drift_checks.py:59-128 | on any jobs the check raises exactly when a job matches, shards are required and an index is no number; otherwise a problem is reported exactly when it is due, said of names, dependencies and commands as strings |
| GateReports.ThinCount | scripts/ci_gate_drift_checks.py:97-106 | one error for each matrix with fewer than two shards |
| GateChecks.VerdictOfMeaning | scripts/ci_gate_drift_checks.py:59-128 | on the meaning of job lists the gate passes exactly when a matching job, readable matrices with at least two shards each, a shard-union job with dependencies and every fragment are there, as far as the gate asks for them |
| GateChecks.RaisesExactly | scripts/ci_gate_drift_checks.py:97-109 | the check raises exactly when a job matches, shards are required and some job that counts has a bad index |
| GateChecks.AllParsed | scripts/verify_ci_gate_drift.py:114-116 | the parsed jobs of several workflows, put together, are the meaning of their joined job lists |
| GateChecks.VerdictOnText | scripts/ci_gate_drift_checks.py:59-128 | so on printed workflows that read cleanly, one of them checked against all, the gate passes exactly when the job lists satisfy it |
| GateChecks.MatrixOnLines | scripts/ci_gate_drift_checks.py:16-17 | the matrix of a printed job is found exactly when one of its own lines opens one |
| FeedbackImport.ReviewStore.ProcessEntry | scripts/import_next_check_usefulness_feedback.py:528-662 | outcome and new store for one entry |
| ImportRules.AcceptedExactly | scripts/import_next_check_usefulness_feedback.py:528-596 | an entry is accepted exactly when its required fields are given, all values are known and its path leads to an execution artifact, and then with that artifact's run |
| ImportRules.RejectedExactly | scripts/import_next_check_usefulness_feedback.py:528-596 | and each error is given exactly when its check is the first that fails |
| ImportRules.EntryExactly | scripts/import_next_check_usefulness_feedback.py:528-662 | an accepted entry is skipped exactly when a review of its run says the same of the same artifact, else written under a name of the run with its own artifact, class and summary |
| ImportRules.MessagesExactly | scripts/import_next_check_usefulness_feedback.py:270-306 | the messages name the rejected entries by position, each with its error |
| ImportRules.ClassCounts | scripts/import_next_check_usefulness_feedback.py:270-306 | each class is counted once for every accepted entry that has it |
| FeedbackImport.ReviewStore.ImportFeedback | scripts/import_next_check_usefulness_feedback.py:270-306 | store and counts after all entries, with the validation of the script; the theorems below hold for every validation |
| FeedbackImport.StoreOnlyGrows | scripts/import_next_check_usefulness_feedback.py:528-662 | with fresh names no earlier artifact is lost or changed |
| FeedbackImport.ImportIsUnion | scripts/import_next_check_usefulness_feedback.py:528-662 | the keys in the store afterwards are the old keys united with those of the valid entries |
| FeedbackImport.ImportsCommute | scripts/import_next_check_usefulness_feedback.py:528-662 | two imports give the same keys in either order |
| FeedbackImport.ReimportWritesNothing | scripts/import_next_check_usefulness_feedback.py:590-662 | importing the same entries again updates nothing and leaves the store as it is |
| FeedbackImport.OneFilePerSuccess | scripts/import_next_check_usefulness_feedback.py:270-306 | the store grows by one file per success |
| FeedbackImport.TallyAddsUp | scripts/import_next_check_usefulness_feedback.py:270-306 | success, skipped and errors add up to the entries, updates are successes, and the class counts cover the valid entries |
| FeedbackImport.OnRecordExactly | scripts/import_next_check_usefulness_feedback.py:590-662 | an entry is on record when its turn comes exactly when it was before the import or an earlier valid entry has its key |
| FeedbackImport.DryRunForecast | scripts/import_next_check_usefulness_feedback.py:528-662 | a dry run changes nothing and announces the same errors; the real run skips as many more entries as repeat an earlier one without being on record before |
| FeedbackImport.DryRunIsRightExactly | scripts/import_next_check_usefulness_feedback.py:270-306 | with the script's validation the announced skips are right if and only if no entry repeats |
| FeedbackImport.ForecastCanBeWrong | scripts/import_next_check_usefulness_feedback.py:528-662 | one artifact reviewed twice in one file: no skip announced, one entry skipped |
| DuplicateGroups.DetectDuplicateGroups | scripts/export_next_check_usefulness_review.py:225-262 | the ids that occur more than once, each with all its positions in order |
| DuplicateGroups.AddDuplicateMetadata | scripts/export_next_check_usefulness_review.py:265-278 | the entries of every group are marked in place, the others unchanged, whatever the order of the groups |
| DuplicateGroups.KeyIsNeverEmpty | scripts/export_next_check_usefulness_review.py:242-252 | no key is empty; entries without text share one |
| DuplicateGroups.KeysAgreeExactly | scripts/export_next_check_usefulness_review.py:242-252 | keys agree for entries equal up to letter case, space before the family and space after the label, and without bars in family and description only for those |
| DuplicateGroups.BarsMoveBetweenParts | scripts/export_next_check_usefulness_review.py:242-252 | family a, bar, b with description c shares its key with family a and description b, bar, c |
| DuplicateGroups.GroupsAreKeyClasses | scripts/export_next_check_usefulness_review.py:225-262 | two entries are in one group exactly when their keys agree, and no entry is in two |
| DuplicateGroups.MarksFollowKeys | scripts/export_next_check_usefulness_review.py:225-278 | an entry is marked exactly when another has its key, and is the representative exactly when no earlier one has |
| DuplicateGroups.SiblingsAreThePaths | scripts/export_next_check_usefulness_review.py:265-278 | a marked entry's sibling list is exactly the paths of the entries with its key, in order, and its count their number |
| DuplicateGroups.SiblingsAgree | scripts/export_next_check_usefulness_review.py:265-278 | so entries with one key are all marked, with the same group, count and siblings |
| DuplicateGroups.CountDuplicateEntries | scripts/export_next_check_usefulness_review.py:143-143 | entries minus duplicate entries is the number of distinct ids |
| DuplicateGroups.IdsCountKeys | scripts/export_next_check_usefulness_review.py:254-258 | without collisions that is the number of distinct keys |
| DuplicateGroups.ExportDuplicates | scripts/export_next_check_usefulness_review.py:135-143 | detection, marking and counts together |
| TopNextChecks.Collector.AddCandidate | scripts/build_diagnostic_pack.py:524-531 | a text is added exactly when it is not blank and new |
| TopNextChecks.BuildTopNextChecks | scripts/build_diagnostic_pack.py:516-546 | the result is a prefix of the deduplicated stream, of six texts or all there are unless the list overflows |
| TopNextChecks.KeptHasExactlyTheTexts | scripts/build_diagnostic_pack.py:524-531 | the deduplicated stream holds exactly the stripped texts offered, without blanks |
| TopNextChecks.KeptIsDeduplicated | scripts/build_diagnostic_pack.py:524-531 | it has no repeats and every text in it is stripped |
| TopNextChecks.KeptFollowsFirstOffers | scripts/build_diagnostic_pack.py:524-531 | it follows the order of first offers |
| TopNextChecks.SizeOfTop | scripts/build_diagnostic_pack.py:516-546 | never more than eight texts, more than six exactly when the external loop is entered and its first round leaves more than six, never fewer than six or all |
| TopNextChecks.ListedInOrder | scripts/build_diagnostic_pack.py:532-546 | of new texts the result is the first in the order sections, action, drilldown, external checks, and all when they are at most six |
| TopNextChecks.EightIsReached | scripts/build_diagnostic_pack.py:516-546 | an input with eight |
| LifecycleJoin.SplitByPurpose | scripts/build_diagnostic_pack.py:720-735 | the four lists by purpose, in order |
| LifecycleJoin.BuildIndex | scripts/build_diagnostic_pack.py:737-767 | the dictionaries answer as a linear search for the last entry filed under the id or the index |
| LifecycleJoin.Lookup | scripts/build_diagnostic_pack.py:784-796 | looking up by id, then by index, is the naive search |
| LifecycleJoin.BuildLifecycleSummary | scripts/build_diagnostic_pack.py:698-842 | the summary is the naive join: every planned, then every promoted candidate, in order |
| LifecycleEntries.EntriesExactly | scripts/build_diagnostic_pack.py:698-842 | the entries are the planned candidates, plan by plan and in list order, marked as planned, then the promotions in order, marked as deterministic, and each carries the last approval and the last execution that name its id in their payload or content fields, or its index when none names its id |
| LifecycleEntries.KeysExactly | scripts/build_diagnostic_pack.py:737-767 | under which id and index an artifact is filed, on its fields |
| LifecycleJoin.LastByIdExact | scripts/build_diagnostic_pack.py:737-767 | the search finds the last entry with the id and nothing only when there is none |
| LifecycleJoin.LastByIndexExact | scripts/build_diagnostic_pack.py:737-767 | likewise for the index |
| LifecycleJoin.OneEntryPerCandidate | scripts/build_diagnostic_pack.py:769-842 | there are exactly as many entries as candidates |
| LifecycleJoin.FiledUnderIndex | scripts/build_diagnostic_pack.py:741-764 | under which index an approval or execution is filed: a payload index of 0 never counts, the fallback only when the payload has nothing |
| LifecycleJoin.PayloadIndexZeroIsLost | scripts/build_diagnostic_pack.py:741-796 | an artifact known by its payload index alone is found exactly when the index is not 0 |
| LifecycleJoin.IdWinsOverIndex | scripts/build_diagnostic_pack.py:784-796 | an id match wins over any index match |
| LifecycleJoin.LaterEntries | scripts/build_diagnostic_pack.py:737-796 | a later artifact with the candidate's id replaces what it is joined with; one with other id and index changes nothing |
| ImageRef.ParsedIsCanonical | scripts/k9b_cnpg_image_preflight_registry.py:18-46 | every parsed reference has no at-sign, no slash in the host, a host that names a registry and no colon in the tag |
| ImageRef.ParseUndoesPrint | scripts/k9b_cnpg_image_preflight_registry.py:18-46 | a reference survives printing and parsing exactly when it is canonical |
| ImageRef.CanonicalFormIsStable | scripts/k9b_cnpg_image_preflight_registry.py:18-46 | canonicalising is idempotent on every text |
| ImageRef.SameImageIsSameForm | scripts/k9b_cnpg_image_preflight_registry.py:18-46 | two texts parse alike exactly when their canonical forms are equal |
| ImageRef.DigestIsDropped | scripts/k9b_cnpg_image_preflight_registry.py:20-21 | a digest does not change the result |
| ImageRef.OfficialNamesExpand | scripts/k9b_cnpg_image_preflight_registry.py:23-29 | a one-part name is the official image of Docker Hub |
| ImageRef.HubNamesExpand | scripts/k9b_cnpg_image_preflight_registry.py:31-40 | a name whose first part is no registry belongs to Docker Hub |
| ImageRef.ReferenceExactly | scripts/k9b_cnpg_image_preflight_registry.py:18-46 | a first part with a dot, a colon or localhost in any letter case is the host, any other belongs to the repository on docker.io; the tag is what follows the last colon, or latest |
| ImageRef.SinglePartExactly | scripts/k9b_cnpg_image_preflight_registry.py:18-46 | without a slash the name is an official image with its tag or latest |
| ImageRef.SharesAddressExactly | scripts/k9b_cnpg_image_preflight_registry.py:113-116 | a canonical reference shares its manifest address with another one if and only if repository and tag, joined as in the address, can be cut at another place with no colon after it |
| ImageRef.ManifestUrlsAreDistinct | scripts/k9b_cnpg_image_preflight_registry.py:113-116 | so canonical references with slash-free tags have distinct addresses |
| ImageRef.TwoImagesOneAddress | scripts/k9b_cnpg_image_preflight_registry.py:113-116 | two image texts that parse to different references with one address |
| PullClassifier.ClassifiedExactly | scripts/k9b_cnpg_image_preflight_node.py:85-137 | a failure is classified exactly when the pod has a pull event or the description names a pull error |
| PullClassifier.WaitingReasonIsFirst | scripts/k9b_cnpg_image_preflight_node.py:140-170 | the reason is that of the first container waiting on a pull, and there is none only when no container is |
| PullClassifier.ClassExactly | scripts/k9b_cnpg_image_preflight_node.py:85-170 | which class a message gets: that of the first kind of phrase it holds in any letter case, else a back-off |
| PullClassifier.PhrasesOfScans | scripts/k9b_cnpg_image_preflight_node.py:85-170 | the phrases of the three scans |
| PullClassifier.FirstEventDecides | scripts/k9b_cnpg_image_preflight_node.py:85-115 | the first pull event of the pod decides, with its message |
| PullClassifier.FirstLineDecides | scripts/k9b_cnpg_image_preflight_node.py:117-137 | the first line of the description that names a pull error and has a colon decides, with what follows the colon |
| PullClassifier.ScansDisagreeExactly | scripts/k9b_cnpg_image_preflight_node.py:97-170 | when the two scans classify one message differently |
| NodePull.PollPod | scripts/k9b_cnpg_image_preflight_node.py:216-331 | the loop ends at the first decisive answer or when the time is up, within twenty polls, with the result of that point |
| NodePull.CheckNodePullability | scripts/k9b_cnpg_image_preflight_node.py:173-334 | a created pod is deleted exactly once on every way out, raising included; without a pod nothing is polled or deleted |
| NodePull.ClockAdvances | scripts/k9b_cnpg_image_preflight_node.py:216-302 | after k rounds at least 3k seconds have passed |
| NodePull.EveryRunEnds | scripts/k9b_cnpg_image_preflight_node.py:216-302 | every trace ends within twenty polls |
| NodePull.EndIsUnique | scripts/k9b_cnpg_image_preflight_node.py:216-302 | at a point the trace alone determines |
| NodePull.SucceedsExactly | scripts/k9b_cnpg_image_preflight_node.py:220-268 | success is reported exactly when the first decisive answer in time is a pod that succeeded with no container waiting on a pull, and the events can be read |
| NodePull.FailuresAreClassified | scripts/k9b_cnpg_image_preflight_node.py:216-331 | every failure carries a class and no success does |
| PullReports.WaitingDecides | scripts/k9b_cnpg_image_preflight_node.py:223-254 | a container waiting on a pull decides: its reason is reported and its message classified |
| PullReports.EventDecides | scripts/k9b_cnpg_image_preflight_node.py:268-300 | in a failed pod the first pull event decides, with its message |
| PullReports.NothingDecides | scripts/k9b_cnpg_image_preflight_node.py:288-302 | and without event and description the failure is unknown |
| PullReports.TimeoutIsReported | scripts/k9b_cnpg_image_preflight_node.py:302-331 | when the time is up the last phase is reported, and the class of an event or the description, else unknown |
| PullReports.LastFiveReported | scripts/k9b_cnpg_image_preflight_node.py:243-300 | the events reported are the last five that involve the pod |
| PullReports.DecisiveExactly | scripts/k9b_cnpg_image_preflight_node.py:220-300 | which answers end the polling |
| NodePull.MessageIsOwnExactly | scripts/k9b_cnpg_image_preflight_node.py:224-228 | the reason reported is that of the first container waiting on a pull, the message that of the pod's first container, or empty when it is not waiting; they belong together if and only if that container is the pod's first or their messages are equal, and always in a pod with one container |
| NodePull.AnotherMessageIsReported | scripts/k9b_cnpg_image_preflight_node.py:224-228 | a pod where it does not |

## Left out

- ShardBalance.ComputeShardBalance: the four-decimal rounding of the reported numbers is left out, and numbers are exact.
- CandidateShards.Store.ShardCsv: is stated for at least one shard; with zero shards the script divides by zero and stops.
- GateChecks.VerifyGateMapping: `ci_equivalent` comes as the list for the workflow at hand, and the script's error texts and gate id are not rendered.
- ShardMatrix.NumberedShards: `shard_total` is read by the script but used by no check; integers longer than Python's digit limit are not modelled.
- WorkflowRoundTrip.ParseUndoesPrint: is stated on what the printer prints: names in ASCII that are no trigger events, commands on one line of at least two characters, lines other than steps that begin with none of the keys.
- RegistryLinks.CheckCandidateIdsValid: the result object is represented by its error list.
- LifecycleJoin.BuildLifecycleSummary: the text fields of an entry are not rendered; the entry carries the candidate, the plan and the joined artifacts they are taken from.
- NodePull.CheckNodePullability: the cluster's answers are a trace fixed in advance, and fields that are null instead of missing are not modelled.
- FeedbackImport.ReviewStore.ImportFeedback: the per-run roll-ups and the summary file are not modelled, nor are glob characters in run ids and the normalisation of absolute paths. A review is its source, class and summary; the context fields and the metadata copied from the execution artifact are not modelled.
- Candidates.ScanDocument: the claim-type patterns are a parameter; lower-casing is that of A to Z here and everywhere.
- PullClassifier.ScansDisagreeExactly: compares the scan of waiting containers with that of events; the scan of descriptions has a third phrase list.
- Reading and writing of CSV, JSON, YAML and ZIP files, subprocesses, kubectl, curl and HTTP, clocks and random numbers.
- `aggregate_durations`, `compare_gate_ids`, `_extract_top_drifts`, `_normalize_included_paths`, the summary list of duplicate groups, the remaining registry checks and the ledger statistics: each is settled by reading one body.
- Command lines, printed reports, self-tests and the drift and budget reports.
