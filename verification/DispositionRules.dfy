/** The verifier of the disposition ledger: its checks, as loops that append errors, and what they look for. */
module DispositionRules {
  import opened Text
  import opened Ordering
  import opened Checks
  import opened ClaimIds
  import opened Candidates
  import opened Ledger

  const ALLOWED_DISPOSITIONS: set<string> := {
    "registered_existing_claim", "registered_new_claim", "covered_by_existing_claim", "duplicate_candidate",
    "false_positive", "heading_or_table_fragment", "too_granular", "historical", "stale", "docs_only_context",
    "implementation_detail_not_claim", "policy_statement_only", "backlog_future_claim", "needs_new_claim",
    "ignored_by_policy"}

  const ALLOWED_REASON_CODES: set<string> := {
    "already_registered", "covered_by_broader_claim", "duplicate_same_doc", "duplicate_cross_doc",
    "generated_from_heading", "generated_from_table_fragment", "historical_doc", "stale_doc",
    "non_normative_description", "implementation_detail", "policy_statement", "low_value_context", "not_a_claim",
    "too_granular_for_registry", "requires_future_human_review", "promoted_to_registry"}

  const REQUIRING_REASON_CODE: set<string> := {
    "ignored_by_policy", "false_positive", "heading_or_table_fragment", "too_granular", "historical", "stale",
    "docs_only_context", "implementation_detail_not_claim", "policy_statement_only", "backlog_future_claim",
    "needs_new_claim"}

  const REQUIRING_CLAIM_ID: set<string> := {"registered_existing_claim", "registered_new_claim"}
  const REQUIRING_COVERED_BY: set<string> := {"covered_by_existing_claim"}
  const ALLOWING_EMPTY_NOTES: set<string> := {"registered_existing_claim"}

  datatype LedgerProblem =
    | DuplicateCandidate(row: nat, id: string, firstRow: nat)
    | EmptyDisposition(row: nat)
    | InvalidDisposition(row: nat, disposition: string)
    | MissingReason(row: nat, disposition: string)
    | InvalidReason(row: nat, reason: string)
    | MissingClaimId(row: nat, disposition: string)
    | BadClaimId(row: nat, id: string)
    | UnknownClaimId(row: nat, id: string)
    | EmptyCandidateId(row: nat)
    | BadCandidateId(row: nat, id: string)
    | UnknownCandidateId(row: nat, id: string)
    | EmptyReviewedAt(row: nat)
    | EmptyNotes(row: nat, disposition: string)
    | WithoutDisposition(count: nat, examples: seq<string>)
    | UnknownCandidates(count: nat, examples: seq<string>)
    | GenericNotes(row: nat, id: string)

  // ----- what each row-by-row check reports about a row

  function EnumProblems(i: nat, row: LedgerRow): seq<LedgerProblem> {
    var disp := Strip(row.disposition);
    if disp == "" then [EmptyDisposition(RowNumber(i))]
    else if disp !in ALLOWED_DISPOSITIONS then [InvalidDisposition(RowNumber(i), disp)]
    else []
  }

  function ReasonProblems(i: nat, row: LedgerRow): seq<LedgerProblem> {
    var reason, disp := Strip(row.reasonCode), Strip(row.disposition);
    if disp in REQUIRING_REASON_CODE && reason == "" then [MissingReason(RowNumber(i), disp)]
    else if reason != "" && reason !in ALLOWED_REASON_CODES then [InvalidReason(RowNumber(i), reason)]
    else []
  }

  /** A claim id that must be present, well-formed and in the registry. */
  function ReferenceProblems(i: nat, disp: string, id: string, claims: set<string>): seq<LedgerProblem> {
    if id == "" then [MissingClaimId(RowNumber(i), disp)]
    else if !MatchesClaimId(id) then [BadClaimId(RowNumber(i), id)]
    else if id !in claims then [UnknownClaimId(RowNumber(i), id)]
    else []
  }

  function ClaimIdProblems(claims: set<string>): (nat, LedgerRow) -> seq<LedgerProblem> {
    (i: nat, row: LedgerRow) =>
      if Strip(row.disposition) in REQUIRING_CLAIM_ID
      then ReferenceProblems(i, Strip(row.disposition), Strip(row.claimId), claims) else []
  }

  function CoveredByProblems(claims: set<string>): (nat, LedgerRow) -> seq<LedgerProblem> {
    (i: nat, row: LedgerRow) =>
      if Strip(row.disposition) in REQUIRING_COVERED_BY
      then ReferenceProblems(i, Strip(row.disposition), Strip(row.coveredByClaimId), claims) else []
  }

  function CandidateIdProblems(known: set<string>): (nat, LedgerRow) -> seq<LedgerProblem> {
    (i: nat, row: LedgerRow) =>
      var id := Strip(row.candidateId);
      if id == "" then [EmptyCandidateId(RowNumber(i))]
      else if !MatchesCandidateId(id) then [BadCandidateId(RowNumber(i), id)]
      else if known != {} && id !in known then [UnknownCandidateId(RowNumber(i), id)]
      else []
  }

  function ReviewedAtProblems(i: nat, row: LedgerRow): seq<LedgerProblem> {
    if Strip(row.reviewedAt) == "" then [EmptyReviewedAt(RowNumber(i))] else []
  }

  function NotesProblems(i: nat, row: LedgerRow): seq<LedgerProblem> {
    var disp := Strip(row.disposition);
    if disp !in ALLOWING_EMPTY_NOTES && Strip(row.reviewerNotes) == "" then [EmptyNotes(RowNumber(i), disp)] else []
  }

  // ----- the checks

  method CheckDispositionEnumValid(dispositions: seq<LedgerRow>) returns (result: CheckResult<LedgerProblem>)
    ensures fresh(result) && result.Valid()
    ensures result.errors == Collect(dispositions, EnumProblems, |dispositions|)
  {
    result := new CheckResult();
    for i := 0 to |dispositions|
      invariant result.Valid() && result.errors == Collect(dispositions, EnumProblems, i)
    {
      var disp := Strip(dispositions[i].disposition);
      if disp == "" {
        result.AddError(EmptyDisposition(RowNumber(i)));
      } else if disp !in ALLOWED_DISPOSITIONS {
        result.AddError(InvalidDisposition(RowNumber(i), disp));
      }
    }
  }

  method CheckReasonCodeEnumValid(dispositions: seq<LedgerRow>) returns (result: CheckResult<LedgerProblem>)
    ensures fresh(result) && result.Valid()
    ensures result.errors == Collect(dispositions, ReasonProblems, |dispositions|)
  {
    result := new CheckResult();
    for i := 0 to |dispositions|
      invariant result.Valid() && result.errors == Collect(dispositions, ReasonProblems, i)
    {
      var reason := Strip(dispositions[i].reasonCode);
      var disp := Strip(dispositions[i].disposition);
      if disp in REQUIRING_REASON_CODE {
        if reason == "" {
          result.AddError(MissingReason(RowNumber(i), disp));
        } else if reason !in ALLOWED_REASON_CODES {
          result.AddError(InvalidReason(RowNumber(i), reason));
        }
      } else if reason != "" && reason !in ALLOWED_REASON_CODES {
        result.AddError(InvalidReason(RowNumber(i), reason));
      }
    }
  }

  method CheckClaimIdValid(dispositions: seq<LedgerRow>, claims: set<string>)
      returns (result: CheckResult<LedgerProblem>)
    ensures fresh(result) && result.Valid()
    ensures result.errors == Collect(dispositions, ClaimIdProblems(claims), |dispositions|)
  {
    result := new CheckResult();
    for i := 0 to |dispositions|
      invariant result.Valid() && result.errors == Collect(dispositions, ClaimIdProblems(claims), i)
    {
      var disp := Strip(dispositions[i].disposition);
      var id := Strip(dispositions[i].claimId);
      if disp in REQUIRING_CLAIM_ID {
        if id == "" {
          result.AddError(MissingClaimId(RowNumber(i), disp));
        } else if !MatchesClaimId(id) {
          result.AddError(BadClaimId(RowNumber(i), id));
        } else if id !in claims {
          result.AddError(UnknownClaimId(RowNumber(i), id));
        }
      }
    }
  }

  method CheckCoveredByClaimIdValid(dispositions: seq<LedgerRow>, claims: set<string>)
    returns (result: CheckResult<LedgerProblem>)
    ensures fresh(result) && result.Valid()
    ensures result.errors == Collect(dispositions, CoveredByProblems(claims), |dispositions|)
  {
    result := new CheckResult();
    for i := 0 to |dispositions|
      invariant result.Valid() && result.errors == Collect(dispositions, CoveredByProblems(claims), i)
    {
      var disp := Strip(dispositions[i].disposition);
      var id := Strip(dispositions[i].coveredByClaimId);
      if disp in REQUIRING_COVERED_BY {
        if id == "" {
          result.AddError(MissingClaimId(RowNumber(i), disp));
        } else if !MatchesClaimId(id) {
          result.AddError(BadClaimId(RowNumber(i), id));
        } else if id !in claims {
          result.AddError(UnknownClaimId(RowNumber(i), id));
        }
      }
    }
  }

  method CheckCandidateIdValid(dispositions: seq<LedgerRow>, known: set<string>)
      returns (result: CheckResult<LedgerProblem>)
    ensures fresh(result) && result.Valid()
    ensures result.errors == Collect(dispositions, CandidateIdProblems(known), |dispositions|)
  {
    result := new CheckResult();
    for i := 0 to |dispositions|
      invariant result.Valid() && result.errors == Collect(dispositions, CandidateIdProblems(known), i)
    {
      var id := Strip(dispositions[i].candidateId);
      if id == "" {
        result.AddError(EmptyCandidateId(RowNumber(i)));
      } else if !MatchesCandidateId(id) {
        result.AddError(BadCandidateId(RowNumber(i), id));
      } else if known != {} && id !in known {
        result.AddError(UnknownCandidateId(RowNumber(i), id));
      }
    }
  }

  method CheckReviewedAtValid(dispositions: seq<LedgerRow>) returns (result: CheckResult<LedgerProblem>)
    ensures fresh(result) && result.Valid()
    ensures result.errors == Collect(dispositions, ReviewedAtProblems, |dispositions|)
  {
    result := new CheckResult();
    for i := 0 to |dispositions|
      invariant result.Valid() && result.errors == Collect(dispositions, ReviewedAtProblems, i)
    {
      if Strip(dispositions[i].reviewedAt) == "" {
        result.AddError(EmptyReviewedAt(RowNumber(i)));
      }
    }
  }

  method CheckReviewerNotesRequired(dispositions: seq<LedgerRow>) returns (result: CheckResult<LedgerProblem>)
    ensures fresh(result) && result.Valid()
    ensures result.errors == Collect(dispositions, NotesProblems, |dispositions|)
  {
    result := new CheckResult();
    for i := 0 to |dispositions|
      invariant result.Valid() && result.errors == Collect(dispositions, NotesProblems, i)
    {
      var disp := Strip(dispositions[i].disposition);
      if disp !in ALLOWING_EMPTY_NOTES && Strip(dispositions[i].reviewerNotes) == "" {
        result.AddError(EmptyNotes(RowNumber(i), disp));
      }
    }
  }

  // ----- duplicates

  function LedgerIds(rows: seq<LedgerRow>): (ids: seq<string>)
    ensures |ids| == |rows| && forall i :: 0 <= i < |ids| ==> ids[i] == Strip(rows[i].candidateId)
  {
    seq(|rows|, i requires 0 <= i < |rows| => Strip(rows[i].candidateId))
  }

  function DuplicateProblems(ids: seq<string>, n: nat): seq<LedgerProblem>
    requires n <= |ids|
  {
    if n == 0 then [] else
    var first := FirstAt(ids, ids[n - 1], n - 1);
    DuplicateProblems(ids, n - 1)
    + (if ids[n - 1] == "" || first == n - 1 then []
       else [DuplicateCandidate(RowNumber(n - 1), ids[n - 1], RowNumber(first))])
  }

  lemma {:induction false} NoDuplicateProblems(ids: seq<string>, n: nat)
    requires n <= |ids|
    ensures DuplicateProblems(ids, n) == [] <==> forall i, j :: 0 <= i < j < n ==> ids[i] == "" || ids[i] != ids[j]
  {
    if n > 0 {
      NoDuplicateProblems(ids, n - 1);
      FirstAtIsFirst(ids, ids[n - 1], n - 1);
    }
  }

  method CheckNoDuplicateDispositions(dispositions: seq<LedgerRow>) returns (result: CheckResult<LedgerProblem>)
    ensures fresh(result) && result.Valid()
    ensures result.errors == DuplicateProblems(LedgerIds(dispositions), |dispositions|)
  {
    result := new CheckResult();
    ghost var ids := LedgerIds(dispositions);
    var seen: map<string, nat> := map[];
    for i := 0 to |dispositions|
      invariant result.Valid() && result.errors == DuplicateProblems(ids, i)
      invariant RemembersNonblank(seen, ids, i)
    {
      var id := Strip(dispositions[i].candidateId);
      DuplicateStep(seen, ids, i);
      RemembersOneNonblank(seen, ids, i);
      if id != "" {
        if id !in seen {
          seen := seen[id := i];
        } else {
          result.AddError(DuplicateCandidate(RowNumber(i), id, RowNumber(seen[id])));
        }
      }
    }
  }

  ghost predicate RemembersNonblank(seen: map<string, nat>, ids: seq<string>, n: nat)
    requires n <= |ids|
  {
    forall id :: id != "" ==> if id in seen then seen[id] == FirstAt(ids, id, n) < n else FirstAt(ids, id, n) == n
  }

  lemma DuplicateStep(seen: map<string, nat>, ids: seq<string>, n: nat)
    requires n < |ids| && RemembersNonblank(seen, ids, n)
    ensures DuplicateProblems(ids, n + 1) == DuplicateProblems(ids, n)
            + (if ids[n] == "" || ids[n] !in seen then []
               else [DuplicateCandidate(RowNumber(n), ids[n], RowNumber(seen[ids[n]]))])
  {
  }

  lemma RemembersOneNonblank(seen: map<string, nat>, ids: seq<string>, n: nat)
    requires n < |ids| && RemembersNonblank(seen, ids, n)
    ensures RemembersNonblank(if ids[n] == "" || ids[n] in seen then seen else seen[ids[n] := n], ids, n + 1)
  {
  }

  // ----- completeness

  function Nonblank(ids: seq<string>): set<string> {
    set i | 0 <= i < |ids| && ids[i] != "" :: ids[i]
  }

  function FirstTen(s: seq<string>): seq<string> {
    if |s| <= 10 then s else s[..10]
  }

  function CompletenessProblems(ids: seq<string>, candidateIds: set<string>): seq<LedgerProblem> {
    MissingProblems(candidateIds - Nonblank(ids)) + ExtraProblems(Nonblank(ids) - candidateIds)
  }

  function MissingProblems(missing: set<string>): seq<LedgerProblem> {
    if missing == {} then [] else [WithoutDisposition(|missing|, FirstTen(SortSet(missing)))]
  }

  function ExtraProblems(extra: set<string>): seq<LedgerProblem> {
    if extra == {} then [] else [UnknownCandidates(|extra|, FirstTen(SortSet(extra)))]
  }

  method CheckAllCandidatesHaveDisposition(dispositions: seq<LedgerRow>, candidateIds: set<string>)
    returns (result: CheckResult<LedgerProblem>)
    ensures fresh(result) && result.Valid()
    ensures result.errors == CompletenessProblems(LedgerIds(dispositions), candidateIds)
  {
    result := new CheckResult();
    var dispositionIds := Nonblank(LedgerIds(dispositions));
    var missing := candidateIds - dispositionIds;
    if missing != {} {
      result.AddError(WithoutDisposition(|missing|, FirstTen(SortSet(missing))));
    }
    assert result.errors == MissingProblems(missing);
    var extra := dispositionIds - candidateIds;
    if extra != {} {
      result.AddError(UnknownCandidates(|extra|, FirstTen(SortSet(extra))));
    }
  }

  // ----- high-risk notes

  const HIGH_RISK_PATTERNS: seq<string> := [
    "must never", "must not", "should never", "never mutates", "no autonomous", "no mutation", "will never", "cannot",
    "guarantee"]

  const GENERIC_PATTERNS: seq<string> := [
    "Low-value prose fragment from:", "Low-value context from:", "Low-value fragment from:"]

  predicate ContainsAny(text: string, patterns: seq<string>) {
    exists i | 0 <= i < |patterns| :: Contains(text, patterns[i])
  }

  predicate IsLikelyTableOrShortFragment(text: string) {
    var t := Strip(text);
    || StartsWith(t, "|")
    || |t| < 30
    || (StartsWith(t, "- ") && ':' !in t[..if |t| < 50 then |t| else 50])
  }

  predicate ContainsHighRiskNormativeClaim(text: string) {
    !IsLikelyTableOrShortFragment(text) && ContainsAny(Lower(text), HIGH_RISK_PATTERNS)
  }

  /** The candidates by stripped id; of several with one id, the last. */
  function CandidateTexts(candidates: seq<Candidate>, n: nat): map<string, string>
    requires n <= |candidates|
  {
    if n == 0 then map[] else
    var id := Strip(candidates[n - 1].candidateId);
    var before := CandidateTexts(candidates, n - 1);
    if id == "" then before else before[id := candidates[n - 1].candidateText]
  }

  function TextFor(texts: map<string, string>, id: string): string {
    if id in texts then texts[id] else ""
  }

  function HighRiskProblems(texts: map<string, string>): (nat, LedgerRow) -> seq<LedgerProblem> {
    (i: nat, row: LedgerRow) =>
      var id := Strip(row.candidateId);
      if && Strip(row.disposition) == "ignored_by_policy"
         && ContainsHighRiskNormativeClaim(TextFor(texts, id))
         && ContainsAny(Strip(row.reviewerNotes), GENERIC_PATTERNS)
      then [GenericNotes(RowNumber(i), id)] else []
  }

  method CheckHighRiskIgnoredHasSpecificNotes(dispositions: seq<LedgerRow>, candidates: seq<Candidate>)
    returns (result: CheckResult<LedgerProblem>)
    ensures fresh(result) && result.Valid()
    ensures result.errors
      == Collect(dispositions, HighRiskProblems(CandidateTexts(candidates, |candidates|)), |dispositions|)
  {
    result := new CheckResult();
    var candidateMap: map<string, string> := map[];
    for k := 0 to |candidates|
      invariant candidateMap == CandidateTexts(candidates, k)
    {
      var id := Strip(candidates[k].candidateId);
      if id != "" {
        candidateMap := candidateMap[id := candidates[k].candidateText];
      }
    }
    for i := 0 to |dispositions|
      invariant result.Valid() && result.errors == Collect(dispositions, HighRiskProblems(candidateMap), i)
    {
      if Strip(dispositions[i].disposition) != "ignored_by_policy" {
        continue;
      }
      var id := Strip(dispositions[i].candidateId);
      if !ContainsHighRiskNormativeClaim(TextFor(candidateMap, id)) {
        continue;
      }
      if ContainsAny(Strip(dispositions[i].reviewerNotes), GENERIC_PATTERNS) {
        result.AddError(GenericNotes(RowNumber(i), id));
      }
    }
  }

  // ----- rows and candidates in one-to-one correspondence

  lemma {:induction false} DistinctCount(ids: seq<string>)
    requires Distinct(ids)
    ensures |set i | 0 <= i < |ids| :: ids[i]| == |ids|
  {
    if ids != [] {
      var last := |ids| - 1;
      var rest := ids[..last];
      DistinctCount(rest);
      assert (set i | 0 <= i < |ids| :: ids[i]) == (set i | 0 <= i < |rest| :: rest[i]) + {ids[last]};
    }
  }

  predicate ThreeChecksSilent(rows: seq<LedgerRow>, candidateIds: set<string>) {
    && DuplicateProblems(LedgerIds(rows), |rows|) == []
    && Collect(rows, CandidateIdProblems(candidateIds), |rows|) == []
    && CompletenessProblems(LedgerIds(rows), candidateIds) == []
  }

  predicate ListsEachOnce(ids: seq<string>, candidateIds: set<string>) {
    Distinct(ids) && (set i | 0 <= i < |ids| :: ids[i]) == candidateIds
  }

  predicate AllCandidateIds(ids: seq<string>) {
    forall i :: 0 <= i < |ids| ==> MatchesCandidateId(ids[i])
  }

  /** The duplicate, candidate-id and completeness checks together: all silent exactly when the rows list the
      candidate ids, each once, all well-formed. */
  lemma LedgerIsBijection(rows: seq<LedgerRow>, candidateIds: set<string>)
    ensures ThreeChecksSilent(rows, candidateIds) <==>
            AllCandidateIds(LedgerIds(rows)) && ListsEachOnce(LedgerIds(rows), candidateIds)
  {
    var ids := LedgerIds(rows);
    NoDuplicateProblems(ids, |ids|);
    CompletenessHolds(ids, candidateIds);
    CandidateIdsHold(rows, candidateIds);
    if AllCandidateIds(ids) {
      NoneIsBlank(ids);
    }
  }

  lemma NoneIsBlank(ids: seq<string>)
    requires AllCandidateIds(ids)
    ensures (set i | 0 <= i < |ids| :: ids[i]) == Nonblank(ids)
    ensures forall i :: 0 <= i < |ids| ==> ids[i] != "" && ids[i] in Nonblank(ids)
  {
  }

  lemma CandidateIdsHold(rows: seq<LedgerRow>, known: set<string>)
    ensures var ids := LedgerIds(rows);
            Collect(rows, CandidateIdProblems(known), |rows|) == [] <==>
            AllCandidateIds(ids) && (known == {} || forall i :: 0 <= i < |ids| ==> ids[i] in known)
  {
    var ids := LedgerIds(rows);
    CollectsNothing(rows, CandidateIdProblems(known), |rows|);
    forall i | 0 <= i < |rows|
      ensures CandidateIdProblems(known)(i, rows[i]) == [] <==>
        MatchesCandidateId(ids[i]) && (known == {} || ids[i] in known)
    {
    }
  }

  lemma CompletenessHolds(ids: seq<string>, candidateIds: set<string>)
    ensures CompletenessProblems(ids, candidateIds) == [] <==> Nonblank(ids) == candidateIds
  {
    var missing, extra := candidateIds - Nonblank(ids), Nonblank(ids) - candidateIds;
    if missing == {} && extra == {} {
      forall id ensures id in Nonblank(ids) <==> id in candidateIds {
        assert id !in missing && id !in extra;
      }
    }
  }

  /** So a ledger that passes has as many rows as there are candidates. */
  lemma LedgerCounts(rows: seq<LedgerRow>, candidateIds: set<string>)
    requires ThreeChecksSilent(rows, candidateIds)
    ensures |rows| == |candidateIds|
  {
    LedgerIsBijection(rows, candidateIds);
    DistinctCount(LedgerIds(rows));
  }
}
