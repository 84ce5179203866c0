/** What a ledger that passes all the verifier's checks is: a condition on its rows, stated without the checks. */
module LedgerVerdict {
  import opened Text
  import opened Checks
  import opened ClaimIds
  import opened Candidates
  import opened Ledger
  import opened DispositionRules
  import opened LedgerGenerator
  import opened Pipeline

  // ----- what is asked of one row

  predicate HasDisposition(row: LedgerRow) {
    Strip(row.disposition) in ALLOWED_DISPOSITIONS
  }

  /** A reason is one of the allowed codes, and dismissals give one. */
  predicate IsReasoned(row: LedgerRow) {
    if Strip(row.reasonCode) == "" then Strip(row.disposition) !in REQUIRING_REASON_CODE
    else Strip(row.reasonCode) in ALLOWED_REASON_CODES
  }

  /** The id of a claim of the registry. */
  predicate NamesClaim(id: string, claims: set<string>) {
    MatchesClaimId(id) && id in claims
  }

  predicate IsLinked(row: LedgerRow, claims: set<string>) {
    Strip(row.disposition) in REQUIRING_CLAIM_ID ==> NamesClaim(Strip(row.claimId), claims)
  }

  predicate IsCovered(row: LedgerRow, claims: set<string>) {
    Strip(row.disposition) in REQUIRING_COVERED_BY ==> NamesClaim(Strip(row.coveredByClaimId), claims)
  }

  predicate IsReviewed(row: LedgerRow) {
    && Strip(row.reviewedAt) != ""
    && (Strip(row.reviewerNotes) != "" || Strip(row.disposition) in ALLOWING_EMPTY_NOTES)
  }

  predicate SoundRow(row: LedgerRow, claims: set<string>) {
    HasDisposition(row) && IsReasoned(row) && IsLinked(row, claims) && IsCovered(row, claims) && IsReviewed(row)
  }

  /** A high-risk statement is dismissed with a generic note. */
  predicate IsRashlyIgnored(row: LedgerRow, texts: map<string, string>) {
    && Strip(row.disposition) == "ignored_by_policy"
    && ContainsHighRiskNormativeClaim(TextFor(texts, Strip(row.candidateId)))
    && ContainsAny(Strip(row.reviewerNotes), GENERIC_PATTERNS)
  }

  /** The ledger has exactly one row for every candidate id and for nothing else, every row is sound, and no high-risk
      statement is rashly ignored. */
  predicate SoundLedger(rows: seq<LedgerRow>, candidates: seq<Candidate>, claims: set<string>) {
    && AllCandidateIds(LedgerIds(rows)) && ListsEachOnce(LedgerIds(rows), Nonblank(CandidateIds(candidates)))
    && (forall i :: 0 <= i < |rows| ==> SoundRow(rows[i], claims))
    && (forall i :: 0 <= i < |rows| ==> !IsRashlyIgnored(rows[i], CandidateTexts(candidates, |candidates|)))
  }

  // ----- what each check's silence means

  lemma DispositionsHold(rows: seq<LedgerRow>)
    ensures Collect(rows, EnumProblems, |rows|) == [] <==> forall i :: 0 <= i < |rows| ==> HasDisposition(rows[i])
  {
    CollectsNothing(rows, EnumProblems, |rows|);
    forall i | 0 <= i < |rows| ensures EnumProblems(i, rows[i]) == [] <==> HasDisposition(rows[i]) {
      EmptyIsNotAllowed(Strip(rows[i].disposition));
    }
  }

  lemma EmptyIsNotAllowed(disp: string)
    ensures disp in ALLOWED_DISPOSITIONS ==> disp != ""
  {
  }

  lemma ReasonsHold(rows: seq<LedgerRow>)
    ensures Collect(rows, ReasonProblems, |rows|) == [] <==> forall i :: 0 <= i < |rows| ==> IsReasoned(rows[i])
  {
    CollectsNothing(rows, ReasonProblems, |rows|);
    forall i | 0 <= i < |rows| ensures ReasonProblems(i, rows[i]) == [] <==> IsReasoned(rows[i]) {
      ReasonHolds(i, rows[i]);
    }
  }

  lemma ReasonHolds(i: nat, row: LedgerRow)
    ensures ReasonProblems(i, row) == [] <==> IsReasoned(row)
  {
  }

  lemma ReferenceHoldsExactly(i: nat, disp: string, id: string, claims: set<string>)
    ensures ReferenceProblems(i, disp, id, claims) == [] <==> NamesClaim(id, claims)
  {
  }

  lemma ClaimsHold(rows: seq<LedgerRow>, claims: set<string>)
    ensures Collect(rows, ClaimIdProblems(claims), |rows|) == [] <==>
            forall i :: 0 <= i < |rows| ==> IsLinked(rows[i], claims)
  {
    CollectsNothing(rows, ClaimIdProblems(claims), |rows|);
    forall i | 0 <= i < |rows| ensures ClaimIdProblems(claims)(i, rows[i]) == [] <==> IsLinked(rows[i], claims) {
      ReferenceHoldsExactly(i, Strip(rows[i].disposition), Strip(rows[i].claimId), claims);
    }
  }

  lemma CoveringClaimsHold(rows: seq<LedgerRow>, claims: set<string>)
    ensures Collect(rows, CoveredByProblems(claims), |rows|) == [] <==>
            forall i :: 0 <= i < |rows| ==> IsCovered(rows[i], claims)
  {
    CollectsNothing(rows, CoveredByProblems(claims), |rows|);
    forall i | 0 <= i < |rows| ensures CoveredByProblems(claims)(i, rows[i]) == [] <==> IsCovered(rows[i], claims) {
      ReferenceHoldsExactly(i, Strip(rows[i].disposition), Strip(rows[i].coveredByClaimId), claims);
    }
  }

  lemma ReviewsHold(rows: seq<LedgerRow>)
    ensures Collect(rows, ReviewedAtProblems, |rows|) == [] && Collect(rows, NotesProblems, |rows|) == [] <==>
            forall i :: 0 <= i < |rows| ==> IsReviewed(rows[i])
  {
    CollectsNothing(rows, ReviewedAtProblems, |rows|);
    CollectsNothing(rows, NotesProblems, |rows|);
    forall i | 0 <= i < |rows|
      ensures ReviewedAtProblems(i, rows[i]) == [] && NotesProblems(i, rows[i]) == [] <==> IsReviewed(rows[i])
    {
    }
  }

  lemma NotesAreSpecific(rows: seq<LedgerRow>, texts: map<string, string>)
    ensures Collect(rows, HighRiskProblems(texts), |rows|) == [] <==>
            forall i :: 0 <= i < |rows| ==> !IsRashlyIgnored(rows[i], texts)
  {
    CollectsNothing(rows, HighRiskProblems(texts), |rows|);
    forall i | 0 <= i < |rows| ensures HighRiskProblems(texts)(i, rows[i]) == [] <==> !IsRashlyIgnored(rows[i], texts) {
    }
  }

  /** What "no errors" means: the ten checks are silent together exactly when the ledger is sound. */
  lemma SilentExactly(rows: seq<LedgerRow>, candidates: seq<Candidate>, claims: set<string>)
    ensures PassesOtherChecks(rows, candidates, claims) && PassesHighRiskCheck(rows, candidates) <==>
            SoundLedger(rows, candidates, claims)
  {
    LedgerIsBijection(rows, Nonblank(CandidateIds(candidates)));
    DispositionsHold(rows);
    ReasonsHold(rows);
    ClaimsHold(rows, claims);
    CoveringClaimsHold(rows, claims);
    ReviewsHold(rows);
    NotesAreSpecific(rows, CandidateTexts(candidates, |candidates|));
  }

  /** So in a passing ledger every candidate id has its one row, and what that row claims can be looked up. */
  lemma EveryCandidateIsSettled(rows: seq<LedgerRow>, candidates: seq<Candidate>, claims: set<string>, id: string)
    returns (k: nat)
    requires SoundLedger(rows, candidates, claims) && id in Nonblank(CandidateIds(candidates))
    ensures k < |rows| && LedgerIds(rows)[k] == id && SoundRow(rows[k], claims)
    ensures forall i :: 0 <= i < |rows| && i != k ==> LedgerIds(rows)[i] != id
  {
    var ids := LedgerIds(rows);
    assert id in set i | 0 <= i < |ids| :: ids[i];
    k :| 0 <= k < |ids| && ids[k] == id;
  }
}
