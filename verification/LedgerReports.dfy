/** Which errors the ledger checks list: for which rows, under which number, and with what in them. The header is line
    one, so row `i` has number `i + 2`. */
module LedgerReports {
  import opened Text
  import opened Ordering
  import opened Checks
  import opened ClaimIds
  import opened Candidates
  import opened Ledger
  import opened DispositionRules

  // ----- what one row gives rise to

  predicate DispositionDue(n: nat, row: LedgerRow, p: LedgerProblem) {
    var disp := Strip(row.disposition);
    if disp == "" then p == EmptyDisposition(n) else disp !in ALLOWED_DISPOSITIONS && p == InvalidDisposition(n, disp)
  }

  predicate ReasonDue(n: nat, row: LedgerRow, p: LedgerProblem) {
    var disp, reason := Strip(row.disposition), Strip(row.reasonCode);
    if reason == "" then disp in REQUIRING_REASON_CODE && p == MissingReason(n, disp)
    else reason !in ALLOWED_REASON_CODES && p == InvalidReason(n, reason)
  }

  predicate ReferenceDue(n: nat, disp: string, id: string, claims: set<string>, p: LedgerProblem) {
    || (id == "" && p == MissingClaimId(n, disp))
    || (id != "" && !MatchesClaimId(id) && p == BadClaimId(n, id))
    || (MatchesClaimId(id) && id !in claims && p == UnknownClaimId(n, id))
  }

  predicate ClaimDue(n: nat, row: LedgerRow, claims: set<string>, p: LedgerProblem) {
    var disp := Strip(row.disposition);
    && (disp == "registered_existing_claim" || disp == "registered_new_claim")
    && ReferenceDue(n, disp, Strip(row.claimId), claims, p)
  }

  predicate CoveringDue(n: nat, row: LedgerRow, claims: set<string>, p: LedgerProblem) {
    var disp := Strip(row.disposition);
    disp == "covered_by_existing_claim" && ReferenceDue(n, disp, Strip(row.coveredByClaimId), claims, p)
  }

  predicate CandidateDue(n: nat, row: LedgerRow, known: set<string>, p: LedgerProblem) {
    var id := Strip(row.candidateId);
    || (id == "" && p == EmptyCandidateId(n))
    || (id != "" && !MatchesCandidateId(id) && p == BadCandidateId(n, id))
    || (MatchesCandidateId(id) && known != {} && id !in known && p == UnknownCandidateId(n, id))
  }

  predicate ReviewDue(n: nat, row: LedgerRow, p: LedgerProblem) {
    Strip(row.reviewedAt) == "" && p == EmptyReviewedAt(n)
  }

  predicate NotesDue(n: nat, row: LedgerRow, p: LedgerProblem) {
    var disp := Strip(row.disposition);
    disp != "registered_existing_claim" && Strip(row.reviewerNotes) == "" && p == EmptyNotes(n, disp)
  }

  predicate SpecificNotesDue(n: nat, row: LedgerRow, texts: map<string, string>, p: LedgerProblem) {
    var id := Strip(row.candidateId);
    && Strip(row.disposition) == "ignored_by_policy"
    && ContainsHighRiskNormativeClaim(if id in texts then texts[id] else "")
    && ContainsAny(Strip(row.reviewerNotes), GENERIC_PATTERNS) && p == GenericNotes(n, id)
  }

  // ----- what the checks list

  lemma EmptyIsNot(disp: string)
    ensures disp in ALLOWED_DISPOSITIONS ==> disp != ""
  {
  }

  lemma ReferenceExactly(i: nat, disp: string, id: string, claims: set<string>, p: LedgerProblem)
    ensures p in ReferenceProblems(i, disp, id, claims) <==> ReferenceDue(i + 2, disp, id, claims, p)
  {
    assert MatchesClaimId(id) ==> id != "";
  }

  lemma DispositionsOfRow(i: nat, row: LedgerRow, p: LedgerProblem)
    ensures p in EnumProblems(i, row) <==> DispositionDue(i + 2, row, p)
  {
    EmptyIsNot(Strip(row.disposition));
  }

  lemma DispositionsReported(rows: seq<LedgerRow>, p: LedgerProblem)
    ensures p in Collect(rows, EnumProblems, |rows|) <==>
            exists i :: 0 <= i < |rows| && DispositionDue(i + 2, rows[i], p)
  {
    CollectsExactly(rows, EnumProblems, |rows|, p);
    forall i | 0 <= i < |rows|
      ensures p in EnumProblems(i, rows[i]) <==> DispositionDue(i + 2, rows[i], p)
    {
      DispositionsOfRow(i, rows[i], p);
    }
  }

  lemma ReasonsOfRow(i: nat, row: LedgerRow, p: LedgerProblem)
    ensures p in ReasonProblems(i, row) <==> ReasonDue(i + 2, row, p)
  {
  }

  lemma ReasonsReported(rows: seq<LedgerRow>, p: LedgerProblem)
    ensures p in Collect(rows, ReasonProblems, |rows|) <==>
            exists i :: 0 <= i < |rows| && ReasonDue(i + 2, rows[i], p)
  {
    CollectsExactly(rows, ReasonProblems, |rows|, p);
    forall i | 0 <= i < |rows|
      ensures p in ReasonProblems(i, rows[i]) <==> ReasonDue(i + 2, rows[i], p)
    {
      ReasonsOfRow(i, rows[i], p);
    }
  }

  lemma ClaimsOfRow(i: nat, row: LedgerRow, claims: set<string>, p: LedgerProblem)
    ensures p in ClaimIdProblems(claims)(i, row) <==> ClaimDue(i + 2, row, claims, p)
  {
    ReferenceExactly(i, Strip(row.disposition), Strip(row.claimId), claims, p);
  }

  lemma ClaimsReported(rows: seq<LedgerRow>, claims: set<string>, p: LedgerProblem)
    ensures p in Collect(rows, ClaimIdProblems(claims), |rows|) <==>
            exists i :: 0 <= i < |rows| && ClaimDue(i + 2, rows[i], claims, p)
  {
    CollectsExactly(rows, ClaimIdProblems(claims), |rows|, p);
    forall i | 0 <= i < |rows|
      ensures p in ClaimIdProblems(claims)(i, rows[i]) <==> ClaimDue(i + 2, rows[i], claims, p)
    {
      ClaimsOfRow(i, rows[i], claims, p);
    }
  }

  lemma CoveringClaimsOfRow(i: nat, row: LedgerRow, claims: set<string>, p: LedgerProblem)
    ensures p in CoveredByProblems(claims)(i, row) <==> CoveringDue(i + 2, row, claims, p)
  {
    ReferenceExactly(i, Strip(row.disposition), Strip(row.coveredByClaimId), claims, p);
  }

  lemma CoveringClaimsReported(rows: seq<LedgerRow>, claims: set<string>, p: LedgerProblem)
    ensures p in Collect(rows, CoveredByProblems(claims), |rows|) <==>
            exists i :: 0 <= i < |rows| && CoveringDue(i + 2, rows[i], claims, p)
  {
    CollectsExactly(rows, CoveredByProblems(claims), |rows|, p);
    forall i | 0 <= i < |rows|
      ensures p in CoveredByProblems(claims)(i, rows[i]) <==> CoveringDue(i + 2, rows[i], claims, p)
    {
      CoveringClaimsOfRow(i, rows[i], claims, p);
    }
  }

  lemma IdIsNotEmpty(id: string)
    ensures MatchesCandidateId(id) ==> id != ""
  {
  }

  lemma CandidatesOfRow(i: nat, row: LedgerRow, known: set<string>, p: LedgerProblem)
    ensures p in CandidateIdProblems(known)(i, row) <==> CandidateDue(i + 2, row, known, p)
  {
    IdIsNotEmpty(Strip(row.candidateId));
  }

  lemma CandidatesReported(rows: seq<LedgerRow>, known: set<string>, p: LedgerProblem)
    ensures p in Collect(rows, CandidateIdProblems(known), |rows|) <==>
            exists i :: 0 <= i < |rows| && CandidateDue(i + 2, rows[i], known, p)
  {
    CollectsExactly(rows, CandidateIdProblems(known), |rows|, p);
    forall i | 0 <= i < |rows|
      ensures p in CandidateIdProblems(known)(i, rows[i]) <==> CandidateDue(i + 2, rows[i], known, p)
    {
      CandidatesOfRow(i, rows[i], known, p);
    }
  }

  lemma ReviewsOfRow(i: nat, row: LedgerRow, p: LedgerProblem)
    ensures p in ReviewedAtProblems(i, row) <==> ReviewDue(i + 2, row, p)
  {
  }

  lemma ReviewsReported(rows: seq<LedgerRow>, p: LedgerProblem)
    ensures p in Collect(rows, ReviewedAtProblems, |rows|) <==>
            exists i :: 0 <= i < |rows| && ReviewDue(i + 2, rows[i], p)
  {
    CollectsExactly(rows, ReviewedAtProblems, |rows|, p);
    forall i | 0 <= i < |rows|
      ensures p in ReviewedAtProblems(i, rows[i]) <==> ReviewDue(i + 2, rows[i], p)
    {
      ReviewsOfRow(i, rows[i], p);
    }
  }

  lemma NotesOfRow(i: nat, row: LedgerRow, p: LedgerProblem)
    ensures p in NotesProblems(i, row) <==> NotesDue(i + 2, row, p)
  {
  }

  lemma NotesReported(rows: seq<LedgerRow>, p: LedgerProblem)
    ensures p in Collect(rows, NotesProblems, |rows|) <==>
            exists i :: 0 <= i < |rows| && NotesDue(i + 2, rows[i], p)
  {
    CollectsExactly(rows, NotesProblems, |rows|, p);
    forall i | 0 <= i < |rows|
      ensures p in NotesProblems(i, rows[i]) <==> NotesDue(i + 2, rows[i], p)
    {
      NotesOfRow(i, rows[i], p);
    }
  }

  lemma SpecificNotesOfRow(i: nat, row: LedgerRow, texts: map<string, string>, p: LedgerProblem)
    ensures p in HighRiskProblems(texts)(i, row) <==> SpecificNotesDue(i + 2, row, texts, p)
  {
  }

  lemma SpecificNotesReported(rows: seq<LedgerRow>, texts: map<string, string>, p: LedgerProblem)
    ensures p in Collect(rows, HighRiskProblems(texts), |rows|) <==>
            exists i :: 0 <= i < |rows| && SpecificNotesDue(i + 2, rows[i], texts, p)
  {
    CollectsExactly(rows, HighRiskProblems(texts), |rows|, p);
    forall i | 0 <= i < |rows|
      ensures p in HighRiskProblems(texts)(i, rows[i]) <==> SpecificNotesDue(i + 2, rows[i], texts, p)
    {
      SpecificNotesOfRow(i, rows[i], texts, p);
    }
  }

  /** The last of the candidates with this id. */
  predicate IsLastWith(candidates: seq<Candidate>, n: nat, id: string, k: nat)
    requires n <= |candidates|
  {
    && k < n && Strip(candidates[k].candidateId) == id
    && forall j :: k < j < n ==> Strip(candidates[j].candidateId) != id
  }

  /** The texts the last check looks up are those of the last candidates with the ids. */
  lemma {:induction false} TextsExactly(candidates: seq<Candidate>, n: nat, id: string)
    requires n <= |candidates|
    ensures id in CandidateTexts(candidates, n) ==>
      id != "" && exists k: nat ::
        IsLastWith(candidates, n, id, k) && CandidateTexts(candidates, n)[id] == candidates[k].candidateText
    ensures id !in CandidateTexts(candidates, n) ==>
      id == "" || forall k :: 0 <= k < n ==> Strip(candidates[k].candidateId) != id
  {
    if n > 0 {
      var own := Strip(candidates[n - 1].candidateId);
      TextsExactly(candidates, n - 1, id);
      if own == id {
        assert IsLastWith(candidates, n, id, n - 1);
      } else if id in CandidateTexts(candidates, n - 1) {
        var k: nat :| IsLastWith(candidates, n - 1, id, k)
          && CandidateTexts(candidates, n - 1)[id] == candidates[k].candidateText;
        assert IsLastWith(candidates, n, id, k);
      }
    }
  }

  // ----- duplicates and completeness

  /** Row `i` repeats an id, and row `j` is the first that has it. */
  predicate Repeats(ids: seq<string>, j: nat, i: nat) {
    j < i < |ids| && ids[i] != "" && ids[j] == ids[i] && forall k :: 0 <= k < j ==> ids[k] != ids[i]
  }

  lemma {:induction false} DuplicatesReported(ids: seq<string>, n: nat, p: LedgerProblem)
    requires n <= |ids|
    ensures p in DuplicateProblems(ids, n) <==>
            exists j: nat, i: nat :: i < n && Repeats(ids, j, i) && p == DuplicateCandidate(i + 2, ids[i], j + 2)
  {
    if n > 0 {
      var first := FirstAt(ids, ids[n - 1], n - 1);
      DuplicatesReported(ids, n - 1, p);
      FirstAtIsFirst(ids, ids[n - 1], n - 1);
      if ids[n - 1] != "" && first < n - 1 {
        assert Repeats(ids, first, n - 1);
        if p == DuplicateCandidate(n - 1 + 2, ids[n - 1], first + 2) {
          assert p in DuplicateProblems(ids, n);
        }
      }
      OnlyFirstRepeats(ids, n - 1, first);
    }
  }

  lemma OnlyFirstRepeats(ids: seq<string>, i: nat, first: nat)
    requires i < |ids| && first == FirstAt(ids, ids[i], i)
    ensures forall j: nat :: Repeats(ids, j, i) ==> j == first
  {
    FirstAtIsFirst(ids, ids[i], i);
  }

  /** The ten smallest of the ids, in order. */
  predicate AreSmallest(s: seq<string>, ids: set<string>) {
    && Sorted(s) && Distinct(s) && |s| == (if |ids| <= 10 then |ids| else 10)
    && (forall x :: x in s ==> x in ids)
    && forall x, y :: x in s && y in ids && y !in s ==> StringLe(x, y)
  }

  lemma FirstTenAreSmallest(ids: set<string>)
    ensures AreSmallest(FirstTen(SortSet(ids)), ids)
  {
    var all := SortSet(ids);
    PrefixIsSmallest(all, |FirstTen(all)|);
    assert FirstTen(all) == all[..|FirstTen(all)|];
  }

  lemma PrefixIsSmallest(all: seq<string>, n: nat)
    requires n <= |all| && Sorted(all) && Distinct(all)
    ensures Sorted(all[..n]) && Distinct(all[..n]) && forall x :: x in all[..n] ==> x in all
    ensures forall x, y :: x in all[..n] && y in all && y !in all[..n] ==> StringLe(x, y)
  {
    forall j | 0 <= j < n ensures all[j] in all[..n] {
      assert all[..n][j] == all[j];
    }
    forall x, y | x in all[..n] && y in all && y !in all[..n] ensures StringLe(x, y) {
      var i :| 0 <= i < n && all[i] == x;
      var j :| 0 <= j < |all| && all[j] == y;
      assert j >= n;
    }
  }

  /** The completeness check says how many ids are missing on either side, with the ten smallest as examples. */
  lemma CompletenessReported(ids: seq<string>, candidateIds: set<string>, p: LedgerProblem)
    requires p in CompletenessProblems(ids, candidateIds)
    ensures var missing := set id | id in candidateIds && (id == "" || id !in ids);
            var extra := set id | id in ids && id != "" && id !in candidateIds;
            || (p.WithoutDisposition? && p.count == |missing| > 0 && AreSmallest(p.examples, missing))
            || (p.UnknownCandidates? && p.count == |extra| > 0 && AreSmallest(p.examples, extra))
  {
    var missing := set id | id in candidateIds && (id == "" || id !in ids);
    var extra := set id | id in ids && id != "" && id !in candidateIds;
    SidesExactly(ids, candidateIds);
    MissingReported(missing, p);
    ExtraReported(extra, p);
  }

  lemma SidesExactly(ids: seq<string>, candidateIds: set<string>)
    ensures candidateIds - Nonblank(ids) == set id | id in candidateIds && (id == "" || id !in ids)
    ensures Nonblank(ids) - candidateIds == set id | id in ids && id != "" && id !in candidateIds
  {
  }

  lemma MissingReported(missing: set<string>, p: LedgerProblem)
    ensures p in MissingProblems(missing) ==>
      p.WithoutDisposition? && p.count == |missing| > 0 && AreSmallest(p.examples, missing)
  {
    FirstTenAreSmallest(missing);
  }

  lemma ExtraReported(extra: set<string>, p: LedgerProblem)
    ensures p in ExtraProblems(extra) ==>
      p.UnknownCandidates? && p.count == |extra| > 0 && AreSmallest(p.examples, extra)
  {
    FirstTenAreSmallest(extra);
  }

  /** One error for each side on which ids are missing. */
  lemma CompletenessCounts(ids: seq<string>, candidateIds: set<string>)
    ensures var missing := set id | id in candidateIds && (id == "" || id !in ids);
            var extra := set id | id in ids && id != "" && id !in candidateIds;
            var problems := CompletenessProblems(ids, candidateIds);
            && |problems| == (if missing == {} then 0 else 1) + (if extra == {} then 0 else 1)
            && (missing != {} ==> problems[0].WithoutDisposition?)
            && (extra != {} ==> problems[|problems| - 1].UnknownCandidates?)
  {
    SidesExactly(ids, candidateIds);
  }

  // ----- high-risk statements

  /** The text is long enough, neither a table row nor a list item without a colon near its start, and holds one of the
      phrases in any letter case. */
  lemma HighRiskExactly(text: string)
    ensures ContainsHighRiskNormativeClaim(text) <==>
            var t := Strip(text);
            && |t| >= 30 && t[0] != '|' && !(t[..2] == "- " && ':' !in t[..if |t| < 50 then |t| else 50])
            && exists p, a, b :: p in HIGH_RISK_PATTERNS && Lower(text) == a + p + b
  {
    var t := Strip(text);
    PhraseExactly(Lower(text), HIGH_RISK_PATTERNS);
    if |t| >= 30 {
      assert StartsWith(t, "|") <==> t[0] == '|';
      assert StartsWith(t, "- ") <==> t[..2] == "- ";
    }
  }

  lemma PhraseExactly(text: string, patterns: seq<string>)
    ensures ContainsAny(text, patterns) <==> exists p, a, b :: p in patterns && text == a + p + b
  {
    if i :| 0 <= i < |patterns| && Contains(text, patterns[i]) {
      ContainsExactly(text, patterns[i]);
      var a, b :| text == a + patterns[i] + b;
      assert patterns[i] in patterns;
    }
    if p, a, b :| p in patterns && text == a + p + b {
      var i :| 0 <= i < |patterns| && patterns[i] == p;
      ContainsExactly(text, p);
    }
  }
}
