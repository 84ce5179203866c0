/** Automatic triage of candidates into a ledger, and what the separately written verifier says of that ledger. */
module LedgerGenerator {
  import opened Text
  import opened Ordering
  import opened Checks
  import opened ClaimIds
  import opened Candidates
  import opened Ledger
  import opened DispositionRules

  /** The seven ways triage can go. */
  datatype Route = Registered | Historical | Stale | UnknownTruth | NeedsNewClaim | LowValue | Default

  function RouteOf(c: Candidate): Route {
    var regStatus, truthStatus := Strip(c.registrationStatus), Strip(c.truthStatus);
    if regStatus == "registered" && Strip(c.registeredClaimId) != "" then Registered
    else if truthStatus == "historical" then Historical
    else if truthStatus == "stale" || regStatus == "ignored_stale" then Stale
    else if truthStatus == "unknown" then UnknownTruth
    else if truthStatus == "current" && regStatus == "unregistered" then
      if Strip(c.candidateSeverity) == "high" && Strip(c.docClass) == "canonical" then NeedsNewClaim else LowValue
    else Default
  }

  /** What `auto_triage` returns. */
  datatype Triage = Triage(disposition: string, claimId: string, coveredBy: string, reasonCode: string, notes: string)

  function AutoTriage(c: Candidate): Triage {
    var path, claim := Strip(c.docPath), Strip(c.registeredClaimId);
    match RouteOf(c)
    case Registered => Triage("registered_existing_claim", claim, "", "already_registered",
      "Already registered to " + claim)
    case Historical => Triage("historical", "", "", "historical_doc", "From historical doc: " + path)
    case Stale => Triage("stale", "", "", "stale_doc", "From stale doc: " + path)
    case UnknownTruth => Triage("stale", "", "", "stale_doc", "Unknown truth status in: " + path)
    case NeedsNewClaim =>
      Triage("needs_new_claim", "", "", "requires_future_human_review", "High-severity from canonical doc: " + path)
    case LowValue => Triage("ignored_by_policy", "", "", "low_value_context", "Low-value prose fragment from: " + path)
    case Default => Triage("ignored_by_policy", "", "", "low_value_context", "Default triage for: " + path)
  }

  function RowOf(c: Candidate, today: string): LedgerRow {
    var t := AutoTriage(c);
    LedgerRow(Strip(c.candidateId), t.disposition, t.claimId, t.coveredBy, t.reasonCode, today, t.notes)
  }

  function LedgerOf(candidates: seq<Candidate>, today: string): (rows: seq<LedgerRow>)
    ensures |rows| == |candidates| && forall i :: 0 <= i < |rows| ==> rows[i] == RowOf(candidates[i], today)
  {
    seq(|candidates|, i requires 0 <= i < |candidates| => RowOf(candidates[i], today))
  }

  method GenerateLedger(candidates: seq<Candidate>, today: string) returns (dispositions: seq<LedgerRow>)
    ensures dispositions == LedgerOf(candidates, today)
  {
    dispositions := [];
    for i := 0 to |candidates|
      invariant dispositions == LedgerOf(candidates, today)[..i]
    {
      dispositions := dispositions + [RowOf(candidates[i], today)];
    }
  }

  // ----- one triaged row under each row-by-row check

  function DispositionFor(route: Route): string {
    match route
    case Registered => "registered_existing_claim"
    case Historical => "historical"
    case Stale => "stale"
    case UnknownTruth => "stale"
    case NeedsNewClaim => "needs_new_claim"
    case LowValue => "ignored_by_policy"
    case Default => "ignored_by_policy"
  }

  function ReasonFor(route: Route): string {
    match route
    case Registered => "already_registered"
    case Historical => "historical_doc"
    case Stale => "stale_doc"
    case UnknownTruth => "stale_doc"
    case NeedsNewClaim => "requires_future_human_review"
    case LowValue => "low_value_context"
    case Default => "low_value_context"
  }

  /** How the note begins, before the claim or the path. */
  function NoteHead(route: Route): string {
    match route
    case Registered => "Already registered to "
    case Historical => "From historical doc: "
    case Stale => "From stale doc: "
    case UnknownTruth => "Unknown truth status in: "
    case NeedsNewClaim => "High-severity from canonical doc: "
    case LowValue => "Low-value prose fragment from: "
    case Default => "Default triage for: "
  }

  lemma TriageByRoute(c: Candidate)
    ensures AutoTriage(c).disposition == DispositionFor(RouteOf(c))
    ensures AutoTriage(c).reasonCode == ReasonFor(RouteOf(c))
  {
  }

  lemma NoteBegins(c: Candidate)
    ensures NoteHead(RouteOf(c)) <= AutoTriage(c).notes
  {
    var head, path, claim := NoteHead(RouteOf(c)), Strip(c.docPath), Strip(c.registeredClaimId);
    if RouteOf(c) == Registered {
      assert AutoTriage(c).notes == head + claim;
    } else {
      assert AutoTriage(c).notes == head + path;
    }
  }

  lemma DispositionIsAllowed(route: Route)
    ensures var disp := DispositionFor(route);
            && disp != "" && !IsSpace(disp[0]) && !IsSpace(disp[|disp| - 1]) && disp in ALLOWED_DISPOSITIONS
            && (disp in REQUIRING_CLAIM_ID <==> route == Registered) && disp !in REQUIRING_COVERED_BY
            && (disp == "ignored_by_policy" <==> route == LowValue || route == Default)
  {
  }

  lemma ReasonIsAllowed(route: Route)
    ensures var reason := ReasonFor(route);
            reason != "" && !IsSpace(reason[0]) && !IsSpace(reason[|reason| - 1]) && reason in ALLOWED_REASON_CODES
  {
  }

  lemma HeadIsVisible(route: Route)
    ensures NoteHead(route) != "" && !IsSpace(NoteHead(route)[0])
  {
  }

  lemma RowDisposition(c: Candidate, today: string)
    ensures var row := RowOf(c, today);
            && Strip(row.disposition) == row.disposition && row.disposition in ALLOWED_DISPOSITIONS
            && (row.disposition in REQUIRING_CLAIM_ID <==> RouteOf(c) == Registered)
            && row.disposition !in REQUIRING_COVERED_BY
            && (row.disposition == "ignored_by_policy" <==> RouteOf(c) == LowValue || RouteOf(c) == Default)
            && row.disposition != ""
  {
    TriageByRoute(c);
    DispositionIsAllowed(RouteOf(c));
    StripUnchanged(DispositionFor(RouteOf(c)));
  }

  lemma RowReason(c: Candidate, today: string)
    ensures var row := RowOf(c, today);
            Strip(row.reasonCode) == row.reasonCode && row.reasonCode != "" && row.reasonCode in ALLOWED_REASON_CODES
  {
    TriageByRoute(c);
    ReasonIsAllowed(RouteOf(c));
    StripUnchanged(ReasonFor(RouteOf(c)));
  }

  lemma NotesAreGiven(c: Candidate)
    ensures Strip(AutoTriage(c).notes) != ""
  {
    NoteBegins(c);
    HeadIsVisible(RouteOf(c));
    StripKeepsVisible(AutoTriage(c).notes, 0);
  }

  lemma RowPasses(c: Candidate, today: string, claims: set<string>, i: nat)
    ensures var row := RowOf(c, today);
            && EnumProblems(i, row) == [] && ReasonProblems(i, row) == []
            && CoveredByProblems(claims)(i, row) == [] && NotesProblems(i, row) == []
  {
    RowDisposition(c, today);
    RowReason(c, today);
    NotesAreGiven(c);
  }

  // ----- triage, on the fields of a candidate

  /** The candidate is registered to a claim. */
  predicate HasClaim(c: Candidate) {
    Strip(c.registrationStatus) == "registered" && Strip(c.registeredClaimId) != ""
  }

  predicate IsHistorical(c: Candidate) {
    !HasClaim(c) && Strip(c.truthStatus) == "historical"
  }

  predicate IsStale(c: Candidate) {
    && !HasClaim(c) && Strip(c.truthStatus) != "historical"
    && (Strip(c.truthStatus) == "stale" || Strip(c.registrationStatus) == "ignored_stale")
  }

  predicate IsUnknown(c: Candidate) {
    !HasClaim(c) && Strip(c.truthStatus) == "unknown" && Strip(c.registrationStatus) != "ignored_stale"
  }

  predicate IsCurrent(c: Candidate) {
    Strip(c.truthStatus) == "current" && Strip(c.registrationStatus) == "unregistered"
  }

  predicate IsGrave(c: Candidate) {
    Strip(c.candidateSeverity) == "high" && Strip(c.docClass) == "canonical"
  }

  predicate IsOther(c: Candidate) {
    !HasClaim(c) && !IsHistorical(c) && !IsStale(c) && !IsUnknown(c) && !IsCurrent(c)
  }

  lemma RouteExactly(c: Candidate)
    ensures RouteOf(c) == Registered <==> HasClaim(c)
    ensures RouteOf(c) == Historical <==> IsHistorical(c)
    ensures RouteOf(c) == Stale <==> IsStale(c)
    ensures RouteOf(c) == UnknownTruth <==> IsUnknown(c)
    ensures RouteOf(c) == NeedsNewClaim <==> IsCurrent(c) && IsGrave(c)
    ensures RouteOf(c) == LowValue <==> IsCurrent(c) && !IsGrave(c)
    ensures RouteOf(c) == Default <==> IsOther(c)
  {
    StatusesDiffer(Strip(c.truthStatus), Strip(c.registrationStatus));
  }

  lemma StatusesDiffer(truth: string, status: string)
    ensures truth == "current" ==> truth != "historical" && truth != "stale" && truth != "unknown"
    ensures truth == "unknown" ==> truth != "historical" && truth != "stale"
    ensures status == "unregistered" ==> status != "registered" && status != "ignored_stale"
  {
    assert "current"[0] == 'c' && "historical"[0] == 'h' && "stale"[0] == 's' && "unknown"[0] == 'u';
    assert "unregistered"[0] == 'u' && "registered"[0] == 'r' && "ignored_stale"[0] == 'i';
  }

  /** Which disposition a row gets. */
  lemma DispositionExactly(c: Candidate, today: string)
    ensures var disp := RowOf(c, today).disposition;
            && (disp == "registered_existing_claim" <==> HasClaim(c))
            && (disp == "historical" <==> IsHistorical(c))
            && (disp == "stale" <==> IsStale(c) || IsUnknown(c))
            && (disp == "needs_new_claim" <==> IsCurrent(c) && IsGrave(c))
            && (disp == "ignored_by_policy" <==> (IsCurrent(c) && !IsGrave(c)) || IsOther(c))
  {
    TriageByRoute(c);
    RouteExactly(c);
    DispositionsDiffer(RouteOf(c));
  }

  lemma DispositionsDiffer(route: Route)
    ensures var disp := DispositionFor(route);
            && (disp == "registered_existing_claim" <==> route == Registered)
            && (disp == "historical" <==> route == Historical)
            && (disp == "stale" <==> route == Stale || route == UnknownTruth)
            && (disp == "needs_new_claim" <==> route == NeedsNewClaim)
            && (disp == "ignored_by_policy" <==> route == LowValue || route == Default)
  {
    assert "registered_existing_claim"[0] == 'r' && "historical"[0] == 'h' && "stale"[0] == 's';
    assert "needs_new_claim"[0] == 'n' && "ignored_by_policy"[0] == 'i';
  }

  /** Which reason a row gives. */
  lemma ReasonExactly(c: Candidate, today: string)
    ensures var reason := RowOf(c, today).reasonCode;
            && (reason == "already_registered" <==> HasClaim(c))
            && (reason == "historical_doc" <==> IsHistorical(c))
            && (reason == "stale_doc" <==> IsStale(c) || IsUnknown(c))
            && (reason == "requires_future_human_review" <==> IsCurrent(c) && IsGrave(c))
            && (reason == "low_value_context" <==> (IsCurrent(c) && !IsGrave(c)) || IsOther(c))
  {
    TriageByRoute(c);
    RouteExactly(c);
    ReasonsDiffer(RouteOf(c));
  }

  lemma ReasonsDiffer(route: Route)
    ensures var reason := ReasonFor(route);
            && (reason == "already_registered" <==> route == Registered)
            && (reason == "historical_doc" <==> route == Historical)
            && (reason == "stale_doc" <==> route == Stale || route == UnknownTruth)
            && (reason == "requires_future_human_review" <==> route == NeedsNewClaim)
            && (reason == "low_value_context" <==> route == LowValue || route == Default)
  {
    assert "already_registered"[0] == 'a' && "historical_doc"[0] == 'h' && "stale_doc"[0] == 's';
    assert "requires_future_human_review"[0] == 'r' && "low_value_context"[0] == 'l';
  }

  /** What the note says. */
  lemma NoteExactly(c: Candidate, today: string)
    ensures var note, path := RowOf(c, today).reviewerNotes, Strip(c.docPath);
            && (HasClaim(c) ==> note == "Already registered to " + Strip(c.registeredClaimId))
            && (IsHistorical(c) ==> note == "From historical doc: " + path)
            && (IsStale(c) ==> note == "From stale doc: " + path)
            && (IsUnknown(c) ==> note == "Unknown truth status in: " + path)
            && (IsCurrent(c) && IsGrave(c) ==> note == "High-severity from canonical doc: " + path)
            && (IsCurrent(c) && !IsGrave(c) ==> note == "Low-value prose fragment from: " + path)
            && (IsOther(c) ==> note == "Default triage for: " + path)
  {
    RouteExactly(c);
  }

  /** And the other fields of the row. */
  lemma RowFields(c: Candidate, today: string)
    ensures var row := RowOf(c, today);
            && row.candidateId == Strip(c.candidateId) && row.reviewedAt == today && row.coveredByClaimId == ""
            && row.claimId == if HasClaim(c) then Strip(c.registeredClaimId) else ""
  {
    RouteExactly(c);
  }

  // ----- one triaged row under the checks that read the candidate

  /** A registered candidate's claim must be well-formed and in the registry; nothing is asked of the others. */
  predicate ReferenceHolds(c: Candidate, claims: set<string>) {
    HasClaim(c) ==> MatchesClaimId(Strip(c.registeredClaimId)) && Strip(c.registeredClaimId) in claims
  }

  lemma RowClaimId(c: Candidate, today: string, claims: set<string>, i: nat)
    ensures ClaimIdProblems(claims)(i, RowOf(c, today)) == [] <==> ReferenceHolds(c, claims)
  {
    RowDisposition(c, today);
    RouteExactly(c);
    StripTwice(c.registeredClaimId);
  }

  /** The candidate gets a note the verifier calls generic: it is current without being grave, or it gets the default
      note and the path of its document contains such a phrase. */
  predicate HasGenericNote(c: Candidate) {
    (IsCurrent(c) && !IsGrave(c)) || (IsOther(c) && ContainsAny(Strip(c.docPath), GENERIC_PATTERNS))
  }

  lemma GenericInNotes(notes: string)
    ensures ContainsAny(Strip(notes), GENERIC_PATTERNS) <==> ContainsAny(notes, GENERIC_PATTERNS)
  {
    forall i | 0 <= i < |GENERIC_PATTERNS|
      ensures Contains(Strip(notes), GENERIC_PATTERNS[i]) <==> Contains(notes, GENERIC_PATTERNS[i]) {
      ContainsStripped(notes, GENERIC_PATTERNS[i]);
    }
  }

  lemma RowNotes(c: Candidate, today: string)
    requires RouteOf(c) == LowValue || RouteOf(c) == Default
    ensures ContainsAny(Strip(RowOf(c, today).reviewerNotes), GENERIC_PATTERNS) <==> HasGenericNote(c)
  {
    var notes, path := RowOf(c, today).reviewerNotes, Strip(c.docPath);
    RouteExactly(c);
    GenericInNotes(notes);
    if RouteOf(c) == LowValue {
      assert notes == GENERIC_PATTERNS[0] + (" " + path);
      ContainsPrefix(GENERIC_PATTERNS[0], " " + path);
    } else {
      forall i | 0 <= i < |GENERIC_PATTERNS|
        ensures Contains(notes, GENERIC_PATTERNS[i]) <==> Contains(path, GENERIC_PATTERNS[i]) {
        ContainsAfter("Default triage for: ", path, GENERIC_PATTERNS[i]);
      }
    }
  }

  lemma RowHighRisk(c: Candidate, today: string, texts: map<string, string>, i: nat)
    ensures HighRiskProblems(texts)(i, RowOf(c, today)) == [] <==>
            !(HasGenericNote(c) && ContainsHighRiskNormativeClaim(TextFor(texts, Strip(c.candidateId))))
  {
    RowDisposition(c, today);
    RouteExactly(c);
    StripTwice(c.candidateId);
    if RouteOf(c) == LowValue || RouteOf(c) == Default {
      RowNotes(c, today);
    }
  }

  // ----- the ledger under every check

  function CandidateIds(candidates: seq<Candidate>): (ids: seq<string>)
    ensures |ids| == |candidates| && forall i :: 0 <= i < |ids| ==> ids[i] == Strip(candidates[i].candidateId)
  {
    seq(|candidates|, i requires 0 <= i < |candidates| => Strip(candidates[i].candidateId))
  }

  lemma GeneratedIds(candidates: seq<Candidate>, today: string)
    ensures LedgerIds(LedgerOf(candidates, today)) == CandidateIds(candidates)
  {
    var rows := LedgerOf(candidates, today);
    forall i | 0 <= i < |rows| ensures LedgerIds(rows)[i] == CandidateIds(candidates)[i] {
      StripTwice(candidates[i].candidateId);
    }
  }

  /** What the verifier always accepts in a generated ledger, whatever the candidates. */
  lemma GeneratedAlwaysPasses(candidates: seq<Candidate>, today: string, claims: set<string>)
    ensures var rows := LedgerOf(candidates, today);
            && Collect(rows, EnumProblems, |rows|) == []
            && Collect(rows, ReasonProblems, |rows|) == []
            && Collect(rows, CoveredByProblems(claims), |rows|) == []
            && Collect(rows, NotesProblems, |rows|) == []
            && CompletenessProblems(LedgerIds(rows), Nonblank(CandidateIds(candidates))) == []
  {
    var rows := LedgerOf(candidates, today);
    forall i | 0 <= i < |rows|
      ensures EnumProblems(i, rows[i]) == [] && ReasonProblems(i, rows[i]) == []
      ensures CoveredByProblems(claims)(i, rows[i]) == [] && NotesProblems(i, rows[i]) == []
    {
      RowPasses(candidates[i], today, claims, i);
    }
    CollectsNothing(rows, EnumProblems, |rows|);
    CollectsNothing(rows, ReasonProblems, |rows|);
    CollectsNothing(rows, CoveredByProblems(claims), |rows|);
    CollectsNothing(rows, NotesProblems, |rows|);
    GeneratedIds(candidates, today);
    CompletenessHolds(CandidateIds(candidates), Nonblank(CandidateIds(candidates)));
  }

  lemma GeneratedClaimIds(candidates: seq<Candidate>, today: string, claims: set<string>)
    ensures var rows := LedgerOf(candidates, today);
            Collect(rows, ClaimIdProblems(claims), |rows|) == [] <==>
            forall i :: 0 <= i < |candidates| ==> ReferenceHolds(candidates[i], claims)
  {
    var rows := LedgerOf(candidates, today);
    CollectsNothing(rows, ClaimIdProblems(claims), |rows|);
    forall i | 0 <= i < |rows|
      ensures ClaimIdProblems(claims)(i, rows[i]) == [] <==> ReferenceHolds(candidates[i], claims) {
      RowClaimId(candidates[i], today, claims, i);
    }
  }

  lemma GeneratedReviewedAt(candidates: seq<Candidate>, today: string)
    ensures var rows := LedgerOf(candidates, today);
            Collect(rows, ReviewedAtProblems, |rows|) == [] <==> candidates == [] || Strip(today) != ""
  {
    var rows := LedgerOf(candidates, today);
    CollectsNothing(rows, ReviewedAtProblems, |rows|);
    forall i | 0 <= i < |rows| ensures ReviewedAtProblems(i, rows[i]) == [] <==> Strip(today) != "" {
    }
    if candidates != [] {
      assert ReviewedAtProblems(0, rows[0]) == [] <==> Strip(today) != "";
    }
  }

  lemma GeneratedCandidateIds(candidates: seq<Candidate>, today: string)
    ensures var rows, ids := LedgerOf(candidates, today), CandidateIds(candidates);
            Collect(rows, CandidateIdProblems(Nonblank(ids)), |rows|) == [] <==> AllCandidateIds(ids)
  {
    GeneratedIds(candidates, today);
    CandidateIdsHold(LedgerOf(candidates, today), Nonblank(CandidateIds(candidates)));
  }

  lemma GeneratedDuplicates(candidates: seq<Candidate>, today: string)
    ensures var rows, ids := LedgerOf(candidates, today), CandidateIds(candidates);
            DuplicateProblems(LedgerIds(rows), |rows|) == [] <==>
            forall i, j :: 0 <= i < j < |ids| ==> ids[i] == "" || ids[i] != ids[j]
  {
    GeneratedIds(candidates, today);
    NoDuplicateProblems(CandidateIds(candidates), |candidates|);
  }

  lemma {:induction false} OwnText(candidates: seq<Candidate>, n: nat, i: nat)
    requires i < n <= |candidates| && Distinct(CandidateIds(candidates)) && CandidateIds(candidates)[i] != ""
    ensures TextFor(CandidateTexts(candidates, n), CandidateIds(candidates)[i]) == candidates[i].candidateText
  {
    var ids := CandidateIds(candidates);
    assert ids[n - 1] == Strip(candidates[n - 1].candidateId);
    if i < n - 1 {
      OwnText(candidates, n - 1, i);
      assert ids[i] != ids[n - 1];
    }
  }

  /** The high-risk check, exactly: it passes unless triage gave a generic note to a candidate whose own text
      makes a high-risk normative claim. */
  lemma GeneratedHighRisk(candidates: seq<Candidate>, today: string)
    requires Distinct(CandidateIds(candidates)) && "" !in CandidateIds(candidates)
    ensures var rows := LedgerOf(candidates, today);
            Collect(rows, HighRiskProblems(CandidateTexts(candidates, |candidates|)), |rows|) == [] <==>
            forall i :: 0 <= i < |candidates| ==>
                 !(HasGenericNote(candidates[i]) && ContainsHighRiskNormativeClaim(candidates[i].candidateText))
  {
    var rows, ids := LedgerOf(candidates, today), CandidateIds(candidates);
    var texts := CandidateTexts(candidates, |candidates|);
    CollectsNothing(rows, HighRiskProblems(texts), |rows|);
    forall i | 0 <= i < |rows|
      ensures HighRiskProblems(texts)(i, rows[i]) == [] <==>
              !(HasGenericNote(candidates[i]) && ContainsHighRiskNormativeClaim(candidates[i].candidateText))
    {
      assert ids[i] in ids;
      OwnText(candidates, |candidates|, i);
      RowHighRisk(candidates[i], today, texts, i);
    }
  }
}
