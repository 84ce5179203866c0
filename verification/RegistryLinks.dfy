/** The two-way link check between registry claims and registered candidates. */
module RegistryLinks {
  import opened Wrappers
  import opened Text
  import opened Ordering
  import opened Checks
  import opened ClaimIds
  import opened Candidates

  datatype ClaimRow = ClaimRow(claimId: string, candidateIds: string, claimStatus: string, evidenceRequired: string)

  datatype LinkProblem =
    | RegisteredWithoutLink(cid: string)
    | LinkWithoutRegistered(cid: string, claim: string, status: string)
    | LinkToUnknownClaim(cid: string, claim: string)
    | NotListedByClaim(cid: string, claim: string)
    | NewClaimWithoutCandidates(row: nat, claim: string)
    | BadListedId(row: nat, cid: string)
    | UnknownListedId(row: nat, cid: string)
    | ListedNotRegistered(row: nat, cid: string, status: string)
    | ListedLinksElsewhere(row: nat, cid: string, claim: string)

  // ----- the candidates by id

  type ById = map<string, Candidate>

  /** `read_candidates`: keyed by stripped id, the last of several winning. */
  function CandidatesById(candidates: seq<Candidate>, n: nat): ById
    requires n <= |candidates|
  {
    if n == 0 then map[] else
    var id, before := Strip(candidates[n - 1].candidateId), CandidatesById(candidates, n - 1);
    if id == "" then before else before[id := candidates[n - 1]]
  }

  /** The keys in the order in which they were first inserted. */
  function KeysInOrder(candidates: seq<Candidate>, n: nat): (keys: seq<string>)
    requires n <= |candidates|
    ensures forall key :: key in keys <==> key in CandidatesById(candidates, n)
  {
    if n == 0 then [] else
    var id, before := Strip(candidates[n - 1].candidateId), KeysInOrder(candidates, n - 1);
    if id == "" || id in before then before else before + [id]
  }

  method ReadCandidates(candidates: seq<Candidate>) returns (byId: ById, keys: seq<string>)
    ensures byId == CandidatesById(candidates, |candidates|) && keys == KeysInOrder(candidates, |candidates|)
  {
    byId, keys := map[], [];
    for i := 0 to |candidates|
      invariant byId == CandidatesById(candidates, i) && keys == KeysInOrder(candidates, i)
    {
      var id := Strip(candidates[i].candidateId);
      if id != "" {
        if id !in byId {
          keys := keys + [id];
        }
        byId := byId[id := candidates[i]];
      }
    }
  }

  // ----- reading the fields

  function ClaimOf(row: ClaimRow): string { Strip(row.claimId) }
  function LinkOf(c: Candidate): string { Strip(c.registeredClaimId) }
  predicate IsRegistered(c: Candidate) { Strip(c.registrationStatus) == "registered" }

  /** The parts of the semicolon-separated `candidate_ids` field. */
  function Parts(row: ClaimRow): seq<string> {
    Split(Strip(row.candidateIds), ';')
  }

  /** The candidate ids a claim lists. */
  function ListedBy(row: ClaimRow): set<string> {
    set part | part in Parts(row) && Strip(part) != "" :: Strip(part)
  }

  function ClaimColumn(rows: seq<ClaimRow>): (claims: seq<string>)
    ensures |claims| == |rows| && forall i :: 0 <= i < |rows| ==> claims[i] == ClaimOf(rows[i])
  {
    seq(|rows|, i requires 0 <= i < |rows| => ClaimOf(rows[i]))
  }

  function ListColumn(rows: seq<ClaimRow>): (lists: seq<Option<set<string>>>)
    ensures |lists| == |rows|
    ensures forall i :: 0 <= i < |rows| ==>
      lists[i] == if Strip(rows[i].candidateIds) == "" then None else Some(ListedBy(rows[i]))
  {
    seq(|rows|, i requires 0 <= i < |rows| =>
      if Strip(rows[i].candidateIds) == "" then None else Some(ListedBy(rows[i])))
  }

  /** A dictionary filled row by row: of several values for one key, the last. */
  function Dictionary<V>(keys: seq<string>, values: seq<Option<V>>, n: nat): map<string, V>
    requires n <= |keys| == |values|
  {
    if n == 0 then map[] else
    match values[n - 1]
    case None => Dictionary(keys, values, n - 1)
    case Some(v) => Dictionary(keys, values, n - 1)[keys[n - 1] := v]
  }

  /** `claim_to_candidates`. */
  function ListsByClaim(rows: seq<ClaimRow>): map<string, set<string>> {
    Dictionary(ClaimColumn(rows), ListColumn(rows), |rows|)
  }

  function ListFor(lists: map<string, set<string>>, claim: string): set<string> {
    if claim in lists then lists[claim] else {}
  }

  predicate IsClaim(rows: seq<ClaimRow>, claim: string) {
    exists i | 0 <= i < |rows| :: ClaimOf(rows[i]) == claim
  }

  // ----- what is reported

  function BackProblems(rows: seq<ClaimRow>, lists: map<string, set<string>>, cid: string, c: Candidate)
    : seq<LinkProblem>
  {
    var link := LinkOf(c);
    (if IsRegistered(c) && link == "" then [RegisteredWithoutLink(cid)] else [])
    + (if link != "" && !IsRegistered(c) then [LinkWithoutRegistered(cid, link, Strip(c.registrationStatus))] else [])
    + (if link != "" && !IsClaim(rows, link) then [LinkToUnknownClaim(cid, link)] else [])
    + (if link != "" && IsRegistered(c) && cid !in ListFor(lists, link) then [NotListedByClaim(cid, link)] else [])
  }

  function BackReports(rows: seq<ClaimRow>, lists: map<string, set<string>>, byId: ById, keys: seq<string>)
    : (reports: seq<seq<LinkProblem>>)
    requires forall k :: 0 <= k < |keys| ==> keys[k] in byId
    ensures |reports| == |keys| && forall k :: 0 <= k < |keys| ==>
      reports[k] == BackProblems(rows, lists, keys[k], byId[keys[k]])
  {
    seq(|keys|, k requires 0 <= k < |keys| => BackProblems(rows, lists, keys[k], byId[keys[k]]))
  }

  function ListedProblems(row: nat, claim: string, byId: ById, cid: string): seq<LinkProblem> {
    if cid == "" then []
    else if !MatchesCandidateId(cid) then [BadListedId(row, cid)]
    else if cid !in byId then [UnknownListedId(row, cid)]
    else
      var c := byId[cid];
      (if !IsRegistered(c) then [ListedNotRegistered(row, cid, Strip(c.registrationStatus))] else [])
      + (if LinkOf(c) != claim then [ListedLinksElsewhere(row, cid, LinkOf(c))] else [])
  }

  function ListedReports(row: nat, claim: string, byId: ById, parts: seq<string>): (reports: seq<seq<LinkProblem>>)
    ensures |reports| == |parts| && forall k :: 0 <= k < |parts| ==>
      reports[k] == ListedProblems(row, claim, byId, Strip(parts[k]))
  {
    seq(|parts|, k requires 0 <= k < |parts| => ListedProblems(row, claim, byId, Strip(parts[k])))
  }

  function ListProblems(row: nat, claim: string, byId: ById, parts: seq<string>): seq<LinkProblem> {
    Flatten(ListedReports(row, claim, byId, parts), |parts|)
  }

  predicate NeedsCandidates(row: ClaimRow) {
    StringLe(FIRST_CURATED_CLAIM, ClaimOf(row)) && Strip(row.claimStatus) == "current"
      && Lower(Strip(row.evidenceRequired)) == "true"
  }

  function NewClaimProblems(i: nat, row: ClaimRow): seq<LinkProblem> {
    if !NeedsCandidates(row) || Strip(row.candidateIds) != "" then []
    else [NewClaimWithoutCandidates(RowNumber(i), ClaimOf(row))]
  }

  function RowProblems(byId: ById, i: nat, row: ClaimRow): seq<LinkProblem> {
    NewClaimProblems(i, row)
      + (if Strip(row.candidateIds) == "" then [] else ListProblems(RowNumber(i), ClaimOf(row), byId, Parts(row)))
  }

  function RowCheck(byId: ById): (nat, ClaimRow) -> seq<LinkProblem> {
    (i: nat, row: ClaimRow) => RowProblems(byId, i, row)
  }

  function LinkProblems(rows: seq<ClaimRow>, candidates: seq<Candidate>): seq<LinkProblem> {
    var byId, keys := CandidatesById(candidates, |candidates|), KeysInOrder(candidates, |candidates|);
    KeysPresent(candidates);
    var back := BackReports(rows, ListsByClaim(rows), byId, keys);
    Flatten(back, |back|) + Collect(rows, RowCheck(byId), |rows|)
  }

  lemma KeysPresent(candidates: seq<Candidate>)
    ensures forall k :: 0 <= k < |KeysInOrder(candidates, |candidates|)| ==>
            KeysInOrder(candidates, |candidates|)[k] in CandidatesById(candidates, |candidates|)
  {
    var keys := KeysInOrder(candidates, |candidates|);
    assert forall k :: 0 <= k < |keys| ==> keys[k] in keys;
  }

  // ----- the check

  method CheckCandidateIdsValid(rows: seq<ClaimRow>, candidates: seq<Candidate>) returns (errors: seq<LinkProblem>)
    ensures errors == LinkProblems(rows, candidates)
  {
    var byId, keys := ReadCandidates(candidates);
    var lists := ReadLists(rows);
    KeysPresent(candidates);
    var backErrors := CheckBackLinks(rows, lists, byId, keys);
    var rowErrors := CheckRows(rows, byId);
    errors := backErrors + rowErrors;
  }

  method ReadLists(rows: seq<ClaimRow>) returns (lists: map<string, set<string>>)
    ensures lists == ListsByClaim(rows)
  {
    lists := map[];
    ghost var claims, listed := ClaimColumn(rows), ListColumn(rows);
    for i := 0 to |rows|
      invariant lists == Dictionary(claims, listed, i)
    {
      if Strip(rows[i].candidateIds) != "" {
        lists := lists[ClaimOf(rows[i]) := ListedBy(rows[i])];
      }
    }
  }

  /** The first pass: every candidate, in dictionary order. */
  method CheckBackLinks(rows: seq<ClaimRow>, lists: map<string, set<string>>, byId: ById, keys: seq<string>)
    returns (errors: seq<LinkProblem>)
    requires forall k :: 0 <= k < |keys| ==> keys[k] in byId
    ensures errors == Flatten(BackReports(rows, lists, byId, keys), |keys|)
  {
    errors := [];
    ghost var reports := BackReports(rows, lists, byId, keys);
    for k := 0 to |keys|
      invariant errors == Flatten(reports, k)
    {
      var found := CheckBackLink(rows, lists, keys[k], byId[keys[k]]);
      errors := errors + found;
    }
  }

  method CheckBackLink(rows: seq<ClaimRow>, lists: map<string, set<string>>, cid: string, c: Candidate)
    returns (errors: seq<LinkProblem>)
    ensures errors == BackProblems(rows, lists, cid, c)
  {
    errors := [];
    var link := LinkOf(c);
    if IsRegistered(c) && link == "" {
      errors := errors + [RegisteredWithoutLink(cid)];
    }
    if link != "" && !IsRegistered(c) {
      errors := errors + [LinkWithoutRegistered(cid, link, Strip(c.registrationStatus))];
    }
    if link != "" {
      if !IsClaim(rows, link) {
        errors := errors + [LinkToUnknownClaim(cid, link)];
      }
      if IsRegistered(c) {
        if cid !in ListFor(lists, link) {
          errors := errors + [NotListedByClaim(cid, link)];
        }
      }
    }
  }

  /** The second pass: every row and every id it lists. */
  method CheckRows(rows: seq<ClaimRow>, byId: ById) returns (errors: seq<LinkProblem>)
    ensures errors == Collect(rows, RowCheck(byId), |rows|)
  {
    errors := [];
    for i := 0 to |rows|
      invariant errors == Collect(rows, RowCheck(byId), i)
    {
      var found := CheckRow(rows[i], i, byId);
      errors := errors + found;
    }
  }

  method CheckRow(row: ClaimRow, i: nat, byId: ById) returns (errors: seq<LinkProblem>)
    ensures errors == RowProblems(byId, i, row)
  {
    errors := [];
    if NeedsCandidates(row) && Strip(row.candidateIds) == "" {
      errors := errors + [NewClaimWithoutCandidates(RowNumber(i), ClaimOf(row))];
    }
    if Strip(row.candidateIds) == "" {
      return;
    }
    var found := CheckList(RowNumber(i), ClaimOf(row), byId, Parts(row));
    errors := errors + found;
  }

  method CheckList(row: nat, claim: string, byId: ById, parts: seq<string>) returns (errors: seq<LinkProblem>)
    ensures errors == ListProblems(row, claim, byId, parts)
  {
    errors := [];
    ghost var reports := ListedReports(row, claim, byId, parts);
    for k := 0 to |parts|
      invariant errors == Flatten(reports, k)
    {
      var found := CheckListed(row, claim, byId, Strip(parts[k]));
      assert found == reports[k];
      errors := errors + found;
    }
  }

  method CheckListed(row: nat, claim: string, byId: ById, cid: string) returns (errors: seq<LinkProblem>)
    ensures errors == ListedProblems(row, claim, byId, cid)
  {
    errors := [];
    if cid == "" {
      return;
    }
    if !MatchesCandidateId(cid) {
      return [BadListedId(row, cid)];
    }
    if cid !in byId {
      return [UnknownListedId(row, cid)];
    }
    var c := byId[cid];
    if !IsRegistered(c) {
      errors := errors + [ListedNotRegistered(row, cid, Strip(c.registrationStatus))];
    }
    if LinkOf(c) != claim {
      errors := errors + [ListedLinksElsewhere(row, cid, LinkOf(c))];
    }
  }

  // ----- what silence means

  /** Pairs of a claim and a candidate it lists. */
  function Listed(rows: seq<ClaimRow>): set<(string, string)> {
    set i, cid | 0 <= i < |rows| && cid in ListedBy(rows[i]) :: (ClaimOf(rows[i]), cid)
  }

  /** Pairs of a registered candidate's claim and the candidate. */
  function Linked(byId: ById): set<(string, string)> {
    set cid | cid in byId && IsRegistered(byId[cid]) :: (LinkOf(byId[cid]), cid)
  }

  ghost predicate LinksAgree(rows: seq<ClaimRow>, byId: ById) {
    && Listed(rows) == Linked(byId)
    && (forall cid :: cid in byId ==> (IsRegistered(byId[cid]) <==> LinkOf(byId[cid]) != ""))
    && (forall claim, cid :: (claim, cid) in Listed(rows) ==> MatchesCandidateId(cid) && cid in byId)
    && (forall cid :: cid in byId && LinkOf(byId[cid]) != "" ==> IsClaim(rows, LinkOf(byId[cid])))
    && (forall i :: 0 <= i < |rows| ==> NeedsCandidates(rows[i]) ==> Strip(rows[i].candidateIds) != "")
  }

  predicate UniqueClaims(rows: seq<ClaimRow>) {
    forall i, j :: 0 <= i < j < |rows| ==> ClaimOf(rows[i]) != ClaimOf(rows[j])
  }

  lemma OwnList(rows: seq<ClaimRow>, i: nat)
    requires i < |rows| && UniqueClaims(rows)
    ensures ListFor(ListsByClaim(rows), ClaimOf(rows[i])) == ListedBy(rows[i])
  {
    var claims, lists := ClaimColumn(rows), ListColumn(rows);
    OwnEntry(claims, lists, |rows|, i);
    BlankListsNothing(rows[i]);
    assert claims[i] == ClaimOf(rows[i]);
  }

  lemma {:induction false} OwnEntry<V>(keys: seq<string>, values: seq<Option<V>>, n: nat, i: nat)
    requires i < n <= |keys| == |values| && Distinct(keys)
    ensures keys[i] in Dictionary(keys, values, n) <==> values[i].Some?
    ensures values[i].Some? ==> Dictionary(keys, values, n)[keys[i]] == values[i].value
  {
    if i < n - 1 {
      OwnEntry(keys, values, n - 1, i);
    } else {
      NoEntry(keys, values, i, keys[i]);
    }
  }

  lemma {:induction false} NoEntry<V>(keys: seq<string>, values: seq<Option<V>>, n: nat, key: string)
    requires n <= |keys| == |values| && forall i :: 0 <= i < n ==> keys[i] != key
    ensures key !in Dictionary(keys, values, n)
  {
    if n > 0 {
      NoEntry(keys, values, n - 1, key);
    }
  }

  lemma BlankListsNothing(row: ClaimRow)
    ensures Strip(row.candidateIds) == "" ==> ListedBy(row) == {}
  {
    assert Split("", ';') == [""] && Strip("") == "";
  }

  /** Silence about the candidates. */
  ghost predicate BackSilent(rows: seq<ClaimRow>, byId: ById) {
    forall cid :: cid in byId ==> BackProblems(rows, ListsByClaim(rows), cid, byId[cid]) == []
  }

  /** Silence about the rows. */
  ghost predicate RowsSilent(rows: seq<ClaimRow>, byId: ById) {
    forall i :: 0 <= i < |rows| ==> RowSilent(byId, i, rows[i])
  }

  ghost predicate RowSilent(byId: ById, i: nat, row: ClaimRow) {
    && NewClaimProblems(i, row) == []
    && forall cid :: cid in ListedBy(row) ==> ListedProblems(RowNumber(i), ClaimOf(row), byId, cid) == []
  }

  lemma RowSilence(byId: ById, i: nat, row: ClaimRow)
    ensures RowProblems(byId, i, row) == [] <==> RowSilent(byId, i, row)
  {
    var parts, reports := Parts(row), ListedReports(RowNumber(i), ClaimOf(row), byId, Parts(row));
    FlattensNothing(reports, |reports|);
    PartsAreListed(row);
    if Strip(row.candidateIds) == "" {
      assert parts == [""] && Strip("") == "";
    }
    forall k | 0 <= k < |parts| && Strip(parts[k]) == "" ensures reports[k] == [] {
    }
  }

  lemma PartsAreListed(row: ClaimRow)
    ensures forall k :: 0 <= k < |Parts(row)| ==> Strip(Parts(row)[k]) == "" || Strip(Parts(row)[k]) in ListedBy(row)
    ensures forall cid :: cid in ListedBy(row) ==> exists k :: 0 <= k < |Parts(row)| && Strip(Parts(row)[k]) == cid
  {
    var parts := Parts(row);
    forall k | 0 <= k < |parts| ensures Strip(parts[k]) == "" || Strip(parts[k]) in ListedBy(row) {
      assert parts[k] in parts;
    }
    forall cid | cid in ListedBy(row) ensures exists k :: 0 <= k < |parts| && Strip(parts[k]) == cid {
      var part :| part in parts && Strip(part) == cid;
      var k :| 0 <= k < |parts| && parts[k] == part;
    }
  }

  lemma RowsSilence(byId: ById, rows: seq<ClaimRow>)
    ensures Collect(rows, RowCheck(byId), |rows|) == [] <==> RowsSilent(rows, byId)
  {
    CollectsNothing(rows, RowCheck(byId), |rows|);
    forall i | 0 <= i < |rows| ensures RowCheck(byId)(i, rows[i]) == [] <==> RowSilent(byId, i, rows[i]) {
      RowSilence(byId, i, rows[i]);
    }
  }

  lemma BackSilence(rows: seq<ClaimRow>, byId: ById, keys: seq<string>)
    requires forall k :: 0 <= k < |keys| ==> keys[k] in byId
    requires forall cid :: cid in byId ==> cid in keys
    ensures Flatten(BackReports(rows, ListsByClaim(rows), byId, keys), |keys|) == [] <==> BackSilent(rows, byId)
  {
    var lists := ListsByClaim(rows);
    var reports := BackReports(rows, lists, byId, keys);
    FlattensNothing(reports, |keys|);
    if forall k :: 0 <= k < |keys| ==> reports[k] == [] {
      forall cid | cid in byId ensures BackProblems(rows, lists, cid, byId[cid]) == [] {
        var k :| 0 <= k < |keys| && keys[k] == cid;
        assert reports[k] == [];
      }
    }
  }

  // ----- link symmetry

  /** A candidate about which nothing is reported. */
  predicate BackOk(rows: seq<ClaimRow>, lists: map<string, set<string>>, cid: string, c: Candidate) {
    && (IsRegistered(c) <==> LinkOf(c) != "")
    && (LinkOf(c) != "" ==> IsClaim(rows, LinkOf(c)) && cid in ListFor(lists, LinkOf(c)))
  }

  lemma BackOkIsSilent(rows: seq<ClaimRow>, lists: map<string, set<string>>, cid: string, c: Candidate)
    ensures BackProblems(rows, lists, cid, c) == [] <==> BackOk(rows, lists, cid, c)
  {
  }

  predicate ListedOk(claim: string, byId: ById, cid: string) {
    MatchesCandidateId(cid) && cid in byId && IsRegistered(byId[cid]) && LinkOf(byId[cid]) == claim
  }

  lemma ListedOkIsSilent(row: nat, claim: string, byId: ById, cid: string)
    requires cid != ""
    ensures ListedProblems(row, claim, byId, cid) == [] <==> ListedOk(claim, byId, cid)
  {
  }

  ghost predicate AllBackOk(rows: seq<ClaimRow>, byId: ById) {
    forall cid :: cid in byId ==> BackOk(rows, ListsByClaim(rows), cid, byId[cid])
  }

  ghost predicate AllListedOk(rows: seq<ClaimRow>, byId: ById) {
    forall i, cid :: 0 <= i < |rows| && cid in ListedBy(rows[i]) ==> ListedOk(ClaimOf(rows[i]), byId, cid)
  }

  predicate NewClaimsOk(rows: seq<ClaimRow>) {
    forall i :: 0 <= i < |rows| ==> NeedsCandidates(rows[i]) ==> Strip(rows[i].candidateIds) != ""
  }

  lemma SilenceIsOk(rows: seq<ClaimRow>, candidates: seq<Candidate>)
    ensures var byId := CandidatesById(candidates, |candidates|);
            LinkProblems(rows, candidates) == [] <==>
              AllBackOk(rows, byId) && AllListedOk(rows, byId) && NewClaimsOk(rows)
  {
    var byId, keys := CandidatesById(candidates, |candidates|), KeysInOrder(candidates, |candidates|);
    KeysPresent(candidates);
    BackSilence(rows, byId, keys);
    RowsSilence(byId, rows);
    forall cid | cid in byId
      ensures BackProblems(rows, ListsByClaim(rows), cid, byId[cid]) == [] <==>
        BackOk(rows, ListsByClaim(rows), cid, byId[cid])
    {
      BackOkIsSilent(rows, ListsByClaim(rows), cid, byId[cid]);
    }
    SilentRows(rows, byId);
  }

  lemma SilentRows(rows: seq<ClaimRow>, byId: ById)
    ensures RowsSilent(rows, byId) <==> AllListedOk(rows, byId) && NewClaimsOk(rows)
  {
    forall i, cid | 0 <= i < |rows| && cid in ListedBy(rows[i])
      ensures ListedProblems(RowNumber(i), ClaimOf(rows[i]), byId, cid) == [] <==> ListedOk(ClaimOf(rows[i]), byId, cid)
    {
      ListedOkIsSilent(RowNumber(i), ClaimOf(rows[i]), byId, cid);
    }
    forall i | 0 <= i < |rows|
      ensures NewClaimProblems(i, rows[i]) == [] <==> (NeedsCandidates(rows[i]) ==> Strip(rows[i].candidateIds) != "")
    {
    }
    if RowsSilent(rows, byId) {
      forall i | 0 <= i < |rows| ensures RowSilent(byId, i, rows[i]) {
      }
    }
  }

  /** With unique claim ids, the check reports nothing exactly when the links agree both ways. */
  lemma LinkSymmetry(rows: seq<ClaimRow>, candidates: seq<Candidate>)
    requires UniqueClaims(rows)
    ensures LinkProblems(rows, candidates) == [] <==> LinksAgree(rows, CandidatesById(candidates, |candidates|))
  {
    var byId := CandidatesById(candidates, |candidates|);
    SilenceIsOk(rows, candidates);
    if AllBackOk(rows, byId) && AllListedOk(rows, byId) && NewClaimsOk(rows) {
      OkGivesAgreement(rows, byId);
    }
    if LinksAgree(rows, byId) {
      AgreementGivesOk(rows, byId);
    }
  }

  lemma OkGivesAgreement(rows: seq<ClaimRow>, byId: ById)
    requires UniqueClaims(rows) && AllBackOk(rows, byId) && AllListedOk(rows, byId) && NewClaimsOk(rows)
    ensures LinksAgree(rows, byId)
  {
    forall claim, cid | (claim, cid) in Listed(rows) ensures ListedOk(claim, byId, cid) {
      var i :| 0 <= i < |rows| && cid in ListedBy(rows[i]) && ClaimOf(rows[i]) == claim;
    }
    forall cid | cid in byId && IsRegistered(byId[cid]) ensures (LinkOf(byId[cid]), cid) in Listed(rows) {
      assert BackOk(rows, ListsByClaim(rows), cid, byId[cid]);
      var i :| 0 <= i < |rows| && ClaimOf(rows[i]) == LinkOf(byId[cid]);
      OwnList(rows, i);
    }
    assert forall p :: p in Listed(rows) ==> p == (p.0, p.1);
    assert Listed(rows) == Linked(byId);
  }

  lemma AgreementGivesOk(rows: seq<ClaimRow>, byId: ById)
    requires UniqueClaims(rows) && LinksAgree(rows, byId)
    ensures AllBackOk(rows, byId) && AllListedOk(rows, byId) && NewClaimsOk(rows)
  {
    forall i, cid | 0 <= i < |rows| && cid in ListedBy(rows[i]) ensures ListedOk(ClaimOf(rows[i]), byId, cid) {
      assert (ClaimOf(rows[i]), cid) in Listed(rows);
    }
    forall cid | cid in byId ensures BackOk(rows, ListsByClaim(rows), cid, byId[cid]) {
      if LinkOf(byId[cid]) != "" {
        assert (LinkOf(byId[cid]), cid) in Linked(byId);
        var i :| 0 <= i < |rows| && cid in ListedBy(rows[i]) && ClaimOf(rows[i]) == LinkOf(byId[cid]);
        OwnList(rows, i);
      }
    }
  }

  // ----- counting

  function Registered(byId: ById): set<string> {
    set cid | cid in byId && IsRegistered(byId[cid])
  }

  function Lists(rows: seq<ClaimRow>): (lists: seq<set<string>>)
    ensures |lists| == |rows| && forall i :: 0 <= i < |rows| ==> lists[i] == ListedBy(rows[i])
  {
    seq(|rows|, i requires 0 <= i < |rows| => ListedBy(rows[i]))
  }

  function Union<T>(sets: seq<set<T>>, n: nat): set<T>
    requires n <= |sets|
  {
    if n == 0 then {} else Union(sets, n - 1) + sets[n - 1]
  }

  function SumOfSizes<T>(sets: seq<set<T>>, n: nat): nat
    requires n <= |sets|
  {
    if n == 0 then 0 else SumOfSizes(sets, n - 1) + |sets[n - 1]|
  }

  lemma {:induction false} UnionExact<T>(sets: seq<set<T>>, n: nat, x: T)
    requires n <= |sets|
    ensures x in Union(sets, n) <==> exists i :: 0 <= i < n && x in sets[i]
  {
    if n > 0 {
      UnionExact(sets, n - 1, x);
    }
  }

  lemma {:induction false} DisjointSizes<T>(sets: seq<set<T>>, n: nat)
    requires n <= |sets| && forall i, j :: 0 <= i < j < |sets| ==> sets[i] !! sets[j]
    ensures SumOfSizes(sets, n) == |Union(sets, n)|
  {
    if n > 0 {
      DisjointSizes(sets, n - 1);
      var last := sets[n - 1];
      forall x | x in last ensures x !in Union(sets, n - 1) {
        UnionExact(sets, n - 1, x);
      }
      assert Union(sets, n - 1) !! last;
    }
  }

  /** When the check is silent, no candidate is listed by two claims, and the lists' sizes add up to the number of
      registered candidates. */
  lemma ListsPartitionRegistered(rows: seq<ClaimRow>, candidates: seq<Candidate>)
    requires UniqueClaims(rows)
    ensures LinkProblems(rows, candidates) == [] ==> Partition(rows, CandidatesById(candidates, |candidates|))
  {
    SilenceIsOk(rows, candidates);
    if LinkProblems(rows, candidates) == [] {
      OkGivesPartition(rows, CandidatesById(candidates, |candidates|));
    }
  }

  /** The claims' lists are disjoint, cover exactly the registered candidates, and their sizes add up. */
  ghost predicate Partition(rows: seq<ClaimRow>, byId: ById) {
    && (forall i, j :: 0 <= i < j < |rows| ==> ListedBy(rows[i]) !! ListedBy(rows[j]))
    && Union(Lists(rows), |rows|) == Registered(byId)
    && SumOfSizes(Lists(rows), |rows|) == |Registered(byId)|
  }

  lemma OkGivesPartition(rows: seq<ClaimRow>, byId: ById)
    requires UniqueClaims(rows) && AllBackOk(rows, byId) && AllListedOk(rows, byId)
    ensures Partition(rows, byId)
  {
    var lists := Lists(rows);
    forall i, j | 0 <= i < j < |rows| ensures ListedBy(rows[i]) !! ListedBy(rows[j]) {
      forall cid | cid in ListedBy(rows[i]) ensures cid !in ListedBy(rows[j]) {
        assert ListedOk(ClaimOf(rows[i]), byId, cid);
      }
    }
    forall i, j | 0 <= i < j < |rows| ensures lists[i] !! lists[j] {
      assert ListedBy(rows[i]) !! ListedBy(rows[j]);
    }
    DisjointSizes(lists, |rows|);
    forall cid ensures cid in Union(lists, |rows|) <==> cid in Registered(byId) {
      UnionExact(lists, |rows|, cid);
      RegisteredIsListed(rows, byId, cid);
    }
  }

  lemma RegisteredIsListed(rows: seq<ClaimRow>, byId: ById, cid: string)
    requires UniqueClaims(rows) && AllBackOk(rows, byId) && AllListedOk(rows, byId)
    ensures cid in Registered(byId) <==> exists i :: 0 <= i < |rows| && cid in ListedBy(rows[i])
  {
    if cid in Registered(byId) {
      assert BackOk(rows, ListsByClaim(rows), cid, byId[cid]);
      var i :| 0 <= i < |rows| && ClaimOf(rows[i]) == LinkOf(byId[cid]);
      OwnList(rows, i);
    }
    if i :| 0 <= i < |rows| && cid in ListedBy(rows[i]) {
      assert ListedOk(ClaimOf(rows[i]), byId, cid);
    }
  }
}
