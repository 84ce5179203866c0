/** Which errors the registry's checks list: for which rows and candidates, under which number, and with what in them.
    The header is line one, so row `i` has number `i + 2`. */
module RegistryReports {
  import opened Wrappers
  import opened Text
  import opened Ordering
  import opened Checks
  import opened ClaimIds
  import opened Candidates
  import opened RegistryIds
  import opened RegistryLinks

  // ----- the id checks

  predicate FormatDue(n: nat, id: string, p: IdProblem) {
    (id == "" && p == EmptyId(n)) || (id != "" && !MatchesClaimId(id) && p == BadFormat(n, id))
  }

  lemma FormatOfRow(i: nat, id: string, p: IdProblem)
    ensures p in FormatProblems(i, id) <==> FormatDue(i + 2, id, p)
  {
  }

  lemma FormatReported(ids: seq<string>, p: IdProblem)
    ensures p in Collect(ids, FormatProblems, |ids|) <==> exists i :: 0 <= i < |ids| && FormatDue(i + 2, ids[i], p)
  {
    CollectsExactly(ids, FormatProblems, |ids|, p);
    forall i | 0 <= i < |ids| ensures p in FormatProblems(i, ids[i]) <==> FormatDue(i + 2, ids[i], p) {
      FormatOfRow(i, ids[i], p);
    }
  }

  /** Row `i` repeats an id, and row `j` is the first that has it. */
  predicate Repeats(ids: seq<string>, j: nat, i: nat) {
    j < i < |ids| && ids[j] == ids[i] && forall k :: 0 <= k < j ==> ids[k] != ids[i]
  }

  lemma OnlyFirstRepeats(ids: seq<string>, i: nat, first: nat)
    requires i < |ids| && first == FirstAt(ids, ids[i], i)
    ensures forall j: nat :: Repeats(ids, j, i) ==> j == first
    ensures first < i ==> Repeats(ids, first, i)
  {
    FirstAtIsFirst(ids, ids[i], i);
  }

  lemma {:induction false} DuplicatesReported(ids: seq<string>, n: nat, p: IdProblem)
    requires n <= |ids|
    ensures p in RegistryIds.DuplicateProblems(ids, n) <==>
            exists j: nat, i: nat :: i < n && Repeats(ids, j, i) && p == Duplicate(i + 2, ids[i], j + 2)
  {
    if n > 0 {
      var first := FirstAt(ids, ids[n - 1], n - 1);
      DuplicatesReported(ids, n - 1, p);
      OnlyFirstRepeats(ids, n - 1, first);
    }
  }

  // ----- the link check

  /** The row asks for candidates: a current claim with evidence, not before the first curated one. */
  predicate AsksForCandidates(row: ClaimRow) {
    && StringLe("DOC-CLAIM-0019", Strip(row.claimId)) && Strip(row.claimStatus) == "current"
    && Lower(Strip(row.evidenceRequired)) == "true"
  }

  /** By number: from claim 19 on, exactly where the string test is the numeric one. */
  lemma AsksFromNineteen(row: ClaimRow)
    requires MatchesClaimId(Strip(row.claimId))
    ensures var id := Strip(row.claimId);
            Number(id) >= 19 || IsAscii(id) || Suffix(id)[..3] == "000" ==>
            (AsksForCandidates(row) <==>
             Number(id) >= 19 && Strip(row.claimStatus) == "current" && Lower(Strip(row.evidenceRequired)) == "true")
  {
    CuratedTestAgrees(Strip(row.claimId));
  }

  lemma NewClaimReported(i: nat, row: ClaimRow, p: LinkProblem)
    ensures p in NewClaimProblems(i, row) <==>
            && AsksForCandidates(row) && Strip(row.candidateIds) == ""
            && p == NewClaimWithoutCandidates(i + 2, Strip(row.claimId))
  {
  }

  /** What a candidate's back-link gives rise to. */
  predicate BackDue(rows: seq<ClaimRow>, listed: set<string>, cid: string, c: Candidate, p: LinkProblem) {
    var link, registered := Strip(c.registeredClaimId), Strip(c.registrationStatus) == "registered";
    match p
    case RegisteredWithoutLink(id) => id == cid && registered && link == ""
    case LinkWithoutRegistered(id, claim, status) =>
      id == cid && claim == link != "" && !registered && status == Strip(c.registrationStatus)
    case LinkToUnknownClaim(id, claim) =>
      id == cid && claim == link != "" && forall i :: 0 <= i < |rows| ==> Strip(rows[i].claimId) != link
    case NotListedByClaim(id, claim) => id == cid && claim == link != "" && registered && cid !in listed
    case _ => false
  }

  lemma BackReported(rows: seq<ClaimRow>, lists: map<string, set<string>>, cid: string, c: Candidate, p: LinkProblem)
    ensures p in BackProblems(rows, lists, cid, c) <==> BackDue(rows, ListFor(lists, LinkOf(c)), cid, c, p)
  {
  }

  /** What an id in a claim's list gives rise to. */
  predicate ListedDue(n: nat, claim: string, byId: ById, cid: string, p: LinkProblem) {
    match p
    case BadListedId(row, id) => row == n && id == cid != "" && !MatchesCandidateId(cid)
    case UnknownListedId(row, id) => row == n && id == cid && MatchesCandidateId(cid) && cid !in byId
    case ListedNotRegistered(row, id, status) =>
      && row == n && id == cid && MatchesCandidateId(cid) && cid in byId
      && status == Strip(byId[cid].registrationStatus) != "registered"
    case ListedLinksElsewhere(row, id, link) =>
      && row == n && id == cid && MatchesCandidateId(cid) && cid in byId
      && link == Strip(byId[cid].registeredClaimId) != claim
    case _ => false
  }

  lemma ListedOfPart(n: nat, claim: string, byId: ById, cid: string, p: LinkProblem)
    ensures p in ListedProblems(n, claim, byId, cid) <==> ListedDue(n, claim, byId, cid, p)
  {
    assert MatchesCandidateId(cid) ==> cid != "";
  }

  lemma ListReported(n: nat, claim: string, byId: ById, parts: seq<string>, p: LinkProblem)
    ensures p in ListProblems(n, claim, byId, parts) <==>
            exists k :: 0 <= k < |parts| && ListedDue(n, claim, byId, Strip(parts[k]), p)
  {
    var reports := ListedReports(n, claim, byId, parts);
    FlattensExactly(reports, |parts|, p);
    forall k | 0 <= k < |parts| ensures p in reports[k] <==> ListedDue(n, claim, byId, Strip(parts[k]), p) {
      ListedOfPart(n, claim, byId, Strip(parts[k]), p);
    }
  }

  /** What a row of the registry gives rise to, with the ids of its list separated by semicolons. */
  predicate RowDue(byId: ById, n: nat, row: ClaimRow, p: LinkProblem) {
    var list := Strip(row.candidateIds);
    if list == "" then AsksForCandidates(row) && p == NewClaimWithoutCandidates(n, Strip(row.claimId))
    else exists k | 0 <= k < |Split(list, ';')| :: ListedDue(n, Strip(row.claimId), byId, Strip(Split(list, ';')[k]), p)
  }

  lemma RowReported(byId: ById, i: nat, row: ClaimRow, p: LinkProblem)
    ensures p in RowProblems(byId, i, row) <==> RowDue(byId, i + 2, row, p)
  {
    NewClaimReported(i, row, p);
    ListReported(i + 2, ClaimOf(row), byId, Parts(row), p);
  }

  /** The whole list: what the candidates' back-links and what the rows give rise to, and nothing else. */
  lemma LinksReported(rows: seq<ClaimRow>, candidates: seq<Candidate>, p: LinkProblem)
    ensures var byId, lists := CandidatesById(candidates, |candidates|), ListsByClaim(rows);
            p in LinkProblems(rows, candidates) <==>
            || (exists cid :: cid in byId && BackDue(rows, ListFor(lists, LinkOf(byId[cid])), cid, byId[cid], p))
            || (exists i :: 0 <= i < |rows| && RowDue(byId, i + 2, rows[i], p))
  {
    var byId, lists := CandidatesById(candidates, |candidates|), ListsByClaim(rows);
    KeysPresent(candidates);
    BackListed(rows, lists, byId, KeysInOrder(candidates, |candidates|), p);
    CollectsExactly(rows, RowCheck(byId), |rows|, p);
    forall i | 0 <= i < |rows| ensures p in RowCheck(byId)(i, rows[i]) <==> RowDue(byId, i + 2, rows[i], p) {
      RowReported(byId, i, rows[i], p);
    }
  }

  lemma BackListed(rows: seq<ClaimRow>, lists: map<string, set<string>>, byId: ById, keys: seq<string>,
      p: LinkProblem)
    requires forall k :: 0 <= k < |keys| ==> keys[k] in byId
    requires forall cid :: cid in byId ==> cid in keys
    ensures var reports := BackReports(rows, lists, byId, keys);
            p in Flatten(reports, |reports|) <==>
            exists cid :: cid in byId && BackDue(rows, ListFor(lists, LinkOf(byId[cid])), cid, byId[cid], p)
  {
    var reports := BackReports(rows, lists, byId, keys);
    FlattensExactly(reports, |reports|, p);
    forall cid | cid in byId
      ensures p in BackProblems(rows, lists, cid, byId[cid]) <==>
              BackDue(rows, ListFor(lists, LinkOf(byId[cid])), cid, byId[cid], p)
      ensures exists k :: 0 <= k < |keys| && keys[k] == cid
    {
      BackReported(rows, lists, cid, byId[cid], p);
      assert cid in keys;
    }
  }

  // ----- the tables looked up

  predicate IsLastWith(candidates: seq<Candidate>, n: nat, id: string, k: nat)
    requires n <= |candidates|
  {
    && k < n && Strip(candidates[k].candidateId) == id
    && forall j :: k < j < n ==> Strip(candidates[j].candidateId) != id
  }

  /** A candidate is looked up by its id; of several with one id, the last is found, and blank ids are passed over. */
  lemma {:induction false} ByIdExactly(candidates: seq<Candidate>, n: nat, id: string)
    requires n <= |candidates|
    ensures id in CandidatesById(candidates, n) ==>
      id != "" && exists k: nat ::
        IsLastWith(candidates, n, id, k) && CandidatesById(candidates, n)[id] == candidates[k]
    ensures id !in CandidatesById(candidates, n) ==>
      id == "" || forall k :: 0 <= k < n ==> Strip(candidates[k].candidateId) != id
  {
    if n > 0 {
      ByIdExactly(candidates, n - 1, id);
      if Strip(candidates[n - 1].candidateId) == id {
        assert IsLastWith(candidates, n, id, n - 1);
      } else if id in CandidatesById(candidates, n - 1) {
        var k: nat :| IsLastWith(candidates, n - 1, id, k) && CandidatesById(candidates, n - 1)[id] == candidates[k];
        assert IsLastWith(candidates, n, id, k);
      }
    }
  }

  /** The last row of the claim whose list is not blank. */
  predicate IsLastList(rows: seq<ClaimRow>, n: nat, claim: string, k: nat)
    requires n <= |rows|
  {
    && k < n && Strip(rows[k].claimId) == claim && Strip(rows[k].candidateIds) != ""
    && forall j :: k < j < n ==> Strip(rows[j].claimId) != claim || Strip(rows[j].candidateIds) == ""
  }

  /** The last place where the key has a value. */
  predicate IsLastEntry<V>(keys: seq<string>, values: seq<Option<V>>, n: nat, key: string, k: nat)
    requires n <= |keys| == |values|
  {
    k < n && keys[k] == key && values[k].Some? && forall j :: k < j < n ==> keys[j] != key || values[j].None?
  }

  lemma {:induction false} EntryExactly<V>(keys: seq<string>, values: seq<Option<V>>, n: nat, key: string)
    requires n <= |keys| == |values|
    ensures var d := Dictionary(keys, values, n);
            && (key in d ==> exists k: nat :: IsLastEntry(keys, values, n, key, k) && values[k] == Some(d[key]))
            && (key !in d ==> forall k :: 0 <= k < n ==> keys[k] != key || values[k].None?)
  {
    if n > 0 {
      var before := Dictionary(keys, values, n - 1);
      EntryExactly(keys, values, n - 1, key);
      if keys[n - 1] == key && values[n - 1].Some? {
        assert IsLastEntry(keys, values, n, key, n - 1);
      } else if key in before {
        var k: nat :| IsLastEntry(keys, values, n - 1, key, k) && values[k] == Some(before[key]);
        assert IsLastEntry(keys, values, n, key, k);
      }
    }
  }

  /** A claim's list is that of its last row that has one. */
  lemma ListExactly(rows: seq<ClaimRow>, claim: string)
    ensures var lists := ListsByClaim(rows);
            && (claim in lists ==>
                exists k: nat :: IsLastList(rows, |rows|, claim, k) && lists[claim] == ListedBy(rows[k]))
            && (claim !in lists ==>
                forall k :: 0 <= k < |rows| ==> Strip(rows[k].claimId) != claim || Strip(rows[k].candidateIds) == "")
  {
    var keys, values, lists := ClaimColumn(rows), ListColumn(rows), ListsByClaim(rows);
    EntryExactly(keys, values, |rows|, claim);
    if claim in lists {
      var k: nat :| IsLastEntry(keys, values, |rows|, claim, k) && values[k] == Some(lists[claim]);
      ColumnsOfRow(rows, k);
      forall j | k < j < |rows| ensures Strip(rows[j].claimId) != claim || Strip(rows[j].candidateIds) == "" {
        ColumnsOfRow(rows, j);
      }
      assert IsLastList(rows, |rows|, claim, k);
    } else {
      forall k | 0 <= k < |rows| ensures Strip(rows[k].claimId) != claim || Strip(rows[k].candidateIds) == "" {
        ColumnsOfRow(rows, k);
      }
    }
  }

  lemma ColumnsOfRow(rows: seq<ClaimRow>, k: nat)
    requires k < |rows|
    ensures ClaimColumn(rows)[k] == Strip(rows[k].claimId)
    ensures ListColumn(rows)[k] == if Strip(rows[k].candidateIds) == "" then None else Some(ListedBy(rows[k]))
  {
  }

  predicate HasPart(parts: seq<string>, x: string) {
    exists k :: 0 <= k < |parts| && Strip(parts[k]) == x
  }

  /** A claim lists the stripped parts between semicolons that are not blank. */
  lemma ListedExactly(row: ClaimRow, cid: string)
    ensures cid in ListedBy(row) <==> cid != "" && HasPart(Split(Strip(row.candidateIds), ';'), cid)
  {
    var parts := Split(Strip(row.candidateIds), ';');
    if k :| 0 <= k < |parts| && Strip(parts[k]) == cid {
      assert parts[k] in parts;
    }
  }
}
