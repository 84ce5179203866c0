/** The claim registry's id checks: format, duplicates and order. */
module RegistryIds {
  import opened Text
  import opened Ordering
  import opened Checks
  import opened ClaimIds

  datatype IdProblem =
    | EmptyId(row: nat)
    | BadFormat(row: nat, id: string)
    | Duplicate(row: nat, id: string, firstRow: nat)
    | NotSorted

  /** The `claim_id` column, stripped. */
  function Stripped(rawIds: seq<string>): (ids: seq<string>)
    ensures |ids| == |rawIds| && forall i :: 0 <= i < |ids| ==> ids[i] == Strip(rawIds[i])
  {
    seq(|rawIds|, i requires 0 <= i < |rawIds| => Strip(rawIds[i]))
  }

  function FormatProblems(i: nat, id: string): seq<IdProblem> {
    if id == "" then [EmptyId(RowNumber(i))]
    else if !MatchesClaimId(id) then [BadFormat(RowNumber(i), id)]
    else []
  }

  method CheckClaimIdFormat(rawIds: seq<string>) returns (result: CheckResult<IdProblem>)
    ensures fresh(result) && result.Valid()
    ensures result.errors == Collect(Stripped(rawIds), FormatProblems, |rawIds|)
  {
    result := new CheckResult();
    ghost var ids := Stripped(rawIds);
    for i := 0 to |rawIds|
      invariant result.Valid() && result.errors == Collect(ids, FormatProblems, i)
    {
      var id := Strip(rawIds[i]);
      if id == "" {
        result.AddError(EmptyId(RowNumber(i)));
      } else if !MatchesClaimId(id) {
        result.AddError(BadFormat(RowNumber(i), id));
      }
    }
  }

  function DuplicateProblems(ids: seq<string>, n: nat): seq<IdProblem>
    requires n <= |ids|
  {
    if n == 0 then [] else
    var first := FirstAt(ids, ids[n - 1], n - 1);
    DuplicateProblems(ids, n - 1)
    + (if first < n - 1 then [Duplicate(RowNumber(n - 1), ids[n - 1], RowNumber(first))] else [])
  }

  lemma {:induction false} NoDuplicateProblems(ids: seq<string>, n: nat)
    requires n <= |ids|
    ensures DuplicateProblems(ids, n) == [] <==> forall i, j :: 0 <= i < j < n ==> ids[i] != ids[j]
  {
    if n > 0 {
      NoDuplicateProblems(ids, n - 1);
      FirstAtIsFirst(ids, ids[n - 1], n - 1);
    }
  }

  method CheckNoDuplicateIds(rawIds: seq<string>) returns (result: CheckResult<IdProblem>)
    ensures fresh(result) && result.Valid()
    ensures result.errors == DuplicateProblems(Stripped(rawIds), |rawIds|)
  {
    result := new CheckResult();
    var ids := Stripped(rawIds);
    var seen: map<string, nat> := map[];
    for i := 0 to |ids|
      invariant result.Valid() && result.errors == DuplicateProblems(ids, i)
      invariant Remembers(seen, ids, i)
    {
      var id := ids[i];
      RemembersOne(seen, ids, i);
      if id in seen {
        result.AddError(Duplicate(RowNumber(i), id, RowNumber(seen[id])));
      } else {
        seen := seen[id := i];
      }
    }
  }

  function SortProblems(ids: seq<string>): seq<IdProblem> {
    if Sorted(ids) then [] else [NotSorted]
  }

  method CheckClaimIdsSorted(rawIds: seq<string>) returns (result: CheckResult<IdProblem>)
    ensures fresh(result) && result.Valid()
    ensures result.errors == SortProblems(Stripped(rawIds))
  {
    result := new CheckResult();
    var sorted := Sorted(Stripped(rawIds));
    if !sorted {
      result.AddError(NotSorted);
    }
  }

  /** None of the three checks reports anything. */
  predicate PassesIdChecks(rawIds: seq<string>) {
    var ids := Stripped(rawIds);
    Collect(ids, FormatProblems, |ids|) == [] && DuplicateProblems(ids, |ids|) == [] && SortProblems(ids) == []
  }

  lemma PassingIds(rawIds: seq<string>)
    ensures PassesIdChecks(rawIds) <==>
      AllClaimIds(Stripped(rawIds)) && Distinct(Stripped(rawIds)) && Sorted(Stripped(rawIds))
  {
    var ids := Stripped(rawIds);
    CollectsNothing(ids, FormatProblems, |ids|);
    NoDuplicateProblems(ids, |ids|);
    FormatPasses(ids);
  }

  lemma FormatPasses(ids: seq<string>)
    ensures (forall i :: 0 <= i < |ids| ==> FormatProblems(i, ids[i]) == []) <==> AllClaimIds(ids)
  {
    forall i | 0 <= i < |ids| ensures FormatProblems(i, ids[i]) == [] <==> MatchesClaimId(ids[i]) {
    }
  }

  /** A registry that passes the three checks, written in characters whose order is that of their digits, is numbered
      strictly upwards, so it has at most 10000 claims. */
  lemma RegistryCountsUp(rawIds: seq<string>, digits: set<char>)
    requires PassesIdChecks(rawIds) && InDigitOrder(digits)
    ensures AllClaimIds(Stripped(rawIds))
    ensures DigitsIn(Stripped(rawIds), digits) ==> CountsUp(Stripped(rawIds)) && |rawIds| <= 10000
  {
    var ids := Stripped(rawIds);
    PassingIds(rawIds);
    if DigitsIn(ids, digits) {
      SortedIdsCountUp(ids, digits);
      CountingUpIsBounded(ids);
    }
  }

  /** Every registry in these digits that passes the checks counts up. */
  ghost predicate PassingCountsUp(digits: set<char>) {
    forall rawIds :: PassesIdChecks(rawIds) && AllClaimIds(Stripped(rawIds)) && DigitsIn(Stripped(rawIds), digits) ==>
      CountsUp(Stripped(rawIds))
  }

  /** The exact condition on the digits in use. */
  lemma PassingCountsUpExactly(digits: set<char>)
    requires forall c :: c in digits ==> DigitValue(c) >= 0
    ensures PassingCountsUp(digits) <==> InDigitOrder(digits)
  {
    if InDigitOrder(digits) {
      forall rawIds | PassesIdChecks(rawIds) && AllClaimIds(Stripped(rawIds)) && DigitsIn(Stripped(rawIds), digits)
        ensures CountsUp(Stripped(rawIds))
      {
        RegistryCountsUp(rawIds, digits);
      }
    } else {
      var c, d :| c in digits && d in digits && c < d && DigitValue(c) >= DigitValue(d);
      var ids := SomeIdsCountDown(digits, c, d);
      StrippedIds(ids);
      PassingIds(ids);
    }
  }

  lemma StrippedIds(ids: seq<string>)
    requires AllClaimIds(ids)
    ensures Stripped(ids) == ids
  {
    forall i | 0 <= i < |ids| ensures Strip(ids[i]) == ids[i] {
      IdIsStripped(ids[i]);
    }
  }

  lemma IdIsStripped(id: string)
    requires MatchesClaimId(id)
    ensures Strip(id) == id
  {
    var s := Suffix(id);
    assert id[|id| - 1] == s[3] && id[0] == CLAIM_PREFIX[0] == 'D';
    DigitIsVisible(s[3]);
    StripUnchanged(id);
  }

  lemma DigitIsVisible(c: char)
    requires DigitValue(c) >= 0
    ensures !IsSpace(c)
  {
    if 0x1680 <= c as int < 0x17E0 {
      NoDigitsBeforeKhmer(c as int);
    } else if 0x2000 <= c as int <= 0x3000 {
      NoDigitsBeforeVai(c as int);
    }
  }

  /** Without other scripts there is nothing to ask. */
  lemma AsciiRegistryCountsUp(rawIds: seq<string>)
    requires PassesIdChecks(rawIds)
    ensures AllClaimIds(Stripped(rawIds))
    ensures AllAscii(Stripped(rawIds)) ==> CountsUp(Stripped(rawIds)) && |rawIds| <= 10000
  {
    PassingIds(rawIds);
    if AllAscii(Stripped(rawIds)) {
      DigitsInUse(Stripped(rawIds));
      RegistryCountsUp(rawIds, DigitsOf(Stripped(rawIds)));
    }
  }
}
