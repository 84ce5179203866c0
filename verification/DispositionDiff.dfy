/** The semantic diff between two disposition ledgers. */
module DispositionDiff {
  import opened Ordering
  import opened Ledger

  datatype Field = CandidateId | Disposition | ClaimId | CoveredBy | ReasonCode | ReviewedAt | Notes

  const SEMANTIC_FIELDS: seq<Field> := [CandidateId, Disposition, ClaimId, CoveredBy, ReasonCode, ReviewedAt, Notes]

  function Get(row: LedgerRow, f: Field): string {
    match f
    case CandidateId => row.candidateId
    case Disposition => row.disposition
    case ClaimId => row.claimId
    case CoveredBy => row.coveredByClaimId
    case ReasonCode => row.reasonCode
    case ReviewedAt => row.reviewedAt
    case Notes => row.reviewerNotes
  }

  datatype Change = Change(field: Field, before: string, after: string)
  datatype ChangedRow = ChangedRow(candidateId: string, changes: seq<Change>)

  datatype Diff = Diff(
    baseRowCount: nat,
    targetRowCount: nat,
    added: seq<string>,
    removed: seq<string>,
    commonCount: nat,
    changedRows: seq<ChangedRow>,
    countsBefore: multiset<string>,
    countsAfter: multiset<string>,
    fieldCounts: multiset<Field>)

  const MAX_NOTE := 120

  function TruncateNote(note: string): string {
    if |note| <= MAX_NOTE then note else note[..MAX_NOTE - 3] + "..."
  }

  /** A field's value as the diff shows it. */
  function Shown(row: LedgerRow, f: Field): string {
    if f == Notes then TruncateNote(Get(row, f)) else Get(row, f)
  }

  type ById = map<string, LedgerRow>

  /** `{row["candidate_id"]: row for row in rows}`. */
  function IndexRows(rows: seq<LedgerRow>, n: nat): ById
    requires n <= |rows|
  {
    if n == 0 then map[] else IndexRows(rows, n - 1)[rows[n - 1].candidateId := rows[n - 1]]
  }

  /** The changes among the first `n` semantic fields. */
  function FieldChanges(b: LedgerRow, t: LedgerRow, n: nat): seq<Change>
    requires n <= |SEMANTIC_FIELDS|
  {
    if n == 0 then [] else
    var f := SEMANTIC_FIELDS[n - 1];
    if Get(b, f) != Get(t, f) then FieldChanges(b, t, n - 1) + [Change(f, Shown(b, f), Shown(t, f))]
    else FieldChanges(b, t, n - 1)
  }

  function Changes(b: LedgerRow, t: LedgerRow): seq<Change> {
    FieldChanges(b, t, |SEMANTIC_FIELDS|)
  }

  /** The changed rows among the first `n` ids, in that order. */
  function ChangedRows(base: ById, target: ById, ids: seq<string>, n: nat): seq<ChangedRow>
    requires n <= |ids| && forall i :: 0 <= i < |ids| ==> ids[i] in base && ids[i] in target
  {
    if n == 0 then [] else
    var changes := Changes(base[ids[n - 1]], target[ids[n - 1]]);
    if changes == [] then ChangedRows(base, target, ids, n - 1)
    else ChangedRows(base, target, ids, n - 1) + [ChangedRow(ids[n - 1], changes)]
  }

  function FieldsOf(changes: seq<Change>): (fields: multiset<Field>) {
    if changes == [] then multiset{} else FieldsOf(changes[..|changes| - 1]) + multiset{changes[|changes| - 1].field}
  }

  function FieldCounts(rows: seq<ChangedRow>): multiset<Field> {
    if rows == [] then multiset{} else FieldCounts(rows[..|rows| - 1]) + FieldsOf(rows[|rows| - 1].changes)
  }

  /** How many rows have each disposition: a `Counter`. */
  function DispositionCounts(rows: seq<LedgerRow>, n: nat): multiset<string>
    requires n <= |rows|
  {
    if n == 0 then multiset{} else DispositionCounts(rows, n - 1) + multiset{rows[n - 1].disposition}
  }

  function Common(base: ById, target: ById): (ids: seq<string>)
    ensures forall i :: 0 <= i < |ids| ==> ids[i] in base && ids[i] in target
  {
    var ids := SortSet(base.Keys * target.Keys);
    assert forall i :: 0 <= i < |ids| ==> ids[i] in ids;
    ids
  }

  function DiffOf(baseRows: seq<LedgerRow>, targetRows: seq<LedgerRow>): Diff {
    var base, target := IndexRows(baseRows, |baseRows|), IndexRows(targetRows, |targetRows|);
    var common := Common(base, target);
    var changed := ChangedRows(base, target, common, |common|);
    Diff(|baseRows|, |targetRows|, SortSet(target.Keys - base.Keys), SortSet(base.Keys - target.Keys), |common|,
         changed, DispositionCounts(baseRows, |baseRows|), DispositionCounts(targetRows, |targetRows|),
         FieldCounts(changed))
  }

  // ----- the code

  method Index(rows: seq<LedgerRow>) returns (byId: ById)
    ensures byId == IndexRows(rows, |rows|)
  {
    byId := map[];
    for i := 0 to |rows|
      invariant byId == IndexRows(rows, i)
    {
      byId := byId[rows[i].candidateId := rows[i]];
    }
  }

  method CountDispositions(rows: seq<LedgerRow>) returns (counts: multiset<string>)
    ensures counts == DispositionCounts(rows, |rows|)
  {
    counts := multiset{};
    for i := 0 to |rows|
      invariant counts == DispositionCounts(rows, i)
    {
      counts := counts[rows[i].disposition := counts[rows[i].disposition] + 1];
    }
  }

  method ComputeDiff(baseRows: seq<LedgerRow>, targetRows: seq<LedgerRow>) returns (diff: Diff)
    ensures diff == DiffOf(baseRows, targetRows)
  {
    var base := Index(baseRows);
    var target := Index(targetRows);
    var changedRows, fieldCounts := CompareCommon(base, target, Common(base, target));
    var countsBefore := CountDispositions(baseRows);
    var countsAfter := CountDispositions(targetRows);
    diff := Diff(|baseRows|, |targetRows|, SortSet(target.Keys - base.Keys), SortSet(base.Keys - target.Keys),
                 |Common(base, target)|, changedRows, countsBefore, countsAfter, fieldCounts);
  }

  /** The loop over the common rows. */
  method CompareCommon(base: ById, target: ById, common: seq<string>)
      returns (changedRows: seq<ChangedRow>, fieldCounts: multiset<Field>)
    requires forall i :: 0 <= i < |common| ==> common[i] in base && common[i] in target
    ensures changedRows == ChangedRows(base, target, common, |common|)
    ensures fieldCounts == FieldCounts(changedRows)
  {
    changedRows, fieldCounts := [], multiset{};
    for i := 0 to |common|
      invariant changedRows == ChangedRows(base, target, common, i)
      invariant fieldCounts == FieldCounts(changedRows)
    {
      var b, t := base[common[i]], target[common[i]];
      var changes, fields := CompareRows(b, t);
      fieldCounts := fieldCounts + fields;
      if changes != [] {
        ghost var before := changedRows;
        changedRows := changedRows + [ChangedRow(common[i], changes)];
        assert changedRows[..|changedRows| - 1] == before;
      }
    }
  }

  /** The loop over the fields of one pair of rows. */
  method CompareRows(b: LedgerRow, t: LedgerRow) returns (changes: seq<Change>, fields: multiset<Field>)
    ensures changes == Changes(b, t) && fields == FieldsOf(changes)
  {
    changes, fields := [], multiset{};
    for n := 0 to |SEMANTIC_FIELDS|
      invariant changes == FieldChanges(b, t, n) && fields == FieldsOf(changes)
    {
      var f := SEMANTIC_FIELDS[n];
      if Get(b, f) != Get(t, f) {
        FieldsOfOneMore(changes, Change(f, Shown(b, f), Shown(t, f)));
        fields := fields + multiset{f};
        changes := changes + [Change(f, Shown(b, f), Shown(t, f))];
      }
    }
  }

  lemma FieldsOfOneMore(changes: seq<Change>, change: Change)
    ensures FieldsOf(changes + [change]) == FieldsOf(changes) + multiset{change.field}
  {
    assert (changes + [change])[..|changes|] == changes;
  }

  // ----- the diff as a patch

  function SetField(row: LedgerRow, f: Field, v: string): LedgerRow {
    match f
    case CandidateId => row.(candidateId := v)
    case Disposition => row.(disposition := v)
    case ClaimId => row.(claimId := v)
    case CoveredBy => row.(coveredByClaimId := v)
    case ReasonCode => row.(reasonCode := v)
    case ReviewedAt => row.(reviewedAt := v)
    case Notes => row.(reviewerNotes := v)
  }

  function ApplyChanges(row: LedgerRow, changes: seq<Change>): LedgerRow {
    if changes == [] then row else
    var last := |changes| - 1;
    SetField(ApplyChanges(row, changes[..last]), changes[last].field, changes[last].after)
  }

  /** What the diff lists for an id: its changes, or none. */
  function ChangesFor(rows: seq<ChangedRow>, id: string): seq<Change> {
    if rows == [] then [] else
    var last := |rows| - 1;
    if rows[last].candidateId == id then rows[last].changes else ChangesFor(rows[..last], id)
  }

  function Remaining(base: ById, removed: seq<string>): set<string> {
    set id | id in base && id !in removed
  }

  /** Applying a diff to the base: drop the removed ids, take the added rows, change the changed fields. */
  function Patch(base: ById, diff: Diff, addedRows: ById): ById {
    map id | id in Remaining(base, diff.removed) + addedRows.Keys ::
      if id in addedRows then addedRows[id] else ApplyChanges(base[id], ChangesFor(diff.changedRows, id))
  }

  function Restrict(m: ById, ids: seq<string>): ById {
    map id | id in m && id in ids :: m[id]
  }

  lemma ApplyLast(row: LedgerRow, before: seq<Change>, c: Change, g: Field)
    ensures Get(ApplyChanges(row, before + [c]), g) == if c.field == g then c.after
      else Get(ApplyChanges(row, before), g)
  {
    assert (before + [c])[..|before|] == before;
  }

  /** The place of a field in the row. */
  function Place(f: Field): (k: nat)
    ensures k < 7 && SEMANTIC_FIELDS[k] == f
  {
    match f
    case CandidateId => 0
    case Disposition => 1
    case ClaimId => 2
    case CoveredBy => 3
    case ReasonCode => 4
    case ReviewedAt => 5
    case Notes => 6
  }

  lemma PlaceOfField(k: nat)
    requires k < |SEMANTIC_FIELDS|
    ensures Place(SEMANTIC_FIELDS[k]) == k
  {
  }

  lemma {:induction false} PatchField(b: LedgerRow, t: LedgerRow, n: nat, g: Field)
    requires n <= |SEMANTIC_FIELDS|
    ensures Get(ApplyChanges(b, FieldChanges(b, t, n)), g)
            == if Place(g) < n && Get(b, g) != Get(t, g) then Shown(t, g) else Get(b, g)
  {
    if n > 0 {
      PatchField(b, t, n - 1, g);
      PatchStep(b, t, SEMANTIC_FIELDS[n - 1], FieldChanges(b, t, n - 1), g);
      PlaceOfField(n - 1);
      assert SEMANTIC_FIELDS[n - 1] == g <==> Place(g) == n - 1;
    }
  }

  lemma PatchStep(b: LedgerRow, t: LedgerRow, f: Field, before: seq<Change>, g: Field)
    ensures var differs := Get(b, f) != Get(t, f);
            var changes := if differs then before + [Change(f, Shown(b, f), Shown(t, f))] else before;
            Get(ApplyChanges(b, changes), g)
            == if differs && f == g then Shown(t, g) else Get(ApplyChanges(b, before), g)
  {
    ApplyLast(b, before, Change(f, Shown(b, f), Shown(t, f)), g);
  }

  /** The notes of this pair survive the diff: unchanged, or short enough not to be truncated. */
  predicate NotesSurvive(b: LedgerRow, t: LedgerRow) {
    b.reviewerNotes == t.reviewerNotes || |t.reviewerNotes| <= MAX_NOTE
  }

  lemma PatchRow(b: LedgerRow, t: LedgerRow)
    ensures ApplyChanges(b, Changes(b, t)) == t <==> NotesSurvive(b, t)
  {
    var r := ApplyChanges(b, Changes(b, t));
    forall g: Field ensures Get(r, g) == if Get(b, g) != Get(t, g) then Shown(t, g) else Get(b, g) {
      PatchField(b, t, 7, g);
    }
    assert Get(r, CandidateId) == t.candidateId && Get(r, Disposition) == t.disposition && Get(r, ClaimId) == t.claimId;
    assert Get(r, CoveredBy) == t.coveredByClaimId && Get(r, ReasonCode) == t.reasonCode
      && Get(r, ReviewedAt) == t.reviewedAt;
    assert Get(r, Notes) == if b.reviewerNotes != t.reviewerNotes then TruncateNote(t.reviewerNotes)
      else b.reviewerNotes;
  }

  lemma {:induction false} ChangesForId(base: ById, target: ById, ids: seq<string>, n: nat, id: string)
    requires n <= |ids| && forall i :: 0 <= i < |ids| ==> ids[i] in base && ids[i] in target
    requires id in base && id in target
    ensures ChangesFor(ChangedRows(base, target, ids, n), id)
            == if id in ids[..n] then Changes(base[id], target[id]) else []
  {
    if n > 0 {
      ChangesForId(base, target, ids, n - 1, id);
      assert id in ids[..n] <==> id in ids[..n - 1] || id == ids[n - 1] by {
        assert ids[..n] == ids[..n - 1] + [ids[n - 1]];
      }
      var before := ChangedRows(base, target, ids, n - 1);
      var changes := Changes(base[ids[n - 1]], target[ids[n - 1]]);
      if changes != [] {
        ChangesForOneMore(before, ChangedRow(ids[n - 1], changes), id);
      } else {
        assert ChangedRows(base, target, ids, n) == before;
      }
    }
  }

  lemma ChangesForOneMore(rows: seq<ChangedRow>, row: ChangedRow, id: string)
    ensures ChangesFor(rows + [row], id) == if row.candidateId == id then row.changes else ChangesFor(rows, id)
  {
    assert (rows + [row])[..|rows|] == rows;
  }

  lemma AddedKeys(base: ById, target: ById)
    ensures Restrict(target, SortSet(target.Keys - base.Keys)).Keys == target.Keys - base.Keys
  {
  }

  lemma RemainingKeys(base: ById, target: ById)
    ensures Remaining(base, SortSet(base.Keys - target.Keys)) == base.Keys * target.Keys
  {
  }

  lemma PatchDomain(base: ById, diff: Diff, addedRows: ById)
    ensures Patch(base, diff, addedRows).Keys == Remaining(base, diff.removed) + addedRows.Keys
  {
  }

  lemma PatchKeys(base: ById, target: ById, diff: Diff)
    requires diff.added == SortSet(target.Keys - base.Keys) && diff.removed == SortSet(base.Keys - target.Keys)
    ensures Restrict(target, diff.added).Keys == target.Keys - base.Keys
    ensures Patch(base, diff, Restrict(target, diff.added)).Keys == target.Keys
  {
    AddedKeys(base, target);
    RemainingKeys(base, target);
    var addedRows := Restrict(target, diff.added);
    PatchDomain(base, diff, addedRows);
    assert base.Keys * target.Keys + (target.Keys - base.Keys) == target.Keys;
  }

  lemma PatchAt(base: ById, target: ById, diff: Diff, id: string)
    requires diff.added == SortSet(target.Keys - base.Keys) && diff.removed == SortSet(base.Keys - target.Keys)
    requires diff.changedRows == ChangedRows(base, target, Common(base, target), |Common(base, target)|)
    requires id in target
    ensures id in Patch(base, diff, Restrict(target, diff.added))
    ensures Patch(base, diff, Restrict(target, diff.added))[id] == target[id] <==>
            (id in base ==> NotesSurvive(base[id], target[id]))
  {
    PatchKeys(base, target, diff);
    if id in base {
      PatchCommon(base, target, id);
    }
  }

  /** Every note that changes is short enough to be shown whole. */
  ghost predicate ChangedNotesShort(base: ById, target: ById) {
    forall id :: id in base && id in target ==> NotesSurvive(base[id], target[id])
  }

  lemma PatchIsTarget(base: ById, target: ById, diff: Diff)
    requires diff.added == SortSet(target.Keys - base.Keys) && diff.removed == SortSet(base.Keys - target.Keys)
    requires diff.changedRows == ChangedRows(base, target, Common(base, target), |Common(base, target)|)
    ensures Patch(base, diff, Restrict(target, diff.added)) == target <==> ChangedNotesShort(base, target)
  {
    var patched := Patch(base, diff, Restrict(target, diff.added));
    PatchKeys(base, target, diff);
    forall id | id in target
      ensures patched[id] == target[id] <==> (id in base ==> NotesSurvive(base[id], target[id])) {
      PatchAt(base, target, diff, id);
    }
    SameMap(patched, target);
  }

  lemma SameMap(a: ById, b: ById)
    requires a.Keys == b.Keys
    ensures a == b <==> forall id :: id in b ==> a[id] == b[id]
  {
  }

  /** The diff is a patch: with the added rows at hand, applying it to the base gives the target, exactly when every
      changed note of the target is at most 120 characters long, since longer ones are truncated in the diff. */
  lemma DiffIsPatch(baseRows: seq<LedgerRow>, targetRows: seq<LedgerRow>)
    ensures var base, target := IndexRows(baseRows, |baseRows|), IndexRows(targetRows, |targetRows|);
            var diff := DiffOf(baseRows, targetRows);
            Patch(base, diff, Restrict(target, diff.added)) == target <==> ChangedNotesShort(base, target)
  {
    var base, target := IndexRows(baseRows, |baseRows|), IndexRows(targetRows, |targetRows|);
    PatchIsTarget(base, target, DiffOf(baseRows, targetRows));
  }

  lemma PatchCommon(base: ById, target: ById, id: string)
    requires id in base && id in target
    ensures var common := Common(base, target);
            ApplyChanges(base[id], ChangesFor(ChangedRows(base, target, common, |common|), id)) == target[id] <==>
            NotesSurvive(base[id], target[id])
  {
    var common := Common(base, target);
    assert id in base.Keys * target.Keys;
    assert id in common && common[..|common|] == common;
    ChangesForId(base, target, common, |common|, id);
    PatchRow(base[id], target[id]);
  }

  // ----- mirror

  function FlipChanges(changes: seq<Change>): (r: seq<Change>)
    ensures |r| == |changes|
    ensures forall i :: 0 <= i < |r| ==> r[i] == Change(changes[i].field, changes[i].after, changes[i].before)
  {
    seq(|changes|, i requires 0 <= i < |changes| => Change(changes[i].field, changes[i].after, changes[i].before))
  }

  function FlipRows(rows: seq<ChangedRow>): (r: seq<ChangedRow>)
    ensures |r| == |rows|
    ensures forall i :: 0 <= i < |r| ==> r[i] == ChangedRow(rows[i].candidateId, FlipChanges(rows[i].changes))
  {
    seq(|rows|, i requires 0 <= i < |rows| => ChangedRow(rows[i].candidateId, FlipChanges(rows[i].changes)))
  }

  lemma {:induction false} FlippedChanges(b: LedgerRow, t: LedgerRow, n: nat)
    requires n <= |SEMANTIC_FIELDS|
    ensures FieldChanges(t, b, n) == FlipChanges(FieldChanges(b, t, n))
  {
    if n > 0 {
      FlippedChanges(b, t, n - 1);
    }
  }

  lemma {:induction false} FlippedRows(base: ById, target: ById, ids: seq<string>, n: nat)
    requires n <= |ids| && forall i :: 0 <= i < |ids| ==> ids[i] in base && ids[i] in target
    ensures ChangedRows(target, base, ids, n) == FlipRows(ChangedRows(base, target, ids, n))
  {
    if n > 0 {
      FlippedRows(base, target, ids, n - 1);
      FlippedChanges(base[ids[n - 1]], target[ids[n - 1]], |SEMANTIC_FIELDS|);
    }
  }

  lemma {:induction false} FlippedFields(changes: seq<Change>)
    ensures FieldsOf(FlipChanges(changes)) == FieldsOf(changes)
  {
    if changes != [] {
      var last := |changes| - 1;
      FlippedFields(changes[..last]);
      assert FlipChanges(changes)[..last] == FlipChanges(changes[..last]);
    }
  }

  lemma {:induction false} FlippedCounts(rows: seq<ChangedRow>)
    ensures FieldCounts(FlipRows(rows)) == FieldCounts(rows)
  {
    if rows != [] {
      var last := |rows| - 1;
      FlippedCounts(rows[..last]);
      assert FlipRows(rows)[..last] == FlipRows(rows[..last]);
      FlippedFields(rows[last].changes);
    }
  }

  /** The diff read from the other side: before and after exchanged, and what changed counted alike. */
  function Mirror(d: Diff): Diff {
    Diff(d.targetRowCount, d.baseRowCount, d.removed, d.added, d.commonCount, FlipRows(d.changedRows),
         d.countsAfter, d.countsBefore, d.fieldCounts)
  }

  /** Swapping base and target mirrors the diff. */
  lemma DiffMirrors(baseRows: seq<LedgerRow>, targetRows: seq<LedgerRow>)
    ensures DiffOf(targetRows, baseRows) == Mirror(DiffOf(baseRows, targetRows))
  {
    var base, target := IndexRows(baseRows, |baseRows|), IndexRows(targetRows, |targetRows|);
    assert base.Keys * target.Keys == target.Keys * base.Keys;
    var common := Common(base, target);
    FlippedRows(base, target, common, |common|);
    FlippedCounts(ChangedRows(base, target, common, |common|));
  }

  // ----- the flow of dispositions

  predicate UniqueIds(rows: seq<LedgerRow>) {
    forall i, j :: 0 <= i < j < |rows| ==> rows[i].candidateId != rows[j].candidateId
  }

  function WithDisposition(m: ById, d: string): set<string> {
    set id | id in m && m[id].disposition == d
  }

  lemma {:induction false} IndexKeys(rows: seq<LedgerRow>, n: nat, id: string)
    requires n <= |rows|
    ensures id in IndexRows(rows, n) <==> exists i :: 0 <= i < n && rows[i].candidateId == id
  {
    if n > 0 {
      IndexKeys(rows, n - 1, id);
    }
  }

  lemma WithOneMore(m: ById, id: string, row: LedgerRow, d: string)
    requires id !in m
    ensures |WithDisposition(m[id := row], d)| == |WithDisposition(m, d)| + (if row.disposition == d then 1 else 0)
  {
    var before, after := WithDisposition(m, d), WithDisposition(m[id := row], d);
    assert after == if row.disposition == d then before + {id} else before;
  }

  /** With unique ids, counting rows is counting ids. */
  lemma {:induction false} CountsAreById(rows: seq<LedgerRow>, n: nat, d: string)
    requires n <= |rows| && UniqueIds(rows)
    ensures DispositionCounts(rows, n)[d] == |WithDisposition(IndexRows(rows, n), d)|
  {
    if n > 0 {
      CountsAreById(rows, n - 1, d);
      IndexKeys(rows, n - 1, rows[n - 1].candidateId);
      WithOneMore(IndexRows(rows, n - 1), rows[n - 1].candidateId, rows[n - 1], d);
    } else {
      assert WithDisposition(map[], d) == {};
    }
  }

  /** The disposition change of a row, if it has one. */
  predicate MovesInto(changes: seq<Change>, d: string) {
    exists i | 0 <= i < |changes| :: changes[i].field == Disposition && changes[i].after == d
  }

  predicate MovesOutOf(changes: seq<Change>, d: string) {
    exists i | 0 <= i < |changes| :: changes[i].field == Disposition && changes[i].before == d
  }

  function MovesIn(rows: seq<ChangedRow>, d: string): nat {
    if rows == [] then 0 else
    MovesIn(rows[..|rows| - 1], d) + (if MovesInto(rows[|rows| - 1].changes, d) then 1 else 0)
  }

  function MovesOut(rows: seq<ChangedRow>, d: string): nat {
    if rows == [] then 0 else
    MovesOut(rows[..|rows| - 1], d) + (if MovesOutOf(rows[|rows| - 1].changes, d) then 1 else 0)
  }

  lemma {:induction false} DispositionChange(b: LedgerRow, t: LedgerRow, n: nat, d: string)
    requires n <= |SEMANTIC_FIELDS|
    ensures MovesInto(FieldChanges(b, t, n), d) <==> 1 < n && b.disposition != t.disposition && t.disposition == d
    ensures MovesOutOf(FieldChanges(b, t, n), d) <==> 1 < n && b.disposition != t.disposition && b.disposition == d
  {
    if n > 0 {
      DispositionChange(b, t, n - 1, d);
      PlaceOfField(n - 1);
      var f := SEMANTIC_FIELDS[n - 1];
      var before, last := FieldChanges(b, t, n - 1), Change(f, Shown(b, f), Shown(t, f));
      assert Place(Disposition) == 1;
      MovesAppend(before, last, d);
    }
  }

  lemma MovesAppend(before: seq<Change>, last: Change, d: string)
    ensures MovesInto(before + [last], d) <==> MovesInto(before, d) || (last.field == Disposition && last.after == d)
    ensures MovesOutOf(before + [last], d) <==> MovesOutOf(before, d) || (last.field == Disposition && last.before == d)
  {
    var all := before + [last];
    assert all[|before|] == last && forall i :: 0 <= i < |before| ==> all[i] == before[i];
  }

  /** The ids among `ids` whose disposition becomes `d`, or stops being `d`. */
  function Into(base: ById, target: ById, ids: set<string>, d: string): set<string> {
    set id | id in ids && id in base && id in target && base[id].disposition != d && target[id].disposition == d
  }

  function Elements(ids: seq<string>): set<string> {
    set id | id in ids
  }

  lemma ElementsStep(ids: seq<string>, n: nat)
    requires 0 < n <= |ids| && Distinct(ids)
    ensures Elements(ids[..n]) == Elements(ids[..n - 1]) + {ids[n - 1]} && ids[n - 1] !in Elements(ids[..n - 1])
  {
    assert ids[..n] == ids[..n - 1] + [ids[n - 1]];
  }

  lemma {:induction false} MovesInAreIds(base: ById, target: ById, ids: seq<string>, n: nat, d: string)
    requires n <= |ids| && Distinct(ids) && forall i :: 0 <= i < |ids| ==> ids[i] in base && ids[i] in target
    ensures MovesIn(ChangedRows(base, target, ids, n), d) == |Into(base, target, Elements(ids[..n]), d)|
  {
    if n == 0 {
      assert Into(base, target, Elements([]), d) == {};
    } else {
      MovesInAreIds(base, target, ids, n - 1, d);
      MovesStep(base, target, ids, n, d);
      ElementsStep(ids, n);
      IntoStep(base, target, Elements(ids[..n - 1]), ids[n - 1], d);
    }
  }

  lemma {:induction false} MovesOutAreIds(base: ById, target: ById, ids: seq<string>, n: nat, d: string)
    requires n <= |ids| && Distinct(ids) && forall i :: 0 <= i < |ids| ==> ids[i] in base && ids[i] in target
    ensures MovesOut(ChangedRows(base, target, ids, n), d) == |Into(target, base, Elements(ids[..n]), d)|
  {
    if n == 0 {
      assert Into(target, base, Elements([]), d) == {};
    } else {
      MovesOutAreIds(base, target, ids, n - 1, d);
      MovesStep(base, target, ids, n, d);
      ElementsStep(ids, n);
      IntoStep(target, base, Elements(ids[..n - 1]), ids[n - 1], d);
    }
  }

  lemma MovesStep(base: ById, target: ById, ids: seq<string>, n: nat, d: string)
    requires 0 < n <= |ids| && forall i :: 0 <= i < |ids| ==> ids[i] in base && ids[i] in target
    ensures var rows, before := ChangedRows(base, target, ids, n), ChangedRows(base, target, ids, n - 1);
            var b, t := base[ids[n - 1]].disposition, target[ids[n - 1]].disposition;
            && MovesIn(rows, d) == MovesIn(before, d) + (if b != d && t == d then 1 else 0)
            && MovesOut(rows, d) == MovesOut(before, d) + (if t != d && b == d then 1 else 0)
  {
    var b, t := base[ids[n - 1]], target[ids[n - 1]];
    var rows, before := ChangedRows(base, target, ids, n), ChangedRows(base, target, ids, n - 1);
    DispositionChange(b, t, |SEMANTIC_FIELDS|, d);
    if Changes(b, t) != [] {
      assert rows[..|rows| - 1] == before;
    }
  }

  lemma IntoStep(base: ById, target: ById, ids: set<string>, id: string, d: string)
    requires id !in ids && id in base && id in target
    ensures |Into(base, target, ids + {id}, d)|
            == |Into(base, target, ids, d)|
              + (if base[id].disposition != d && target[id].disposition == d then 1 else 0)
  {
    var before, after := Into(base, target, ids, d), Into(base, target, ids + {id}, d);
    assert after == if base[id].disposition != d && target[id].disposition == d then before + {id} else before;
  }

  function Stays(base: ById, target: ById, d: string): set<string> {
    set id | id in base && id in target && base[id].disposition == d && target[id].disposition == d
  }

  /** The ids that the target has and the base has not, with disposition `d`. */
  function Gained(base: ById, target: ById, d: string): set<string> {
    set id | id in target && id !in base && target[id].disposition == d
  }

  lemma CountSplits(base: ById, target: ById, d: string)
    ensures |WithDisposition(target, d)|
            == |Stays(base, target, d)| + |Into(base, target, base.Keys * target.Keys, d)| + |Gained(base, target, d)|
  {
    var stays, gained := Stays(base, target, d), Gained(base, target, d);
    var into := Into(base, target, base.Keys * target.Keys, d);
    forall id ensures id in WithDisposition(target, d) <==> id in stays || id in into || id in gained {
    }
    assert WithDisposition(target, d) == (stays + into) + gained;
    assert stays !! into && (stays + into) !! gained;
  }

  /** What the diff says of a disposition: moves in and out among the changed rows, rows added and removed with it. */
  datatype Flow = Flow(movesIn: nat, movesOut: nat, added: nat, removed: nat)

  function FlowOf(base: ById, target: ById, diff: Diff, d: string): Flow {
    Flow(MovesIn(diff.changedRows, d), MovesOut(diff.changedRows, d),
         |WithDisposition(Restrict(target, diff.added), d)|, |WithDisposition(Restrict(base, diff.removed), d)|)
  }

  lemma GainedIsAdded(base: ById, target: ById, d: string)
    ensures WithDisposition(Restrict(target, SortSet(target.Keys - base.Keys)), d) == Gained(base, target, d)
  {
  }

  lemma CommonElements(base: ById, target: ById)
    ensures Elements(Common(base, target)) == base.Keys * target.Keys == target.Keys * base.Keys
  {
  }

  lemma StaysEitherWay(base: ById, target: ById, d: string)
    ensures Stays(base, target, d) == Stays(target, base, d)
  {
  }

  lemma FlowById(base: ById, target: ById, d: string)
    ensures var common := Common(base, target); var rows := ChangedRows(base, target, common, |common|);
            |WithDisposition(target, d)| + MovesOut(rows, d) + |Gained(target, base, d)|
            == |WithDisposition(base, d)| + MovesIn(rows, d) + |Gained(base, target, d)|
  {
    var common := Common(base, target);
    MovesInAreIds(base, target, common, |common|, d);
    MovesOutAreIds(base, target, common, |common|, d);
    assert common[..|common|] == common;
    CommonElements(base, target);
    CountSplits(base, target, d);
    CountSplits(target, base, d);
    StaysEitherWay(base, target, d);
  }

  /** The flow law: a disposition's count grows by what moves in and what is added with it, and shrinks by what
      moves out and what is removed with it. */
  lemma DispositionFlow(baseRows: seq<LedgerRow>, targetRows: seq<LedgerRow>, d: string)
    requires UniqueIds(baseRows) && UniqueIds(targetRows)
    ensures var base, target := IndexRows(baseRows, |baseRows|), IndexRows(targetRows, |targetRows|);
            var diff := DiffOf(baseRows, targetRows);
            var flow := FlowOf(base, target, diff, d);
            diff.countsAfter[d] + flow.movesOut + flow.removed == diff.countsBefore[d] + flow.movesIn + flow.added
  {
    var base, target := IndexRows(baseRows, |baseRows|), IndexRows(targetRows, |targetRows|);
    CountsAreById(baseRows, |baseRows|, d);
    CountsAreById(targetRows, |targetRows|, d);
    FlowById(base, target, d);
    GainedIsAdded(base, target, d);
    GainedIsAdded(target, base, d);
  }
}
