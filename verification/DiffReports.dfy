/** What the diff of two ledgers lists and counts, row by row and field by field. */
module DiffReports {
  import opened Ordering
  import opened Ledger
  import opened DispositionDiff

  /** The last of the first `n` rows with this id. */
  predicate IsLastRow(rows: seq<LedgerRow>, n: nat, id: string, k: nat)
    requires n <= |rows|
  {
    k < n && rows[k].candidateId == id && forall j :: k < j < n ==> rows[j].candidateId != id
  }

  /** The rows are looked up by id: the last row with the id. */
  lemma {:induction false} IndexedExactly(rows: seq<LedgerRow>, n: nat, id: string)
    requires n <= |rows|
    ensures id in IndexRows(rows, n) ==>
      exists k: nat :: IsLastRow(rows, n, id, k) && IndexRows(rows, n)[id] == rows[k]
    ensures id !in IndexRows(rows, n) ==> forall k :: 0 <= k < n ==> rows[k].candidateId != id
  {
    if n > 0 {
      IndexedExactly(rows, n - 1, id);
      if rows[n - 1].candidateId == id {
        assert IsLastRow(rows, n, id, n - 1);
      } else if id in IndexRows(rows, n - 1) {
        var k: nat :| IsLastRow(rows, n - 1, id, k) && IndexRows(rows, n - 1)[id] == rows[k];
        assert IsLastRow(rows, n, id, k);
      }
    }
  }

  /** Added are the ids only the target has, removed those only the base has, both in order; and the numbers of rows are
      those of the two ledgers. */
  lemma SidesExactly(baseRows: seq<LedgerRow>, targetRows: seq<LedgerRow>)
    ensures var base, target := IndexRows(baseRows, |baseRows|), IndexRows(targetRows, |targetRows|);
            var d := DiffOf(baseRows, targetRows);
            && d.baseRowCount == |baseRows| && d.targetRowCount == |targetRows|
            && Sorted(d.added) && Distinct(d.added) && (forall id :: id in d.added <==> id in target && id !in base)
            && Sorted(d.removed) && Distinct(d.removed)
            && (forall id :: id in d.removed <==> id in base && id !in target)
            && d.commonCount == |set id | id in base && id in target|
  {
    var base, target := IndexRows(baseRows, |baseRows|), IndexRows(targetRows, |targetRows|);
    assert base.Keys * target.Keys == set id | id in base && id in target;
  }

  /** A field is listed as changed exactly when it differs, with its old and its new value as shown. */
  lemma {:induction false} ChangeExactly(b: LedgerRow, t: LedgerRow, n: nat, c: Change)
    requires n <= |SEMANTIC_FIELDS|
    ensures c in FieldChanges(b, t, n) <==>
            && Place(c.field) < n && Get(b, c.field) != Get(t, c.field)
            && c == Change(c.field, Shown(b, c.field), Shown(t, c.field))
  {
    if n > 0 {
      ChangeExactly(b, t, n - 1, c);
      PlaceOfField(n - 1);
      assert SEMANTIC_FIELDS[n - 1] == c.field <==> Place(c.field) == n - 1;
    }
  }

  /** Notes of more than 120 characters are shown by their first 117 and three dots, other values as they are. */
  lemma ShownExactly(row: LedgerRow, f: Field)
    ensures f != Notes || |row.reviewerNotes| <= 120 ==> Shown(row, f) == Get(row, f)
    ensures f == Notes && |row.reviewerNotes| > 120 ==>
      |Shown(row, f)| == 120 && Shown(row, f)[..117] == row.reviewerNotes[..117] && Shown(row, f)[117..] == "..."
  {
  }

  lemma {:induction false} ChangedRowExactly(base: ById, target: ById, ids: seq<string>, n: nat, r: ChangedRow)
    requires n <= |ids| && forall i :: 0 <= i < |ids| ==> ids[i] in base && ids[i] in target
    ensures r in ChangedRows(base, target, ids, n) <==>
            && r.candidateId in ids[..n] && r.changes != []
            && r.changes == Changes(base[r.candidateId], target[r.candidateId])
  {
    if n > 0 {
      ChangedRowExactly(base, target, ids, n - 1, r);
      assert ids[..n] == ids[..n - 1] + [ids[n - 1]];
    }
  }

  // ----- the counts

  lemma {:induction false} FieldsExactly(b: LedgerRow, t: LedgerRow, n: nat, f: Field)
    requires n <= |SEMANTIC_FIELDS|
    ensures FieldsOf(FieldChanges(b, t, n))[f] == if Place(f) < n && Get(b, f) != Get(t, f) then 1 else 0
  {
    if n > 0 {
      FieldsExactly(b, t, n - 1, f);
      FieldsStep(b, t, SEMANTIC_FIELDS[n - 1], FieldChanges(b, t, n - 1), f);
      PlaceOfField(n - 1);
      assert SEMANTIC_FIELDS[n - 1] == f <==> Place(f) == n - 1;
    }
  }

  lemma FieldsStep(b: LedgerRow, t: LedgerRow, g: Field, before: seq<Change>, f: Field)
    ensures var differs := Get(b, g) != Get(t, g);
            FieldsOf(if differs then before + [Change(g, Shown(b, g), Shown(t, g))] else before)[f]
            == FieldsOf(before)[f] + (if differs && g == f then 1 else 0)
  {
    FieldOneMore(before, Change(g, Shown(b, g), Shown(t, g)), f);
  }

  lemma FieldOneMore(changes: seq<Change>, change: Change, f: Field)
    ensures FieldsOf(changes + [change])[f] == FieldsOf(changes)[f] + (if change.field == f then 1 else 0)
  {
    FieldsOfOneMore(changes, change);
  }

  predicate Differs(base: ById, target: ById, id: string, f: Field) {
    id in base && id in target && Get(base[id], f) != Get(target[id], f)
  }

  /** For each id, whether its rows differ in the field. */
  function Differing(base: ById, target: ById, ids: seq<string>, f: Field): (flags: seq<bool>)
    ensures |flags| == |ids| && forall i :: 0 <= i < |ids| ==> (flags[i] <==> Differs(base, target, ids[i], f))
  {
    seq(|ids|, i requires 0 <= i < |ids| => Differs(base, target, ids[i], f))
  }

  function CountTrue(flags: seq<bool>, n: nat): nat
    requires n <= |flags|
  {
    if n == 0 then 0 else CountTrue(flags, n - 1) + (if flags[n - 1] then 1 else 0)
  }

  function TruePlaces(flags: seq<bool>, n: nat): set<nat>
    requires n <= |flags|
  {
    set i: nat | i < n && flags[i]
  }

  lemma {:induction false} CountIsSize(flags: seq<bool>, n: nat)
    requires n <= |flags|
    ensures CountTrue(flags, n) == |TruePlaces(flags, n)|
  {
    if n > 0 {
      CountIsSize(flags, n - 1);
      assert TruePlaces(flags, n) == TruePlaces(flags, n - 1) + (if flags[n - 1] then {n - 1} else {});
    }
  }

  lemma {:induction false} FieldCountExactly(base: ById, target: ById, ids: seq<string>, n: nat, f: Field)
    requires n <= |ids| && forall i :: 0 <= i < |ids| ==> ids[i] in base && ids[i] in target
    ensures FieldCounts(ChangedRows(base, target, ids, n))[f] == CountTrue(Differing(base, target, ids, f), n)
  {
    if n > 0 {
      FieldCountExactly(base, target, ids, n - 1, f);
      FieldCountStep(base, target, ids, n, f);
      assert Differing(base, target, ids, f)[n - 1] <==> Differs(base, target, ids[n - 1], f);
    }
  }

  lemma FieldCountStep(base: ById, target: ById, ids: seq<string>, n: nat, f: Field)
    requires 0 < n <= |ids| && forall i :: 0 <= i < |ids| ==> ids[i] in base && ids[i] in target
    ensures FieldCounts(ChangedRows(base, target, ids, n))[f] == FieldCounts(ChangedRows(base, target, ids, n - 1))[f]
            + (if Differs(base, target, ids[n - 1], f) then 1 else 0)
  {
    var b, t := base[ids[n - 1]], target[ids[n - 1]];
    FieldsExactly(b, t, |SEMANTIC_FIELDS|, f);
    if Changes(b, t) != [] {
      CountOneMore(ChangedRows(base, target, ids, n - 1), ChangedRow(ids[n - 1], Changes(b, t)), f);
    }
  }

  lemma CountOneMore(rows: seq<ChangedRow>, row: ChangedRow, f: Field)
    ensures FieldCounts(rows + [row])[f] == FieldCounts(rows)[f] + FieldsOf(row.changes)[f]
  {
    assert (rows + [row])[..|rows|] == rows;
  }

  /** Each field is counted once for every common id whose rows differ in it. */
  lemma FieldCountsReported(baseRows: seq<LedgerRow>, targetRows: seq<LedgerRow>, f: Field)
    ensures var base, target := IndexRows(baseRows, |baseRows|), IndexRows(targetRows, |targetRows|);
            var ids := SortSet(set id | id in base && id in target);
            DiffOf(baseRows, targetRows).fieldCounts[f] == |TruePlaces(Differing(base, target, ids, f), |ids|)|
  {
    var base, target := IndexRows(baseRows, |baseRows|), IndexRows(targetRows, |targetRows|);
    var ids := Common(base, target);
    assert base.Keys * target.Keys == set id | id in base && id in target;
    FieldCountExactly(base, target, ids, |ids|, f);
    CountIsSize(Differing(base, target, ids, f), |ids|);
  }

  /** For each row, whether it has the disposition. */
  function Having(rows: seq<LedgerRow>, d: string): (flags: seq<bool>)
    ensures |flags| == |rows| && forall i :: 0 <= i < |rows| ==> (flags[i] <==> rows[i].disposition == d)
  {
    seq(|rows|, i requires 0 <= i < |rows| => rows[i].disposition == d)
  }

  lemma {:induction false} DispositionCountExactly(rows: seq<LedgerRow>, n: nat, d: string)
    requires n <= |rows|
    ensures DispositionCounts(rows, n)[d] == CountTrue(Having(rows, d), n)
  {
    if n > 0 {
      DispositionCountExactly(rows, n - 1, d);
      assert Having(rows, d)[n - 1] <==> rows[n - 1].disposition == d;
    }
  }

  /** The disposition counts are those of the two ledgers, row by row. */
  lemma DispositionCountsReported(baseRows: seq<LedgerRow>, targetRows: seq<LedgerRow>, d: string)
    ensures DiffOf(baseRows, targetRows).countsBefore[d] == |TruePlaces(Having(baseRows, d), |baseRows|)|
    ensures DiffOf(baseRows, targetRows).countsAfter[d] == |TruePlaces(Having(targetRows, d), |targetRows|)|
  {
    DispositionCountExactly(baseRows, |baseRows|, d);
    DispositionCountExactly(targetRows, |targetRows|, d);
    CountIsSize(Having(baseRows, d), |baseRows|);
    CountIsSize(Having(targetRows, d), |targetRows|);
  }
}
