/** The result object the verifiers append their errors to, and what a row-by-row check collects. */
module Checks {

  class CheckResult<E> {
    var passed: bool
    var errors: seq<E>

    ghost predicate Valid()
      reads this
    {
      passed <==> errors == []
    }

    constructor ()
      ensures Valid() && errors == []
    {
      passed, errors := true, [];
    }

    method AddError(e: E)
      requires Valid()
      modifies this
      ensures Valid() && errors == old(errors) + [e]
    {
      passed := false;
      errors := errors + [e];
    }
  }

  /** The errors of the first `n` rows, in row order. */
  function Collect<R, E>(rows: seq<R>, check: (nat, R) -> seq<E>, n: nat): seq<E>
    requires n <= |rows|
  {
    if n == 0 then [] else Collect(rows, check, n - 1) + check(n - 1, rows[n - 1])
  }

  /** A row-by-row check passes exactly when it passes on every row. */
  lemma {:induction false} CollectsNothing<R, E>(rows: seq<R>, check: (nat, R) -> seq<E>, n: nat)
    requires n <= |rows|
    ensures Collect(rows, check, n) == [] <==> forall i :: 0 <= i < n ==> check(i, rows[i]) == []
  {
    if n > 0 {
      CollectsNothing(rows, check, n - 1);
    }
  }

  /** An error is reported exactly when some row gives rise to it. */
  lemma {:induction false} CollectsExactly<R, E>(rows: seq<R>, check: (nat, R) -> seq<E>, n: nat, e: E)
    requires n <= |rows|
    ensures e in Collect(rows, check, n) <==> exists i :: 0 <= i < n && e in check(i, rows[i])
  {
    if n > 0 {
      CollectsExactly(rows, check, n - 1, e);
    }
  }

  /** The same for reports already made, one list of errors per item. */
  function Flatten<E>(reports: seq<seq<E>>, n: nat): seq<E>
    requires n <= |reports|
  {
    if n == 0 then [] else Flatten(reports, n - 1) + reports[n - 1]
  }

  lemma {:induction false} FlattensNothing<E>(reports: seq<seq<E>>, n: nat)
    requires n <= |reports|
    ensures Flatten(reports, n) == [] <==> forall i :: 0 <= i < n ==> reports[i] == []
  {
    if n > 0 {
      FlattensNothing(reports, n - 1);
    }
  }

  lemma {:induction false} FlattensExactly<E>(reports: seq<seq<E>>, n: nat, e: E)
    requires n <= |reports|
    ensures e in Flatten(reports, n) <==> exists i :: 0 <= i < n && e in reports[i]
  {
    if n > 0 {
      FlattensExactly(reports, n - 1, e);
    }
  }

  /** Row numbers in messages count from 1 and include the header line. */
  function RowNumber(i: nat): nat { i + 2 }

  // ----- the `seen` dictionaries of the duplicate checks

  /** Position of the first of the first `n` ids equal to `id`, or `n`. */
  function FirstAt(ids: seq<string>, id: string, n: nat): (k: nat)
    requires n <= |ids|
    ensures k <= n
  {
    if n == 0 then 0 else
    var k := FirstAt(ids, id, n - 1);
    if k < n - 1 || ids[n - 1] == id then k else n
  }

  lemma {:induction false} FirstAtIsFirst(ids: seq<string>, id: string, n: nat)
    requires n <= |ids|
    ensures var k := FirstAt(ids, id, n);
            (k < n ==> ids[k] == id) && forall i :: 0 <= i < k ==> ids[i] != id
  {
    if n > 0 {
      FirstAtIsFirst(ids, id, n - 1);
    }
  }

  /** The `seen` dictionary holds each id met so far with its first position. */
  ghost predicate Remembers(seen: map<string, nat>, ids: seq<string>, n: nat)
    requires n <= |ids|
  {
    forall id :: if id in seen then seen[id] == FirstAt(ids, id, n) < n else FirstAt(ids, id, n) == n
  }

  lemma RemembersOne(seen: map<string, nat>, ids: seq<string>, n: nat)
    requires n < |ids| && Remembers(seen, ids, n)
    ensures Remembers(if ids[n] in seen then seen else seen[ids[n] := n], ids, n + 1)
  {
  }
}
