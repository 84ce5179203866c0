/** What each entry of the join is, read off the artifacts themselves, their order and their fields. */
module LifecycleEntries {
  import opened Wrappers
  import opened LifecycleJoin

  // ----- what an artifact is filed under

  /** The value of the first field, or of the second when the first counts as false, is this non-empty text. */
  predicate NamesId(first: Json, second: Json, id: string) {
    id != "" && (first == Text(id) || (!Truthy(first) && second == Text(id)))
  }

  /** The value is this number, or the truth value that equals it. */
  predicate IsNumber(v: Json, n: int) {
    v == Number(n) || (n == 1 && v == Bool(true)) || (n == 0 && v == Bool(false))
  }

  predicate NamesIndex(first: Json, second: Json, n: int) {
    if Truthy(first) then IsNumber(first, n) else IsNumber(second, n)
  }

  predicate ApprovesId(a: Artifact, id: string) {
    a.purpose == "next-check-approval" && NamesId(a.payloadId, a.contentId, id)
  }

  predicate ApprovesIndex(a: Artifact, n: int) {
    a.purpose == "next-check-approval" && NamesIndex(a.payloadIndex, a.contentIndex, n)
  }

  predicate ExecutesId(a: Artifact, id: string) {
    a.purpose == "next-check-execution" && NamesId(a.payloadId, a.payloadSnakeId, id)
  }

  predicate ExecutesIndex(a: Artifact, n: int) {
    a.purpose == "next-check-execution" && NamesIndex(a.payloadIndex, a.payloadSnakeIndex, n)
  }

  lemma KeysExactly(first: Json, second: Json, id: string, n: int)
    ensures AsId(Or(first, second)) == Some(id) <==> NamesId(first, second, id)
    ensures AsIndex(Or(first, second)) == Some(n) <==> NamesIndex(first, second, n)
  {
  }

  // ----- the last artifact of a kind

  ghost predicate IsLast(external: seq<Artifact>, has: Artifact -> bool, k: nat) {
    k < |external| && has(external[k]) && forall j :: k < j < |external| ==> !has(external[j])
  }

  ghost predicate NoneHas(external: seq<Artifact>, has: Artifact -> bool) {
    forall j :: 0 <= j < |external| ==> !has(external[j])
  }

  /** What is found is the last artifact of the kind, and nothing is found only when there is none. */
  ghost predicate FindsLast(external: seq<Artifact>, has: Artifact -> bool, found: Option<Artifact>) {
    match found
    case None => NoneHas(external, has)
    case Some(a) => exists k: nat :: IsLast(external, has, k) && external[k] == a
  }

  lemma FindsLastStep(front: seq<Artifact>, last: Artifact, has: Artifact -> bool, found: Option<Artifact>)
    requires FindsLast(front, has, found)
    ensures FindsLast(front + [last], has, if has(last) then Some(last) else found)
  {
    var all := front + [last];
    if has(last) {
      assert IsLast(all, has, |front|);
    } else if found.Some? {
      var k: nat :| IsLast(front, has, k) && front[k] == found.value;
      assert IsLast(all, has, k);
    }
  }

  lemma {:induction false} LastByIdOf(external: seq<Artifact>, purpose: string, keys: Artifact -> Keys, id: string,
      has: Artifact -> bool)
    requires forall a :: has(a) <==> a.purpose == purpose && keys(a).id == Some(id)
    ensures FindsLast(external, has, LastById(OfPurpose(external, purpose), keys, id))
  {
    if external != [] {
      var front, last := external[..|external| - 1], external[|external| - 1];
      LastByIdOf(front, purpose, keys, id, has);
      var some := OfPurpose(front, purpose);
      FindsLastStep(front, last, has, LastById(some, keys, id));
      assert external == front + [last];
      if last.purpose == purpose {
        assert (some + [last])[..|some|] == some;
      }
    }
  }

  lemma {:induction false} LastByIndexOf(external: seq<Artifact>, purpose: string, keys: Artifact -> Keys, n: int,
      has: Artifact -> bool)
    requires forall a :: has(a) <==> a.purpose == purpose && keys(a).index == Some(n)
    ensures FindsLast(external, has, LastByIndex(OfPurpose(external, purpose), keys, n))
  {
    if external != [] {
      var front, last := external[..|external| - 1], external[|external| - 1];
      LastByIndexOf(front, purpose, keys, n, has);
      var some := OfPurpose(front, purpose);
      FindsLastStep(front, last, has, LastByIndex(some, keys, n));
      assert external == front + [last];
      if last.purpose == purpose {
        assert (some + [last])[..|some|] == some;
      }
    }
  }

  // ----- what a candidate is joined with

  /** The last artifact with the candidate's id; when none has it, the last with its index; otherwise none. */
  ghost predicate IsJoined(external: seq<Artifact>, c: Candidate, hasId: (Artifact, string) -> bool,
      hasIndex: (Artifact, int) -> bool, found: Option<Artifact>)
  {
    var byId := (a: Artifact) => c.id.Text? && hasId(a, c.id.s);
    if !NoneHas(external, byId) then FindsLast(external, byId, found)
    else if exists n :: IsNumber(c.index, n) then
      exists n :: IsNumber(c.index, n) && FindsLast(external, a => hasIndex(a, n), found)
    else found == None
  }

  lemma FindIsJoined(external: seq<Artifact>, purpose: string, keys: Artifact -> Keys, c: Candidate,
      hasId: (Artifact, string) -> bool, hasIndex: (Artifact, int) -> bool)
    requires forall a, id :: hasId(a, id) <==> a.purpose == purpose && keys(a).id == Some(id)
    requires forall a, n :: hasIndex(a, n) <==> a.purpose == purpose && keys(a).index == Some(n)
    ensures IsJoined(external, c, hasId, hasIndex, Find(OfPurpose(external, purpose), keys, c))
  {
    var byId := (a: Artifact) => c.id.Text? && hasId(a, c.id.s);
    var some := OfPurpose(external, purpose);
    if c.id.Text? {
      LastByIdOf(external, purpose, keys, c.id.s, byId);
      if NoneHas(external, byId) {
        NothingFound(external, byId, LastById(some, keys, c.id.s));
      }
    }
    if NoneHas(external, byId) {
      IndexIsNumber(c.index);
      if AsIndex(c.index).Some? {
        var n := AsIndex(c.index).value;
        LastByIndexOf(external, purpose, keys, n, a => hasIndex(a, n));
        assert IsNumber(c.index, n);
      }
    }
  }

  lemma NothingFound(external: seq<Artifact>, has: Artifact -> bool, found: Option<Artifact>)
    requires FindsLast(external, has, found) && NoneHas(external, has)
    ensures found == None
  {
  }

  lemma IndexIsNumber(v: Json)
    ensures forall n :: IsNumber(v, n) <==> AsIndex(v) == Some(n)
  {
    forall n ensures IsNumber(v, n) <==> AsIndex(v) == Some(n) {
      match v
      case Null =>
      case Bool(b) =>
      case Number(_) =>
      case Text(_) =>
      case Other(_) =>
    }
  }

  lemma ApprovalIsJoined(external: seq<Artifact>, c: Candidate)
    ensures IsJoined(external, c, ApprovesId, ApprovesIndex, Find(OfPurpose(external, APPROVAL), ApprovalKeys, c))
  {
    forall a, id ensures ApprovesId(a, id) <==> a.purpose == APPROVAL && ApprovalKeys(a).id == Some(id) {
      KeysExactly(a.payloadId, a.contentId, id, 0);
    }
    forall a, n ensures ApprovesIndex(a, n) <==> a.purpose == APPROVAL && ApprovalKeys(a).index == Some(n) {
      KeysExactly(a.payloadIndex, a.contentIndex, "", n);
    }
    FindIsJoined(external, APPROVAL, ApprovalKeys, c, ApprovesId, ApprovesIndex);
  }

  lemma ExecutionIsJoined(external: seq<Artifact>, c: Candidate)
    ensures IsJoined(external, c, ExecutesId, ExecutesIndex, Find(OfPurpose(external, EXECUTION), ExecutionKeys, c))
  {
    forall a, id ensures ExecutesId(a, id) <==> a.purpose == EXECUTION && ExecutionKeys(a).id == Some(id) {
      KeysExactly(a.payloadId, a.payloadSnakeId, id, 0);
    }
    forall a, n ensures ExecutesIndex(a, n) <==> a.purpose == EXECUTION && ExecutionKeys(a).index == Some(n) {
      KeysExactly(a.payloadIndex, a.payloadSnakeIndex, "", n);
    }
    FindIsJoined(external, EXECUTION, ExecutionKeys, c, ExecutesId, ExecutesIndex);
  }

  // ----- where the entries come from

  /** The positions of a purpose, in order. */
  function Positions(external: seq<Artifact>, purpose: string): (ps: seq<nat>)
    ensures |ps| == |OfPurpose(external, purpose)|
  {
    if external == [] then [] else
    var k := |external| - 1;
    Positions(external[..k], purpose) + (if external[k].purpose == purpose then [k] else [])
  }

  predicate Increasing(ps: seq<nat>) {
    forall i, j :: 0 <= i < j < |ps| ==> ps[i] < ps[j]
  }

  lemma {:induction false} PositionsExactly(external: seq<Artifact>, purpose: string)
    ensures var ps := Positions(external, purpose);
            && Increasing(ps)
            && (forall k :: k in ps <==> 0 <= k < |external| && external[k].purpose == purpose)
            && forall i :: 0 <= i < |ps| ==> ps[i] < |external| && OfPurpose(external, purpose)[i] == external[ps[i]]
  {
    if external != [] {
      var k := |external| - 1;
      PositionsExactly(external[..k], purpose);
      var front := Positions(external[..k], purpose);
      var taken := external[k].purpose == purpose;
      forall i | 0 <= i < |front| ensures front[i] < k && external[..k][front[i]] == external[front[i]] {
      }
      OneMorePosition(front, k, taken);
      forall j ensures (j in front || (taken && j == k)) <==> 0 <= j < |external| && external[j].purpose == purpose {
        if 0 <= j < k {
          assert external[..k][j] == external[j];
        }
      }
    }
  }

  lemma OneMorePosition(front: seq<nat>, k: nat, taken: bool)
    requires Increasing(front) && forall i :: 0 <= i < |front| ==> front[i] < k
    ensures var ps := front + (if taken then [k] else []);
            Increasing(ps) && forall j :: j in ps <==> j in front || (taken && j == k)
  {
  }

  /** The positions of the dictionaries in a plan's list. */
  function Slots(candidates: seq<Option<Candidate>>): (ss: seq<nat>) {
    if candidates == [] then [] else
    var k := |candidates| - 1;
    Slots(candidates[..k]) + (if candidates[k].Some? then [k] else [])
  }

  lemma {:induction false} SlotsExactly(external: seq<Artifact>, plan: Artifact, candidates: seq<Option<Candidate>>)
    ensures var ss, entries := Slots(candidates), PlannedIn(external, plan, candidates);
            && |ss| == |entries| && Increasing(ss)
            && (forall k :: k in ss <==> 0 <= k < |candidates| && candidates[k].Some?)
            && forall i :: 0 <= i < |ss| ==>
                 && ss[i] < |candidates| && candidates[ss[i]].Some?
                 && entries[i] == LifecycleOf(external, Planner, plan, candidates[ss[i]].value)
  {
    if candidates != [] {
      var k := |candidates| - 1;
      SlotsExactly(external, plan, candidates[..k]);
      var front := Slots(candidates[..k]);
      var taken := candidates[k].Some?;
      forall i | 0 <= i < |front| ensures front[i] < k && candidates[..k][front[i]] == candidates[front[i]] {
      }
      OneMorePosition(front, k, taken);
      forall j ensures (j in front || (taken && j == k)) <==> 0 <= j < |candidates| && candidates[j].Some? {
        if 0 <= j < k {
          assert candidates[..k][j] == candidates[j];
        }
      }
    }
  }

  /** Plan `p`, candidate `c`. */
  datatype Origin = Origin(p: nat, c: nat)

  predicate IsOrigin(external: seq<Artifact>, o: Origin) {
    && o.p < |external| && external[o.p].purpose == "next-check-planning"
    && o.c < |external[o.p].candidates| && external[o.p].candidates[o.c].Some?
  }

  predicate Before(o: Origin, q: Origin) {
    o.p < q.p || (o.p == q.p && o.c < q.c)
  }

  function OriginsIn(p: nat, slots: seq<nat>): (os: seq<Origin>)
    ensures |os| == |slots| && forall i :: 0 <= i < |os| ==> os[i] == Origin(p, slots[i])
  {
    seq(|slots|, i requires 0 <= i < |slots| => Origin(p, slots[i]))
  }

  /** The origins of the planned entries, plan by plan. */
  function OriginsOf(external: seq<Artifact>, ps: seq<nat>): seq<Origin>
    requires forall i :: 0 <= i < |ps| ==> ps[i] < |external|
  {
    if ps == [] then [] else
    var last := ps[|ps| - 1];
    OriginsOf(external, ps[..|ps| - 1]) + OriginsIn(last, Slots(external[last].candidates))
  }

  /** The entry is the plan's candidate, marked as planned, with what it is joined with. */
  ghost predicate IsPlanned(external: seq<Artifact>, o: Origin, e: Lifecycle) {
    && IsOrigin(external, o) && e.source == Planner && e.plan == external[o.p]
    && Some(e.candidate) == external[o.p].candidates[o.c]
    && IsJoined(external, e.candidate, ApprovesId, ApprovesIndex, e.approval)
    && IsJoined(external, e.candidate, ExecutesId, ExecutesIndex, e.execution)
  }

  /** The entry is the promotion at `k`, marked as deterministic, with what it is joined with. */
  ghost predicate IsPromoted(external: seq<Artifact>, k: nat, e: Lifecycle) {
    && k < |external| && external[k].purpose == "next-check-promotion"
    && e.source == Deterministic && e.plan == external[k]
    && e.candidate == Candidate(external[k].payloadId, external[k].promotionIndex, external[k].description)
    && IsJoined(external, e.candidate, ApprovesId, ApprovesIndex, e.approval)
    && IsJoined(external, e.candidate, ExecutesId, ExecutesIndex, e.execution)
  }

  lemma {:induction false} PlannedExactly(external: seq<Artifact>, plans: seq<Artifact>, ps: seq<nat>)
    requires |plans| == |ps| && Increasing(ps)
    requires forall i :: 0 <= i < |ps| ==> ps[i] < |external| && plans[i] == external[ps[i]]
    requires forall i :: 0 <= i < |ps| ==> plans[i].purpose == "next-check-planning"
    ensures var os, entries := OriginsOf(external, ps), Planned(external, plans);
            && |os| == |entries|
            && (forall i :: 0 <= i < |os| ==> os[i].p in ps && IsPlanned(external, os[i], entries[i]))
            && (forall i, j :: 0 <= i < j < |os| ==> Before(os[i], os[j]))
            && forall o :: IsOrigin(external, o) && o.p in ps ==> o in os
  {
    if ps != [] {
      var front, last := ps[..|ps| - 1], ps[|ps| - 1];
      PlannedExactly(external, plans[..|ps| - 1], front);
      PlanEntries(external, last);
      var os, mine := OriginsOf(external, front), OriginsIn(last, Slots(external[last].candidates));
      forall i, j | 0 <= i < |os| && 0 <= j < |mine| ensures Before(os[i], mine[j]) {
        assert os[i].p in front;
      }
      JoinOrdered(os, mine);
      forall o | IsOrigin(external, o) && o.p in ps ensures o in os + mine {
        assert o.p in front || o.p == last;
      }
    }
  }

  lemma JoinOrdered(a: seq<Origin>, b: seq<Origin>)
    requires forall i, j :: 0 <= i < j < |a| ==> Before(a[i], a[j])
    requires forall i, j :: 0 <= i < j < |b| ==> Before(b[i], b[j])
    requires forall i, j :: 0 <= i < |a| && 0 <= j < |b| ==> Before(a[i], b[j])
    ensures forall i, j :: 0 <= i < j < |a + b| ==> Before((a + b)[i], (a + b)[j])
  {
  }

  lemma PlanEntries(external: seq<Artifact>, p: nat)
    requires p < |external| && external[p].purpose == "next-check-planning"
    ensures var os, entries := OriginsIn(p, Slots(external[p].candidates)),
                               PlannedIn(external, external[p], external[p].candidates);
            && |os| == |entries|
            && (forall i :: 0 <= i < |os| ==> os[i].p == p && IsPlanned(external, os[i], entries[i]))
            && (forall i, j :: 0 <= i < j < |os| ==> Before(os[i], os[j]))
            && forall o :: IsOrigin(external, o) && o.p == p ==> o in os
  {
    var candidates := external[p].candidates;
    var slots, os := Slots(candidates), OriginsIn(p, Slots(candidates));
    SlotsExactly(external, external[p], candidates);
    forall i | 0 <= i < |os|
      ensures IsPlanned(external, os[i], PlannedIn(external, external[p], candidates)[i])
    {
      ApprovalIsJoined(external, candidates[slots[i]].value);
      ExecutionIsJoined(external, candidates[slots[i]].value);
    }
    forall o | IsOrigin(external, o) && o.p == p ensures o in os {
      var i :| 0 <= i < |slots| && slots[i] == o.c;
      assert os[i] == o;
    }
  }

  /** Every entry of the summary: first the planned candidates, plan by plan and in the order of each plan's list, then
      the promotions in order, each joined with the last approval and the last execution filed under its id or index. */
  lemma EntriesExactly(external: seq<Artifact>)
      returns (planned: seq<Lifecycle>, promoted: seq<Lifecycle>, os: seq<Origin>, ks: seq<nat>)
    ensures Join(external) == planned + promoted && |planned| == |os| && |promoted| == |ks|
    ensures forall i :: 0 <= i < |os| ==> IsPlanned(external, os[i], planned[i])
    ensures forall i :: 0 <= i < |ks| ==> IsPromoted(external, ks[i], promoted[i])
    ensures forall o :: o in os <==> IsOrigin(external, o)
    ensures forall k :: k in ks <==> 0 <= k < |external| && external[k].purpose == "next-check-promotion"
    ensures forall i, j :: 0 <= i < j < |os| ==> Before(os[i], os[j])
    ensures Increasing(ks)
  {
    planned := Planned(external, OfPurpose(external, PLANNING));
    promoted := Promoted(external, OfPurpose(external, PROMOTION));
    os := PlannedEntries(external);
    ks := PromotedEntries(external);
  }

  lemma PlannedEntries(external: seq<Artifact>) returns (os: seq<Origin>)
    ensures var entries := Planned(external, OfPurpose(external, PLANNING));
            |os| == |entries| && forall i :: 0 <= i < |os| ==> IsPlanned(external, os[i], entries[i])
    ensures forall o :: o in os <==> IsOrigin(external, o)
    ensures forall i, j :: 0 <= i < j < |os| ==> Before(os[i], os[j])
  {
    var ps := Positions(external, PLANNING);
    PositionsExactly(external, PLANNING);
    forall i | 0 <= i < |ps| ensures external[ps[i]].purpose == "next-check-planning" {
      assert ps[i] in ps;
    }
    os := OriginsOf(external, ps);
    PlannedExactly(external, OfPurpose(external, PLANNING), ps);
  }

  lemma PromotedEntries(external: seq<Artifact>) returns (ks: seq<nat>)
    ensures var entries := Promoted(external, OfPurpose(external, PROMOTION));
            |ks| == |entries| && forall i :: 0 <= i < |ks| ==> IsPromoted(external, ks[i], entries[i])
    ensures forall k :: k in ks <==> 0 <= k < |external| && external[k].purpose == "next-check-promotion"
    ensures Increasing(ks)
  {
    ks := Positions(external, PROMOTION);
    PositionsExactly(external, PROMOTION);
    forall i | 0 <= i < |ks|
      ensures IsPromoted(external, ks[i], Promoted(external, OfPurpose(external, PROMOTION))[i])
    {
      assert ks[i] in ks;
      var c := PromotedCandidate(external[ks[i]]);
      ApprovalIsJoined(external, c);
      ExecutionIsJoined(external, c);
    }
  }
}
