/** Joining next-check candidates with their approvals and executions through dictionaries. */
module LifecycleJoin {
  import opened Wrappers

  /** A JSON value as far as the join looks at it. */
  datatype Json = Null | Bool(b: bool) | Number(n: int) | Text(s: string) | Other(truthy: bool)

  predicate Truthy(v: Json) {
    match v
    case Null => false
    case Bool(b) => b
    case Number(n) => n != 0
    case Text(s) => s != ""
    case Other(t) => t
  }

  /** Python's `a or b`. */
  function Or(a: Json, b: Json): Json {
    if Truthy(a) then a else b
  }

  /** `isinstance(v, str) and v`. */
  function AsId(v: Json): Option<string> {
    if v.Text? && v.s != "" then Some(v.s) else None
  }

  /** `isinstance(v, int)`, which a Boolean satisfies; as a dictionary key it equals 0 or 1. */
  function AsIndex(v: Json): Option<int> {
    match v
    case Number(n) => Some(n)
    case Bool(b) => Some(if b then 1 else 0)
    case _ => None
  }

  datatype Candidate = Candidate(id: Json, index: Json, description: Json)

  /** An external-analysis entry: the identifying fields of its content and payload. List elements that are not
      dictionaries are `None`. */
  datatype Artifact = Artifact(
    purpose: string,
    path: string,
    contentId: Json,
    contentIndex: Json,
    payloadId: Json,
    payloadSnakeId: Json,
    payloadIndex: Json,
    payloadSnakeIndex: Json,
    promotionIndex: Json,
    description: Json,
    candidates: seq<Option<Candidate>>)

  datatype Source = Planner | Deterministic

  datatype Lifecycle = Lifecycle(
    source: Source,
    candidate: Candidate,
    plan: Artifact,
    approval: Option<Artifact>,
    execution: Option<Artifact>)

  const PLANNING := "next-check-planning"
  const APPROVAL := "next-check-approval"
  const PROMOTION := "next-check-promotion"
  const EXECUTION := "next-check-execution"

  /** The id and the index an approval or an execution is filed under. */
  datatype Keys = Keys(id: Option<string>, index: Option<int>)

  function ApprovalKeys(a: Artifact): Keys {
    Keys(AsId(Or(a.payloadId, a.contentId)), AsIndex(Or(a.payloadIndex, a.contentIndex)))
  }

  function ExecutionKeys(a: Artifact): Keys {
    Keys(AsId(Or(a.payloadId, a.payloadSnakeId)), AsIndex(Or(a.payloadIndex, a.payloadSnakeIndex)))
  }

  // ----- the naive join: linear searches

  function OfPurpose(external: seq<Artifact>, purpose: string): seq<Artifact> {
    if external == [] then [] else
      var front := OfPurpose(external[..|external| - 1], purpose);
      var last := external[|external| - 1];
      if last.purpose == purpose then front + [last] else front
  }

  function LastById(entries: seq<Artifact>, keys: Artifact -> Keys, id: string): Option<Artifact> {
    if entries == [] then None
    else if keys(entries[|entries| - 1]).id == Some(id) then Some(entries[|entries| - 1])
    else LastById(entries[..|entries| - 1], keys, id)
  }

  function LastByIndex(entries: seq<Artifact>, keys: Artifact -> Keys, index: int): Option<Artifact> {
    if entries == [] then None
    else if keys(entries[|entries| - 1]).index == Some(index) then Some(entries[|entries| - 1])
    else LastByIndex(entries[..|entries| - 1], keys, index)
  }

  /** The last entry with the candidate's id, else the last with its index. */
  function Find(entries: seq<Artifact>, keys: Artifact -> Keys, c: Candidate): Option<Artifact> {
    if c.id.Text? && LastById(entries, keys, c.id.s).Some? then LastById(entries, keys, c.id.s)
    else if AsIndex(c.index).Some? then LastByIndex(entries, keys, AsIndex(c.index).value)
    else None
  }

  function LifecycleOf(external: seq<Artifact>, source: Source, plan: Artifact, c: Candidate): Lifecycle {
    Lifecycle(source, c, plan,
              Find(OfPurpose(external, APPROVAL), ApprovalKeys, c),
              Find(OfPurpose(external, EXECUTION), ExecutionKeys, c))
  }

  function PlannedIn(external: seq<Artifact>, plan: Artifact, candidates: seq<Option<Candidate>>): seq<Lifecycle> {
    if candidates == [] then [] else
      var front := PlannedIn(external, plan, candidates[..|candidates| - 1]);
      var last := candidates[|candidates| - 1];
      if last.Some? then front + [LifecycleOf(external, Planner, plan, last.value)] else front
  }

  function Planned(external: seq<Artifact>, plans: seq<Artifact>): seq<Lifecycle> {
    if plans == [] then [] else
      var last := plans[|plans| - 1];
      Planned(external, plans[..|plans| - 1]) + PlannedIn(external, last, last.candidates)
  }

  /** A promotion is its own candidate. */
  function PromotedCandidate(p: Artifact): Candidate {
    Candidate(p.payloadId, p.promotionIndex, p.description)
  }

  function Promoted(external: seq<Artifact>, promotions: seq<Artifact>): (r: seq<Lifecycle>)
    ensures |r| == |promotions|
    ensures forall i :: 0 <= i < |r| ==>
      r[i] == LifecycleOf(external, Deterministic, promotions[i], PromotedCandidate(promotions[i]))
  {
    seq(|promotions|, i requires 0 <= i < |promotions| =>
      LifecycleOf(external, Deterministic, promotions[i], PromotedCandidate(promotions[i])))
  }

  /** Every planned candidate in order, then every promotion in order. */
  function Join(external: seq<Artifact>): seq<Lifecycle> {
    Planned(external, OfPurpose(external, PLANNING)) + Promoted(external, OfPurpose(external, PROMOTION))
  }

  // ----- the code

  /** The dictionaries hold, for every id and index, the last entry filed under it. */
  ghost predicate Indexed(byId: map<string, Artifact>, byIndex: map<int, Artifact>, entries: seq<Artifact>,
      keys: Artifact -> Keys) {
    && (forall id :: (if id in byId then Some(byId[id]) else None) == LastById(entries, keys, id))
    && (forall index :: (if index in byIndex then Some(byIndex[index]) else None) == LastByIndex(entries, keys, index))
  }

  method SplitByPurpose(external: seq<Artifact>)
    returns (planning: seq<Artifact>, approvals: seq<Artifact>, promotions: seq<Artifact>, executions: seq<Artifact>)
    ensures planning == OfPurpose(external, PLANNING) && approvals == OfPurpose(external, APPROVAL)
    ensures promotions == OfPurpose(external, PROMOTION) && executions == OfPurpose(external, EXECUTION)
  {
    planning, approvals, promotions, executions := [], [], [], [];
    for i := 0 to |external|
      invariant planning == OfPurpose(external[..i], PLANNING) && approvals == OfPurpose(external[..i], APPROVAL)
      invariant promotions == OfPurpose(external[..i], PROMOTION) && executions == OfPurpose(external[..i], EXECUTION)
    {
      var entry := external[i];
      assert external[..i + 1][..i] == external[..i];
      if entry.purpose == PLANNING {
        planning := planning + [entry];
      } else if entry.purpose == APPROVAL {
        approvals := approvals + [entry];
      } else if entry.purpose == PROMOTION {
        promotions := promotions + [entry];
      } else if entry.purpose == EXECUTION {
        executions := executions + [entry];
      }
    }
    assert external[..|external|] == external;
  }

  method BuildIndex(entries: seq<Artifact>, keys: Artifact -> Keys)
      returns (byId: map<string, Artifact>, byIndex: map<int, Artifact>)
    ensures Indexed(byId, byIndex, entries, keys)
  {
    byId, byIndex := map[], map[];
    for i := 0 to |entries|
      invariant Indexed(byId, byIndex, entries[..i], keys)
    {
      var entry := entries[i];
      var k := keys(entry);
      assert entries[..i + 1][..i] == entries[..i];
      if k.id.Some? {
        byId := byId[k.id.value := entry];
      }
      if k.index.Some? {
        byIndex := byIndex[k.index.value := entry];
      }
    }
    assert entries[..|entries|] == entries;
  }

  method Lookup(byId: map<string, Artifact>, byIndex: map<int, Artifact>, c: Candidate,
                ghost entries: seq<Artifact>, ghost keys: Artifact -> Keys) returns (found: Option<Artifact>)
    requires Indexed(byId, byIndex, entries, keys)
    ensures found == Find(entries, keys, c)
  {
    found := None;
    if c.id.Text? && c.id.s in byId {
      found := Some(byId[c.id.s]);
    } else {
      var index := AsIndex(c.index);
      if index.Some? && index.value in byIndex {
        found := Some(byIndex[index.value]);
      }
    }
  }

  method BuildLifecycleSummary(external: seq<Artifact>) returns (result: seq<Lifecycle>)
    ensures result == Join(external)
  {
    var planning, approvals, promotions, executions := SplitByPurpose(external);
    var approvalById, approvalByIndex := BuildIndex(approvals, ApprovalKeys);
    var executionById, executionByIndex := BuildIndex(executions, ExecutionKeys);
    result := [];
    for p := 0 to |planning|
      invariant result == Planned(external, planning[..p])
    {
      var plan := planning[p];
      var candidates := plan.candidates;
      ghost var earlier := result;
      for c := 0 to |candidates|
        invariant result == earlier + PlannedIn(external, plan, candidates[..c])
      {
        assert candidates[..c + 1][..c] == candidates[..c];
        if candidates[c].None? {
          continue;
        }
        var candidate := candidates[c].value;
        var approval := Lookup(approvalById, approvalByIndex, candidate, approvals, ApprovalKeys);
        var execution := Lookup(executionById, executionByIndex, candidate, executions, ExecutionKeys);
        result := result + [Lifecycle(Planner, candidate, plan, approval, execution)];
      }
      assert candidates[..|candidates|] == candidates;
      assert planning[..p + 1][..p] == planning[..p];
    }
    assert planning[..|planning|] == planning;
    ghost var planned := result;
    for p := 0 to |promotions|
      invariant result == planned + Promoted(external, promotions[..p])
    {
      var promotion := promotions[p];
      var candidate := PromotedCandidate(promotion);
      var approval := Lookup(approvalById, approvalByIndex, candidate, approvals, ApprovalKeys);
      var execution := Lookup(executionById, executionByIndex, candidate, executions, ExecutionKeys);
      result := result + [Lifecycle(Deterministic, candidate, promotion, approval, execution)];
      assert Promoted(external, promotions[..p + 1])
          == Promoted(external, promotions[..p])
            + [Lifecycle(Deterministic, candidate, promotion, approval, execution)];
    }
    assert promotions[..|promotions|] == promotions;
  }

  // ----- what the join finds

  /** The search by id gives entry `k` exactly when it is the last one filed under that id. */
  lemma {:induction false} LastByIdExact(entries: seq<Artifact>, keys: Artifact -> Keys, id: string)
    ensures LastById(entries, keys, id).None? ==> forall k :: 0 <= k < |entries| ==> keys(entries[k]).id != Some(id)
    ensures LastById(entries, keys, id).Some? ==>
      exists k :: 0 <= k < |entries| && entries[k] == LastById(entries, keys, id).value
        && keys(entries[k]).id == Some(id)
        && forall j :: k < j < |entries| ==> keys(entries[j]).id != Some(id)
  {
    if entries != [] && keys(entries[|entries| - 1]).id != Some(id) {
      var front := entries[..|entries| - 1];
      LastByIdExact(front, keys, id);
      assert forall k :: 0 <= k < |front| ==> entries[k] == front[k];
      if LastById(front, keys, id).Some? {
        var k :| 0 <= k < |front| && front[k] == LastById(front, keys, id).value && keys(front[k]).id == Some(id)
          && forall j :: k < j < |front| ==> keys(front[j]).id != Some(id);
        assert entries[k] == front[k];
      }
    }
  }

  lemma {:induction false} LastByIndexExact(entries: seq<Artifact>, keys: Artifact -> Keys, index: int)
    ensures LastByIndex(entries, keys, index).None? ==>
      forall k :: 0 <= k < |entries| ==> keys(entries[k]).index != Some(index)
    ensures LastByIndex(entries, keys, index).Some? ==>
      exists k :: 0 <= k < |entries| && entries[k] == LastByIndex(entries, keys, index).value
        && keys(entries[k]).index == Some(index)
        && forall j :: k < j < |entries| ==> keys(entries[j]).index != Some(index)
  {
    if entries != [] && keys(entries[|entries| - 1]).index != Some(index) {
      var front := entries[..|entries| - 1];
      LastByIndexExact(front, keys, index);
      assert forall k :: 0 <= k < |front| ==> entries[k] == front[k];
      if LastByIndex(front, keys, index).Some? {
        var k :| 0 <= k < |front| && front[k] == LastByIndex(front, keys, index).value
          && keys(front[k]).index == Some(index)
          && forall j :: k < j < |front| ==> keys(front[j]).index != Some(index);
        assert entries[k] == front[k];
      }
    }
  }

  /** The number of dictionaries in a plan's candidate list. */
  function Dictionaries(candidates: seq<Option<Candidate>>): nat {
    if candidates == [] then 0
    else Dictionaries(candidates[..|candidates| - 1]) + if candidates[|candidates| - 1].Some? then 1 else 0
  }

  function AllDictionaries(plans: seq<Artifact>): nat {
    if plans == [] then 0
    else AllDictionaries(plans[..|plans| - 1]) + Dictionaries(plans[|plans| - 1].candidates)
  }

  /** Exactly one entry for each planned and each promoted candidate. */
  lemma {:induction false} OneEntryPerCandidate(external: seq<Artifact>)
    ensures |Join(external)| == AllDictionaries(OfPurpose(external, PLANNING)) + |OfPurpose(external, PROMOTION)|
  {
    PlannedCount(external, OfPurpose(external, PLANNING));
  }

  lemma {:induction false} PlannedCount(external: seq<Artifact>, plans: seq<Artifact>)
    ensures |Planned(external, plans)| == AllDictionaries(plans)
  {
    if plans != [] {
      var last := plans[|plans| - 1];
      PlannedCount(external, plans[..|plans| - 1]);
      PlannedInCount(external, last, last.candidates);
    }
  }

  lemma {:induction false} PlannedInCount(external: seq<Artifact>, plan: Artifact, candidates: seq<Option<Candidate>>)
    ensures |PlannedIn(external, plan, candidates)| == Dictionaries(candidates)
  {
    if candidates != [] {
      PlannedInCount(external, plan, candidates[..|candidates| - 1]);
    }
  }

  /** Which approvals and executions can be found under index `n`: the payload's index counts only when it is not 0
      (or false), and the fallback counts only when the payload has nothing truthy. */
  lemma FiledUnderIndex(first: Json, fallback: Json, n: int)
    ensures AsIndex(Or(first, fallback)) == Some(n) <==>
            (n != 0 && AsIndex(first) == Some(n)) || (!Truthy(first) && AsIndex(fallback) == Some(n))
  {
  }

  /** An approval or execution that names its candidate only by the payload index is found by a candidate with that
      index and no id exactly when the index is not 0. */
  lemma PayloadIndexZeroIsLost(entry: Artifact, n: int, description: Json)
    requires entry.payloadIndex == Number(n) && entry.contentIndex == Null && entry.payloadSnakeIndex == Null
    ensures Find([entry], ApprovalKeys, Candidate(Null, Number(n), description))
      == (if n != 0 then Some(entry) else None)
    ensures Find([entry], ExecutionKeys, Candidate(Null, Number(n), description))
      == (if n != 0 then Some(entry) else None)
  {
    FiledUnderIndex(entry.payloadIndex, entry.contentIndex, n);
    FiledUnderIndex(entry.payloadIndex, entry.payloadSnakeIndex, n);
    OnlyEntry(entry, ApprovalKeys, n);
    OnlyEntry(entry, ExecutionKeys, n);
  }

  lemma OnlyEntry(entry: Artifact, keys: Artifact -> Keys, n: int)
    ensures LastByIndex([entry], keys, n) == if keys(entry).index == Some(n) then Some(entry) else None
  {
    assert [entry][..|[entry]| - 1] == [];
    assert LastByIndex([], keys, n) == None;
  }

  /** An id match wins over any index match, even a later one. */
  lemma IdWinsOverIndex(entries: seq<Artifact>, keys: Artifact -> Keys, c: Candidate, k: nat)
    requires k < |entries| && c.id.Text? && keys(entries[k]).id == Some(c.id.s)
    ensures Find(entries, keys, c).Some? && keys(Find(entries, keys, c).value).id == Some(c.id.s)
  {
    LastByIdExact(entries, keys, c.id.s);
  }

  /** A later entry that is filed under neither the id nor the index of a candidate does not change what it is joined
      with; a later one filed under its id replaces it. */
  lemma LaterEntries(entries: seq<Artifact>, keys: Artifact -> Keys, c: Candidate, later: Artifact)
    ensures c.id.Text? && keys(later).id == Some(c.id.s) ==> Find(entries + [later], keys, c) == Some(later)
    ensures (!c.id.Text? || keys(later).id != Some(c.id.s)) &&
            (AsIndex(c.index).None? || keys(later).index != AsIndex(c.index)) ==>
            Find(entries + [later], keys, c) == Find(entries, keys, c)
  {
    assert (entries + [later])[..|entries + [later]| - 1] == entries;
  }
}
