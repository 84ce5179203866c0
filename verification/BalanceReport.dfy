/** What the reported balance says about each shard, read off the names on it and their durations. */
module BalanceReport {
  import opened Ordering
  import opened Schedule
  import opened ShardBalance

  predicate AllIn(names: seq<string>, durations: map<string, real>) {
    forall i :: 0 <= i < |names| ==> names[i] in durations
  }

  /** The durations of these names, added up. */
  function SumOver(names: seq<string>, durations: map<string, real>): real
    requires AllIn(names, durations)
  {
    if names == [] then 0.0 else SumOver(names[..|names| - 1], durations) + durations[names[|names| - 1]]
  }

  predicate HasDurations(tests: seq<Test>, durations: map<string, real>) {
    forall i :: 0 <= i < |tests| ==> tests[i].nodeid in durations && tests[i].weight == durations[tests[i].nodeid]
  }

  lemma {:induction false} LoadIsSum(tests: seq<Test>, a: seq<nat>, c: nat, k: nat, durations: map<string, real>)
    requires k <= |tests| == |a| && HasDurations(tests, durations)
    ensures AllIn(Bucket(tests, a, c, k), durations)
    ensures Load(Weights(tests), a, c, k) == SumOver(Bucket(tests, a, c, k), durations)
  {
    if k > 0 {
      LoadIsSum(tests, a, c, k - 1, durations);
      BucketStep(tests, a, c, k);
      if a[k - 1] == c {
        SumOneMore(Bucket(tests, a, c, k - 1), tests[k - 1].nodeid, durations);
      }
    }
  }

  lemma SumOneMore(names: seq<string>, name: string, durations: map<string, real>)
    requires AllIn(names, durations) && name in durations
    ensures AllIn(names + [name], durations)
    ensures SumOver(names + [name], durations) == SumOver(names, durations) + durations[name]
  {
    assert (names + [name])[..|names|] == names;
  }

  /** Shard by shard: the weight reported is that of the names on the shard, and the count their number. */
  lemma ReportedShards(durations: map<string, real>, m: nat, r: Metrics, c: nat)
    requires c < m && Balance(durations, m) == Ok(r)
    ensures r.numShards == |r.shardWeights| == |r.shardCounts| == |ShardAssignments(durations, m)| == m
    ensures var names := ShardAssignments(durations, m)[c];
            AllIn(names, durations) && r.shardWeights[c] == SumOver(names, durations) && r.shardCounts[c] == |names|
  {
    var tests, a := PlacingOrder(durations), Placing(durations, m);
    PlacingOrderIsListing(durations);
    LoadIsSum(tests, a, c, |tests|, durations);
    ReportedParts(durations, m, r);
    SizesAre(ShardAssignments(durations, m), c);
  }

  lemma ReportedParts(durations: map<string, real>, m: nat, r: Metrics)
    requires 0 < m && Balance(durations, m) == Ok(r)
    ensures r.numShards == m && r.totalTests == |durations| && r.shardWeights == ShardWeights(durations, m)
    ensures r.shardCounts == Sizes(ShardAssignments(durations, m))
  {
  }

  lemma SizesAre(assignments: seq<seq<string>>, c: nat)
    requires c < |assignments|
    ensures |Sizes(assignments)| == |assignments| && Sizes(assignments)[c] == |assignments[c]|
  {
  }

  /** The least and the greatest weight are weights of shards and bound all of them, and the ratio is theirs. */
  lemma ReportedExtremes(durations: map<string, real>, m: nat, r: Metrics)
    requires 0 < m && Balance(durations, m) == Ok(r)
    ensures r.minWeight in r.shardWeights && r.maxWeight in r.shardWeights
    ensures forall c :: 0 <= c < |r.shardWeights| ==> r.minWeight <= r.shardWeights[c] <= r.maxWeight
    ensures r.skewRatio == if r.minWeight > 0.0 then Quotient(r.maxWeight, r.minWeight) else Infinite
  {
  }

  /** Without shards there is a report exactly when there are no tests, and it is empty. */
  lemma ReportWithoutShards(durations: map<string, real>, numShards: int)
    requires numShards <= 0
    ensures Balance(durations, numShards).ValueError? <==> durations != map[]
    ensures durations == map[] ==>
      Balance(durations, numShards) == Ok(Metrics(numShards, 0, 0.0, [], [], 0.0, 0.0, Infinite))
  {
  }

  // ----- the order of placing

  /** Heavier first, and by name among tests of one weight. */
  predicate Precedes(t: Test, u: Test) {
    u.weight < t.weight || (u.weight == t.weight && StringLe(t.nodeid, u.nodeid))
  }

  predicate InOrder(tests: seq<Test>) {
    forall i, j :: 0 <= i < j < |tests| ==> Precedes(tests[i], tests[j])
  }

  lemma {:induction false} InsertKeepsOrderOf(tests: seq<Test>, t: Test)
    requires InOrder(tests) && forall i :: 0 <= i < |tests| ==> StringLe(tests[i].nodeid, t.nodeid)
    ensures InOrder(InsertDescending(tests, t))
  {
    if tests != [] && tests[|tests| - 1].weight < t.weight {
      var front, last := tests[..|tests| - 1], tests[|tests| - 1];
      InsertKeepsOrderOf(front, t);
      forall i | 0 <= i < |InsertDescending(front, t)| ensures Precedes(InsertDescending(front, t)[i], last) {
        Inserted(front, t, i);
      }
    }
  }

  lemma Inserted(tests: seq<Test>, t: Test, i: nat)
    requires i < |InsertDescending(tests, t)|
    ensures InsertDescending(tests, t)[i] == t || InsertDescending(tests, t)[i] in tests
  {
    var r := InsertDescending(tests, t);
    assert r[i] in multiset(r);
  }

  lemma {:induction false} SortOrders(tests: seq<Test>)
    requires forall i, j :: 0 <= i < j < |tests| ==> StringLe(tests[i].nodeid, tests[j].nodeid)
    ensures InOrder(SortDescending(tests))
  {
    if tests != [] {
      var front, last := tests[..|tests| - 1], tests[|tests| - 1];
      SortOrders(front);
      var sorted := SortDescending(front);
      forall i | 0 <= i < |sorted| ensures StringLe(sorted[i].nodeid, last.nodeid) {
        assert sorted[i] in multiset(sorted);
        assert sorted[i] in front;
      }
      InsertKeepsOrderOf(sorted, last);
    }
  }

  /** The tests are placed heaviest first, those of one weight by name, each with its own duration. */
  lemma PlacingOrderIsSorted(durations: map<string, real>)
    ensures InOrder(PlacingOrder(durations)) && HasDurations(PlacingOrder(durations), durations)
    ensures |PlacingOrder(durations)| == |durations|
  {
    var names := SortSet(durations.Keys);
    assert forall i :: 0 <= i < |Listing(durations)| ==> Listing(durations)[i].nodeid == names[i];
    SortOrders(Listing(durations));
    PlacingOrderIsListing(durations);
  }
}
