/** Balancing tests over CI shards by the LPT rule: `compute_shard_balance` and `check_balance_threshold`. */
module ShardBalance {
  import opened Ordering
  import opened Schedule

  datatype Test = Test(nodeid: string, weight: real)

  /** The ratio of the heaviest to the lightest shard, kept as its two parts. */
  datatype Skew = Quotient(greatest: real, least: real) | Infinite

  datatype Metrics = Metrics(
    numShards: int,
    totalTests: nat,
    totalWeight: real,
    shardWeights: seq<real>,
    shardCounts: seq<nat>,
    minWeight: real,
    maxWeight: real,
    skewRatio: Skew)

  datatype Result<T> = Ok(value: T) | ValueError

  /** The tests in name order, each with its duration. */
  function Listing(durations: map<string, real>): (tests: seq<Test>)
    ensures |tests| == |durations|
    ensures forall i :: 0 <= i < |tests| ==>
      tests[i].nodeid in durations && tests[i].weight == durations[tests[i].nodeid]
  {
    var names := SortSet(durations.Keys);
    assert forall i :: 0 <= i < |names| ==> names[i] in names;
    seq(|names|, i requires 0 <= i < |names| => Test(names[i], durations[names[i]]))
  }

  // ----- the stable descending sort

  function InsertDescending(tests: seq<Test>, t: Test): (r: seq<Test>)
    ensures multiset(r) == multiset(tests) + multiset{t}
  {
    if tests == [] then [t] else
    var last := |tests| - 1;
    assert tests == tests[..last] + [tests[last]];
    if tests[last].weight >= t.weight then tests + [t]
    else InsertDescending(tests[..last], t) + [tests[last]]
  }

  /** `sorted(tests, key=weight, reverse=True)`: heaviest first, ties in their original order. */
  function SortDescending(tests: seq<Test>): (r: seq<Test>)
    ensures multiset(r) == multiset(tests)
  {
    if tests == [] then [] else
    var last := |tests| - 1;
    assert tests == tests[..last] + [tests[last]];
    InsertDescending(SortDescending(tests[..last]), tests[last])
  }

  function Weights(tests: seq<Test>): (w: seq<real>)
    ensures |w| == |tests| && forall i :: 0 <= i < |w| ==> w[i] == tests[i].weight
  {
    seq(|tests|, i requires 0 <= i < |tests| => tests[i].weight)
  }

  lemma {:induction false} InsertKeepsFloor(tests: seq<Test>, t: Test, x: real)
    requires x <= t.weight && forall i :: 0 <= i < |tests| ==> x <= tests[i].weight
    ensures forall i :: 0 <= i < |InsertDescending(tests, t)| ==> x <= InsertDescending(tests, t)[i].weight
  {
    if tests != [] {
      InsertKeepsFloor(tests[..|tests| - 1], t, x);
    }
  }

  /** No test weighs more than an earlier one. */
  predicate HeaviestFirst(tests: seq<Test>) {
    forall i, j :: 0 <= i <= j < |tests| ==> tests[j].weight <= tests[i].weight
  }

  lemma {:induction false} InsertKeepsOrder(tests: seq<Test>, t: Test)
    requires HeaviestFirst(tests)
    ensures HeaviestFirst(InsertDescending(tests, t))
  {
    if tests != [] {
      var last := |tests| - 1;
      if tests[last].weight < t.weight {
        InsertKeepsOrder(tests[..last], t);
        InsertKeepsFloor(tests[..last], t, tests[last].weight);
        AppendKeepsOrder(InsertDescending(tests[..last], t), tests[last]);
      } else {
        AppendKeepsOrder(tests, t);
      }
    }
  }

  lemma AppendKeepsOrder(tests: seq<Test>, t: Test)
    requires HeaviestFirst(tests) && forall i :: 0 <= i < |tests| ==> t.weight <= tests[i].weight
    ensures HeaviestFirst(tests + [t])
  {
  }

  lemma {:induction false} SortGivesOrder(tests: seq<Test>)
    ensures HeaviestFirst(SortDescending(tests))
  {
    if tests != [] {
      var last := |tests| - 1;
      SortGivesOrder(tests[..last]);
      InsertKeepsOrder(SortDescending(tests[..last]), tests[last]);
    }
  }

  lemma SortedDescending(tests: seq<Test>)
    ensures Descending(Weights(SortDescending(tests)))
  {
    SortGivesOrder(tests);
  }

  // ----- the specification of the balance

  /** The tests that the assignment `a` puts on shard `c`, in the order they were placed. */
  function Bucket(tests: seq<Test>, a: seq<nat>, c: nat, k: nat): seq<string>
    requires k <= |tests| && k <= |a|
  {
    if k == 0 then [] else
    Bucket(tests, a, c, k - 1) + (if a[k - 1] == c then [tests[k - 1].nodeid] else [])
  }

  function Buckets(tests: seq<Test>, a: seq<nat>, m: nat, k: nat): (s: seq<seq<string>>)
    requires k <= |tests| && k <= |a|
    ensures |s| == m && forall c :: 0 <= c < m ==> s[c] == Bucket(tests, a, c, k)
  {
    seq(m, c requires 0 <= c < m => Bucket(tests, a, c, k))
  }

  function Least(s: seq<real>): (x: real)
    ensures forall i :: 0 <= i < |s| ==> x <= s[i]
    ensures if s == [] then x == 0.0 else exists i :: 0 <= i < |s| && x == s[i]
  {
    if s == [] then 0.0 else if |s| == 1 then s[0]
    else var x := Least(s[1..]); assert forall i :: 0 < i < |s| ==> s[i] == s[1..][i - 1]; if x < s[0] then x else s[0]
  }

  function Greatest(s: seq<real>): (x: real)
    ensures forall i :: 0 <= i < |s| ==> s[i] <= x
    ensures if s == [] then x == 0.0 else exists i :: 0 <= i < |s| && x == s[i]
  {
    if s == [] then 0.0 else if |s| == 1 then s[0]
    else
      var x := Greatest(s[1..]);
      assert forall i :: 0 < i < |s| ==> s[i] == s[1..][i - 1];
      if s[0] < x then x else s[0]
  }

  function SumOf(s: seq<real>): real {
    if s == [] then 0.0 else SumOf(s[..|s| - 1]) + s[|s| - 1]
  }

  function SkewOf(least: real, greatest: real): Skew {
    if least > 0.0 then Quotient(greatest, least) else Infinite
  }

  /** The tests in the order LPT places them. */
  function PlacingOrder(durations: map<string, real>): seq<Test> {
    SortDescending(Listing(durations))
  }

  /** LPT's shard for each test of `PlacingOrder`. */
  function Placing(durations: map<string, real>, m: nat): (a: seq<nat>)
    requires 0 < m
    ensures Assigns(a, |PlacingOrder(durations)|, m)
  {
    var tests := PlacingOrder(durations);
    Greedy(Weights(tests), m, |tests|)
  }

  function ShardWeights(durations: map<string, real>, m: nat): (s: seq<real>)
    requires 0 < m
    ensures |s| == m
  {
    var tests := PlacingOrder(durations);
    Loads(Weights(tests), Placing(durations, m), m, |tests|)
  }

  function ShardAssignments(durations: map<string, real>, m: nat): (s: seq<seq<string>>)
    requires 0 < m
    ensures |s| == m
  {
    var tests := PlacingOrder(durations);
    Buckets(tests, Placing(durations, m), m, |tests|)
  }

  function MetricsOf(numShards: int, totalTests: nat, weights: seq<real>, assignments: seq<seq<string>>): Metrics {
    Metrics(numShards, totalTests, SumOf(weights), weights, Sizes(assignments),
            Least(weights), Greatest(weights), SkewOf(Least(weights), Greatest(weights)))
  }

  /** What `compute_shard_balance` reports; without shards there is nowhere to put a test. */
  function Balance(durations: map<string, real>, numShards: int): Result<Metrics> {
    if numShards > 0 then
      Ok(MetricsOf(numShards, |durations|, ShardWeights(durations, numShards), ShardAssignments(durations, numShards)))
    else if durations == map[] then Ok(MetricsOf(numShards, 0, [], []))
    else ValueError
  }

  // ----- the code

  /** The shards after the first `k` tests of the placing loop. */
  ghost predicate Placed(weights: seq<real>, assignments: seq<seq<string>>, tests: seq<Test>, m: nat, k: nat)
    requires 0 < m && k <= |tests|
  {
    var a := Greedy(Weights(tests), m, k);
    weights == Loads(Weights(tests), a, m, k) && assignments == Buckets(tests, a, m, k)
  }

  /** The placing loop, which updates the weights and assignments of the shards in place. */
  method PlaceTests(tests: seq<Test>, shardWeights: array<real>, shardAssignments: array<seq<string>>)
    requires 0 < shardWeights.Length == shardAssignments.Length
    requires forall c :: 0 <= c < shardWeights.Length ==> shardWeights[c] == 0.0 && shardAssignments[c] == []
    modifies shardWeights, shardAssignments
    ensures Placed(shardWeights[..], shardAssignments[..], tests, shardWeights.Length, |tests|)
  {
    var m := shardWeights.Length;
    for k := 0 to |tests|
      invariant Placed(shardWeights[..], shardAssignments[..], tests, m, k)
    {
      PlaceNext(tests, k, shardWeights, shardAssignments);
    }
  }

  /** One round of the loop. */
  method PlaceNext(tests: seq<Test>, k: nat, shardWeights: array<real>, shardAssignments: array<seq<string>>)
    requires 0 < shardWeights.Length == shardAssignments.Length && k < |tests|
    requires Placed(shardWeights[..], shardAssignments[..], tests, shardWeights.Length, k)
    modifies shardWeights, shardAssignments
    ensures Placed(shardWeights[..], shardAssignments[..], tests, shardWeights.Length, k + 1)
  {
    ghost var weights, assignments := shardWeights[..], shardAssignments[..];
    PlaceTest(tests[k], shardWeights, shardAssignments);
    PlaceOne(weights, assignments, tests, shardWeights.Length, k);
  }

  /** The test goes onto the first of the lightest shards. */
  method PlaceTest(test: Test, shardWeights: array<real>, shardAssignments: array<seq<string>>)
    requires 0 < shardWeights.Length == shardAssignments.Length
    modifies shardWeights, shardAssignments
    ensures var w, x := old(shardWeights[..]), ArgMin(old(shardWeights[..]), shardWeights.Length);
            shardWeights[..] == w[x := w[x] + test.weight]
    ensures var s, x := old(shardAssignments[..]), ArgMin(old(shardWeights[..]), shardWeights.Length);
            shardAssignments[..] == s[x := s[x] + [test.nodeid]]
  {
    var lightest := ArgMin(shardWeights[..], shardWeights.Length);
    shardWeights[lightest] := shardWeights[lightest] + test.weight;
    shardAssignments[lightest] := shardAssignments[lightest] + [test.nodeid];
  }

  lemma PlaceOne(weights: seq<real>, assignments: seq<seq<string>>, tests: seq<Test>, m: nat, k: nat)
    requires 0 < m == |weights| == |assignments| && k < |tests| && Placed(weights, assignments, tests, m, k)
    ensures var x := ArgMin(weights, m);
            Placed(weights[x := weights[x] + tests[k].weight],
                   assignments[x := assignments[x] + [tests[k].nodeid]], tests, m, k + 1)
  {
    var w, x := Weights(tests), ArgMin(weights, m);
    var a := Greedy(w, m, k);
    assert Greedy(w, m, k + 1) == a + [x];
    LoadOnOne(w, a, x, m, k);
    PlaceInBuckets(tests, a, x, m, k);
  }

  lemma LoadOnOne(w: seq<real>, a: seq<nat>, x: nat, m: nat, k: nat)
    requires x < m && |a| == k < |w|
    ensures var s := Loads(w, a, m, k); Loads(w, a + [x], m, k + 1) == s[x := s[x] + w[k]]
  {
    var s, t := Loads(w, a, m, k), Loads(w, a + [x], m, k + 1);
    forall c | 0 <= c < m ensures t[c] == s[x := s[x] + w[k]][c] {
      LoadOfPrefix(w, a, w, a + [x], c, k);
    }
  }

  lemma PlaceInBuckets(tests: seq<Test>, a: seq<nat>, x: nat, m: nat, k: nat)
    requires x < m && |a| == k < |tests|
    ensures var s := Buckets(tests, a, m, k);
            Buckets(tests, a + [x], m, k + 1) == s[x := s[x] + [tests[k].nodeid]]
  {
    var s, b := Buckets(tests, a, m, k), a + [x];
    var t := Buckets(tests, b, m, k + 1);
    forall c | 0 <= c < m ensures t[c] == s[x := s[x] + [tests[k].nodeid]][c] {
      BucketOfPrefix(tests, a, b, c, k);
      assert s[c] + [] == s[c];
    }
  }

  lemma {:induction false} BucketOfPrefix(tests: seq<Test>, a: seq<nat>, b: seq<nat>, c: nat, k: nat)
    requires k <= |tests| && k <= |a| && k <= |b| && a[..k] == b[..k]
    ensures Bucket(tests, a, c, k) == Bucket(tests, b, c, k)
  {
    if k > 0 {
      assert a[k - 1] == a[..k][k - 1] && b[k - 1] == b[..k][k - 1];
      assert a[..k - 1] == a[..k][..k - 1] && b[..k - 1] == b[..k][..k - 1];
      BucketOfPrefix(tests, a, b, c, k - 1);
    }
  }

  method ComputeShardBalance(durations: map<string, real>, numShards: int) returns (r: Result<Metrics>)
    ensures r == Balance(durations, numShards)
  {
    var tests := SortDescending(Listing(durations));
    assert |multiset(tests)| == |multiset(Listing(durations))|;
    if numShards <= 0 {
      if |durations| > 0 {
        return ValueError;
      }
      return Ok(MetricsOf(numShards, 0, [], []));
    }
    var shardWeights := new real[numShards](_ => 0.0);
    var shardAssignments := new seq<string>[numShards](_ => []);
    PlaceTests(tests, shardWeights, shardAssignments);
    return Ok(MetricsOf(numShards, |tests|, shardWeights[..], shardAssignments[..]));
  }

  predicate CheckBalanceThreshold(metrics: Metrics, maxSkewRatio: real)
    requires metrics.skewRatio.Quotient? ==> metrics.skewRatio.least > 0.0
  {
    match metrics.skewRatio
    case Infinite => false
    case Quotient(greatest, least) => greatest / least <= maxSkewRatio
  }

  // ----- what the balance promises

  predicate NonNegativeDurations(durations: map<string, real>) {
    forall n :: n in durations ==> durations[n] >= 0.0
  }

  predicate AllPlaced(tests: seq<Test>, placement: map<string, nat>) {
    forall i :: 0 <= i < |tests| ==> tests[i].nodeid in placement
  }

  /** Weight that an arbitrary placement of the same tests puts on shard `c`. */
  function PlacedOn(tests: seq<Test>, placement: map<string, nat>, c: nat): real
    requires AllPlaced(tests, placement)
  {
    if tests == [] then 0.0 else
    var last := |tests| - 1;
    PlacedOn(tests[..last], placement, c) + (if placement[tests[last].nodeid] == c then tests[last].weight else 0.0)
  }

  predicate IsPlacement(placement: map<string, nat>, durations: map<string, real>, m: nat) {
    placement.Keys == durations.Keys && forall n :: n in placement ==> placement[n] < m
  }

  /** The heaviest shard of an arbitrary placement. */
  function Heaviest(durations: map<string, real>, placement: map<string, nat>, m: nat): real
    requires IsPlacement(placement, durations, m)
  {
    Greatest(seq(m, c requires 0 <= c < m => PlacedOn(Listing(durations), placement, c)))
  }

  lemma InsertKeepsPlaced(tests: seq<Test>, t: Test, placement: map<string, nat>)
    requires t.nodeid in placement && AllPlaced(tests, placement)
    ensures AllPlaced(InsertDescending(tests, t), placement)
  {
    var r := InsertDescending(tests, t);
    forall i | 0 <= i < |r| ensures r[i].nodeid in placement {
      assert r[i] in multiset(r);
      assert r[i] in tests || r[i] == t;
    }
  }

  lemma {:induction false} InsertKeepsPlacedOn(tests: seq<Test>, t: Test, placement: map<string, nat>, c: nat)
    requires t.nodeid in placement && AllPlaced(tests, placement) && AllPlaced(InsertDescending(tests, t), placement)
    ensures PlacedOn(InsertDescending(tests, t), placement, c) == PlacedOn(tests + [t], placement, c)
  {
    PlacedOnAppend(tests, t, placement, c);
    if tests != [] {
      var last := |tests| - 1;
      var rest := tests[..last];
      InsertKeepsPlaced(rest, t, placement);
      InsertKeepsPlacedOn(rest, t, placement, c);
      PlacedOnAppend(rest, t, placement, c);
      PlacedOnAppend(InsertDescending(rest, t), tests[last], placement, c);
    }
  }

  lemma PlacedOnAppend(tests: seq<Test>, t: Test, placement: map<string, nat>, c: nat)
    requires t.nodeid in placement && AllPlaced(tests, placement)
    ensures PlacedOn(tests + [t], placement, c)
            == PlacedOn(tests, placement, c) + (if placement[t.nodeid] == c then t.weight else 0.0)
  {
    assert (tests + [t])[..|tests|] == tests;
  }

  lemma {:induction false} SortKeepsPlacedOn(tests: seq<Test>, placement: map<string, nat>, c: nat)
    requires AllPlaced(tests, placement)
    ensures var r := SortDescending(tests);
            && AllPlaced(r, placement)
            && PlacedOn(r, placement, c) == PlacedOn(tests, placement, c)
  {
    if tests != [] {
      var last := |tests| - 1;
      SortKeepsPlacedOn(tests[..last], placement, c);
      var r := SortDescending(tests[..last]);
      InsertKeepsPlaced(r, tests[last], placement);
      InsertKeepsPlacedOn(r, tests[last], placement, c);
      PlacedOnAppend(r, tests[last], placement, c);
    }
  }

  function Rival(tests: seq<Test>, placement: map<string, nat>): (b: seq<nat>)
    requires AllPlaced(tests, placement)
    ensures |b| == |tests| && forall i :: 0 <= i < |b| ==> b[i] == placement[tests[i].nodeid]
  {
    seq(|tests|, i requires 0 <= i < |tests| => placement[tests[i].nodeid])
  }

  lemma {:induction false} RivalLoads(tests: seq<Test>, placement: map<string, nat>, c: nat)
    requires AllPlaced(tests, placement)
    ensures Load(Weights(tests), Rival(tests, placement), c, |tests|) == PlacedOn(tests, placement, c)
  {
    if tests != [] {
      var last := |tests| - 1;
      var rest := tests[..last];
      RivalLoads(rest, placement, c);
      assert Weights(tests)[..last] == Weights(rest)[..last]
        && Rival(tests, placement)[..last] == Rival(rest, placement)[..last];
      LoadOfPrefix(Weights(tests), Rival(tests, placement), Weights(rest), Rival(rest, placement), c, last);
    }
  }

  lemma PlacingOrderIsListing(durations: map<string, real>)
    ensures var tests := PlacingOrder(durations);
            && |tests| == |durations| && Descending(Weights(tests))
            && forall i :: 0 <= i < |tests| ==>
              tests[i].nodeid in durations && tests[i].weight == durations[tests[i].nodeid]
  {
    var tests, listing := PlacingOrder(durations), Listing(durations);
    SortedDescending(listing);
    assert |multiset(tests)| == |multiset(listing)|;
    forall i | 0 <= i < |tests| ensures tests[i] in listing {
      assert tests[i] in multiset(tests);
    }
  }

  /** `x <= (4/3 - 1/(3m)) * bound`, multiplied out. */
  predicate WithinLptRatio(m: nat, x: real, bound: real) {
    3.0 * m as real * x <= (4.0 * m as real - 1.0) * bound
  }

  /** The LPT approximation ratio: on any durations and any number of shards, the heaviest shard reported is at most
      4/3 - 1/(3m) times the heaviest shard of any placement of the same tests on as many shards. */
  lemma BalanceApproximation(durations: map<string, real>, m: nat, r: Metrics, placement: map<string, nat>)
    requires 0 < m && NonNegativeDurations(durations) && IsPlacement(placement, durations, m)
    requires Balance(durations, m) == Ok(r)
    ensures WithinLptRatio(m, r.maxWeight, Heaviest(durations, placement, m))
  {
    BalanceApproximationSum(durations, m, placement);
    ApproximationProduct(m, r.maxWeight, Heaviest(durations, placement, m));
  }

  lemma ApproximationProduct(m: nat, x: real, bound: real)
    requires 3.0 * Times(m, x) + bound <= 4.0 * Times(m, bound)
    ensures WithinLptRatio(m, x, bound)
  {
    TimesIsProduct(m, x);
    TimesIsProduct(m, bound);
    ApproximationArithmetic(m as real, x, bound);
  }

  lemma ApproximationArithmetic(m: real, x: real, bound: real)
    requires 3.0 * (m * x) + bound <= 4.0 * (m * bound)
    ensures 3.0 * m * x <= (4.0 * m - 1.0) * bound
  {
  }

  lemma BalanceApproximationSum(durations: map<string, real>, m: nat, placement: map<string, nat>)
    requires 0 < m && NonNegativeDurations(durations) && IsPlacement(placement, durations, m)
    ensures var x, bound := Balance(durations, m).value.maxWeight, Heaviest(durations, placement, m);
            3.0 * Times(m, x) + bound <= 4.0 * Times(m, bound)
  {
    var tests, bound := PlacingOrder(durations), Heaviest(durations, placement, m);
    PlacingOrderIsListing(durations);
    RivalWithinHeaviest(durations, m, placement);
    var s := ShardWeights(durations, m);
    var c :| 0 <= c < m && Greatest(s) == s[c];
    LptApproximation(Weights(tests), Rival(tests, placement), m, c, bound);
  }

  lemma RivalWithinHeaviest(durations: map<string, real>, m: nat, placement: map<string, nat>)
    requires IsPlacement(placement, durations, m)
    ensures var tests, bound := PlacingOrder(durations), Heaviest(durations, placement, m);
            && AllPlaced(tests, placement) && Assigns(Rival(tests, placement), |tests|, m)
            && AtMost(Weights(tests), Rival(tests, placement), m, |tests|, bound)
  {
    var tests, bound := PlacingOrder(durations), Heaviest(durations, placement, m);
    var rival := seq(m, c requires 0 <= c < m => PlacedOn(Listing(durations), placement, c));
    PlacingOrderIsListing(durations);
    forall c | 0 <= c < m ensures Load(Weights(tests), Rival(tests, placement), c, |tests|) <= bound {
      RivalLoads(tests, placement, c);
      SortKeepsPlacedOn(Listing(durations), placement, c);
      assert rival[c] <= bound;
    }
  }

  /** Conservation: the weight reported is that of all tests, and the shard counts add up to their number. */
  lemma BalanceConserves(durations: map<string, real>, m: nat)
    requires 0 < m
    ensures var r := Balance(durations, m).value;
            && r.totalWeight == Total(Weights(Listing(durations)), |durations|)
            && SumOfCounts(r.shardCounts) == r.totalTests == |durations|
  {
    var tests, a := PlacingOrder(durations), Placing(durations, m);
    PlacingOrderIsListing(durations);
    ReportedTotal(durations, m);
    SortKeepsTotal(durations);
    CountsOfBuckets(tests, a, m, |tests|);
    SizesAddUp(tests, a, m, |tests|);
  }

  lemma ReportedTotal(durations: map<string, real>, m: nat)
    requires 0 < m
    ensures Balance(durations, m).value.totalWeight
      == Total(Weights(PlacingOrder(durations)), |PlacingOrder(durations)|)
  {
    var tests, a := PlacingOrder(durations), Placing(durations, m);
    LoadsAddUp(Weights(tests), a, m, |tests|);
    SumOfLoads(Weights(tests), a, m, |tests|);
  }

  /** Sorting does not change the total: it is what a single shard would carry. */
  lemma SortKeepsTotal(durations: map<string, real>)
    ensures Total(Weights(PlacingOrder(durations)), |PlacingOrder(durations)|)
            == Total(Weights(Listing(durations)), |Listing(durations)|)
  {
    var placement := map n | n in durations :: 0;
    var tests, listing := PlacingOrder(durations), Listing(durations);
    SortKeepsPlacedOn(listing, placement, 0);
    TotalIsPlacedOn(tests, placement);
    TotalIsPlacedOn(listing, placement);
  }

  lemma {:induction false} TotalIsPlacedOn(tests: seq<Test>, placement: map<string, nat>)
    requires AllPlaced(tests, placement) && forall n :: n in placement ==> placement[n] == 0
    ensures Total(Weights(tests), |tests|) == PlacedOn(tests, placement, 0)
  {
    if tests != [] {
      var last := |tests| - 1;
      TotalIsPlacedOn(tests[..last], placement);
      TotalOfPrefix(Weights(tests), Weights(tests[..last]), last);
    }
  }

  lemma {:induction false} TotalOfPrefix(w: seq<real>, v: seq<real>, k: nat)
    requires k <= |w| && k <= |v| && forall i :: 0 <= i < k ==> w[i] == v[i]
    ensures Total(w, k) == Total(v, k)
  {
    if k > 0 {
      TotalOfPrefix(w, v, k - 1);
    }
  }

  function SumOfCounts(counts: seq<nat>): nat {
    if counts == [] then 0 else SumOfCounts(counts[..|counts| - 1]) + counts[|counts| - 1]
  }

  /** The sizes of the first `m` buckets together. */
  function SumOfSizes(tests: seq<Test>, a: seq<nat>, m: nat, k: nat): nat
    requires k <= |tests| && k <= |a|
  {
    if m == 0 then 0 else SumOfSizes(tests, a, m - 1, k) + |Bucket(tests, a, m - 1, k)|
  }

  function Sizes(buckets: seq<seq<string>>): (counts: seq<nat>)
    ensures |counts| == |buckets| && forall c :: 0 <= c < |counts| ==> counts[c] == |buckets[c]|
  {
    seq(|buckets|, c requires 0 <= c < |buckets| => |buckets[c]|)
  }

  lemma {:induction false} CountsOfBuckets(tests: seq<Test>, a: seq<nat>, m: nat, k: nat)
    requires k <= |tests| && k <= |a|
    ensures SumOfCounts(Sizes(Buckets(tests, a, m, k))) == SumOfSizes(tests, a, m, k)
  {
    if m > 0 {
      CountsOfBuckets(tests, a, m - 1, k);
      assert Sizes(Buckets(tests, a, m, k))[..m - 1] == Sizes(Buckets(tests, a, m - 1, k));
    }
  }

  lemma {:induction false} SizesStep(tests: seq<Test>, a: seq<nat>, m: nat, k: nat)
    requires 0 < k <= |tests| && k <= |a|
    ensures SumOfSizes(tests, a, m, k) == SumOfSizes(tests, a, m, k - 1) + (if a[k - 1] < m then 1 else 0)
  {
    if m > 0 {
      SizesStep(tests, a, m - 1, k);
    }
  }

  lemma {:induction false} SizesAddUp(tests: seq<Test>, a: seq<nat>, m: nat, k: nat)
    requires k <= |tests| && k <= |a| && forall i :: 0 <= i < k ==> a[i] < m
    ensures SumOfSizes(tests, a, m, k) == k
  {
    if k > 0 {
      SizesAddUp(tests, a, m, k - 1);
      SizesStep(tests, a, m, k);
    } else {
      NoTestsNoSizes(tests, a, m);
    }
  }

  lemma {:induction false} NoTestsNoSizes(tests: seq<Test>, a: seq<nat>, m: nat)
    ensures SumOfSizes(tests, a, m, 0) == 0
  {
    if m > 0 {
      NoTestsNoSizes(tests, a, m - 1);
    }
  }

  lemma {:induction false} SumOfLoads(w: seq<real>, a: seq<nat>, m: nat, k: nat)
    requires k <= |w| && k <= |a|
    ensures SumOf(Loads(w, a, m, k)) == SumLoads(w, a, m, k)
  {
    if m > 0 {
      SumOfLoads(w, a, m - 1, k);
      assert Loads(w, a, m, k)[..m - 1] == Loads(w, a, m - 1, k);
    }
  }

  /** Partition: every test is on exactly one shard, once, and the shards hold nothing else. */
  lemma EachTestOnOneShard(durations: map<string, real>, m: nat, n: string) returns (c: nat)
    requires 0 < m && n in durations
    ensures var shards := ShardAssignments(durations, m);
            && c < m
            && multiset(shards[c])[n] == 1
            && (forall d :: 0 <= d < m && d != c ==> n !in shards[d])
            && forall d, i :: 0 <= d < m && 0 <= i < |shards[d]| ==> shards[d][i] in durations
  {
    var tests, a := PlacingOrder(durations), Placing(durations, m);
    var j := OnlyOccurrence(durations, n);
    c := a[j];
    PlacingOrderIsListing(durations);
    forall d | 0 <= d < m ensures forall i :: 0 <= i < |ShardAssignments(durations, m)[d]| ==>
      ShardAssignments(durations, m)[d][i] in durations
    {
      BucketNames(tests, a, d, |tests|, durations);
    }
    forall d | 0 <= d < m ensures multiset(Bucket(tests, a, d, |tests|))[n] == if d == c then 1 else 0 {
      CountInBucket(tests, a, d, |tests|, n, j);
    }
    forall d | 0 <= d < m && d != c ensures n !in ShardAssignments(durations, m)[d] {
      assert multiset(Bucket(tests, a, d, |tests|))[n] == 0;
    }
  }

  lemma {:induction false} BucketNames(tests: seq<Test>, a: seq<nat>, c: nat, k: nat, durations: map<string, real>)
    requires k <= |tests| && k <= |a| && forall i :: 0 <= i < |tests| ==> tests[i].nodeid in durations
    ensures forall i :: 0 <= i < |Bucket(tests, a, c, k)| ==> Bucket(tests, a, c, k)[i] in durations
  {
    if k > 0 {
      BucketNames(tests, a, c, k - 1, durations);
    }
  }

  lemma OnlyOccurrence(durations: map<string, real>, n: string) returns (j: nat)
    requires n in durations
    ensures var tests := PlacingOrder(durations);
            j < |tests| && tests[j].nodeid == n && forall i :: 0 <= i < |tests| && i != j ==> tests[i].nodeid != n
  {
    PlacingOrderIsListing(durations);
    ListedOnce(durations, n);
    j := OnlyCopy(PlacingOrder(durations), Test(n, durations[n]));
  }

  lemma ListedOnce(durations: map<string, real>, n: string)
    requires n in durations
    ensures multiset(Listing(durations))[Test(n, durations[n])] == 1
  {
    var listing, names := Listing(durations), SortSet(durations.Keys);
    var k :| 0 <= k < |names| && names[k] == n;
    assert listing[k] in listing;
    DistinctCounts(listing, listing[k]);
  }

  lemma OnlyCopy(tests: seq<Test>, t: Test) returns (j: nat)
    requires multiset(tests)[t] == 1
    ensures j < |tests| && tests[j] == t && forall i :: 0 <= i < |tests| && i != j ==> tests[i] != t
  {
    assert t in multiset(tests);
    j :| 0 <= j < |tests| && tests[j] == t;
    forall i | 0 <= i < |tests| && i != j ensures tests[i] != t {
      if tests[i] == t {
        TwoOccurrences(tests, i, j);
      }
    }
  }

  lemma {:induction false} DistinctCounts<T>(s: seq<T>, t: T)
    requires forall i, j :: 0 <= i < j < |s| ==> s[i] != s[j]
    ensures multiset(s)[t] <= 1
  {
    if s != [] {
      var last := |s| - 1;
      DistinctCounts(s[..last], t);
      assert s == s[..last] + [s[last]];
      if s[last] == t {
        assert t !in s[..last];
      }
    }
  }

  lemma TwoOccurrences<T>(s: seq<T>, i: nat, j: nat)
    requires i < |s| && j < |s| && i != j && s[i] == s[j]
    ensures multiset(s)[s[i]] >= 2
  {
    var p, q := if i < j then i else j, if i < j then j else i;
    assert s == s[..q] + [s[q]] + s[q + 1..];
    assert s[p] in s[..q];
  }

  /** Of these tests, only the one at `j` has this name. */
  predicate OnlyAt(tests: seq<Test>, n: string, j: nat) {
    forall i :: 0 <= i < |tests| ==> (tests[i].nodeid == n <==> i == j)
  }

  lemma CountInBucket(tests: seq<Test>, a: seq<nat>, c: nat, k: nat, n: string, j: nat)
    requires k <= |tests| == |a| && OnlyAt(tests, n, j)
    ensures multiset(Bucket(tests, a, c, k))[n] == if j < k && a[j] == c then 1 else 0
  {
    CountIsOccurrences(tests, a, c, k, n);
    OccursOnce(tests, a, c, k, n, j);
    CountIsMultiplicity(Bucket(tests, a, c, k), n);
  }

  function Count(s: seq<string>, n: string): nat {
    if s == [] then 0 else Count(s[..|s| - 1], n) + (if s[|s| - 1] == n then 1 else 0)
  }

  lemma {:induction false} CountIsMultiplicity(s: seq<string>, n: string)
    ensures multiset(s)[n] == Count(s, n)
  {
    if s != [] {
      CountIsMultiplicity(s[..|s| - 1], n);
      assert s == s[..|s| - 1] + [s[|s| - 1]];
    }
  }

  /** How often the first `k` tests bring the name to shard `c`. */
  function Occurrences(tests: seq<Test>, a: seq<nat>, c: nat, k: nat, n: string): nat
    requires k <= |tests| == |a|
  {
    if k == 0 then 0 else
    Occurrences(tests, a, c, k - 1, n) + (if a[k - 1] == c && tests[k - 1].nodeid == n then 1 else 0)
  }

  lemma {:induction false} OccursOnce(tests: seq<Test>, a: seq<nat>, c: nat, k: nat, n: string, j: nat)
    requires k <= |tests| == |a| && OnlyAt(tests, n, j)
    ensures Occurrences(tests, a, c, k, n) == if j < k && a[j] == c then 1 else 0
  {
    if k > 0 {
      OccursOnce(tests, a, c, k - 1, n, j);
    }
  }

  lemma {:induction false} CountIsOccurrences(tests: seq<Test>, a: seq<nat>, c: nat, k: nat, n: string)
    requires k <= |tests| == |a|
    ensures Count(Bucket(tests, a, c, k), n) == Occurrences(tests, a, c, k, n)
  {
    if k > 0 {
      CountIsOccurrences(tests, a, c, k - 1, n);
      var front, name := Bucket(tests, a, c, k - 1), tests[k - 1].nodeid;
      BucketStep(tests, a, c, k);
      if a[k - 1] == c {
        CountAppend(front, name, n);
      } else {
        assert Bucket(tests, a, c, k) == front;
      }
    }
  }

  lemma BucketStep(tests: seq<Test>, a: seq<nat>, c: nat, k: nat)
    requires 0 < k <= |tests| == |a|
    ensures Bucket(tests, a, c, k) == if a[k - 1] == c
      then Bucket(tests, a, c, k - 1) + [tests[k - 1].nodeid] else Bucket(tests, a, c, k - 1)
  {
    assert Bucket(tests, a, c, k - 1) + [] == Bucket(tests, a, c, k - 1);
  }

  lemma CountAppend(s: seq<string>, x: string, n: string)
    ensures Count(s + [x], n) == Count(s, n) + (if x == n then 1 else 0)
  {
    assert (s + [x])[..|s|] == s;
  }

  /** Load gap: take the last placed test off any shard, and it is no heavier than the lightest shard. */
  lemma BalanceLoadGap(durations: map<string, real>, m: nat, c: nat)
    requires c < m && NonNegativeDurations(durations)
    ensures var placed := ShardAssignments(durations, m)[c];
            placed != [] ==>
              && placed[|placed| - 1] in durations
              && ShardWeights(durations, m)[c] - durations[placed[|placed| - 1]]
                <= Balance(durations, m).value.minWeight
  {
    var tests, placed := PlacingOrder(durations), ShardAssignments(durations, m)[c];
    PlacingOrderIsNonNegative(durations);
    var j := GapOfList(tests, m, c);
    assert placed == Bucket(tests, Placing(durations, m), c, |tests|);
    if j >= 0 {
      TestOfPlacingOrder(durations, j);
    }
  }

  lemma PlacingOrderIsNonNegative(durations: map<string, real>)
    requires NonNegativeDurations(durations)
    ensures NonNegative(Weights(PlacingOrder(durations)))
  {
    PlacingOrderIsListing(durations);
  }

  lemma TestOfPlacingOrder(durations: map<string, real>, j: nat)
    requires j < |PlacingOrder(durations)|
    ensures var t := PlacingOrder(durations)[j]; t.nodeid in durations && t.weight == durations[t.nodeid]
  {
    PlacingOrderIsListing(durations);
  }

  /** The same for a list of tests in any order: `j` is the last one on shard `c`, or -1. */
  lemma GapOfList(tests: seq<Test>, m: nat, c: nat) returns (j: int)
    requires c < m && NonNegative(Weights(tests))
    ensures var w, n := Weights(tests), |tests|; var a := Greedy(w, m, n); var bucket := Bucket(tests, a, c, n);
            -1 <= j < n &&
            (if j < 0 then bucket == [] else
             && bucket != [] && bucket[|bucket| - 1] == tests[j].nodeid
             && Load(w, a, c, n) - w[j] <= Least(Loads(w, a, m, n)))
  {
    var w, n := Weights(tests), |tests|;
    var a := Greedy(w, m, n);
    j := LastOn(a, c, n);
    LastInBucket(tests, a, c, n);
    var s := Loads(w, a, m, n);
    var d :| 0 <= d < m && Least(s) == s[d];
    LoadGap(w, m, n, c, d);
  }

  lemma {:induction false} LastInBucket(tests: seq<Test>, a: seq<nat>, c: nat, k: nat)
    requires k <= |tests| && k <= |a|
    ensures var bucket, j := Bucket(tests, a, c, k), LastOn(a, c, k);
            if j < 0 then bucket == [] else bucket != [] && bucket[|bucket| - 1] == tests[j].nodeid
  {
    if k > 0 && a[k - 1] != c {
      LastInBucket(tests, a, c, k - 1);
      assert Bucket(tests, a, c, k) == Bucket(tests, a, c, k - 1);
    }
  }

  /** The threshold test without division: no shard is empty and the heaviest is within the ratio. */
  lemma AcceptedExactly(metrics: Metrics, k: real)
    requires metrics.skewRatio == SkewOf(metrics.minWeight, metrics.maxWeight)
    ensures metrics.skewRatio.Quotient? ==> metrics.skewRatio.least > 0.0
    ensures CheckBalanceThreshold(metrics, k) <==> metrics.minWeight > 0.0 && metrics.maxWeight <= k * metrics.minWeight
  {
    var low, high := metrics.minWeight, metrics.maxWeight;
    if low > 0.0 {
      var q := high / low;
      assert q * low == high;
      if q <= k {
        assert 0.0 <= (k - q) * low;
      } else {
        assert 0.0 < (q - k) * low;
      }
    }
  }

  /** No test heavier than `k - 1` times the lightest shard: LPT's own gap makes the threshold check pass at `k`. */
  lemma SmallTestsAreAccepted(durations: map<string, real>, m: nat, r: Metrics, k: real)
    requires 0 < m && NonNegativeDurations(durations) && Balance(durations, m) == Ok(r)
    requires r.minWeight > 0.0 && NoneLonger(durations, (k - 1.0) * r.minWeight)
    ensures CheckBalanceThreshold(r, k)
  {
    AcceptedExactly(r, k);
    var gap := (k - 1.0) * r.minWeight;
    assert gap + r.minWeight == k * r.minWeight;
    GapBoundsHeaviest(durations, m, gap);
  }

  predicate NoneLonger(durations: map<string, real>, x: real) {
    forall n :: n in durations ==> durations[n] <= x
  }

  lemma GapBoundsHeaviest(durations: map<string, real>, m: nat, gap: real)
    requires 0 < m && NonNegativeDurations(durations) && NoneLonger(durations, gap)
    ensures var r := Balance(durations, m).value; r.minWeight > 0.0 ==> r.maxWeight <= gap + r.minWeight
  {
    var r := Balance(durations, m).value;
    var s, tests, a := ShardWeights(durations, m), PlacingOrder(durations), Placing(durations, m);
    var c :| 0 <= c < m && Greatest(s) == s[c];
    LastInBucket(tests, a, c, |tests|);
    LoadByLast(Weights(tests), a, c, |tests|);
    assert s[c] >= r.minWeight;
    BalanceLoadGap(durations, m, c);
  }

  /** `max_weight <= total/m + (1 - 1/m) * largest`, multiplied out. */
  lemma BalanceAgainstTotal(durations: map<string, real>, m: nat, r: Metrics, largest: real)
    requires 0 < m && NonNegativeDurations(durations) && 0.0 <= largest && Balance(durations, m) == Ok(r)
    requires forall n :: n in durations ==> durations[n] <= largest
    ensures Times(m, r.maxWeight) <= r.totalWeight + Times(m - 1, largest)
  {
    var s, tests := ShardWeights(durations, m), PlacingOrder(durations);
    PlacingOrderIsListing(durations);
    ReportedTotal(durations, m);
    var c :| 0 <= c < m && Greatest(s) == s[c];
    ListSchedulingBound(Weights(tests), m, |tests|, c, largest);
  }
}
