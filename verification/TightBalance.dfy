/** The tight job lists as durations: the reported balance attains its bound for every number of shards. */
module TightBalance {
  import opened Ordering
  import opened Schedule
  import opened ShardBalance
  import Tightness

  /** The test with job `k`: its name is `k + 1` letters long, so names sort by length. */
  function NameOf(k: nat): (name: string)
    ensures |name| == k + 1
  {
    if k == 0 then "t" else "t" + NameOf(k - 1)
  }

  function Names(n: nat): (names: seq<string>)
    ensures |names| == n && forall k :: 0 <= k < n ==> names[k] == NameOf(k)
  {
    seq(n, k requires 0 <= k < n => NameOf(k))
  }

  function NameSet(n: nat): set<string> {
    set k | 0 <= k < n :: NameOf(k)
  }

  lemma {:induction false} LongerIsLater(i: nat, j: nat)
    requires i < j
    ensures StringLe(NameOf(i), NameOf(j))
  {
    assert NameOf(j)[0] == 't' && NameOf(j)[1..] == NameOf(j - 1) && NameOf(i)[0] == 't';
    if i == 0 {
      assert NameOf(0)[1..] == "";
    } else {
      assert NameOf(i)[1..] == NameOf(i - 1);
      LongerIsLater(i - 1, j - 1);
    }
  }

  lemma NamesAreSorted(n: nat)
    ensures SortSet(NameSet(n)) == Names(n)
  {
    forall i, j | 0 <= i < j < n ensures StringLe(Names(n)[i], Names(n)[j]) && Names(n)[i] != Names(n)[j] {
      LongerIsLater(i, j);
    }
    forall x ensures x in Names(n) <==> x in NameSet(n) {
      if x in NameSet(n) {
        var k :| 0 <= k < n && x == NameOf(k);
        assert Names(n)[k] == x;
      }
    }
    SortedIsUnique(Names(n), NameSet(n));
  }

  /** The weights `w` as durations of the named tests. */
  function DurationsOf(w: seq<real>): map<string, real> {
    map name | name in NameSet(|w|) :: w[|name| - 1]
  }

  lemma DurationsAt(w: seq<real>, k: nat)
    requires k < |w|
    ensures NameOf(k) in DurationsOf(w) && DurationsOf(w)[NameOf(k)] == w[k]
  {
    assert NameOf(k) in NameSet(|w|);
  }

  lemma ListingIs(w: seq<real>)
    ensures var tests := Listing(DurationsOf(w));
            |tests| == |w| && forall k :: 0 <= k < |w| ==> tests[k] == Test(NameOf(k), w[k])
  {
    var tests := Listing(DurationsOf(w));
    assert DurationsOf(w).Keys == NameSet(|w|);
    NamesAreSorted(|w|);
    forall k | 0 <= k < |w| ensures tests[k] == Test(NameOf(k), w[k]) {
      DurationsAt(w, k);
      assert Names(|w|)[k] == NameOf(k);
    }
  }

  /** The job list is what the shards are given, in its own order. */
  lemma PlacedAsListed(w: seq<real>)
    requires Descending(w)
    ensures PlacingOrder(DurationsOf(w)) == Listing(DurationsOf(w)) && Weights(PlacingOrder(DurationsOf(w))) == w
  {
    ListingIs(w);
    SortedStays(Listing(DurationsOf(w)));
  }

  lemma {:induction false} SortedStays(tests: seq<Test>)
    requires HeaviestFirst(tests)
    ensures SortDescending(tests) == tests
  {
    if tests != [] {
      var front, t := tests[..|tests| - 1], tests[|tests| - 1];
      FrontIsHeavier(tests);
      SortedStays(front);
      InsertAtEnd(front, t);
      assert SortDescending(tests) == InsertDescending(SortDescending(front), t);
    }
  }

  lemma FrontIsHeavier(tests: seq<Test>)
    requires tests != [] && HeaviestFirst(tests)
    ensures var front, t := tests[..|tests| - 1], tests[|tests| - 1];
            HeaviestFirst(front) && (front != [] ==> front[|front| - 1].weight >= t.weight) && front + [t] == tests
  {
  }

  lemma InsertAtEnd(tests: seq<Test>, t: Test)
    requires tests != [] ==> tests[|tests| - 1].weight >= t.weight
    ensures InsertDescending(tests, t) == tests + [t]
  {
  }

  // ----- the rival as a placement

  function PlacementOf(b: seq<nat>): map<string, nat> {
    map name | name in NameSet(|b|) :: b[|name| - 1]
  }

  lemma PlacementIsPlacement(w: seq<real>, b: seq<nat>, m: nat)
    requires Assigns(b, |w|, m)
    ensures IsPlacement(PlacementOf(b), DurationsOf(w), m)
  {
    assert PlacementOf(b).Keys == NameSet(|b|) && DurationsOf(w).Keys == NameSet(|w|);
  }

  lemma PlacementAt(b: seq<nat>, k: nat)
    requires k < |b|
    ensures NameOf(k) in PlacementOf(b) && PlacementOf(b)[NameOf(k)] == b[k]
  {
    assert NameOf(k) in NameSet(|b|);
  }

  /** A shard of the placement carries what the assignment puts on it. */
  lemma PlacementLoad(tests: seq<Test>, w: seq<real>, b: seq<nat>, c: nat)
    requires |tests| == |w| == |b| && forall k :: 0 <= k < |w| ==> tests[k] == Test(NameOf(k), w[k])
    ensures AllPlaced(tests, PlacementOf(b)) && PlacedOn(tests, PlacementOf(b), c) == Load(w, b, c, |w|)
  {
    var placement := PlacementOf(b);
    forall k | 0 <= k < |tests| ensures tests[k].nodeid in placement && placement[tests[k].nodeid] == b[k] {
      PlacementAt(b, k);
    }
    LoadsAgree(tests, placement, w, b, c);
  }

  lemma LoadsAgree(tests: seq<Test>, placement: map<string, nat>, w: seq<real>, b: seq<nat>, c: nat)
    requires |tests| == |w| == |b| && AllPlaced(tests, placement)
    requires forall k :: 0 <= k < |tests| ==> tests[k].weight == w[k] && placement[tests[k].nodeid] == b[k]
    ensures PlacedOn(tests, placement, c) == Load(w, b, c, |w|)
  {
    assert Weights(tests) == w && Rival(tests, placement) == b;
    RivalLoads(tests, placement, c);
  }

  /** The ratio 4/3 - 1/(3m) is attained: for every number of shards there are durations for which 4m - 1 is reported
      while a placement needs only 3m. */
  lemma RatioIsReported(m: nat) returns (durations: map<string, real>, placement: map<string, nat>)
    requires 0 < m
    ensures NonNegativeDurations(durations) && IsPlacement(placement, durations, m)
    ensures Balance(durations, m).value.maxWeight == (4 * m - 1) as real
    ensures Heaviest(durations, placement, m) == (3 * m) as real
  {
    var w, b := Tightness.Tight(m), Tightness.Rival(m);
    durations, placement := DurationsOf(w), PlacementOf(b);
    var c := Tightness.RatioIsAttained(m);
    DurationsNonNegative(w);
    ReportedAtLeast(w, m, c);
    RivalAtMost(w, b, m, (3 * m) as real);
    BoundIsMet(durations, m, Balance(durations, m).value, placement);
  }

  lemma BoundIsMet(durations: map<string, real>, m: nat, r: Metrics, placement: map<string, nat>)
    requires 0 < m && NonNegativeDurations(durations) && IsPlacement(placement, durations, m)
    requires Balance(durations, m) == Ok(r)
    requires r.maxWeight >= (4 * m - 1) as real && Heaviest(durations, placement, m) <= (3 * m) as real
    ensures r.maxWeight == (4 * m - 1) as real && Heaviest(durations, placement, m) == (3 * m) as real
  {
    BalanceApproximation(durations, m, r, placement);
    MetBound(m, r.maxWeight, Heaviest(durations, placement, m));
  }

  lemma MetBound(m: nat, x: real, bound: real)
    requires 0 < m && (4 * m - 1) as real <= x && bound <= (3 * m) as real && WithinLptRatio(m, x, bound)
    ensures x == (4 * m - 1) as real && bound == (3 * m) as real
  {
    var p, q := 3.0 * m as real, 4.0 * m as real - 1.0;
    assert (3 * m) as real == p && (4 * m - 1) as real == q;
    BothAreEqual(p, q, x, bound);
  }

  lemma DurationsNonNegative(w: seq<real>)
    requires NonNegative(w)
    ensures NonNegativeDurations(DurationsOf(w))
  {
  }

  lemma ReportedAtLeast(w: seq<real>, m: nat, c: nat)
    requires c < m && Descending(w)
    ensures Load(w, Greedy(w, m, |w|), c, |w|) <= Balance(DurationsOf(w), m).value.maxWeight
  {
    PlacedAsListed(w);
    LoadIsReported(DurationsOf(w), w, m, c);
  }

  lemma LoadIsReported(durations: map<string, real>, w: seq<real>, m: nat, c: nat)
    requires c < m && Weights(PlacingOrder(durations)) == w
    ensures Load(w, Greedy(w, m, |w|), c, |w|) <= Balance(durations, m).value.maxWeight
  {
    assert ShardWeights(durations, m)[c] == Load(w, Greedy(w, m, |w|), c, |w|);
  }

  lemma RivalAtMost(w: seq<real>, b: seq<nat>, m: nat, bound: real)
    requires 0 < m && Descending(w) && Assigns(b, |w|, m) && AtMost(w, b, m, |w|, bound)
    ensures IsPlacement(PlacementOf(b), DurationsOf(w), m)
    ensures Heaviest(DurationsOf(w), PlacementOf(b), m) <= bound
  {
    PlacementIsPlacement(w, b, m);
    forall c | 0 <= c < m ensures PlacedOn(Listing(DurationsOf(w)), PlacementOf(b), c) <= bound {
      ListingIs(w);
      PlacementLoad(Listing(DurationsOf(w)), w, b, c);
    }
  }

  lemma BothAreEqual(p: real, q: real, x: real, bound: real)
    requires 0.0 < p && 0.0 < q && q <= x && bound <= p && p * x <= q * bound
    ensures x == q && bound == p
  {
    if q < x {
      Scaled(p, q, x);
      AtMostScaled(q, bound, p);
    } else if bound < p {
      Scaled(q, bound, p);
    }
  }

  lemma Scaled(c: real, a: real, b: real)
    requires 0.0 < c && a < b
    ensures c * a < c * b
  {
  }

  lemma AtMostScaled(c: real, a: real, b: real)
    requires 0.0 < c && a <= b
    ensures c * a <= c * b
  {
  }
}
