/** For every number of shards, job lists on which greedy placement is exactly as bad as its bound allows. */
module Tightness {
  import opened Schedule

  /** Two jobs of each weight from 2m - 1 down to m + 1, and three of weight m. */
  function TightWeight(m: nat, k: nat): int {
    if k < 2 * m then 2 * m - 1 - k / 2 else m
  }

  function Tight(m: nat): (w: seq<real>)
    ensures |w| == 2 * m + 1
    ensures forall k {:trigger w[k]} :: 0 <= k < |w| ==> w[k] == TightWeight(m, k) as real
  {
    seq(2 * m + 1, k requires 0 <= k < 2 * m + 1 => TightWeight(m, k) as real)
  }

  /** A better assignment: each of the heavier jobs with its partner, and the three lightest jobs together. */
  function Partner(m: nat, k: nat): nat
    requires 0 < m
  {
    if k < m - 1 then k else if k < 2 * m - 2 then 2 * m - 3 - k else m - 1
  }

  function Rival(m: nat): (b: seq<nat>)
    requires 0 < m
    ensures |b| == 2 * m + 1 && forall k {:trigger b[k]} :: 0 <= k < |b| ==> b[k] == Partner(m, k)
  {
    seq(2 * m + 1, k requires 0 <= k < 2 * m + 1 => Partner(m, k))
  }

  lemma TightIsDescending(m: nat)
    requires 0 < m
    ensures Descending(Tight(m)) && NonNegative(Tight(m))
  {
    forall i, j | 0 <= i <= j < 2 * m + 1 ensures TightWeight(m, j) <= TightWeight(m, i) && 0 <= TightWeight(m, i) {
      HalvesGrow(i, j);
    }
  }

  lemma HalvesGrow(i: nat, j: nat)
    requires i <= j
    ensures i / 2 <= j / 2
  {
  }

  /** Jobs that are symmetric about the middle of the first 2m weigh 3m - 1 together. */
  lemma SymmetricPair(m: nat, k: nat)
    requires k < 2 * m
    ensures TightWeight(m, k) + TightWeight(m, 2 * m - 1 - k) == 3 * m - 1
  {
    var j: nat := 2 * m - 1 - k;
    assert k / 2 + j / 2 == m - 1;
  }

  // ----- greedy placement

  /** When a job is placed, its shard carries no more than the weight of its mirror image among the first 2m. */
  lemma LightestBelowMirror(m: nat, j: nat) returns (c: nat)
    requires 0 < m && j < 2 * m
    ensures c < m
    ensures Load(Tight(m), Greedy(Tight(m), m, 2 * m + 1), c, j)
            <= (if j < m then 0.0 else TightWeight(m, 2 * m - 1 - j) as real)
  {
    var w, a := Tight(m), Greedy(Tight(m), m, 2 * m + 1);
    TightIsDescending(m);
    if j < m {
      c := SomeShardIsEmpty(w, a, m, j);
    } else {
      c := SomeShardIsLight(w, a, m, j + 1);
      var k: nat := 2 * m - 1 - j;
      assert w[k] == TightWeight(m, k) as real;
    }
  }

  /** Each of the first 2m jobs leaves its shard with at most 3m - 1. */
  lemma PlacedBelow(m: nat, j: nat)
    requires 0 < m && j < 2 * m
    ensures var w, a := Tight(m), Greedy(Tight(m), m, 2 * m + 1);
            Load(w, a, a[j], j) + w[j] <= (3 * m - 1) as real
  {
    var c := LightestBelowMirror(m, j);
    GreedyPlacesLightest(Tight(m), m, 2 * m + 1, j, c);
    SymmetricPair(m, j);
    assert Tight(m)[j] == TightWeight(m, j) as real;
  }

  lemma EveryLoadBelow(m: nat, c: nat)
    requires c < m
    ensures Load(Tight(m), Greedy(Tight(m), m, 2 * m + 1), c, 2 * m) <= (3 * m - 1) as real
  {
    var w, a := Tight(m), Greedy(Tight(m), m, 2 * m + 1);
    var j := LastOn(a, c, 2 * m);
    LoadByLast(w, a, c, 2 * m);
    if j >= 0 {
      PlacedBelow(m, j);
    }
  }

  /** The weight of the first `i` pairs of equal jobs. */
  function PairTotal(m: nat, i: nat): int {
    if i == 0 then 0 else PairTotal(m, i - 1) + 2 * (2 * m - i)
  }

  lemma {:induction false} TotalOfPairs(m: nat, i: nat)
    requires i <= m
    ensures Total(Tight(m), 2 * i) == PairTotal(m, i) as real
  {
    if i > 0 {
      var w, k := Tight(m), 2 * i;
      TotalOfPairs(m, i - 1);
      assert TightWeight(m, k - 1) == TightWeight(m, k - 2) == 2 * m - i;
      assert Total(w, k) == Total(w, k - 1) + w[k - 1] && Total(w, k - 1) == Total(w, k - 2) + w[k - 2];
    }
  }

  lemma {:induction false} PairTotalIs(m: nat, i: nat)
    ensures PairTotal(m, i) == 2 * i * (2 * m - 1) - i * (i - 1)
  {
    if i > 0 {
      PairTotalIs(m, i - 1);
      assert 2 * i * (2 * m - 1) - i * (i - 1)
          == 2 * (i - 1) * (2 * m - 1) - (i - 1) * (i - 2) + 2 * (2 * m - i);
    }
  }

  lemma AverageSplits(m: nat)
    ensures 2 * m * (2 * m - 1) - m * (m - 1) == m * (3 * m - 1)
    ensures (m * (3 * m - 1)) as real == m as real * (3 * m - 1) as real
  {
  }

  /** The first 2m jobs fill m shards to 3m - 1 on average. */
  lemma TotalIsAverage(m: nat)
    requires 0 < m
    ensures Total(Tight(m), 2 * m) == Times(m, (3 * m - 1) as real)
  {
    TotalOfPairs(m, m);
    PairTotalIs(m, m);
    TimesIsProduct(m, (3 * m - 1) as real);
    AverageSplits(m);
  }

  /** If no load is above `x` and one is below, their sum is below `m` times `x`. */
  lemma {:induction false} OneBelow(w: seq<real>, a: seq<nat>, m: nat, k: nat, x: real, c: nat)
    requires k <= |w| && k <= |a| && c < m && AtMost(w, a, m, k, x) && Load(w, a, c, k) < x
    ensures SumLoads(w, a, m, k) < Times(m, x)
  {
    if c < m - 1 {
      OneBelow(w, a, m - 1, k, x, c);
    } else {
      AverageAbove(w, a, m - 1, k, x);
    }
  }

  /** So after 2m jobs every shard carries 3m - 1 exactly. */
  lemma EveryLoadIsAverage(m: nat, c: nat)
    requires c < m
    ensures Load(Tight(m), Greedy(Tight(m), m, 2 * m + 1), c, 2 * m) == (3 * m - 1) as real
  {
    var w, a, x := Tight(m), Greedy(Tight(m), m, 2 * m + 1), (3 * m - 1) as real;
    forall d | 0 <= d < m ensures Load(w, a, d, 2 * m) <= x {
      EveryLoadBelow(m, d);
    }
    LoadsAddUp(w, a, m, 2 * m);
    TotalIsAverage(m);
    if Load(w, a, c, 2 * m) < x {
      OneBelow(w, a, m, 2 * m, x, c);
    }
  }

  /** And the last job makes one of them 4m - 1. */
  lemma GreedyLoad(m: nat) returns (c: nat)
    requires 0 < m
    ensures c < m && Load(Tight(m), Greedy(Tight(m), m, 2 * m + 1), c, 2 * m + 1) == (4 * m - 1) as real
  {
    var w, a := Tight(m), Greedy(Tight(m), m, 2 * m + 1);
    c := a[2 * m];
    EveryLoadIsAverage(m, c);
    assert w[2 * m] == m as real;
  }

  // ----- the rival

  /** What the rival has on shard `c` after `k` jobs. */
  function RivalLoadOf(m: nat, c: nat, k: nat): int
    requires c < m
  {
    if c == m - 1 then (if k <= 2 * m - 2 then 0 else (k - (2 * m - 2)) * m)
    else (if k > c then TightWeight(m, c) else 0) + (if k > 2 * m - 3 - c then TightWeight(m, 2 * m - 3 - c) else 0)
  }

  lemma {:induction false} RivalLoad(m: nat, c: nat, k: nat)
    requires c < m && k <= 2 * m + 1
    ensures Load(Tight(m), Rival(m), c, k) == RivalLoadOf(m, c, k) as real
  {
    if k > 0 {
      RivalLoad(m, c, k - 1);
      RivalStep(m, c, k - 1);
      assert Tight(m)[k - 1] == TightWeight(m, k - 1) as real && Rival(m)[k - 1] == Partner(m, k - 1);
    }
  }

  lemma RivalStep(m: nat, c: nat, k: nat)
    requires c < m && k < 2 * m + 1
    ensures RivalLoadOf(m, c, k + 1) == RivalLoadOf(m, c, k) + (if Partner(m, k) == c then TightWeight(m, k) else 0)
  {
    if c == m - 1 && k >= 2 * m - 2 {
      assert TightWeight(m, k) == m;
      assert (k + 1 - (2 * m - 2)) * m == (k - (2 * m - 2)) * m + m;
    }
  }

  lemma RivalIsBetter(m: nat)
    requires 0 < m
    ensures Assigns(Rival(m), 2 * m + 1, m) && AtMost(Tight(m), Rival(m), m, 2 * m + 1, (3 * m) as real)
  {
    var w, b, n := Tight(m), Rival(m), 2 * m + 1;
    forall c | 0 <= c < m ensures Load(w, b, c, n) <= (3 * m) as real {
      RivalLoad(m, c, 2 * m + 1);
      if c < m - 1 {
        var k: nat := 2 * m - 3 - c;
        assert c / 2 + k / 2 == m - 2;
      }
    }
  }

  /** The bound 4/3 - 1/(3m) is attained for every number of shards: on the tight list greedy placement gives some shard
      4m - 1, another assignment gives none more than 3m, and the bound holds with equality. */
  lemma RatioIsAttained(m: nat) returns (c: nat)
    requires 0 < m
    ensures Descending(Tight(m)) && NonNegative(Tight(m)) && Assigns(Rival(m), |Tight(m)|, m)
    ensures c < m && Load(Tight(m), Greedy(Tight(m), m, |Tight(m)|), c, |Tight(m)|) == (4 * m - 1) as real
    ensures AtMost(Tight(m), Rival(m), m, |Tight(m)|, (3 * m) as real)
    ensures 3.0 * m as real * (4 * m - 1) as real == (4.0 * m as real - 1.0) * (3 * m) as real
  {
    TightIsDescending(m);
    c := GreedyLoad(m);
    RivalIsBetter(m);
    assert (4 * m - 1) as real == 4.0 * m as real - 1.0 && (3 * m) as real == 3.0 * m as real;
    EqualProducts(3.0 * m as real, 4.0 * m as real - 1.0);
  }

  lemma EqualProducts(x: real, y: real)
    ensures x * y == y * x
  {
  }
}
