/** Loads of an assignment of weighted jobs to shards, the greedy assignment, and how far it is from the best one. */
module Schedule {

  /** Total weight of the first `k` jobs. */
  function Total(w: seq<real>, k: nat): real
    requires k <= |w|
  {
    if k == 0 then 0.0 else Total(w, k - 1) + w[k - 1]
  }

  /** Weight that the assignment `a` puts on shard `c`, counting the first `k` jobs. */
  function Load(w: seq<real>, a: seq<nat>, c: nat, k: nat): real
    requires k <= |w| && k <= |a|
  {
    if k == 0 then 0.0 else Load(w, a, c, k - 1) + (if a[k - 1] == c then w[k - 1] else 0.0)
  }

  predicate Assigns(a: seq<nat>, n: nat, m: nat) {
    |a| == n && forall j :: 0 <= j < n ==> a[j] < m
  }

  predicate Descending(w: seq<real>) {
    forall i, j :: 0 <= i <= j < |w| ==> w[j] <= w[i]
  }

  predicate NonNegative(w: seq<real>) {
    forall i :: 0 <= i < |w| ==> w[i] >= 0.0
  }

  /** No shard carries more than `bound` under `a`, counting the first `k` jobs. */
  predicate AtMost(w: seq<real>, a: seq<nat>, m: nat, k: nat, bound: real)
    requires k <= |w| && k <= |a|
  {
    forall c :: 0 <= c < m ==> Load(w, a, c, k) <= bound
  }

  /** `m * x` as a sum of `m` terms: the averages below then need linear arithmetic only. */
  function Times(m: nat, x: real): real {
    if m == 0 then 0.0 else Times(m - 1, x) + x
  }

  lemma {:induction false} TimesIsProduct(m: nat, x: real)
    ensures Times(m, x) == m as real * x
  {
    if m > 0 {
      TimesIsProduct(m - 1, x);
      var r := (m - 1) as real;
      assert m as real == r + 1.0 && (r + 1.0) * x == r * x + x;
    }
  }

  lemma {:induction false} TimesAdd(m: nat, x: real, y: real)
    ensures Times(m, x + y) == Times(m, x) + Times(m, y)
  {
    if m > 0 {
      TimesAdd(m - 1, x, y);
    }
  }

  lemma {:induction false} TimesMonotone(m: nat, x: real, y: real)
    requires x <= y
    ensures Times(m, x) <= Times(m, y)
  {
    if m > 0 {
      TimesMonotone(m - 1, x, y);
    }
  }

  // ----- conservation and averaging

  function SumLoads(w: seq<real>, a: seq<nat>, m: nat, k: nat): real
    requires k <= |w| && k <= |a|
  {
    if m == 0 then 0.0 else SumLoads(w, a, m - 1, k) + Load(w, a, m - 1, k)
  }

  lemma {:induction false} SumLoadsStep(w: seq<real>, a: seq<nat>, m: nat, k: nat)
    requires 0 < k <= |w| && k <= |a|
    ensures SumLoads(w, a, m, k) == SumLoads(w, a, m, k - 1) + (if a[k - 1] < m then w[k - 1] else 0.0)
  {
    if m > 0 {
      SumLoadsStep(w, a, m - 1, k);
    }
  }

  /** Conservation: the shard loads add up to the total weight. */
  lemma {:induction false} LoadsAddUp(w: seq<real>, a: seq<nat>, m: nat, k: nat)
    requires k <= |w| && k <= |a| && forall j :: 0 <= j < k ==> a[j] < m
    ensures SumLoads(w, a, m, k) == Total(w, k)
  {
    if k == 0 {
      NoJobsNoLoad(w, a, m);
    } else {
      LoadsAddUp(w, a, m, k - 1);
      SumLoadsStep(w, a, m, k);
    }
  }

  lemma {:induction false} NoJobsNoLoad(w: seq<real>, a: seq<nat>, m: nat)
    ensures SumLoads(w, a, m, 0) == 0.0
  {
    if m > 0 {
      NoJobsNoLoad(w, a, m - 1);
    }
  }

  lemma {:induction false} AverageAbove(w: seq<real>, a: seq<nat>, m: nat, k: nat, x: real)
    requires k <= |w| && k <= |a|
    requires forall c :: 0 <= c < m ==> Load(w, a, c, k) <= x
    ensures SumLoads(w, a, m, k) <= Times(m, x)
  {
    if m > 0 {
      AverageAbove(w, a, m - 1, k, x);
    }
  }

  lemma {:induction false} AverageBelow(w: seq<real>, a: seq<nat>, m: nat, k: nat, x: real)
    requires k <= |w| && k <= |a|
    requires forall c :: 0 <= c < m ==> x <= Load(w, a, c, k)
    ensures Times(m, x) <= SumLoads(w, a, m, k)
  {
    if m > 0 {
      AverageBelow(w, a, m - 1, k, x);
    }
  }

  // ----- the last job on a shard

  /** The last of the first `k` jobs on shard `c`, or -1. */
  function LastOn(a: seq<nat>, c: nat, k: nat): (j: int)
    requires k <= |a|
    ensures -1 <= j < k
    ensures j >= 0 ==> a[j] == c
    ensures forall i :: j < i < k ==> a[i] != c
  {
    if k == 0 then -1 else if a[k - 1] == c then k - 1 else LastOn(a, c, k - 1)
  }

  lemma {:induction false} LoadByLast(w: seq<real>, a: seq<nat>, c: nat, k: nat)
    requires k <= |w| && k <= |a|
    ensures var j := LastOn(a, c, k);
            Load(w, a, c, k) == if j < 0 then 0.0 else Load(w, a, c, j) + w[j]
  {
    if k > 0 && a[k - 1] != c {
      LoadByLast(w, a, c, k - 1);
    }
  }

  lemma {:induction false} LoadMonotone(w: seq<real>, a: seq<nat>, c: nat, i: nat, k: nat)
    requires i <= k <= |w| && k <= |a| && NonNegative(w)
    ensures 0.0 <= Load(w, a, c, i) <= Load(w, a, c, k)
    decreases k
  {
    if i < k {
      LoadMonotone(w, a, c, i, k - 1);
    } else if k > 0 {
      LoadMonotone(w, a, c, k - 1, k - 1);
    }
  }

  /** Loads depend only on the jobs counted. */
  lemma {:induction false} LoadOfPrefix(w: seq<real>, a: seq<nat>, w': seq<real>, a': seq<nat>, c: nat, k: nat)
    requires k <= |w| && k <= |a| && k <= |w'| && k <= |a'|
    requires w[..k] == w'[..k] && a[..k] == a'[..k]
    ensures Load(w, a, c, k) == Load(w', a', c, k)
  {
    if k > 0 {
      assert w[k - 1] == w[..k][k - 1] && a[k - 1] == a[..k][k - 1];
      assert w[..k - 1] == w[..k][..k - 1] && a[..k - 1] == a[..k][..k - 1];
      assert w'[..k - 1] == w'[..k][..k - 1] && a'[..k - 1] == a'[..k][..k - 1];
      LoadOfPrefix(w, a, w', a', c, k - 1);
    }
  }

  // ----- the greedy assignment

  /** First index of a least value: Python's `min(range(n), key=lambda i: s[i])`. */
  function ArgMin(s: seq<real>, n: nat): (i: nat)
    requires 0 < n <= |s|
    ensures i < n && forall c :: 0 <= c < n ==> s[i] <= s[c]
    ensures forall c :: 0 <= c < i ==> s[i] < s[c]
  {
    if n == 1 then 0
    else var i := ArgMin(s, n - 1); if s[n - 1] < s[i] then n - 1 else i
  }

  function Loads(w: seq<real>, a: seq<nat>, m: nat, k: nat): (s: seq<real>)
    requires k <= |w| && k <= |a|
    ensures |s| == m && forall c :: 0 <= c < m ==> s[c] == Load(w, a, c, k)
  {
    seq(m, c requires 0 <= c < m => Load(w, a, c, k))
  }

  /** Job after job, each onto the first of the currently lightest shards. */
  function Greedy(w: seq<real>, m: nat, k: nat): (a: seq<nat>)
    requires 0 < m && k <= |w|
    ensures Assigns(a, k, m)
  {
    if k == 0 then [] else
    var a := Greedy(w, m, k - 1);
    a + [ArgMin(Loads(w, a, m, k - 1), m)]
  }

  lemma {:induction false} GreedyPrefix(w: seq<real>, m: nat, i: nat, k: nat)
    requires 0 < m && i <= k <= |w|
    ensures Greedy(w, m, k)[..i] == Greedy(w, m, i)
  {
    if i < k {
      GreedyPrefix(w, m, i, k - 1);
      assert Greedy(w, m, k)[..i] == Greedy(w, m, k - 1)[..i];
    }
  }

  /** When a job is placed, its shard was no heavier than any other. */
  lemma GreedyPlacesLightest(w: seq<real>, m: nat, k: nat, j: nat, c: nat)
    requires 0 < m && j < k <= |w| && c < m
    ensures var a := Greedy(w, m, k);
            Load(w, a, a[j], j) <= Load(w, a, c, j)
  {
    var a := Greedy(w, m, k);
    GreedyPrefix(w, m, j, k);
    GreedyPrefix(w, m, j + 1, k);
    var b := Greedy(w, m, j);
    assert a[j] == a[..j + 1][j] == ArgMin(Loads(w, b, m, j), m);
    LoadOfPrefix(w, a, w, b, a[j], j);
    LoadOfPrefix(w, a, w, b, c, j);
  }

  /** Load gap: without its last placed job, no shard is heavier than any other shard. */
  lemma LoadGap(w: seq<real>, m: nat, k: nat, c: nat, d: nat)
    requires 0 < m && k <= |w| && c < m && d < m && NonNegative(w)
    ensures var a := Greedy(w, m, k); var j := LastOn(a, c, k);
            j >= 0 ==> Load(w, a, c, k) - w[j] <= Load(w, a, d, k)
  {
    var a := Greedy(w, m, k);
    var j := LastOn(a, c, k);
    LoadByLast(w, a, c, k);
    if j >= 0 {
      GreedyPlacesLightest(w, m, k, j, d);
      LoadMonotone(w, a, d, j, k);
    }
  }

  predicate BelowAll(w: seq<real>, a: seq<nat>, m: nat, j: nat, x: real)
    requires j <= |w| && j <= |a|
  {
    forall c :: 0 <= c < m ==> x <= Load(w, a, c, j)
  }

  lemma GreedyPlacesBelowAll(w: seq<real>, m: nat, k: nat, j: nat)
    requires 0 < m && j < k <= |w| && NonNegative(w)
    ensures BelowAll(w, Greedy(w, m, k), m, j, Load(w, Greedy(w, m, k), Greedy(w, m, k)[j], j))
  {
    forall c | 0 <= c < m ensures Load(w, Greedy(w, m, k), Greedy(w, m, k)[j], j) <= Load(w, Greedy(w, m, k), c, j) {
      GreedyPlacesLightest(w, m, k, j, c);
    }
  }

  /** Graham's list-scheduling bound for a job placed on a lightest shard: load <= total/m + (1 - 1/m) * w[j]. */
  lemma LightestAgainstTotal(w: seq<real>, a: seq<nat>, m: nat, j: nat)
    requires 0 < m && j < |w| && j < |a| && Assigns(a, |a|, m) && BelowAll(w, a, m, j, Load(w, a, a[j], j))
    ensures Times(m, Load(w, a, a[j], j) + w[j]) <= Total(w, j + 1) + Times(m - 1, w[j])
  {
    AverageBelow(w, a, m, j, Load(w, a, a[j], j));
    LoadsAddUp(w, a, m, j);
    TimesAdd(m, Load(w, a, a[j], j), w[j]);
  }

  lemma ListSchedulingBound(w: seq<real>, m: nat, k: nat, c: nat, largest: real)
    requires 0 < m && k <= |w| && c < m && NonNegative(w) && 0.0 <= largest
    requires forall j :: 0 <= j < k ==> w[j] <= largest
    ensures Times(m, Load(w, Greedy(w, m, k), c, k)) <= Total(w, k) + Times(m - 1, largest)
  {
    var a := Greedy(w, m, k);
    var j := LastOn(a, c, k);
    LoadByLast(w, a, c, k);
    TotalMonotone(w, 0, k);
    if j < 0 {
      TimesNonNegative(m, largest);
    } else {
      GreedyPlacesBelowAll(w, m, k, j);
      LightestAgainstTotal(w, a, m, j);
      TotalMonotone(w, j + 1, k);
      TimesMonotone(m - 1, w[j], largest);
    }
  }

  lemma {:induction false} TimesNonNegative(m: nat, x: real)
    requires 0.0 <= x && 0 < m
    ensures Times(m, 0.0) == 0.0 <= Times(m - 1, x)
  {
    if m > 1 {
      TimesNonNegative(m - 1, x);
    }
  }

  lemma {:induction false} TotalMonotone(w: seq<real>, i: nat, k: nat)
    requires i <= k <= |w| && NonNegative(w)
    ensures Total(w, i) <= Total(w, k)
  {
    if i < k {
      TotalMonotone(w, i, k - 1);
    }
  }

  // ----- two jobs to a shard

  /** Twice for the jobs before `h`, once for the others: the weights that count `Rival` and `Greedy` shards. */
  function Marks(n: nat, h: nat): (u: seq<real>)
    ensures |u| == n && forall j :: 0 <= j < n ==> u[j] == if j < h then 2.0 else 1.0
  {
    seq(n, j => if j < h then 2.0 else 1.0)
  }

  lemma {:induction false} TotalMarks(n: nat, h: nat, k: nat)
    requires k <= n
    ensures Total(Marks(n, h), k) == (k + if k < h then k else h) as real
  {
    if k > 0 {
      TotalMarks(n, h, k - 1);
    }
  }

  /** Where every job weighs more than a third of the bound, no shard within the bound holds three jobs;
      it holds two at most, and if the heavier comes before `h` they weigh `w[h - 1] + w[n - 1]` at least. */
  lemma RivalMarks(w: seq<real>, b: seq<nat>, c: nat, n: nat, h: nat, bound: real)
    requires 0 < n <= |w| && n <= |b| && h <= n && Descending(w) && NonNegative(w)
    requires Load(w, b, c, n) <= bound < 3.0 * w[n - 1]
    requires h > 0 ==> bound < w[h - 1] + w[n - 1]
    ensures Load(Marks(n, h), b, c, n) <= 2.0
  {
    var u := Marks(n, h);
    var j1 := LastOn(b, c, n);
    LoadByLast(w, b, c, n);
    LoadByLast(u, b, c, n);
    if j1 >= 0 {
      var j2 := LastOn(b, c, j1);
      LoadByLast(w, b, c, j1);
      LoadByLast(u, b, c, j1);
      if j2 >= 0 {
        var j3 := LastOn(b, c, j2);
        LoadByLast(w, b, c, j2);
        LoadByLast(u, b, c, j2);
        LoadMonotone(w, b, c, 0, j2);
        if j3 >= 0 {
          LoadMonotone(w, b, c, 0, j3);
          assert false;
        }
        assert j2 >= h;
      }
    }
  }

  /** If any assignment fits under a bound that every job exceeds a third of, there are at most two jobs per shard,
      and the pair (2m - n, n - 1) fits under the bound too. */
  lemma RivalPair(w: seq<real>, b: seq<nat>, m: nat, n: nat, bound: real)
    requires 0 < m < n <= |w| && Assigns(b, n, m) && Descending(w) && NonNegative(w)
    requires AtMost(w, b, m, n, bound) && bound < 3.0 * w[n - 1]
    ensures n <= 2 * m && w[2 * m - n] + w[n - 1] <= bound
  {
    var h := if n <= 2 * m && bound < w[2 * m - n] + w[n - 1] then 2 * m - n + 1 else 0;
    if 2 * m < n || h > 0 {
      var u := Marks(n, h);
      forall c | 0 <= c < m ensures Load(u, b, c, n) <= 2.0 {
        RivalMarks(w, b, c, n, h, bound);
      }
      AverageAbove(u, b, m, n, 2.0);
      TimesIsProduct(m, 2.0);
      LoadsAddUp(u, b, m, n);
      TotalMarks(n, h, n);
      assert false;
    }
  }

  /** Of any n - 1 jobs on m < n <= 2m shards, some shard holds nothing, or one job not among the first 2m - n. */
  lemma SomeShardIsLight(w: seq<real>, a: seq<nat>, m: nat, n: nat) returns (c: nat)
    requires 0 < m < n <= 2 * m && n <= |w| && |a| >= n - 1 && Descending(w) && NonNegative(w)
    requires forall j :: 0 <= j < n - 1 ==> a[j] < m
    ensures c < m && Load(w, a, c, n - 1) <= w[2 * m - n]
  {
    var h := 2 * m - n;
    var k := n - 1;
    if c' :| 0 <= c' < m && Load(w, a, c', k) <= w[h] {
      c := c';
    } else {
      var u := Marks(n, h);
      forall c | 0 <= c < m ensures 2.0 <= Load(u, a, c, k) {
        GreedyMarks(w, a, c, n, h);
      }
      AverageBelow(u, a, m, k, 2.0);
      TimesIsProduct(m, 2.0);
      LoadsAddUp(u, a, m, k);
      TotalMarks(n, h, k);
      assert false;
    }
  }

  lemma GreedyMarks(w: seq<real>, a: seq<nat>, c: nat, n: nat, h: nat)
    requires h < n <= |w| && |a| >= n - 1 && Descending(w) && NonNegative(w)
    requires w[h] < Load(w, a, c, n - 1)
    ensures 2.0 <= Load(Marks(n, h), a, c, n - 1)
  {
    var u := Marks(n, h);
    var j1 := LastOn(a, c, n - 1);
    LoadByLast(w, a, c, n - 1);
    LoadByLast(u, a, c, n - 1);
    LoadByLast(w, a, c, j1);
    LoadByLast(u, a, c, j1);
    LoadMonotone(u, a, c, 0, j1);
    var j2 := LastOn(a, c, j1);
    if j2 >= 0 {
      LoadMonotone(u, a, c, 0, j2);
    }
  }

  /** With fewer jobs than shards, some shard is empty. */
  lemma SomeShardIsEmpty(w: seq<real>, a: seq<nat>, m: nat, n: nat) returns (c: nat)
    requires n < m && n <= |w| && |a| >= n
    requires forall j :: 0 <= j < n ==> a[j] < m
    ensures c < m && Load(w, a, c, n) == 0.0
  {
    if c' :| 0 <= c' < m && LastOn(a, c', n) < 0 {
      c := c';
      LoadByLast(w, a, c, n);
    } else {
      var u := Marks(n, 0);
      forall c | 0 <= c < m ensures 1.0 <= Load(u, a, c, n) {
        LoadByLast(u, a, c, n);
        LoadMonotone(u, a, c, 0, LastOn(a, c, n));
      }
      AverageBelow(u, a, m, n, 1.0);
      TimesIsProduct(m, 1.0);
      LoadsAddUp(u, a, m, n);
      TotalMarks(n, 0, n);
      assert false;
    }
  }

  // ----- the approximation bound

  /** A job heavier than a third of some assignment's heaviest shard is placed by greedy within that bound. */
  lemma BigJobFits(w: seq<real>, b: seq<nat>, m: nat, k: nat, j: nat, bound: real)
    requires 0 < m && j < k <= |w| && Assigns(b, |w|, m) && Descending(w) && NonNegative(w)
    requires AtMost(w, b, m, j + 1, bound) && bound < 3.0 * w[j]
    ensures var a := Greedy(w, m, k); Load(w, a, a[j], j) + w[j] <= bound
  {
    var n := j + 1;
    var a := Greedy(w, m, k);
    if n <= m {
      var c := SomeShardIsEmpty(w, a, m, j);
      GreedyPlacesLightest(w, m, k, j, c);
      OwnLoadFits(w, b, m, j, bound);
    } else {
      LoadsOfTruncated(w, b, m, n, bound);
      RivalPair(w, b[..n], m, n, bound);
      var c := SomeShardIsLight(w, a, m, n);
      GreedyPlacesLightest(w, m, k, j, c);
    }
  }

  lemma OwnLoadFits(w: seq<real>, b: seq<nat>, m: nat, j: nat, bound: real)
    requires j < |w| && Assigns(b, |w|, m) && NonNegative(w) && AtMost(w, b, m, j + 1, bound)
    ensures w[j] <= bound
  {
    LoadMonotone(w, b, b[j], 0, j);
    assert Load(w, b, b[j], j + 1) <= bound;
  }

  lemma LoadsOfTruncated(w: seq<real>, b: seq<nat>, m: nat, n: nat, bound: real)
    requires n <= |w| && n <= |b| && AtMost(w, b, m, n, bound)
    ensures AtMost(w, b[..n], m, n, bound)
  {
    forall c | 0 <= c < m ensures Load(w, b[..n], c, n) <= bound {
      LoadOfPrefix(w, b[..n], w, b, c, n);
    }
  }

  /** Otherwise the job is small, and the bound follows from the average load. */
  lemma SmallJobFits(w: seq<real>, b: seq<nat>, m: nat, k: nat, j: nat, bound: real)
    requires 0 < m && j < k <= |w| && Assigns(b, |w|, m) && NonNegative(w)
    requires AtMost(w, b, m, j + 1, bound) && 3.0 * w[j] <= bound
    ensures var a := Greedy(w, m, k);
            3.0 * Times(m, Load(w, a, a[j], j) + w[j]) + bound <= 4.0 * Times(m, bound)
  {
    GreedyPlacesBelowAll(w, m, k, j);
    LightestAgainstTotal(w, Greedy(w, m, k), m, j);
    LoadsAddUp(w, b, m, j + 1);
    AverageAbove(w, b, m, j + 1, bound);
    TimesAdd(m - 1, w[j], w[j]);
    TimesAdd(m - 1, w[j] + w[j], w[j]);
    TimesMonotone(m - 1, w[j] + w[j] + w[j], bound);
  }

  /** Graham 1969: with weights in descending order, the greedy load `x` of any shard and the heaviest shard `bound`
      of any assignment whatever satisfy `3 m x + bound <= 4 m bound`, that is, `x <= (4/3 - 1/(3m)) bound`. */
  lemma LptApproximation(w: seq<real>, b: seq<nat>, m: nat, c: nat, bound: real)
    requires c < m && Assigns(b, |w|, m) && Descending(w) && NonNegative(w)
    requires AtMost(w, b, m, |w|, bound)
    ensures 3.0 * Times(m, Load(w, Greedy(w, m, |w|), c, |w|)) + bound <= 4.0 * Times(m, bound)
  {
    var k := |w|;
    var a := Greedy(w, m, k);
    var j := LastOn(a, c, k);
    LoadByLast(w, a, c, k);
    LoadMonotone(w, b, c, 0, k);
    if j < 0 {
      NoHeavierThanRival(m, 0.0, bound);
    } else {
      EarlierLoads(w, b, m, j + 1, bound);
      if bound < 3.0 * w[j] {
        BigJobFits(w, b, m, k, j, bound);
        NoHeavierThanRival(m, Load(w, a, c, k), bound);
      } else {
        SmallJobFits(w, b, m, k, j, bound);
      }
    }
  }

  lemma EarlierLoads(w: seq<real>, b: seq<nat>, m: nat, i: nat, bound: real)
    requires i <= |w| == |b| && NonNegative(w) && AtMost(w, b, m, |w|, bound)
    ensures AtMost(w, b, m, i, bound)
  {
    forall d | 0 <= d < m ensures Load(w, b, d, i) <= bound {
      LoadMonotone(w, b, d, i, |w|);
    }
  }

  lemma NoHeavierThanRival(m: nat, x: real, bound: real)
    requires 0 < m && x <= bound && 0.0 <= bound
    ensures 3.0 * Times(m, x) + bound <= 4.0 * Times(m, bound)
  {
    TimesMonotone(m, x, bound);
    TimesMonotone(m - 1, 0.0, bound);
    TimesIsProduct(m - 1, 0.0);
  }
}
