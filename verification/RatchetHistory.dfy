/**
 The benchmark ratchet's rolling window, its median and its noise band
 (benchmarks/ratchet_history.py), over exact reals.
 */
module RatchetHistory {
  import opened Prelude

  // --------------------------------------------------------------------- sorting

  function Insert(x: real, sorted: seq<real>): (r: seq<real>)
    ensures |r| == |sorted| + 1
  {
    if sorted == [] || x <= sorted[0] then [x] + sorted else [sorted[0]] + Insert(x, sorted[1..])
  }

  function Sorted(values: seq<real>): (r: seq<real>)
    ensures |r| == |values|
  {
    if values == [] then [] else Insert(values[0], Sorted(values[1..]))
  }

  predicate IsSorted(s: seq<real>)
  {
    forall i, j :: 0 <= i < j < |s| ==> s[i] <= s[j]
  }

  /** `statistics.median`. */
  function Median(values: seq<real>): (m: real)
    requires values != []
  {
    var s := Sorted(values);
    var n := |s|;
    if n % 2 == 1 then s[n / 2] else (s[n / 2 - 1] + s[n / 2]) / 2.0
  }

  /** `median_ratio`: `None` is the `ValueError` an empty window raises. */
  function MedianRatio(values: seq<real>): (m: Option<real>)
  {
    if values == [] then None else Some(Median(values))
  }

  // ------------------------------------------------------------ counting by side

  datatype Side = AtMost(bound: real) | AtLeast(bound: real)
  {
    predicate Holds(x: real)
    {
      match this
      case AtMost(b) => x <= b
      case AtLeast(b) => x >= b
    }
  }

  /** How many values lie on a side. */
  function Tally(values: seq<real>, side: Side): (n: nat)
    ensures n <= |values|
  {
    if values == [] then 0 else (if side.Holds(values[0]) then 1 else 0) + Tally(values[1..], side)
  }

  lemma {:induction false} TallyConcat(a: seq<real>, b: seq<real>, side: Side)
    ensures Tally(a + b, side) == Tally(a, side) + Tally(b, side)
  {
    if a == [] {
      assert a + b == b;
    } else {
      TallyConcat(a[1..], b, side);
      DropWithinFront(a, b, 1);
    }
  }

  lemma {:induction false} TallyAll(values: seq<real>, side: Side)
    requires forall i :: 0 <= i < |values| ==> side.Holds(values[i])
    ensures Tally(values, side) == |values|
  {
    if values != [] {
      TallyAll(values[1..], side);
    }
  }

  lemma {:induction false} InsertKeeps(x: real, sorted: seq<real>, side: Side)
    requires IsSorted(sorted)
    ensures IsSorted(Insert(x, sorted))
    ensures Tally(Insert(x, sorted), side) == Tally([x] + sorted, side)
    ensures Insert(x, sorted)[0] == x || (sorted != [] && Insert(x, sorted)[0] == sorted[0])
  {
    assert ([x] + sorted)[1..] == sorted;
    if sorted != [] && x > sorted[0] {
      InsertKeeps(x, sorted[1..], side);
      var rest := Insert(x, sorted[1..]);
      assert Insert(x, sorted)[1..] == rest;
      assert ([x] + sorted[1..])[1..] == sorted[1..];
      assert forall i :: 0 <= i < |rest| ==> rest[0] <= rest[i];
    }
  }

  /** Sorting orders the values and moves none of them across any bound. */
  lemma {:induction false} SortedKeeps(values: seq<real>, side: Side)
    ensures IsSorted(Sorted(values))
    ensures Tally(Sorted(values), side) == Tally(values, side)
  {
    if values != [] {
      SortedKeeps(values[1..], side);
      InsertKeeps(values[0], Sorted(values[1..]), side);
      assert ([values[0]] + Sorted(values[1..]))[1..] == Sorted(values[1..]);
    }
  }

  // ----------------------------------------------------------------- the median

  lemma SortedTally(s: seq<real>, k: nat, side: Side)
    requires k <= |s|
    ensures (forall i :: 0 <= i < k ==> side.Holds(s[i])) ==> Tally(s, side) >= k
    ensures (forall i :: k <= i < |s| ==> side.Holds(s[i])) ==> Tally(s, side) >= |s| - k
  {
    TallyConcat(s[..k], s[k..], side);
    assert s == s[..k] + s[k..];
    if forall i :: 0 <= i < k ==> side.Holds(s[i]) {
      TallyAll(s[..k], side);
    }
    if forall i :: k <= i < |s| ==> side.Holds(s[i]) {
      TallyAll(s[k..], side);
    }
  }

  lemma UpToMiddle(s: seq<real>, mid: nat, m: real)
    requires IsSorted(s) && mid < |s| && s[mid] <= m
    ensures forall i :: 0 <= i < mid + 1 ==> AtMost(m).Holds(s[i])
  {
    assert forall i :: 0 <= i < mid + 1 ==> s[i] <= s[mid];
  }

  lemma LowHalf(values: seq<real>, m: real)
    requires values != [] && Sorted(values)[(|values| - 1) / 2] <= m
    ensures Tally(values, AtMost(m)) >= (|values| - 1) / 2 + 1
  {
    var s, mid := Sorted(values), (|values| - 1) / 2;
    SortedKeeps(values, AtMost(m));
    UpToMiddle(s, mid, m);
    SortedTally(s, mid + 1, AtMost(m));
  }

  lemma FromMiddleUp(s: seq<real>, mid: nat, m: real)
    requires IsSorted(s) && mid < |s| && m <= s[mid]
    ensures forall i :: mid <= i < |s| ==> AtLeast(m).Holds(s[i])
  {
    assert forall i :: mid <= i < |s| ==> s[mid] <= s[i];
  }

  lemma HighHalf(values: seq<real>, m: real)
    requires values != [] && m <= Sorted(values)[|values| / 2]
    ensures Tally(values, AtLeast(m)) >= |values| - |values| / 2
  {
    var s, mid := Sorted(values), |values| / 2;
    SortedKeeps(values, AtLeast(m));
    FromMiddleUp(s, mid, m);
    SortedTally(s, mid, AtLeast(m));
  }

  /** What a median is, without sorting: at least half the values are on either side of it. */
  lemma MedianSplits(values: seq<real>)
    requires values != []
    ensures 2 * Tally(values, AtMost(Median(values))) >= |values|
    ensures 2 * Tally(values, AtLeast(Median(values))) >= |values|
  {
    MedianBetween(values);
    LowHalf(values, Median(values));
    HighHalf(values, Median(values));
  }

  lemma MedianBetween(values: seq<real>)
    requires values != []
    ensures var s := Sorted(values); s[(|s| - 1) / 2] <= Median(values) <= s[|s| / 2]
  {
    SortedKeeps(values, AtMost(0.0));
  }

  lemma {:induction false} TallyWithin(values: seq<real>, side: Side, touched: set<nat>)
    requires forall i: nat :: i < |values| && side.Holds(values[i]) ==> i in touched
    ensures Tally(values, side) <= |touched|
    decreases |values|
  {
    if values != [] {
      var n := |values| - 1;
      var front := values[..n];
      assert values == front + [values[n]];
      TallyConcat(front, [values[n]], side);
      var rest := touched - {n};
      assert forall i: nat :: i < |front| ==> front[i] == values[i];
      TallyWithin(front, side, rest);
      if side.Holds(values[n]) {
        assert n in touched && |rest| == |touched| - 1;
      }
    }
  }

  predicate Halves(values: seq<real>, m: real)
  {
    2 * Tally(values, AtMost(m)) >= |values| && 2 * Tally(values, AtLeast(m)) >= |values|
  }

  /** The median of an odd window is the one number with at least half the samples on either side. */
  lemma OddMedianIsUnique(values: seq<real>, m: real)
    requires |values| % 2 == 1
    ensures MedianRatio(values) == Some(m) <==> Halves(values, m)
  {
    MedianSplits(values);
    if Halves(values, m) {
      HalvesAgree(values, m, Median(values));
    }
  }

  lemma HalvesAgree(values: seq<real>, a: real, b: real)
    requires |values| % 2 == 1 && Halves(values, a) && Halves(values, b)
    ensures a == b
  {
    if a < b {
      TallyApart(values, a, b);
    } else if b < a {
      TallyApart(values, b, a);
    }
  }

  /** Two disjoint sides share no value. */
  lemma {:induction false} TallyApart(values: seq<real>, low: real, high: real)
    requires low < high
    ensures Tally(values, AtMost(low)) + Tally(values, AtLeast(high)) <= |values|
  {
    if values != [] {
      TallyApart(values[1..], low, high);
    }
  }

  /**
   Robustness: whatever fewer than half of the samples are replaced by, the median stays
   between two samples that were not, so between the least and the greatest of them.
   */
  lemma MedianResistsReplacement(values: seq<real>, replaced: seq<real>, touched: set<nat>)
    requires |replaced| == |values| && 2 * |touched| < |values|
    requires forall i: nat :: i < |values| && i !in touched ==> replaced[i] == values[i]
    ensures exists i: nat, j: nat ::
              && i < |values| && j < |values| && i !in touched && j !in touched
              && values[i] <= Median(replaced) <= values[j]
  {
    var m := Median(replaced);
    MedianSplits(replaced);
    var i := Untouched(replaced, AtMost(m), touched);
    var j := Untouched(replaced, AtLeast(m), touched);
    assert values[i] <= m <= values[j];
  }

  lemma Untouched(values: seq<real>, side: Side, touched: set<nat>) returns (i: nat)
    requires Tally(values, side) > |touched|
    ensures i < |values| && i !in touched && side.Holds(values[i])
  {
    if forall k: nat :: k < |values| && side.Holds(values[k]) ==> k in touched {
      TallyWithin(values, side, touched);
    }
    i :| i < |values| && side.Holds(values[i]) && i !in touched;
  }

  /** More than half of the samples decide the median alone when they agree. */
  lemma AgreeingMajority(values: seq<real>, touched: set<nat>, v: real)
    requires values != [] && 2 * |touched| < |values|
    requires forall i: nat :: i < |values| && i !in touched ==> values[i] == v
    ensures Median(values) == v
  {
    MedianResistsReplacement(values, values, touched);
  }

  // ------------------------------------------------------------- which one it is

  /** `x` could stand at place `k` of the sorted window: enough values on either side of it. */
  predicate HasRank(values: seq<real>, x: real, k: nat)
  {
    Tally(values, AtMost(x)) >= k + 1 && Tally(values, AtLeast(x)) + k >= |values|
  }

  lemma SortedHasRank(values: seq<real>, k: nat)
    requires k < |values|
    ensures HasRank(values, Sorted(values)[k], k)
  {
    var s := Sorted(values);
    var x := s[k];
    SortedKeeps(values, AtMost(x));
    SortedKeeps(values, AtLeast(x));
    UpToMiddle(s, k, x);
    SortedTally(s, k + 1, AtMost(x));
    FromMiddleUp(s, k, x);
    SortedTally(s, k, AtLeast(x));
  }

  lemma RankOrder(values: seq<real>, x: real, y: real, k: nat)
    requires HasRank(values, x, k) && HasRank(values, y, k)
    ensures x >= y
  {
    if x < y {
      TallyApart(values, x, y);
    }
  }

  /** Sorting puts at each place the one number that can stand there. */
  lemma SortedIsByRank(values: seq<real>, k: nat, x: real)
    requires k < |values|
    ensures Sorted(values)[k] == x <==> HasRank(values, x, k)
  {
    SortedHasRank(values, k);
    if HasRank(values, x, k) {
      RankOrder(values, x, Sorted(values)[k], k);
      RankOrder(values, Sorted(values)[k], x, k);
    }
  }

  /** Halfway between the two middle places, which are one place in an odd window. */
  predicate IsMiddle(values: seq<real>, low: real, high: real, m: real)
  {
    && values != [] && 2.0 * m == low + high
    && HasRank(values, low, (|values| - 1) / 2) && HasRank(values, high, |values| / 2)
  }

  ghost predicate IsMedian(values: seq<real>, m: real)
  {
    exists low, high :: IsMiddle(values, low, high, m)
  }

  /** For every window, odd or even, the median is the one number halfway between its middle places. */
  lemma MedianIff(values: seq<real>, m: real)
    ensures MedianRatio(values) == Some(m) <==> IsMedian(values, m)
  {
    if values != [] {
      MedianIsMiddle(values);
      if IsMedian(values, m) {
        var low, high :| IsMiddle(values, low, high, m);
        MiddleIsMedian(values, low, high, m);
      }
    }
  }

  lemma MedianIsMiddle(values: seq<real>)
    requires values != []
    ensures IsMedian(values, Median(values))
  {
    var s, n := Sorted(values), |values|;
    var low, high := s[(n - 1) / 2], s[n / 2];
    SortedHasRank(values, (n - 1) / 2);
    SortedHasRank(values, n / 2);
    assert IsMiddle(values, low, high, Median(values));
  }

  lemma Middles(n: nat)
    ensures n % 2 == 1 ==> (n - 1) / 2 == n / 2
    ensures n % 2 == 0 ==> (n - 1) / 2 == n / 2 - 1
  {
  }

  lemma OddMedian(values: seq<real>, mid: int)
    requires |values| % 2 == 1 && mid == |values| / 2
    ensures Median(values) == Sorted(values)[mid]
  {
  }

  lemma EvenMedian(values: seq<real>, low: int, high: int)
    requires values != [] && |values| % 2 == 0 && high == |values| / 2 && low == high - 1
    ensures 2.0 * Median(values) == Sorted(values)[low] + Sorted(values)[high]
  {
  }

  lemma MedianAt(values: seq<real>, low: int, high: int)
    requires values != [] && low == (|values| - 1) / 2 && high == |values| / 2
    ensures 2.0 * Median(values) == Sorted(values)[low] + Sorted(values)[high]
  {
    Middles(|values|);
    if |values| % 2 == 1 {
      OddMedian(values, high);
    } else {
      EvenMedian(values, low, high);
    }
  }

  lemma PlaceOf(values: seq<real>, k: nat, x: real)
    requires k < |values| && HasRank(values, x, k)
    ensures Sorted(values)[k] == x
  {
    SortedIsByRank(values, k, x);
  }

  lemma MiddleIsMedian(values: seq<real>, low: real, high: real, m: real)
    requires IsMiddle(values, low, high, m)
    ensures Median(values) == m
  {
    MedianAt(values, (|values| - 1) / 2, |values| / 2);
    PlaceOf(values, (|values| - 1) / 2, low);
    PlaceOf(values, |values| / 2, high);
  }

  // -------------------------------------------------------------- the noise band

  const MAD_TO_SIGMA: real := 1.4826
  const MAX_NOISE_TOLERANCE: real := 1.0

  function Abs(x: real): real { if x < 0.0 then -x else x }

  function Deviations(values: seq<real>, median: real): (d: seq<real>)
    ensures |d| == |values|
    ensures forall i :: 0 <= i < |values| ==> d[i] == Abs(values[i] - median)
  {
    seq(|values|, i requires 0 <= i < |values| => Abs(values[i] - median))
  }

  /** The tolerance before its cap. */
  function RawTolerance(mad: real, median: real, sigmas: real): (tolerance: real)
    requires median > 0.0
  {
    sigmas * (MAD_TO_SIGMA * mad) / median
  }

  /** `noise_tolerance`. */
  function NoiseTolerance(values: seq<real>, sigmas: real): (tolerance: real)
  {
    if |values| < 2 then 0.0
    else
      var median := Median(values);
      if median <= 0.0 then 0.0
      else
        var tolerance := RawTolerance(Median(Deviations(values, median)), median, sigmas);
        if tolerance <= MAX_NOISE_TOLERANCE then tolerance else MAX_NOISE_TOLERANCE
  }

  /** The band is a tolerance between nothing and the cap. */
  lemma NoiseIsBounded(values: seq<real>, sigmas: real)
    requires sigmas >= 0.0
    ensures 0.0 <= NoiseTolerance(values, sigmas) <= 1.0
  {
    if |values| >= 2 && Median(values) > 0.0 {
      DeviationNonNegative(values, Median(values));
      var mad := Median(Deviations(values, Median(values)));
      ProductNonNegative(sigmas, MAD_TO_SIGMA * mad);
      QuotientNonNegative(sigmas * (MAD_TO_SIGMA * mad), Median(values));
    }
  }

  lemma DeviationNonNegative(values: seq<real>, median: real)
    requires values != []
    ensures Median(Deviations(values, median)) >= 0.0
  {
    var deviations := Deviations(values, median);
    MedianSplits(deviations);
    var i := Untouched(deviations, AtMost(Median(deviations)), {});
    assert deviations[i] >= 0.0;
  }

  lemma ProductNonNegative(a: real, b: real)
    requires a >= 0.0 && b >= 0.0
    ensures a * b >= 0.0
  {
  }

  lemma QuotientNonNegative(a: real, b: real)
    requires a >= 0.0 && b > 0.0
    ensures a / b >= 0.0
  {
  }

  /** Outliers the majority outvotes leave no band: the flat threshold then decides alone. */
  lemma OutliersAddNoNoise(values: seq<real>, touched: set<nat>, v: real, sigmas: real)
    requires 2 * |touched| < |values| && v > 0.0
    requires forall i: nat :: i < |values| && i !in touched ==> values[i] == v
    ensures NoiseTolerance(values, sigmas) == 0.0
  {
    if |values| >= 2 {
      AgreeingMajority(values, touched, v);
      AgreeingMajority(Deviations(values, v), touched, 0.0);
      assert sigmas * (MAD_TO_SIGMA * 0.0) / v == 0.0;
    }
  }

  /**
   The size of the band, for every window: with `m` the median and `d` the median distance
   from it, `sigmas` times 1.4826 times `d` over `m`, and never more than 1.
   */
  lemma NoiseIsScaledDeviation(values: seq<real>, distances: seq<real>, m: real, d: real, sigmas: real)
    requires |values| >= 2 && IsMedian(values, m) && m > 0.0
    requires |distances| == |values| && IsMedian(distances, d)
    requires forall i :: 0 <= i < |values| ==> distances[i] == if values[i] < m then m - values[i] else values[i] - m
    ensures NoiseTolerance(values, sigmas) == if sigmas * (1.4826 * d) / m <= 1.0 then sigmas * (1.4826 * d) / m else 1.0
  {
    MedianIff(values, m);
    MedianIff(distances, d);
    assert Deviations(values, m) == distances;
    CappedTolerance(values, m, d, sigmas);
  }

  lemma CappedTolerance(values: seq<real>, m: real, d: real, sigmas: real)
    requires |values| >= 2 && Median(values) == m && m > 0.0 && Median(Deviations(values, m)) == d
    ensures NoiseTolerance(values, sigmas) == if sigmas * (1.4826 * d) / m <= 1.0 then sigmas * (1.4826 * d) / m else 1.0
  {
    assert RawTolerance(d, m, sigmas) == sigmas * (1.4826 * d) / m;
  }

  lemma CopiesFromHead<T>(values: seq<T>, x: T)
    requires values != []
    ensures multiset(values)[x] == (if values[0] == x then 1 else 0) + multiset(values[1..])[x]
  {
    assert values == [values[0]] + values[1..];
  }

  lemma DeviationsFromHead(values: seq<real>, m: real)
    requires values != []
    ensures Deviations(values, m)[0] <= 0.0 <==> values[0] == m
    ensures Deviations(values, m)[1..] == Deviations(values[1..], m)
  {
  }

  lemma {:induction false} AtMedian(values: seq<real>, m: real)
    ensures Tally(Deviations(values, m), AtMost(0.0)) == multiset(values)[m]
  {
    if values != [] {
      AtMedian(values[1..], m);
      DeviationsFromHead(values, m);
      CopiesFromHead(values, m);
    }
  }

  /** Distances have median 0 exactly when more than half of them are 0. */
  lemma ZeroMedianIff(distances: seq<real>)
    requires distances != [] && forall i :: 0 <= i < |distances| ==> distances[i] >= 0.0
    ensures Median(distances) == 0.0 <==> 2 * Tally(distances, AtMost(0.0)) > |distances|
  {
    var n := |distances|;
    MedianAt(distances, (n - 1) / 2, n / 2);
    MedianBetween(distances);
    SortedStaysAbove(distances, (n - 1) / 2);
    SortedIsByRank(distances, n / 2, 0.0);
    ZeroRankIff(distances, n / 2);
  }

  lemma ZeroRankIff(distances: seq<real>, k: nat)
    requires forall i :: 0 <= i < |distances| ==> distances[i] >= 0.0
    ensures HasRank(distances, 0.0, k) <==> Tally(distances, AtMost(0.0)) > k
  {
    TallyAll(distances, AtLeast(0.0));
  }

  lemma SortedStaysAbove(distances: seq<real>, k: nat)
    requires k < |distances| && forall i :: 0 <= i < |distances| ==> distances[i] >= 0.0
    ensures Sorted(distances)[k] >= 0.0
  {
    SortedHasRank(distances, k);
    var i := Untouched(distances, AtMost(Sorted(distances)[k]), {});
    assert distances[i] >= 0.0;
  }

  lemma QuotientIsZeroIff(a: real, m: real)
    requires m > 0.0
    ensures a / m == 0.0 <==> a == 0.0
  {
    assert a == (a / m) * m;
  }

  lemma ProductIsZeroIff(sigmas: real, d: real)
    requires sigmas > 0.0
    ensures sigmas * (1.4826 * d) == 0.0 <==> d == 0.0
  {
  }

  /** A positive median leaves no band exactly when more than half of the samples are the median itself. */
  lemma NoBandIffMajorityAgrees(values: seq<real>, m: real, sigmas: real)
    requires |values| >= 2 && sigmas > 0.0 && m > 0.0 && IsMedian(values, m)
    ensures NoiseTolerance(values, sigmas) == 0.0 <==> 2 * multiset(values)[m] > |values|
  {
    MedianIff(values, m);
    AtMedian(values, m);
    ZeroMedianIff(Deviations(values, m));
    var d := Median(Deviations(values, m));
    QuotientIsZeroIff(sigmas * (1.4826 * d), m);
    ProductIsZeroIff(sigmas, d);
  }

  /**
   Every window: the flat threshold decides alone on fewer than two samples, on a median that is not
   positive, or when the majority agrees, and never otherwise.
   */
  lemma NoBandIff(values: seq<real>, sigmas: real)
    requires sigmas > 0.0
    ensures NoiseTolerance(values, sigmas) == 0.0 <==>
      |values| < 2 || exists m :: IsMedian(values, m) && (m <= 0.0 || 2 * multiset(values)[m] > |values|)
  {
    if |values| >= 2 {
      var median := Median(values);
      MedianIsMiddle(values);
      if median > 0.0 {
        NoBandIffMajorityAgrees(values, median, sigmas);
      }
      forall m | IsMedian(values, m)
        ensures m == median
      {
        MedianIff(values, m);
      }
    }
  }

  // --------------------------------------------------------------------- scaling

  function Times(c: real, x: real): real { c * x }

  function Scaled(values: seq<real>, c: real): (r: seq<real>)
    ensures |r| == |values|
  {
    seq(|values|, i requires 0 <= i < |values| => Times(c, values[i]))
  }

  lemma ScaleOrder(c: real, x: real, y: real)
    requires c > 0.0
    ensures Times(c, x) <= Times(c, y) <==> x <= y
  {
    assert c * y - c * x == c * (y - x);
    ProductSign(c, y - x);
  }

  lemma ProductSign(c: real, d: real)
    requires c > 0.0
    ensures c * d >= 0.0 <==> d >= 0.0
  {
  }

  lemma {:induction false} InsertScaled(x: real, sorted: seq<real>, c: real)
    requires c > 0.0
    ensures Insert(Times(c, x), Scaled(sorted, c)) == Scaled(Insert(x, sorted), c)
  {
    if sorted == [] {
      assert Scaled([x], c) == [Times(c, x)];
    } else {
      ScaleOrder(c, x, sorted[0]);
      assert Scaled(sorted, c)[1..] == Scaled(sorted[1..], c);
      if x > sorted[0] {
        InsertScaled(x, sorted[1..], c);
      }
    }
  }

  lemma {:induction false} SortedScaled(values: seq<real>, c: real)
    requires c > 0.0
    ensures Sorted(Scaled(values, c)) == Scaled(Sorted(values), c)
  {
    if values != [] {
      SortedScaled(values[1..], c);
      assert Scaled(values, c)[1..] == Scaled(values[1..], c);
      InsertScaled(values[0], Sorted(values[1..]), c);
    }
  }

  lemma MedianScales(values: seq<real>, c: real)
    requires values != [] && c > 0.0
    ensures Median(Scaled(values, c)) == Times(c, Median(values))
  {
    SortedScaled(values, c);
    var s, n := Sorted(values), |values|;
    if n % 2 == 0 {
      Halve(c, s[n / 2 - 1], s[n / 2]);
    }
  }

  lemma Halve(c: real, x: real, y: real)
    ensures (Times(c, x) + Times(c, y)) / 2.0 == Times(c, (x + y) / 2.0)
  {
  }

  lemma DeviationsScale(values: seq<real>, median: real, c: real)
    requires c > 0.0
    ensures Deviations(Scaled(values, c), Times(c, median)) == Scaled(Deviations(values, median), c)
  {
    forall i | 0 <= i < |values|
      ensures Abs(Times(c, values[i]) - Times(c, median)) == Times(c, Abs(values[i] - median))
    {
      ScaledDeviation(c, values[i], median);
    }
  }

  lemma ScaledDeviation(c: real, x: real, median: real)
    requires c > 0.0
    ensures Abs(Times(c, x) - Times(c, median)) == Times(c, Abs(x - median))
  {
    assert c * x - c * median == c * (x - median);
    ProductSign(c, x - median);
  }

  lemma CancelScale(c: real, a: real, b: real)
    requires c > 0.0 && b > 0.0
    ensures (c * a) / (c * b) == a / b
  {
    assert a == (a / b) * b;
    assert c * a == (a / b) * (c * b);
  }

  lemma RawToleranceScales(c: real, mad: real, median: real, sigmas: real)
    requires c > 0.0 && median > 0.0 && Times(c, median) > 0.0
    ensures RawTolerance(Times(c, mad), Times(c, median), sigmas) == RawTolerance(mad, median, sigmas)
  {
    var spread := sigmas * (MAD_TO_SIGMA * mad);
    Regroup(c, mad, sigmas);
    CancelScale(c, spread, median);
  }

  lemma Regroup(c: real, mad: real, sigmas: real)
    ensures sigmas * (MAD_TO_SIGMA * Times(c, mad)) == c * (sigmas * (MAD_TO_SIGMA * mad))
  {
    var scaled := MAD_TO_SIGMA * mad;
    assert MAD_TO_SIGMA * Times(c, mad) == c * scaled;
    assert sigmas * (c * scaled) == c * (sigmas * scaled);
  }

  /** The band does not depend on the unit the ratios are measured in. */
  lemma NoiseIgnoresScale(values: seq<real>, c: real, sigmas: real)
    requires c > 0.0
    ensures NoiseTolerance(Scaled(values, c), sigmas) == NoiseTolerance(values, sigmas)
  {
    if |values| >= 2 {
      var median := Median(values);
      MedianScales(values, c);
      ScaleOrder(c, median, 0.0);
      if median > 0.0 {
        DeviationsScale(values, median, c);
        var mad := Median(Deviations(values, median));
        MedianScales(Deviations(values, median), c);
        RawToleranceScales(c, mad, median, sigmas);
      }
    }
  }

  // ---------------------------------------------------------------------- window

  datatype HistorySample = HistorySample(
    commit: string, runId: string, profileVersion: string, workerIterations: int, ratios: map<string, real>)

  /** `appended`: the history with a sample added and pruned to the window; `None` is its `ValueError`. */
  function Appended(samples: seq<HistorySample>, sample: HistorySample, window: int): (r: Option<seq<HistorySample>>)
  {
    if window < 1 then None
    else
      var all := samples + [sample];
      Some(if |all| <= window then all else all[|all| - window..])
  }

  function AppendAll(samples: seq<HistorySample>, more: seq<HistorySample>, window: nat): (r: seq<HistorySample>)
    requires window >= 1
    decreases |more|
  {
    if more == [] then samples else AppendAll(Appended(samples, more[0], window).value, more[1..], window)
  }

  function LastOf(samples: seq<HistorySample>, n: nat): (r: seq<HistorySample>)
  {
    if |samples| <= n then samples else samples[|samples| - n..]
  }

  lemma MoveOne<T>(past: seq<T>, more: seq<T>)
    requires more != []
    ensures (past + [more[0]]) + more[1..] == past + more
  {
  }

  lemma AppendedIsLast(past: seq<HistorySample>, sample: HistorySample, window: nat)
    requires window >= 1
    ensures Appended(LastOf(past, window), sample, window).value == LastOf(past + [sample], window)
  {
  }

  /** A history is the last `window` runs ever appended, oldest first, whenever it was pruned. */
  lemma {:induction false} HistoryIsLastRuns(past: seq<HistorySample>, more: seq<HistorySample>, window: nat)
    requires window >= 1
    ensures AppendAll(LastOf(past, window), more, window) == LastOf(past + more, window)
    decreases |more|
  {
    if more == [] {
      assert past + more == past;
    } else {
      AppendedIsLast(past, more[0], window);
      HistoryIsLastRuns(past + [more[0]], more[1..], window);
      MoveOne(past, more);
    }
  }

  predicate IsCompatible(sample: HistorySample, profileVersion: string, workerIterations: int)
  {
    sample.profileVersion == profileVersion && sample.workerIterations == workerIterations
  }

  /** `compatible_with`: the samples comparable with the current protocol, in order. */
  function CompatibleWith(samples: seq<HistorySample>, profileVersion: string, workerIterations: int): (kept: seq<HistorySample>)
    ensures forall s :: s in kept <==> s in samples && IsCompatible(s, profileVersion, workerIterations)
  {
    if samples == [] then []
    else
      (if IsCompatible(samples[0], profileVersion, workerIterations) then [samples[0]] else [])
      + CompatibleWith(samples[1..], profileVersion, workerIterations)
  }

  /** What a first sample adds to a selection. */
  lemma CompatibleFront(all: seq<HistorySample>, rest: seq<HistorySample>, version: string, iterations: int)
    requires all != [] && all[1..] == rest
    ensures CompatibleWith(all, version, iterations)
         == (if IsCompatible(all[0], version, iterations) then [all[0]] else []) + CompatibleWith(rest, version, iterations)
  {
  }

  /** Selecting distributes over time: an older part and a newer part are selected apart and joined in order. */
  lemma {:induction false} CompatibleConcat(a: seq<HistorySample>, b: seq<HistorySample>, version: string, iterations: int)
    ensures CompatibleWith(a + b, version, iterations)
         == CompatibleWith(a, version, iterations) + CompatibleWith(b, version, iterations)
  {
    if a == [] {
      assert a + b == b;
    } else {
      DropWithinFront(a, b, 1);
      CompatibleConcat(a[1..], b, version, iterations);
      CompatibleFront(a + b, a[1..] + b, version, iterations);
      CompatibleFront(a, a[1..], version, iterations);
      ConcatAssociative(if IsCompatible(a[0], version, iterations) then [a[0]] else [],
        CompatibleWith(a[1..], version, iterations), CompatibleWith(b, version, iterations));
    }
  }

  /** Selecting keeps every copy of a comparable sample and no copy of another. */
  lemma {:induction false} CompatibleKeepsCopies(samples: seq<HistorySample>, version: string, iterations: int, s: HistorySample)
    ensures multiset(CompatibleWith(samples, version, iterations))[s]
         == if s.profileVersion == version && s.workerIterations == iterations then multiset(samples)[s] else 0
  {
    if samples != [] {
      CompatibleKeepsCopies(samples[1..], version, iterations, s);
      CopiesFromHead(samples, s);
    }
  }
}
