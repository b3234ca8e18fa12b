/** The per-session metrics: counters, the latency reservoir and its percentiles. */
module SessionMetricsModel {
  import R = Reservoir

  /** The reservoir holds at most this many latencies. */
  const CAPACITY: nat := 10000

  /** The fields of the metrics of one session. */
  datatype Metrics = Metrics(latencies: seq<int>, totalOrders: int, violations: int)

  const NO_METRICS := Metrics([], 0, 0)

  /** The effect of one recorded event; `draw` is the number the random source returned. */
  function Recorded(m: Metrics, latency: int, violation: bool, draw: nat): Metrics {
    Metrics(
      Sampled(m.latencies, latency, draw),
      m.totalOrders + 1,
      if violation then m.violations + 1 else m.violations)
  }

  // ---- the stream behind the reservoir ---------------------------------------------------

  ghost function Positives(stream: seq<int>): seq<int> {
    if stream == [] then []
    else Positives(stream[..|stream| - 1]) + if stream[|stream| - 1] > 0 then [stream[|stream| - 1]] else []
  }

  /** `totalOrders` at each positive latency: the bound of its draw. */
  ghost function Totals(stream: seq<int>): (totals: seq<nat>)
    ensures |totals| == |Positives(stream)|
  {
    if stream == [] then []
    else Totals(stream[..|stream| - 1]) + if stream[|stream| - 1] > 0 then [|stream|] else []
  }

  lemma StreamSnoc(stream: seq<int>, latency: int)
    ensures Positives(stream + [latency]) == if latency > 0 then Positives(stream) + [latency] else Positives(stream)
    ensures Totals(stream + [latency]) == if latency > 0 then Totals(stream) + [|stream| + 1] else Totals(stream)
  {
    assert (stream + [latency])[..|stream|] == stream;
  }

  lemma {:induction false} TotalsGrow(stream: seq<int>)
    ensures R.IsTotals(Totals(stream)) && |Totals(stream)| <= |stream|
    ensures forall i :: 0 <= i < |Totals(stream)| ==> Totals(stream)[i] <= |stream|
  {
    if stream != [] { TotalsGrow(stream[..|stream| - 1]); }
  }

  /** No latency that is not positive arrives before a positive one. */
  ghost predicate PositivesFirst(stream: seq<int>) {
    forall i, j :: 0 <= i < j < |stream| && stream[j] > 0 ==> stream[i] > 0
  }

  lemma {:induction false} AllPositiveCount(stream: seq<int>)
    ensures |Positives(stream)| == |stream| <==> forall i :: 0 <= i < |stream| ==> stream[i] > 0
    ensures |Positives(stream)| <= |stream|
  {
    if stream != [] { AllPositiveCount(stream[..|stream| - 1]); }
  }

  lemma {:induction false} LastTotal(stream: seq<int>)
    requires Positives(stream) != []
    ensures R.LastDrawBelowCount(Totals(stream)) <==> PositivesFirst(stream)
  {
    var n, init := |stream| - 1, stream[..|stream| - 1];
    if stream[n] > 0 {
      AllPositiveCount(stream);
      if PositivesFirst(stream) {
        assert forall i :: 0 <= i < n ==> stream[i] > 0;
      }
    } else {
      LastTotal(init);
      assert PositivesFirst(init) <==> PositivesFirst(stream) by {
        if PositivesFirst(stream) {
          forall i, j | 0 <= i < j < |init| && init[j] > 0 ensures init[i] > 0 { assert stream[j] > 0; }
        }
        if PositivesFirst(init) {
          forall i, j | 0 <= i < j < |stream| && stream[j] > 0 ensures stream[i] > 0 {
            assert init[j] > 0 && init[i] == stream[i];
          }
        }
      }
    }
  }

  /** When the overflowed reservoir is a uniform sample of the positive latencies: exactly when no
      latency that is not positive was counted before the last positive one. */
  lemma StreamUniformIff(k: nat, stream: seq<int>)
    requires 0 < k < |Positives(stream)|
    ensures R.Uniform(k, Totals(stream)) <==> PositivesFirst(stream)
  {
    TotalsGrow(stream);
    R.UniformIff(k, Totals(stream));
    LastTotal(stream);
  }

  // ---- order statistics ------------------------------------------------------------------

  function AtMost(s: seq<int>, x: int): nat {
    if s == [] then 0 else AtMost(s[1..], x) + if s[0] <= x then 1 else 0
  }

  function LessThan(s: seq<int>, x: int): nat {
    if s == [] then 0 else LessThan(s[1..], x) + if s[0] < x then 1 else 0
  }

  /** r is the element of s with k elements before it in sorted order. */
  ghost predicate IsOrderStatistic(s: seq<int>, k: nat, r: int) {
    r in s && AtMost(s, r) >= k + 1 && LessThan(s, r) <= k
  }

  ghost predicate Sorted(s: seq<int>) {
    forall i, j :: 0 <= i < j < |s| ==> s[i] <= s[j]
  }

  function InsertSorted(s: seq<int>, x: int): (r: seq<int>)
    ensures |r| == |s| + 1
    ensures forall y :: y in r <==> y == x || y in s
  {
    if s == [] || x <= s[0] then [x] + s else [s[0]] + InsertSorted(s[1..], x)
  }

  lemma {:induction false} InsertKeepsSorted(s: seq<int>, x: int)
    requires Sorted(s)
    ensures Sorted(InsertSorted(s, x))
  {
    if s != [] && s[0] < x {
      var rest := InsertSorted(s[1..], x);
      InsertKeepsSorted(s[1..], x);
      forall j | 0 <= j < |rest| ensures s[0] <= rest[j] { assert rest[j] in rest; }
    }
  }

  /** The library sort of the copied latencies. */
  function SortInts(s: seq<int>): (r: seq<int>)
    ensures |r| == |s| && Sorted(r)
    ensures forall y :: y in r <==> y in s
  {
    if s == [] then [] else
      InsertKeepsSorted(SortInts(s[1..]), s[0]);
      InsertSorted(SortInts(s[1..]), s[0])
  }

  lemma {:induction false} InsertCounts(s: seq<int>, x: int, y: int)
    ensures AtMost(InsertSorted(s, x), y) == AtMost(s, y) + (if x <= y then 1 else 0)
    ensures LessThan(InsertSorted(s, x), y) == LessThan(s, y) + (if x < y then 1 else 0)
  {
    if s == [] || x <= s[0] {
      assert InsertSorted(s, x)[1..] == s;
    } else {
      InsertCounts(s[1..], x, y);
      assert InsertSorted(s, x)[1..] == InsertSorted(s[1..], x);
    }
  }

  /** Sorting changes no count, so it permutes the latencies. */
  lemma {:induction false} SortCounts(s: seq<int>, y: int)
    ensures AtMost(SortInts(s), y) == AtMost(s, y) && LessThan(SortInts(s), y) == LessThan(s, y)
  {
    if s != [] {
      SortCounts(s[1..], y);
      InsertCounts(SortInts(s[1..]), s[0], y);
    }
  }

  lemma {:induction false} SortedCounts(s: seq<int>, k: nat)
    requires Sorted(s) && k < |s|
    ensures AtMost(s, s[k]) >= k + 1 && LessThan(s, s[k]) <= k
  {
    if k > 0 {
      SortedCounts(s[1..], k - 1);
    } else {
      NoneLess(s, s[0]);
    }
  }

  lemma {:induction false} NoneLess(s: seq<int>, x: int)
    requires forall i :: 0 <= i < |s| ==> x <= s[i]
    ensures LessThan(s, x) == 0
  {
    if s != [] { NoneLess(s[1..], x); }
  }

  lemma {:induction false} CountsMonotone(s: seq<int>, x: int, y: int)
    requires x < y
    ensures AtMost(s, x) <= LessThan(s, y)
  {
    if s != [] { CountsMonotone(s[1..], x, y); }
  }

  /** Order statistics are unique and monotone in their rank. */
  lemma OrderStatisticsMonotone(s: seq<int>, k: nat, r: int, k': nat, r': int)
    requires IsOrderStatistic(s, k, r) && IsOrderStatistic(s, k', r') && k <= k'
    ensures r <= r'
    ensures k == k' ==> r == r'
  {
    if r' < r { CountsMonotone(s, r', r); }
    if r < r' { CountsMonotone(s, r, r'); }
  }

  /** The zero-based rank int(float64(n-1) * p) reads. */
  function Rank(n: nat, p: real): (k: nat)
    requires n > 0 && 0.0 <= p <= 1.0
    ensures k < n && k as real <= (n - 1) as real * p < k as real + 1.0
  {
    ProductBounds((n - 1) as real, p);
    FloorMonotone(0.0, (n - 1) as real * p);
    FloorMonotone((n - 1) as real * p, (n - 1) as real);
    ((n - 1) as real * p).Floor
  }

  lemma ProductBounds(a: real, p: real)
    requires 0.0 <= a && 0.0 <= p <= 1.0
    ensures 0.0 <= a * p <= a
  {
  }

  lemma ProductMonotone(a: real, p: real, q: real)
    requires 0.0 <= a && p <= q
    ensures a * p <= a * q
  {
  }

  lemma RankMonotone(n: nat, p: real, q: real)
    requires n > 0 && 0.0 <= p <= q <= 1.0
    ensures Rank(n, p) <= Rank(n, q)
  {
    ProductMonotone((n - 1) as real, p, q);
    FloorMonotone((n - 1) as real * p, (n - 1) as real * q);
  }

  lemma FloorMonotone(x: real, y: real)
    requires x <= y
    ensures x.Floor <= y.Floor
  {
  }

  function PercentileOf(latencies: seq<int>, p: real): int
    requires 0.0 <= p <= 1.0
  {
    if latencies == [] then 0 else SortInts(latencies)[Rank(|latencies|, p)]
  }

  /** The percentile is a recorded latency with the right counts on both sides. */
  lemma PercentileIsOrderStatistic(latencies: seq<int>, p: real)
    requires 0.0 <= p <= 1.0 && latencies != []
    ensures IsOrderStatistic(latencies, Rank(|latencies|, p), PercentileOf(latencies, p))
  {
    SortedCounts(SortInts(latencies), Rank(|latencies|, p));
    SortCounts(latencies, PercentileOf(latencies, p));
  }

  /** The same in terms of the number of latencies and the fraction alone. */
  lemma PercentileCounts(latencies: seq<int>, p: real)
    requires 0.0 <= p <= 1.0 && latencies != []
    ensures PercentileOf(latencies, p) in latencies
    ensures AtMost(latencies, PercentileOf(latencies, p)) >= ((|latencies| - 1) as real * p).Floor + 1
    ensures LessThan(latencies, PercentileOf(latencies, p)) <= ((|latencies| - 1) as real * p).Floor
  {
    hide PercentileOf, AtMost, LessThan;
    PercentileIsOrderStatistic(latencies, p);
    FloorIs((|latencies| - 1) as real * p, Rank(|latencies|, p));
  }

  lemma FloorIs(x: real, k: int)
    requires k as real <= x < k as real + 1.0
    ensures x.Floor == k
  {
  }

  /** On one snapshot, percentiles are monotone. */
  lemma PercentileMonotone(latencies: seq<int>, p: real, q: real)
    requires 0.0 <= p <= q <= 1.0
    ensures PercentileOf(latencies, p) <= PercentileOf(latencies, q)
  {
    if latencies != [] {
      RankMonotone(|latencies|, p, q);
      PercentileIsOrderStatistic(latencies, p);
      PercentileIsOrderStatistic(latencies, q);
      OrderStatisticsMonotone(latencies, Rank(|latencies|, p), PercentileOf(latencies, p),
                              Rank(|latencies|, q), PercentileOf(latencies, q));
    }
  }

  // ---- order statistics before and after one more latency --------------------------------

  ghost predicate AllPositiveKept(latencies: seq<int>) {
    |latencies| <= CAPACITY && forall i :: 0 <= i < |latencies| ==> latencies[i] > 0
  }

  lemma SampledStaysPositive(latencies: seq<int>, x: int, draw: nat)
    requires AllPositiveKept(latencies)
    ensures AllPositiveKept(Sampled(latencies, x, draw))
  {
  }

  lemma {:induction false} AtMostAppend(s: seq<int>, x: int, y: int)
    ensures AtMost(s + [x], y) == AtMost(s, y) + if x <= y then 1 else 0
  {
    if s == [] {
      assert [x][1..] == [] && s + [x] == [x];
    } else {
      AtMostAppend(s[1..], x, y);
      assert (s + [x])[1..] == s[1..] + [x];
    }
  }

  lemma {:induction false} AtMostReplace(s: seq<int>, d: nat, x: int, y: int)
    requires d < |s|
    ensures AtMost(s[d := x], y) <= AtMost(s, y) + 1
  {
    if d == 0 {
      assert s[0 := x][1..] == s[1..];
    } else {
      AtMostReplace(s[1..], d - 1, x, y);
      assert s[d := x][1..] == s[1..][d - 1 := x];
    }
  }

  /** One sample raises the number of latencies up to any value by at most one. */
  lemma SampledAddsOne(s: seq<int>, x: int, draw: nat, y: int)
    ensures AtMost(Sampled(s, x, draw), y) <= AtMost(s, y) + 1
  {
    AtMostAppend(s, x, y);
    if draw < |s| { AtMostReplace(s, draw, x, y); }
  }

  /** If the rank goes up by more than a sample can push, the order statistic does not go down. */
  lemma HigherRankNotLower(s: seq<int>, x: int, draw: nat, k: nat, r: int, k': nat, r': int)
    requires IsOrderStatistic(s, k, r) && IsOrderStatistic(Sampled(s, x, draw), k', r') && k < k'
    ensures r <= r'
  {
    if r' < r {
      SampledAddsOne(s, x, draw, r');
      CountsMonotone(s, r', r);
    }
  }

  // ---- the metrics object ----------------------------------------------------------------

  /** The kept latencies are the values of the kept records. */
  ghost predicate Shows(latencies: seq<int>, values: seq<int>, slots: seq<nat>) {
    |latencies| == |slots| && forall i :: 0 <= i < |slots| ==> slots[i] < |values| && latencies[i] == values[slots[i]]
  }

  /** The draws are ones the random source can produce for the stream, and the latencies follow the sampler. */
  ghost predicate Tracks(stream: seq<int>, draws: seq<nat>, latencies: seq<int>) {
    var values := Positives(stream);
    && |draws| == R.DrawCount(CAPACITY, |values|)
    && draws in R.Space(CAPACITY, Totals(stream), |values|)
    && Shows(latencies, values, R.Final(CAPACITY, |values|, draws))
  }

  /** The latencies after one more; only a full reservoir uses the draw. */
  function Sampled(latencies: seq<int>, latency: int, draw: nat): seq<int> {
    if latency <= 0 then latencies
    else if |latencies| < CAPACITY then latencies + [latency]
    else if draw < |latencies| then latencies[draw := latency]
    else latencies
  }

  ghost function DrawsAfter(stream: seq<int>, draws: seq<nat>, latency: int, draw: nat): seq<nat> {
    if latency > 0 && |Positives(stream)| >= CAPACITY then draws + [draw] else draws
  }

  lemma ShowsAfterOffer(latencies: seq<int>, values: seq<int>, slots: seq<nat>, latency: int, draw: nat)
    requires Shows(latencies, values, slots) && latency > 0
    ensures Shows(Sampled(latencies, latency, draw), values + [latency], R.Offer(CAPACITY, slots, |values|, draw))
  {
  }

  class SessionMetrics {
    var latencies: seq<int>
    var totalOrders: int
    var violations: int
    ghost var stream: seq<int>  // every latency recorded, in order
    ghost var draws: seq<nat>   // the draws the full reservoir has used

    ghost predicate Valid()
      reads this
    {
      && totalOrders == |stream| && 0 <= violations <= totalOrders
      && Tracks(stream, draws, latencies)
    }

    ghost function View(): Metrics
      reads this
    {
      Metrics(latencies, totalOrders, violations)
    }

    constructor ()
      ensures Valid() && View() == NO_METRICS && stream == []
    {
      latencies, totalOrders, violations, stream, draws := [], 0, 0, [], [];
    }

    /** `draw` stands for rand.Int63n(totalOrders), taken after totalOrders is incremented. */
    method Record(latency: int, violation: bool, draw: nat)
      requires Valid() && draw < totalOrders + 1
      modifies this
      ensures Valid() && stream == old(stream) + [latency]
      ensures View() == Recorded(old(View()), latency, violation, draw)
      ensures totalOrders == old(totalOrders) + 1 && violations == old(violations) + if violation then 1 else 0
      ensures latency <= 0 ==> latencies == old(latencies)
      ensures latency > 0 && |old(latencies)| < 10000 ==> latencies == old(latencies) + [latency]
      ensures latency > 0 && |old(latencies)| >= 10000 ==>
                |latencies| == 10000 && latencies == if draw < 10000 then old(latencies)[draw := latency] else old(latencies)
      ensures draws == DrawsAfter(old(stream), old(draws), latency, draw)
    {
      hide Tracks;
      RecordStep(stream, draws, latencies, latency, draw);
      KeptSize(stream, draws, latencies);
      totalOrders := totalOrders + 1;
      if violation {
        violations := violations + 1;
      }
      if latency > 0 {
        if |latencies| < CAPACITY {
          latencies := latencies + [latency];
        } else {
          draws := draws + [draw];
          if draw < CAPACITY {
            latencies := latencies[draw := latency];
          }
        }
      }
      stream := stream + [latency];
    }

    method Percentile(p: real) returns (r: int)
      requires Valid() && 0.0 <= p <= 1.0
      ensures latencies == [] ==> r == 0
      ensures latencies != [] ==> r in Positives(stream) && r > 0
      ensures latencies != [] ==>
                && AtMost(latencies, r) >= ((|latencies| - 1) as real * p).Floor + 1
                && LessThan(latencies, r) <= ((|latencies| - 1) as real * p).Floor
      ensures r == PercentileOf(latencies, p)
    {
      hide Tracks, AtMost, LessThan, SortInts;
      if |latencies| == 0 {
        return 0;
      }
      var sorted := SortInts(latencies);
      var idx := Rank(|sorted|, p);
      PercentileCounts(latencies, p);
      KeptArePositive(stream, draws, latencies);
      return sorted[idx];
    }
  }

  lemma {:induction false} PositivesArePositive(stream: seq<int>)
    ensures forall i :: 0 <= i < |Positives(stream)| ==> Positives(stream)[i] > 0
  {
    if stream != [] { PositivesArePositive(stream[..|stream| - 1]); }
  }

  /** Whatever is kept is one of the positive latencies recorded. */
  lemma KeptArePositive(stream: seq<int>, draws: seq<nat>, latencies: seq<int>)
    requires Tracks(stream, draws, latencies)
    ensures forall x :: x in latencies ==> x in Positives(stream) && x > 0
  {
    PositivesArePositive(stream);
  }

  lemma KeptSize(stream: seq<int>, draws: seq<nat>, latencies: seq<int>)
    requires Tracks(stream, draws, latencies)
    ensures |latencies| == if |Positives(stream)| <= CAPACITY then |Positives(stream)| else CAPACITY
  {
  }

  /** One more latency: the draw it may have used is legal, and the kept latencies follow the sampler. */
  lemma RecordStep(stream: seq<int>, draws: seq<nat>, latencies: seq<int>, latency: int, draw: nat)
    requires Tracks(stream, draws, latencies) && draw < |stream| + 1
    ensures Tracks(stream + [latency], DrawsAfter(stream, draws, latency, draw), Sampled(latencies, latency, draw))
  {
    StreamSnoc(stream, latency);
    if latency <= 0 {
      assert DrawsAfter(stream, draws, latency, draw) == draws;
    } else {
      if |Positives(stream)| < CAPACITY {
        RecordWithRoom(stream, draws, latencies, latency, draw);
      } else {
        RecordFull(stream, draws, latencies, latency, draw);
      }
    }
  }

  lemma RecordWithRoom(stream: seq<int>, draws: seq<nat>, latencies: seq<int>, latency: int, draw: nat)
    requires Tracks(stream, draws, latencies) && latency > 0 && |Positives(stream)| < CAPACITY
    ensures Tracks(stream + [latency], draws, Sampled(latencies, latency, draw))
  {
    var n := |Positives(stream)|;
    StreamSnoc(stream, latency);
    R.ShortSpace(CAPACITY, Totals(stream + [latency]), n + 1);
    assert draws == [];
    ShowsAfterOffer(latencies, Positives(stream), R.Final(CAPACITY, n, draws), latency, 0);
    assert R.Final(CAPACITY, n + 1, draws) == R.Offer(CAPACITY, R.Final(CAPACITY, n, []), n, 0);
  }

  lemma RecordFull(stream: seq<int>, draws: seq<nat>, latencies: seq<int>, latency: int, draw: nat)
    requires Tracks(stream, draws, latencies) && latency > 0 && |Positives(stream)| >= CAPACITY
    requires draw < |stream| + 1
    ensures Tracks(stream + [latency], draws + [draw], Sampled(latencies, latency, draw))
  {
    var n, bound := |Positives(stream)|, |stream| + 1;
    StreamSnoc(stream, latency);
    R.FinalSnoc(CAPACITY, n, draws, draw);
    ShowsAfterOffer(latencies, Positives(stream), R.Final(CAPACITY, n, draws), latency, draw);
    assert draws + [draw] in R.Space(CAPACITY, Totals(stream) + [bound], n + 1) by {
      R.SpacePrefix(CAPACITY, Totals(stream), n, [bound]);
      R.ExtendMember(R.Space(CAPACITY, Totals(stream), n), R.AnyBelow(bound), draws, draw);
    }
  }

  /** Until the reservoir first overflows, it holds every positive latency, in order. */
  lemma ExactUntilFull(m: SessionMetrics)
    requires m.Valid() && |Positives(m.stream)| <= CAPACITY
    ensures m.latencies == Positives(m.stream)
  {
    R.FinalDistinct(CAPACITY, |Positives(m.stream)|, m.draws);
  }
}
