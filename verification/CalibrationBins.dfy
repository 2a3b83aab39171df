/** Bin edges and bin assignment of the calibration table
    (src/flight_delay/modeling/calibration.py), over exact reals.

    Equal-width edges divide the unit interval; equal-frequency edges are the interpolated quantiles
    of the scores with repetitions collapsed. A score is assigned by counting edges from the right,
    and the last bin is closed. Every score falls into the one bin whose interval holds it, and bins
    follow the order of the scores. */
module CalibrationBins {
  import opened Arithmetic
  import opened Observations
  import opened Ordering
  import opened RealQuotients

  datatype Strategy = EqualWidth | EqualFrequency

  /** Scores are probabilities. */
  ghost predicate Probabilities(obs: seq<Observation>) {
    forall i | 0 <= i < |obs| :: 0.0 <= obs[i].score <= 1.0
  }

  ghost predicate Increasing(edges: seq<real>) {
    forall i, j | 0 <= i < j < |edges| :: edges[i] < edges[j]
  }

  /** `searchsorted(edges, x, side="right")`: how many leading edges are not above `x`. */
  function SearchSortedRight(edges: seq<real>, x: real): nat {
    if edges == [] || edges[0] > x then 0 else 1 + SearchSortedRight(edges[1..], x)
  }

  lemma {:induction false} SearchSortedPosition(edges: seq<real>, x: real)
    ensures SearchSortedRight(edges, x) <= |edges|
    ensures forall i | 0 <= i < SearchSortedRight(edges, x) :: edges[i] <= x
    ensures SearchSortedRight(edges, x) < |edges| ==> edges[SearchSortedRight(edges, x)] > x
  {
    if edges == [] || edges[0] > x {
    } else {
      SearchSortedPosition(edges[1..], x);
      var k := SearchSortedRight(edges[1..], x);
      forall i | 0 <= i < 1 + k ensures edges[i] <= x {
        assert i > 0 ==> edges[i] == edges[1..][i - 1];
      }
    }
  }

  lemma {:induction false} SearchSortedMonotone(edges: seq<real>, x: real, y: real)
    requires x <= y
    ensures SearchSortedRight(edges, x) <= SearchSortedRight(edges, y)
  {
    if edges == [] || edges[0] > x {
    } else {
      SearchSortedMonotone(edges[1..], x, y);
    }
  }

  // ---------------------------------------------------------------- edges

  /** Evenly spaced edges from zero to one. */
  function WidthEdges(bins: nat): (edges: seq<real>)
    requires bins >= 2
    ensures |edges| == bins + 1
  {
    seq(bins + 1, i requires 0 <= i <= bins => Ratio(i, bins))
  }

  function Ascending(): (real, real) -> bool { (x: real, y: real) => x < y }

  function Scores(obs: seq<Observation>): (xs: seq<real>)
    ensures |xs| == |obs| && forall i | 0 <= i < |obs| :: xs[i] == obs[i].score
  {
    seq(|obs|, i requires 0 <= i < |obs| => obs[i].score)
  }

  function SortedScores(obs: seq<Observation>): seq<real> {
    StableSort(Scores(obs), Ascending())
  }

  /** The `k / bins` quantile of sorted scores, interpolated linearly between neighbours. */
  function Quantile(sorted: seq<real>, k: nat, bins: nat): real
    requires sorted != [] && k <= bins && bins > 0
  {
    var n := |sorted| - 1;
    var i := k * n / bins;
    var g := Ratio(k * n % bins, bins);
    QuantileIndex(k, n, bins);
    Interpolated(sorted, i, g)
  }

  function Interpolated(sorted: seq<real>, i: nat, g: real): real
    requires i < |sorted|
  {
    if i == |sorted| - 1 then sorted[i] else sorted[i] + g * (sorted[i + 1] - sorted[i])
  }

  lemma QuantileIndex(k: nat, n: nat, bins: nat)
    requires k <= bins && bins > 0
    ensures k * n / bins <= n
  {
    QuotientRemainder(k * n, bins);
    ProductMonotone(n, k, bins);
    CancelFactor(bins, k * n / bins, n + 1);
  }

  function Quantiles(sorted: seq<real>, bins: nat): (qs: seq<real>)
    requires sorted != [] && bins > 0
    ensures |qs| == bins + 1
    ensures forall k | 0 <= k <= bins :: qs[k] == Quantile(sorted, k, bins)
  {
    seq(bins + 1, k requires 0 <= k <= bins => Quantile(sorted, k, bins))
  }

  /** `np.unique`: the different values in ascending order. */
  function Unique(xs: seq<real>): seq<real> {
    if xs == [] then [] else InsertUnique(Unique(xs[..|xs| - 1]), xs[|xs| - 1])
  }

  function InsertUnique(xs: seq<real>, x: real): seq<real> {
    if xs == [] || x < xs[0] then [x] + xs
    else if x == xs[0] then xs
    else [xs[0]] + InsertUnique(xs[1..], x)
  }

  lemma PrependSmaller(xs: seq<real>, x: real)
    requires Increasing(xs) && forall y | y in xs :: x < y
    ensures Increasing([x] + xs)
  {
    forall i, j | 0 <= i < j < |[x] + xs| ensures ([x] + xs)[i] < ([x] + xs)[j] {
      assert xs[j - 1] in xs;
    }
  }

  lemma {:induction false} InsertUniqueFacts(xs: seq<real>, x: real)
    requires Increasing(xs)
    ensures Increasing(InsertUnique(xs, x))
    ensures forall y :: y in InsertUnique(xs, x) <==> y in xs || y == x
  {
    if xs == [] || x < xs[0] {
    } else if x == xs[0] {
    } else {
      var tail := xs[1..];
      assert xs == [xs[0]] + tail;
      InsertUniqueFacts(tail, x);
      var rest := InsertUnique(tail, x);
      forall y | y in rest ensures xs[0] < y {
        if y != x {
          var i :| 0 <= i < |tail| && tail[i] == y;
          assert xs[i + 1] == y;
        }
      }
      PrependSmaller(rest, xs[0]);
    }
  }

  lemma {:induction false} UniqueFacts(xs: seq<real>)
    ensures Increasing(Unique(xs))
    ensures forall y :: y in Unique(xs) <==> y in xs
  {
    if xs != [] {
      UniqueFacts(xs[..|xs| - 1]);
      InsertUniqueFacts(Unique(xs[..|xs| - 1]), xs[|xs| - 1]);
      assert xs == xs[..|xs| - 1] + [xs[|xs| - 1]];
    }
  }

  /** Empirical quantiles with duplicates collapsed; a single edge is doubled. */
  function FrequencyEdges(obs: seq<Observation>, bins: nat): seq<real>
    requires obs != [] && bins >= 2
  {
    SortIsPermutation(Scores(obs), Ascending());
    SameElements(SortedScores(obs), Scores(obs));
    var edges := Unique(Quantiles(SortedScores(obs), bins));
    if |edges| == 1 then [edges[0], edges[0]] else edges
  }

  function Edges(strategy: Strategy, obs: seq<Observation>, bins: nat): seq<real>
    requires obs != [] && bins >= 2
  {
    match strategy
    case EqualWidth => WidthEdges(bins)
    case EqualFrequency => FrequencyEdges(obs, bins)
  }

  function Interior(edges: seq<real>): seq<real> {
    if |edges| < 2 then [] else edges[1..|edges| - 1]
  }

  /** The bin of a score. */
  function BinOf(strategy: Strategy, edges: seq<real>, bins: nat, score: real): int {
    match strategy
    case EqualWidth =>
      var position := SearchSortedRight(edges, score) - 1;
      if position < bins - 1 then position else bins - 1
    case EqualFrequency => SearchSortedRight(Interior(edges), score)
  }

  // ---------------------------------------------------------------- the edges span the scores

  lemma InterpolationStaysBetween(a: real, b: real, g: real, x: real)
    requires a <= b && 0.0 <= g <= 1.0 && x == a + g * (b - a)
    ensures a <= x <= b
  {
    ProductSign(g, b - a);
    ProductSign(1.0 - g, b - a);
  }

  lemma ProperFraction(r: nat, d: nat)
    requires r <= d && d > 0
    ensures 0.0 <= Ratio(r, d) <= 1.0
  {
    QuotientAtLeast(r as real, d as real, 0.0);
    QuotientOrder(r as real, d as real, d as real);
    QuotientIs(1.0, d as real, d as real);
  }

  lemma InterpolatedIsBetween(sorted: seq<real>, i: nat, g: real)
    requires i < |sorted| && 0.0 <= g <= 1.0
    requires forall i, j | 0 <= i < j < |sorted| :: sorted[i] <= sorted[j]
    ensures sorted[0] <= Interpolated(sorted, i, g) <= sorted[|sorted| - 1]
  {
    assert i > 0 ==> sorted[0] <= sorted[i];
    assert i < |sorted| - 1 ==> sorted[i] <= sorted[|sorted| - 1];
    assert i < |sorted| - 2 ==> sorted[i + 1] <= sorted[|sorted| - 1];
    if i < |sorted| - 1 {
      var lo, hi := sorted[i], sorted[i + 1];
      InterpolationStaysBetween(lo, hi, g, Interpolated(sorted, i, g));
    }
  }

  lemma QuantileIsBetween(sorted: seq<real>, k: nat, bins: nat)
    requires sorted != [] && k <= bins && bins > 0
    requires forall i, j | 0 <= i < j < |sorted| :: sorted[i] <= sorted[j]
    ensures sorted[0] <= Quantile(sorted, k, bins) <= sorted[|sorted| - 1]
  {
    hide Interpolated, Ratio;
    var n: nat := |sorted| - 1;
    var p := k * n;
    var i, r := p / bins, p % bins;
    assert i <= n by { QuantileIndex(k, n, bins); }
    ProperFraction(r, bins);
    InterpolatedIsBetween(sorted, i, Ratio(r, bins));
  }

  lemma ExtremeQuantiles(sorted: seq<real>, bins: nat)
    requires sorted != [] && bins > 0
    ensures Quantile(sorted, 0, bins) == sorted[0]
    ensures Quantile(sorted, bins, bins) == sorted[|sorted| - 1]
  {
    var n := |sorted| - 1;
    QuotientIs(0.0, 0.0, bins as real);
    WholeQuotient(n, bins);
  }

  lemma WholeQuotient(n: nat, d: nat)
    requires d > 0
    ensures d * n / d == n
  {
    QuotientRemainder(d * n, d);
    CancelFactor(d, d * n / d, n + 1);
    CancelFactor(d, n, d * n / d + 1);
  }

  /** Every score lies between the first and the last edge. */
  ghost predicate Spans(edges: seq<real>, obs: seq<Observation>) {
    && |edges| >= 2
    && forall i | 0 <= i < |obs| :: edges[0] <= obs[i].score <= edges[|edges| - 1]
  }

  lemma WidthEdgesFacts(obs: seq<Observation>, bins: nat)
    requires Probabilities(obs) && bins >= 2
    ensures Spans(WidthEdges(bins), obs) && Increasing(WidthEdges(bins))
  {
    var edges := WidthEdges(bins);
    QuotientIs(0.0, 0.0, bins as real);
    QuotientIs(1.0, bins as real, bins as real);
    forall i, j | 0 <= i < j < |edges| ensures edges[i] < edges[j] {
      QuotientOrder(j as real, i as real, bins as real);
    }
  }

  lemma SortedScoresFacts(obs: seq<Observation>)
    requires obs != []
    ensures |SortedScores(obs)| == |obs|
    ensures forall i, j | 0 <= i < j < |obs| :: SortedScores(obs)[i] <= SortedScores(obs)[j]
    ensures forall i | 0 <= i < |obs| :: SortedScores(obs)[0] <= obs[i].score <= SortedScores(obs)[|obs| - 1]
  {
    var xs, sorted := Scores(obs), SortedScores(obs);
    SortIsPermutation(xs, Ascending());
    SameElements(sorted, xs);
    SortIsSorted(xs, Elements(xs), Ascending());
    forall i, j | 0 <= i < j < |obs| ensures sorted[i] <= sorted[j] {
      assert !Ascending()(sorted[j], sorted[i]);
    }
    forall i | 0 <= i < |obs| ensures sorted[0] <= obs[i].score <= sorted[|obs| - 1] {
      assert xs[i] in sorted;
      var p :| 0 <= p < |sorted| && sorted[p] == xs[i];
    }
  }

  lemma EndsOfUnique(xs: seq<real>, lo: real, hi: real)
    requires lo in xs && hi in xs && forall x | x in xs :: lo <= x <= hi
    ensures Unique(xs) != [] && Unique(xs)[0] == lo && Unique(xs)[|Unique(xs)| - 1] == hi
  {
    UniqueFacts(xs);
    var us := Unique(xs);
    assert lo in us && hi in us;
    var i :| 0 <= i < |us| && us[i] == lo;
    var j :| 0 <= j < |us| && us[j] == hi;
    assert us[0] in us && us[|us| - 1] in us;
  }

  lemma FrequencyEdgesFacts(obs: seq<Observation>, bins: nat)
    requires obs != [] && bins >= 2
    ensures Spans(FrequencyEdges(obs, bins), obs)
    ensures var edges := FrequencyEdges(obs, bins);
      Increasing(edges) || (|edges| == 2 && edges[0] == edges[1])
  {
    var sorted := SortedScores(obs);
    SortedScoresFacts(obs);
    var qs := Quantiles(sorted, bins);
    ExtremeQuantiles(sorted, bins);
    assert qs[0] in qs && qs[bins] in qs;
    forall q | q in qs ensures sorted[0] <= q <= sorted[|obs| - 1] {
      var k :| 0 <= k <= bins && qs[k] == q;
      QuantileIsBetween(sorted, k, bins);
    }
    EndsOfUnique(qs, sorted[0], sorted[|obs| - 1]);
    UniqueFacts(qs);
  }

  // ---------------------------------------------------------------- what the edges are

  /** Where the `k / bins` quantile lies: with `i` and `r` the quotient and the remainder of `k` times
      the last index by `bins`, it divides the way from value `i` to value `i + 1` as `r` to the rest. */
  lemma QuantileDividesNeighbours(sorted: seq<real>, k: nat, bins: nat, i: nat, r: nat)
    requires sorted != [] && k <= bins && bins > 0
    requires k * (|sorted| - 1) == bins * i + r && r < bins
    ensures i < |sorted| && (r > 0 ==> i + 1 < |sorted|)
    ensures r == 0 ==> Quantile(sorted, k, bins) == sorted[i]
    ensures r > 0 ==>
      Quantile(sorted, k, bins) * bins as real == sorted[i] * (bins - r) as real + sorted[i + 1] * r as real
  {
    hide Quantile, Interpolated, Ratio;
    QuantilePlace(k, |sorted| - 1, bins, i, r);
    QuantileAt(sorted, k, bins, i, r);
    InterpolatedDividesNeighbours(sorted, i, r, bins);
  }

  lemma QuantilePlace(k: nat, n: nat, bins: nat, i: nat, r: nat)
    requires k <= bins && bins > 0 && k * n == bins * i + r && r < bins
    ensures k * n / bins == i && k * n % bins == r && i <= n
    ensures r > 0 ==> i < n
  {
    DivisionIsUnique(k * n, bins, i, r);
    QuantileIndex(k, n, bins);
    if r > 0 {
      ProductMonotone(n, k, bins);
      CancelFactor(bins, i, n);
    }
  }

  lemma QuantileAt(sorted: seq<real>, k: nat, bins: nat, i: nat, r: nat)
    requires sorted != [] && k <= bins && bins > 0 && i < |sorted|
    requires k * (|sorted| - 1) / bins == i && k * (|sorted| - 1) % bins == r
    ensures Quantile(sorted, k, bins) == Interpolated(sorted, i, Ratio(r, bins))
  {
  }

  lemma InterpolatedDividesNeighbours(sorted: seq<real>, i: nat, r: nat, bins: nat)
    requires i < |sorted| && r < bins && (r > 0 ==> i + 1 < |sorted|)
    ensures r == 0 ==> Interpolated(sorted, i, Ratio(r, bins)) == sorted[i]
    ensures r > 0 ==>
      Interpolated(sorted, i, Ratio(r, bins)) * bins as real == sorted[i] * (bins - r) as real + sorted[i + 1] * r as real
  {
    if r == 0 {
      QuotientIs(0.0, 0.0, bins as real);
    } else {
      QuotientTimes(r as real, bins as real);
      DividedWay(sorted[i], sorted[i + 1], Ratio(r, bins), r as real, bins as real);
    }
  }

  lemma DividedWay(a: real, b: real, g: real, r: real, d: real)
    requires g * d == r
    ensures (a + g * (b - a)) * d == a * (d - r) + b * r
  {
    assert g * (b - a) * d == (g * d) * (b - a);
  }

  /** The equal-width edges divide the unit interval evenly. */
  lemma WidthEdgesAreEven(bins: nat, i: nat)
    requires bins >= 2 && i <= bins
    ensures |WidthEdges(bins)| == bins + 1 && WidthEdges(bins)[i] * bins as real == i as real
  {
    QuotientTimes(i as real, bins as real);
  }

  /** The equal-frequency edges are exactly the quantiles of the sorted scores, ascending, each once;
      only a single one is doubled. */
  lemma FrequencyEdgesAreQuantiles(obs: seq<Observation>, bins: nat)
    requires obs != [] && bins >= 2
    ensures var edges, sorted := FrequencyEdges(obs, bins), SortedScores(obs);
      && multiset(sorted) == multiset(Scores(obs)) && |sorted| == |obs|
      && (forall i, j | 0 <= i < j < |sorted| :: sorted[i] <= sorted[j])
      && (forall x :: x in edges <==> exists k | 0 <= k <= bins :: x == Quantile(sorted, k, bins))
      && (Increasing(edges) || (|edges| == 2 && edges[0] == edges[1]))
  {
    var sorted := SortedScores(obs);
    var qs := Quantiles(sorted, bins);
    SortIsPermutation(Scores(obs), Ascending());
    hide StableSort, Quantile, Unique, Spans, Increasing;
    SortedScoresFacts(obs);
    FrequencyEdgesFacts(obs, bins);
    UniqueFacts(qs);
    forall x ensures x in FrequencyEdges(obs, bins) <==> x in qs {
      assert x in FrequencyEdges(obs, bins) <==> x in Unique(qs);
    }
    hide SortedScores, FrequencyEdges;
    forall x ensures x in qs <==> exists k | 0 <= k <= bins :: x == Quantile(sorted, k, bins) {
      if k :| 0 <= k <= bins && x == Quantile(sorted, k, bins) {
        assert qs[k] == x;
      }
    }
  }

  // ---------------------------------------------------------------- bins are honest intervals

  /** `score` belongs to bin `b`: at or above its lower edge and below its upper one, the last bin
      being closed. */
  ghost predicate InInterval(edges: seq<real>, b: int, score: real) {
    && 0 <= b < |edges| - 1
    && edges[b] <= score <= edges[b + 1]
    && (b < |edges| - 2 ==> score < edges[b + 1])
  }

  lemma EdgesFacts(strategy: Strategy, obs: seq<Observation>, bins: nat)
    requires obs != [] && Probabilities(obs) && bins >= 2
    ensures var edges := Edges(strategy, obs, bins);
      && Spans(edges, obs)
      && (Increasing(edges) || (|edges| == 2 && edges[0] == edges[1]))
      && (strategy.EqualWidth? ==> |edges| == bins + 1 && Increasing(edges))
  {
    match strategy
    case EqualWidth => WidthEdgesFacts(obs, bins);
    case EqualFrequency => FrequencyEdgesFacts(obs, bins);
  }

  lemma IntervalIsUnique(edges: seq<real>, b: int, c: int, score: real)
    requires Increasing(edges) && InInterval(edges, b, score) && InInterval(edges, c, score)
    ensures b == c
  {
  }

  lemma WidthBinHoldsItsScore(edges: seq<real>, bins: nat, score: real)
    requires |edges| == bins + 1 && bins >= 2 && Increasing(edges)
    requires edges[0] <= score <= edges[bins]
    ensures InInterval(edges, BinOf(EqualWidth, edges, bins, score), score)
  {
    SearchSortedPosition(edges, score);
  }

  lemma FrequencyBinHoldsItsScore(edges: seq<real>, bins: nat, score: real)
    requires |edges| >= 2 && edges[0] <= score <= edges[|edges| - 1]
    ensures InInterval(edges, BinOf(EqualFrequency, edges, bins, score), score)
  {
    var interior := Interior(edges);
    SearchSortedPosition(interior, score);
    var b := SearchSortedRight(interior, score);
    assert b > 0 ==> edges[b] == interior[b - 1] <= score;
    assert b < |interior| ==> edges[b + 1] == interior[b] > score;
  }

  /** Every row falls into a bin whose bounds contain its score, and no other bin could hold it
      (when all scores are equal the only bin is a single point). */
  lemma EveryRowIsInItsBin(strategy: Strategy, obs: seq<Observation>, bins: nat, i: nat, b: int)
    requires obs != [] && Probabilities(obs) && bins >= 2 && i < |obs|
    ensures var edges := Edges(strategy, obs, bins);
      InInterval(edges, b, obs[i].score) <==> b == BinOf(strategy, edges, bins, obs[i].score)
  {
    var edges, score := Edges(strategy, obs, bins), obs[i].score;
    EdgesFacts(strategy, obs, bins);
    match strategy
    case EqualWidth => WidthBinHoldsItsScore(edges, bins, score);
    case EqualFrequency => FrequencyBinHoldsItsScore(edges, bins, score);
    if Increasing(edges) && InInterval(edges, b, score) {
      IntervalIsUnique(edges, b, BinOf(strategy, edges, bins, score), score);
    }
  }

  /** Bins are ordered as scores are, so rows with equal scores are never divided. */
  lemma BinsFollowScores(strategy: Strategy, edges: seq<real>, bins: nat, x: real, y: real)
    requires x <= y
    ensures BinOf(strategy, edges, bins, x) <= BinOf(strategy, edges, bins, y)
  {
    SearchSortedMonotone(edges, x, y);
    SearchSortedMonotone(Interior(edges), x, y);
  }
}
