/** The calibration table with its expected and maximum calibration errors
    (src/flight_delay/modeling/calibration.py), over exact reals. */
module Calibration {
  import opened CalibrationBins
  import opened Counting
  import opened Observations
  import opened Options
  import opened RealQuotients

  // ---------------------------------------------------------------- sums over a bin

  function ScoreSum(obs: seq<Observation>): real {
    if obs == [] then 0.0 else obs[0].score + ScoreSum(obs[1..])
  }

  function TargetSum(obs: seq<Observation>): int {
    if obs == [] then 0 else obs[0].target + TargetSum(obs[1..])
  }

  /** Scores minus targets: what a bin over- or under-forecasts in total. */
  function Residual(obs: seq<Observation>): real {
    ScoreSum(obs) - TargetSum(obs) as real
  }

  /** The rows that `binOf` puts into bin `b`. */
  function Rows(obs: seq<Observation>, binOf: Observation -> int, b: int): seq<Observation> {
    Filter(obs, (o: Observation) => binOf(o) == b)
  }

  /** `abs(mean score - observed rate)` of a non-empty bin. */
  function BinError(rows: seq<Observation>): real
    requires rows != []
  {
    Abs(ScoreSum(rows) / |rows| as real - TargetSum(rows) as real / |rows| as real)
  }

  // ---------------------------------------------------------------- the two accumulators

  /** The expected calibration error: bin errors weighted by their share of the rows. */
  function Ece(counts: seq<nat>, errors: seq<real>, n: nat): real
    requires |errors| == |counts| && n > 0
  {
    if counts == [] then 0.0
    else
      var k := |counts| - 1;
      var before := Ece(counts[..k], errors[..k], n);
      if counts[k] == 0 then before else AddShare(before, counts[k], n, errors[k])
  }

  /** Add a bin's error, weighted by the bin's share of all rows. */
  function AddShare(ece: real, c: nat, n: nat, e: real): real
    requires n > 0
  {
    ece + Ratio(c, n) * e
  }

  function Max(x: real, y: real): real { if x < y then y else x }

  /** The maximum calibration error: the largest error of a non-empty bin. */
  function Mce(counts: seq<nat>, errors: seq<real>): real
    requires |errors| == |counts|
  {
    if counts == [] then 0.0
    else
      var k := |counts| - 1;
      var before := Mce(counts[..k], errors[..k]);
      if counts[k] == 0 then before else Max(before, errors[k])
  }

  function Total(xs: seq<real>): real {
    if xs == [] then 0.0 else Total(xs[..|xs| - 1]) + xs[|xs| - 1]
  }

  function TotalCount(xs: seq<nat>): nat {
    if xs == [] then 0 else TotalCount(xs[..|xs| - 1]) + xs[|xs| - 1]
  }

  lemma EceStep(before: real, e: real, c: nat, n: nat, share: real, after: real)
    requires share * n as real == c as real && after == before + share * e
    ensures Scaled(after, n) == Scaled(before, n) + Scaled(e, c)
  {
    ScaledIsProduct(after, n);
    ScaledIsProduct(before, n);
    ScaledIsProduct(e, c);
    ShareOfError(before, share, e, c as real, n as real, after);
  }

  lemma ShareOfError(before: real, share: real, e: real, c: real, n: real, after: real)
    requires share * n == c && after == before + share * e
    ensures after * n == before * n + e * c
  {
    assert share * e * n == (share * n) * e;
  }

  /** A bin's error, once for each of its rows, is the absolute residual of the bin. */
  ghost predicate ErrorsMatch(counts: seq<nat>, errors: seq<real>, residuals: seq<real>) {
    && |errors| == |counts| == |residuals|
    && forall b | 0 <= b < |counts| :: residuals[b] == Scaled(errors[b], counts[b])
  }

  lemma {:induction false} EceIsMeanResidual(counts: seq<nat>, errors: seq<real>, residuals: seq<real>, n: nat)
    requires n > 0 && ErrorsMatch(counts, errors, residuals)
    ensures Scaled(Ece(counts, errors, n), n) == Total(residuals)
  {
    if counts == [] {
      ScaledIsProduct(0.0, n);
    } else {
      var k := |counts| - 1;
      EceIsMeanResidual(counts[..k], errors[..k], residuals[..k], n);
      if counts[k] > 0 {
        QuotientTimes(counts[k] as real, n as real);
        EceStep(Ece(counts[..k], errors[..k], n), errors[k], counts[k], n, Ratio(counts[k], n), Ece(counts, errors, n));
      }
    }
  }

  /** The largest error, applied to every row, bounds what the bins miss in total. */
  lemma {:induction false} ResidualIsBoundedByMce(counts: seq<nat>, errors: seq<real>, residuals: seq<real>)
    requires ErrorsMatch(counts, errors, residuals)
    ensures Total(residuals) <= Scaled(Mce(counts, errors), TotalCount(counts))
  {
    if counts != [] {
      var k := |counts| - 1;
      var m, m' := Mce(counts[..k], errors[..k]), Mce(counts, errors);
      ResidualIsBoundedByMce(counts[..k], errors[..k], residuals[..k]);
      ScaledMonotone(m, m', TotalCount(counts[..k]));
      if counts[k] > 0 {
        ScaledMonotone(errors[k], m', counts[k]);
      }
      ScaledAdd(m', TotalCount(counts[..k]), counts[k]);
    }
  }

  lemma {:induction false} MceRange(counts: seq<nat>, errors: seq<real>)
    requires |errors| == |counts|
    requires forall b | 0 <= b < |counts| && counts[b] > 0 :: 0.0 <= errors[b] <= 1.0
    ensures 0.0 <= Mce(counts, errors) <= 1.0
  {
    if counts != [] {
      MceRange(counts[..|counts| - 1], errors[..|counts| - 1]);
    }
  }

  lemma {:induction false} TriangleInequality(signed: seq<real>, absolute: seq<real>)
    requires |signed| == |absolute| && forall b | 0 <= b < |signed| :: absolute[b] == Abs(signed[b])
    ensures Abs(Total(signed)) <= Total(absolute)
  {
    if signed != [] {
      TriangleInequality(signed[..|signed| - 1], absolute[..|signed| - 1]);
    }
  }

  // ---------------------------------------------------------------- per-bin columns

  function BinCounts(obs: seq<Observation>, binOf: Observation -> int, k: nat): (counts: seq<nat>)
    ensures |counts| == k && forall b | 0 <= b < k :: counts[b] == |Rows(obs, binOf, b)|
  {
    seq(k, b requires 0 <= b < k => |Rows(obs, binOf, b)|)
  }

  function BinErrors(obs: seq<Observation>, binOf: Observation -> int, k: nat): (errors: seq<real>)
    ensures |errors| == k
    ensures forall b | 0 <= b < k ::
      errors[b] == var rows := Rows(obs, binOf, b); if rows == [] then 0.0 else BinError(rows)
  {
    seq(k, b requires 0 <= b < k => var rows := Rows(obs, binOf, b); if rows == [] then 0.0 else BinError(rows))
  }

  function BinResiduals(obs: seq<Observation>, binOf: Observation -> int, k: nat): (residuals: seq<real>)
    ensures |residuals| == k && forall b | 0 <= b < k :: residuals[b] == Residual(Rows(obs, binOf, b))
  {
    seq(k, b requires 0 <= b < k => Residual(Rows(obs, binOf, b)))
  }

  // ---------------------------------------------------------------- the bins partition the rows

  function Below(binOf: Observation -> int, k: nat): Observation -> bool {
    (o: Observation) => 0 <= binOf(o) < k
  }

  lemma {:induction false} FilterSplitsSums(
      obs: seq<Observation>, p: Observation -> bool, q: Observation -> bool, r: Observation -> bool)
    requires forall i | 0 <= i < |obs| :: p(obs[i]) <==> q(obs[i]) || r(obs[i])
    requires forall i | 0 <= i < |obs| :: !(q(obs[i]) && r(obs[i]))
    ensures |Filter(obs, p)| == |Filter(obs, q)| + |Filter(obs, r)|
    ensures Residual(Filter(obs, p)) == Residual(Filter(obs, q)) + Residual(Filter(obs, r))
  {
    if obs != [] {
      var tail := obs[1..];
      assert forall i | 0 <= i < |tail| :: tail[i] == obs[i + 1];
      FilterSplitsSums(tail, p, q, r);
      ResidualOfFilter(obs, p);
      ResidualOfFilter(obs, q);
      ResidualOfFilter(obs, r);
    }
  }

  lemma ResidualOfFilter(obs: seq<Observation>, p: Observation -> bool)
    requires obs != []
    ensures Residual(Filter(obs, p))
         == Residual(Filter(obs[1..], p)) + if p(obs[0]) then obs[0].score - obs[0].target as real else 0.0
  {
    if p(obs[0]) {
      assert Filter(obs, p)[1..] == Filter(obs[1..], p);
    } else {
      assert Filter(obs, p) == Filter(obs[1..], p);
    }
  }

  lemma {:induction false} FirstBinsTogether(obs: seq<Observation>, binOf: Observation -> int, k: nat)
    ensures TotalCount(BinCounts(obs, binOf, k)) == |Filter(obs, Below(binOf, k))|
    ensures Total(BinResiduals(obs, binOf, k)) == Residual(Filter(obs, Below(binOf, k)))
  {
    if k == 0 {
      FilterMembers(obs, Below(binOf, 0));
      CountIsBounded(obs, Below(binOf, 0));
    } else {
      FirstBinsTogether(obs, binOf, k - 1);
      assert BinCounts(obs, binOf, k)[..k - 1] == BinCounts(obs, binOf, k - 1);
      assert BinResiduals(obs, binOf, k)[..k - 1] == BinResiduals(obs, binOf, k - 1);
      FilterSplitsSums(obs, Below(binOf, k), Below(binOf, k - 1), (o: Observation) => binOf(o) == k - 1);
    }
  }

  lemma {:induction false} FilterAll(obs: seq<Observation>, p: Observation -> bool)
    requires forall i | 0 <= i < |obs| :: p(obs[i])
    ensures Filter(obs, p) == obs
  {
    if obs != [] {
      assert forall i | 0 <= i < |obs| - 1 :: obs[1..][i] == obs[i + 1];
      FilterAll(obs[1..], p);
    }
  }

  ghost predicate BinsRange(obs: seq<Observation>, binOf: Observation -> int, k: nat) {
    forall i | 0 <= i < |obs| :: 0 <= binOf(obs[i]) < k
  }

  /** Counts and residuals of the bins add up to those of the data set. */
  lemma BinsPartition(obs: seq<Observation>, binOf: Observation -> int, k: nat)
    requires BinsRange(obs, binOf, k)
    ensures TotalCount(BinCounts(obs, binOf, k)) == |obs|
    ensures Total(BinResiduals(obs, binOf, k)) == Residual(obs)
  {
    FirstBinsTogether(obs, binOf, k);
    FilterAll(obs, Below(binOf, k));
  }

  // ---------------------------------------------------------------- gap <= ECE <= MCE <= 1

  lemma AbsTimes(x: real, n: real)
    requires n > 0.0
    ensures Abs(x) * n == Abs(x * n)
  {
    if x < 0.0 {
      assert (-x) * n == -(x * n);
      assert (-x) * n > 0.0;
    } else {
      ProductSign(x, n);
    }
  }

  lemma BinErrorTimesCount(rows: seq<Observation>)
    requires rows != []
    ensures Scaled(BinError(rows), |rows|) == Abs(Residual(rows))
  {
    var c := |rows| as real;
    var a, b := ScoreSum(rows) / c, TargetSum(rows) as real / c;
    QuotientTimes(ScoreSum(rows), c);
    QuotientTimes(TargetSum(rows) as real, c);
    AbsTimes(a - b, c);
    assert (a - b) * c == a * c - b * c;
    ScaledIsProduct(BinError(rows), |rows|);
  }

  lemma {:induction false} SumsOfProbabilities(rows: seq<Observation>)
    requires forall i | 0 <= i < |rows| :: 0.0 <= rows[i].score <= 1.0 && 0 <= rows[i].target <= 1
    ensures 0.0 <= ScoreSum(rows) <= |rows| as real
    ensures 0 <= TargetSum(rows) <= |rows|
  {
    if rows != [] {
      assert forall i | 0 <= i < |rows| - 1 :: rows[1..][i] == rows[i + 1];
      SumsOfProbabilities(rows[1..]);
    }
  }

  lemma UnitQuotient(a: real, c: real)
    requires c > 0.0 && 0.0 <= a <= c
    ensures 0.0 <= a / c <= 1.0
  {
    QuotientAtLeast(a, c, 0.0);
    QuotientOrder(a, c, c);
    QuotientIs(1.0, c, c);
  }

  lemma BinErrorIsAtMostOne(rows: seq<Observation>)
    requires rows != []
    requires forall i | 0 <= i < |rows| :: 0.0 <= rows[i].score <= 1.0 && 0 <= rows[i].target <= 1
    ensures 0.0 <= BinError(rows) <= 1.0
  {
    SumsOfProbabilities(rows);
    UnitQuotient(ScoreSum(rows), |rows| as real);
    UnitQuotient(TargetSum(rows) as real, |rows| as real);
  }

  ghost predicate WellFormed(obs: seq<Observation>) {
    obs != [] && forall i | 0 <= i < |obs| :: 0.0 <= obs[i].score <= 1.0 && 0 <= obs[i].target <= 1
  }

  lemma RowsAreWellFormed(obs: seq<Observation>, binOf: Observation -> int, b: int)
    requires WellFormed(obs)
    ensures forall i | 0 <= i < |Rows(obs, binOf, b)| ::
      0.0 <= Rows(obs, binOf, b)[i].score <= 1.0 && 0 <= Rows(obs, binOf, b)[i].target <= 1
  {
    var rows := Rows(obs, binOf, b);
    FilterMembers(obs, (o: Observation) => binOf(o) == b);
    forall i | 0 <= i < |rows| ensures 0.0 <= rows[i].score <= 1.0 && 0 <= rows[i].target <= 1 {
      assert rows[i] in obs;
    }
  }

  function AbsoluteValues(xs: seq<real>): (ys: seq<real>)
    ensures |ys| == |xs| && forall i | 0 <= i < |xs| :: ys[i] == Abs(xs[i])
  {
    seq(|xs|, i requires 0 <= i < |xs| => Abs(xs[i]))
  }

  lemma BinErrorsMatch(obs: seq<Observation>, binOf: Observation -> int, k: nat)
    ensures ErrorsMatch(BinCounts(obs, binOf, k), BinErrors(obs, binOf, k), AbsoluteValues(BinResiduals(obs, binOf, k)))
  {
    forall b | 0 <= b < k && Rows(obs, binOf, b) != []
      ensures Scaled(BinErrors(obs, binOf, k)[b], BinCounts(obs, binOf, k)[b]) == Abs(BinResiduals(obs, binOf, k)[b])
    {
      BinErrorTimesCount(Rows(obs, binOf, b));
    }
  }

  lemma BinErrorsRange(obs: seq<Observation>, binOf: Observation -> int, k: nat)
    requires WellFormed(obs)
    ensures forall b | 0 <= b < k :: 0.0 <= BinErrors(obs, binOf, k)[b] <= 1.0
  {
    forall b | 0 <= b < k ensures 0.0 <= BinErrors(obs, binOf, k)[b] <= 1.0 {
      RowsAreWellFormed(obs, binOf, b);
      if Rows(obs, binOf, b) != [] {
        BinErrorIsAtMostOne(Rows(obs, binOf, b));
      }
    }
  }

  /** The absolute difference between mean score and prevalence. */
  function MeanProbabilityGap(obs: seq<Observation>): real
    requires obs != []
  {
    BinError(obs)
  }

  lemma ColumnsChain(counts: seq<nat>, errors: seq<real>, signed: seq<real>, n: nat, gap: real)
    requires n > 0 && TotalCount(counts) == n
    requires ErrorsMatch(counts, errors, AbsoluteValues(signed))
    requires Scaled(gap, n) == Abs(Total(signed))
    ensures gap <= Ece(counts, errors, n) <= Mce(counts, errors)
  {
    var absolute := AbsoluteValues(signed);
    TriangleInequality(signed, absolute);
    EceIsMeanResidual(counts, errors, absolute, n);
    ResidualIsBoundedByMce(counts, errors, absolute);
    ScaledOrder(gap, Ece(counts, errors, n), n);
    ScaledOrder(Ece(counts, errors, n), Mce(counts, errors), n);
  }

  function BinnedEce(obs: seq<Observation>, binOf: Observation -> int, k: nat): real
    requires obs != []
  {
    Ece(BinCounts(obs, binOf, k), BinErrors(obs, binOf, k), |obs|)
  }

  function BinnedMce(obs: seq<Observation>, binOf: Observation -> int, k: nat): real {
    Mce(BinCounts(obs, binOf, k), BinErrors(obs, binOf, k))
  }

  /** The chain that the calibration gates rest on. */
  lemma GapEceMceChain(obs: seq<Observation>, binOf: Observation -> int, k: nat)
    requires WellFormed(obs) && BinsRange(obs, binOf, k)
    ensures MeanProbabilityGap(obs) <= BinnedEce(obs, binOf, k) <= BinnedMce(obs, binOf, k) <= 1.0
  {
    BinsPartition(obs, binOf, k);
    BinErrorsMatch(obs, binOf, k);
    BinErrorsRange(obs, binOf, k);
    MceRange(BinCounts(obs, binOf, k), BinErrors(obs, binOf, k));
    BinErrorTimesCount(obs);
    ColumnsChain(BinCounts(obs, binOf, k), BinErrors(obs, binOf, k), BinResiduals(obs, binOf, k), |obs|, MeanProbabilityGap(obs));
  }

  /** One more bin: what it adds to the two accumulators. */
  lemma AddBin(obs: seq<Observation>, binOf: Observation -> int, b: nat)
    requires obs != []
    ensures var rows := Rows(obs, binOf, b);
      && BinnedEce(obs, binOf, b + 1)
         == (if rows == [] then BinnedEce(obs, binOf, b) else AddShare(BinnedEce(obs, binOf, b), |rows|, |obs|, BinError(rows)))
      && BinnedMce(obs, binOf, b + 1)
         == (if rows == [] then BinnedMce(obs, binOf, b) else Max(BinnedMce(obs, binOf, b), BinError(rows)))
  {
    var counts, errors := BinCounts(obs, binOf, b + 1), BinErrors(obs, binOf, b + 1);
    assert counts[..b] == BinCounts(obs, binOf, b);
    assert errors[..b] == BinErrors(obs, binOf, b);
  }

  // ---------------------------------------------------------------- the table, as the source builds it

  datatype BinRow = BinRow(
    number: nat, count: nat, lower: real, upper: real,
    meanProbability: Option<real>, observedFrequency: Option<real>, absoluteError: Option<real>)

  /** The table row of bin `b`. */
  function RowOf(rows: seq<Observation>, number: nat, lower: real, upper: real): BinRow {
    if rows == [] then BinRow(number, 0, lower, upper, None, None, None)
    else
      var c := |rows| as real;
      BinRow(number, |rows|, lower, upper,
             Some(ScoreSum(rows) / c), Some(TargetSum(rows) as real / c), Some(BinError(rows)))
  }

  function Assign(strategy: Strategy, edges: seq<real>, bins: nat): Observation -> int {
    (o: Observation) => BinOf(strategy, edges, bins, o.score)
  }

  /** The rows of the table for the first `k` bins: equal-frequency bins without rows are skipped. */
  function TableOver(strategy: Strategy, obs: seq<Observation>, edges: seq<real>, bins: nat, k: nat): seq<BinRow>
    requires k < |edges|
  {
    if k == 0 then []
    else
      var table := TableOver(strategy, obs, edges, bins, k - 1);
      var rows := Rows(obs, Assign(strategy, edges, bins), k - 1);
      if strategy.EqualFrequency? && rows == [] then table
      else table + [RowOf(rows, |table| + 1, edges[k - 1], edges[k])]
  }

  datatype CalibrationResult =
    | Rejected
    | Calibrated(table: seq<BinRow>, ece: real, mce: real)

  predicate ValidCalibration(targets: seq<int>, scores: seq<real>, bins: int) {
    bins >= 2 && ValidInputs(targets, scores)
  }

  /** The accumulating loop over the bins. */
  method AccumulateBins(strategy: Strategy, obs: seq<Observation>, edges: seq<real>, bins: nat)
    returns (table: seq<BinRow>, ece: real, mce: real)
    requires obs != [] && |edges| >= 2
    ensures table == TableOver(strategy, obs, edges, bins, |edges| - 1)
    ensures ece == BinnedEce(obs, Assign(strategy, edges, bins), |edges| - 1)
    ensures mce == BinnedMce(obs, Assign(strategy, edges, bins), |edges| - 1)
  {
    var binOf := Assign(strategy, edges, bins);
    table, ece, mce := [], 0.0, 0.0;
    for number := 0 to |edges| - 1
      invariant table == TableOver(strategy, obs, edges, bins, number)
      invariant ece == BinnedEce(obs, binOf, number)
      invariant mce == BinnedMce(obs, binOf, number)
    {
      var rows := Rows(obs, binOf, number);
      AddBin(obs, binOf, number);
      if strategy.EqualFrequency? && rows == [] {
        continue;
      }
      if rows != [] {
        var error := BinError(rows);
        ece := AddShare(ece, |rows|, |obs|, error);
        mce := Max(mce, error);
      }
      table := table + [RowOf(rows, |table| + 1, edges[number], edges[number + 1])];
    }
  }

  // ---------------------------------------------------------------- what the result says

  /** The observations whose score lies in the interval of bin `b`. */
  ghost function Inside(obs: seq<Observation>, edges: seq<real>, b: int): seq<Observation> {
    Filter(obs, (o: Observation) => InInterval(edges, b, o.score))
  }

  /** By how much a bin's scores miss its positives in total. */
  ghost function Miss(rows: seq<Observation>): real {
    Abs(ScoreSum(rows) - Count(rows, Positive()) as real)
  }

  ghost function Misses(obs: seq<Observation>, edges: seq<real>, k: nat): real {
    if k == 0 then 0.0 else Misses(obs, edges, k - 1) + Miss(Inside(obs, edges, k - 1))
  }

  /** How many of the first `b` bins are listed. */
  ghost function Place(obs: seq<Observation>, edges: seq<real>, listEmpty: bool, b: nat): nat {
    if b == 0 then 0
    else Place(obs, edges, listEmpty, b - 1) + if listEmpty || Inside(obs, edges, b - 1) != [] then 1 else 0
  }

  /** A table row for the given observations: mean score, share of positives and their distance. */
  ghost predicate Describes(row: BinRow, rows: seq<Observation>, number: nat, lower: real, upper: real) {
    && row.number == number && row.count == |rows| && row.lower == lower && row.upper == upper
    && (if rows == [] then row.meanProbability == row.observedFrequency == row.absoluteError == None
        else
          && row.meanProbability.Some? && row.observedFrequency.Some? && row.absoluteError.Some?
          && row.meanProbability.value * |rows| as real == ScoreSum(rows)
          && row.observedFrequency.value * |rows| as real == Count(rows, Positive()) as real
          && row.absoluteError.value == Abs(row.meanProbability.value - row.observedFrequency.value))
  }

  /** Bin `b`, if it is listed, has its row at its place. */
  ghost predicate HasItsRow(table: seq<BinRow>, obs: seq<Observation>, edges: seq<real>, listEmpty: bool, b: nat)
    requires b + 1 < |edges|
  {
    var rows, p := Inside(obs, edges, b), Place(obs, edges, listEmpty, b);
    listEmpty || rows != [] ==> p < |table| && Describes(table[p], rows, p + 1, edges[b], edges[b + 1])
  }

  /** Every listed bin has its row, in the order of the bins, and there are no others. */
  ghost predicate TableDescribes(table: seq<BinRow>, obs: seq<Observation>, edges: seq<real>, listEmpty: bool, k: nat)
    requires k < |edges|
  {
    && |table| == Place(obs, edges, listEmpty, k)
    && forall b: nat | b < k :: HasItsRow(table, obs, edges, listEmpty, b)
  }

  /** `ece` is the miss of all bins together, per observation. */
  ghost predicate IsMeanMiss(ece: real, obs: seq<Observation>, edges: seq<real>)
    requires |edges| >= 1
  {
    ece * |obs| as real == Misses(obs, edges, |edges| - 1)
  }

  ghost predicate MissesAtMost(rows: seq<Observation>, error: real) { Miss(rows) <= error * |rows| as real }

  ghost predicate MissesExactly(rows: seq<Observation>, error: real) { Miss(rows) == error * |rows| as real }

  /** `mce` is the largest miss per row of a bin. */
  ghost predicate IsLargestMiss(mce: real, obs: seq<Observation>, edges: seq<real>) {
    && (forall b: nat | b < |edges| - 1 :: MissesAtMost(Inside(obs, edges, b), mce))
    && (exists b: nat | b < |edges| - 1 :: Inside(obs, edges, b) != [] && MissesExactly(Inside(obs, edges, b), mce))
  }

  ghost predicate Binary(obs: seq<Observation>) {
    forall i | 0 <= i < |obs| :: obs[i].target == 0 || obs[i].target == 1
  }

  lemma {:induction false} TargetsCountPositives(rows: seq<Observation>)
    requires Binary(rows)
    ensures TargetSum(rows) == Count(rows, Positive())
  {
    if rows != [] {
      TargetsCountPositives(rows[1..]);
    }
  }

  lemma FilteredIsBinary(obs: seq<Observation>, p: Observation -> bool)
    requires Binary(obs)
    ensures Binary(Filter(obs, p))
  {
    FilterMembers(obs, p);
    forall i | 0 <= i < |Filter(obs, p)| ensures Filter(obs, p)[i] in obs {
    }
  }

  /** A bin's rows are the observations inside its interval. */
  lemma BinIsInterval(strategy: Strategy, obs: seq<Observation>, bins: nat, b: int)
    requires obs != [] && Probabilities(obs) && bins >= 2
    ensures var edges := Edges(strategy, obs, bins);
      Rows(obs, Assign(strategy, edges, bins), b) == Inside(obs, edges, b)
  {
    var edges := Edges(strategy, obs, bins);
    forall i | 0 <= i < |obs|
      ensures (Assign(strategy, edges, bins)(obs[i]) == b) == InInterval(edges, b, obs[i].score)
    {
      EveryRowIsInItsBin(strategy, obs, bins, i, b);
    }
    hide InInterval, BinOf;
    FilterSame(
      obs, (o: Observation) => Assign(strategy, edges, bins)(o) == b, (o: Observation) => InInterval(edges, b, o.score));
  }

  ghost predicate BinsAreIntervals(obs: seq<Observation>, binOf: Observation -> int, edges: seq<real>) {
    forall b: int :: Rows(obs, binOf, b) == Inside(obs, edges, b)
  }

  lemma RowDescribes(rows: seq<Observation>, number: nat, lower: real, upper: real)
    requires Binary(rows)
    ensures Describes(RowOf(rows, number, lower, upper), rows, number, lower, upper)
  {
    TargetsCountPositives(rows);
    if rows != [] {
      QuotientTimes(ScoreSum(rows), |rows| as real);
      QuotientTimes(TargetSum(rows) as real, |rows| as real);
    }
  }

  lemma {:induction false} TableOverDescribes(
      strategy: Strategy, obs: seq<Observation>, edges: seq<real>, bins: nat, k: nat)
    requires k < |edges| && Binary(obs) && BinsAreIntervals(obs, Assign(strategy, edges, bins), edges)
    ensures TableDescribes(TableOver(strategy, obs, edges, bins, k), obs, edges, strategy.EqualWidth?, k)
  {
    hide Describes, RowOf, Inside, Rows;
    if k > 0 {
      TableOverDescribes(strategy, obs, edges, bins, k - 1);
      var table := TableOver(strategy, obs, edges, bins, k - 1);
      var rows := Rows(obs, Assign(strategy, edges, bins), k - 1);
      assert rows == Inside(obs, edges, k - 1);
      RowsAreBinary(obs, Assign(strategy, edges, bins), k - 1);
      RowDescribes(rows, |table| + 1, edges[k - 1], edges[k]);
      TableGrows(table, TableOver(strategy, obs, edges, bins, k), obs, edges, strategy.EqualWidth?, k);
    }
  }

  lemma TableGrows(
      table: seq<BinRow>, next: seq<BinRow>, obs: seq<Observation>, edges: seq<real>, listEmpty: bool, k: nat)
    requires 0 < k < |edges| && TableDescribes(table, obs, edges, listEmpty, k - 1)
    requires var rows := Inside(obs, edges, k - 1);
      if listEmpty || rows != [] then
        |next| == |table| + 1 && next[..|table|] == table
        && Describes(next[|table|], rows, |table| + 1, edges[k - 1], edges[k])
      else next == table
    ensures TableDescribes(next, obs, edges, listEmpty, k)
  {
    hide Describes, Inside;
    forall b: nat | b < k ensures HasItsRow(next, obs, edges, listEmpty, b) {
      if b < k - 1 {
        assert HasItsRow(table, obs, edges, listEmpty, b);
        assert forall p | 0 <= p < |table| :: next[p] == table[p];
      }
    }
  }

  lemma RowsAreBinary(obs: seq<Observation>, binOf: Observation -> int, b: int)
    requires Binary(obs)
    ensures Binary(Rows(obs, binOf, b))
  {
    FilteredIsBinary(obs, (o: Observation) => binOf(o) == b);
  }

  lemma MissIsResidual(rows: seq<Observation>)
    requires Binary(rows)
    ensures Miss(rows) == Abs(Residual(rows))
    ensures rows != [] ==> BinError(rows) * |rows| as real == Miss(rows)
    ensures rows == [] ==> Miss(rows) == 0.0
  {
    TargetsCountPositives(rows);
    if rows != [] {
      BinErrorTimesCount(rows);
      ScaledIsProduct(BinError(rows), |rows|);
    }
  }

  lemma {:induction false} MissesAreResiduals(obs: seq<Observation>, binOf: Observation -> int, edges: seq<real>, k: nat)
    requires Binary(obs) && BinsAreIntervals(obs, binOf, edges)
    ensures Misses(obs, edges, k) == Total(AbsoluteValues(BinResiduals(obs, binOf, k)))
  {
    hide Miss, Inside, Rows, Residual;
    if k > 0 {
      MissesAreResiduals(obs, binOf, edges, k - 1);
      RowsAreBinary(obs, binOf, k - 1);
      MissIsResidual(Rows(obs, binOf, k - 1));
      var absolute := AbsoluteValues(BinResiduals(obs, binOf, k));
      assert absolute[..k - 1] == AbsoluteValues(BinResiduals(obs, binOf, k - 1));
    }
  }

  lemma EceIsMeanMiss(obs: seq<Observation>, binOf: Observation -> int, edges: seq<real>, k: nat)
    requires obs != [] && Binary(obs) && BinsAreIntervals(obs, binOf, edges)
    ensures |edges| == k + 1 ==> IsMeanMiss(BinnedEce(obs, binOf, k), obs, edges)
  {
    hide Misses, Ece, Total, BinsAreIntervals;
    BinErrorsMatch(obs, binOf, k);
    EceIsMeanResidual(
      BinCounts(obs, binOf, k), BinErrors(obs, binOf, k), AbsoluteValues(BinResiduals(obs, binOf, k)), |obs|);
    ScaledIsProduct(BinnedEce(obs, binOf, k), |obs|);
    MissesAreResiduals(obs, binOf, edges, k);
  }

  lemma {:induction false} MceIsLargest(counts: seq<nat>, errors: seq<real>)
    requires |errors| == |counts| && forall b | 0 <= b < |counts| :: errors[b] >= 0.0
    ensures Mce(counts, errors) >= 0.0
    ensures forall b | 0 <= b < |counts| && counts[b] > 0 :: errors[b] <= Mce(counts, errors)
    ensures (forall b | 0 <= b < |counts| :: counts[b] == 0)
         || exists b | 0 <= b < |counts| :: counts[b] > 0 && errors[b] == Mce(counts, errors)
    ensures (forall b | 0 <= b < |counts| :: counts[b] == 0) ==> Mce(counts, errors) == 0.0
  {
    if counts != [] {
      var k := |counts| - 1;
      var front, m := counts[..k], Mce(counts[..k], errors[..k]);
      MceIsLargest(front, errors[..k]);
      if counts[k] > 0 && !(errors[k] < m) {
        assert errors[k] == Mce(counts, errors);
      } else if !forall b | 0 <= b < k :: front[b] == 0 {
        var b :| 0 <= b < k && front[b] > 0 && errors[..k][b] == m;
        assert counts[b] > 0 && errors[b] == Mce(counts, errors);
      } else {
        assert forall b | 0 <= b < k :: counts[b] == front[b];
      }
    }
  }

  lemma {:induction false} SomeCount(counts: seq<nat>)
    requires TotalCount(counts) > 0
    ensures exists b | 0 <= b < |counts| :: counts[b] > 0
  {
    if counts[|counts| - 1] == 0 {
      SomeCount(counts[..|counts| - 1]);
      var b :| 0 <= b < |counts| - 1 && counts[..|counts| - 1][b] > 0;
      assert counts[b] > 0;
    }
  }

  lemma MceIsLargestMiss(obs: seq<Observation>, binOf: Observation -> int, edges: seq<real>)
    requires |edges| >= 2 && WellFormed(obs) && Binary(obs)
    requires BinsAreIntervals(obs, binOf, edges) && BinsRange(obs, binOf, |edges| - 1)
    ensures IsLargestMiss(BinnedMce(obs, binOf, |edges| - 1), obs, edges)
  {
    hide Mce, Rows, Inside, Miss, BinError, WellFormed, Binary, BinsRange, TotalCount;
    assert |obs| > 0 by {
      NotEmpty(obs);
    }
    var k := |edges| - 1;
    var counts, errors, mce := BinCounts(obs, binOf, k), BinErrors(obs, binOf, k), BinnedMce(obs, binOf, k);
    BinErrorsRange(obs, binOf, k);
    BinsPartition(obs, binOf, k);
    SomeCount(counts);
    MceIsLargest(counts, errors);
    forall b: nat | b < k ensures counts[b] == |Inside(obs, edges, b)| {
      assert Rows(obs, binOf, b) == Inside(obs, edges, b);
    }
    hide MissesAtMost, MissesExactly;
    forall b: nat | b < k ensures MissesAtMost(Inside(obs, edges, b), mce) {
      MissOfBin(obs, binOf, edges, b, mce);
    }
    var b: nat :| b < k && counts[b] > 0 && errors[b] == mce;
    MissOfBin(obs, binOf, edges, b, mce);
    assert Inside(obs, edges, b) != [];
  }

  lemma NotEmpty(obs: seq<Observation>)
    requires WellFormed(obs)
    ensures obs != []
  {
  }

  /** A bin misses its error once for each row, so at most `mce` for each. */
  lemma MissOfBin(obs: seq<Observation>, binOf: Observation -> int, edges: seq<real>, b: nat, mce: real)
    requires Binary(obs) && BinsAreIntervals(obs, binOf, edges)
    requires Rows(obs, binOf, b) != [] ==> BinError(Rows(obs, binOf, b)) <= mce
    ensures var rows := Inside(obs, edges, b);
      && MissesAtMost(rows, mce)
      && (rows != [] && BinError(rows) == mce ==> MissesExactly(rows, mce))
  {
    hide Inside, Rows, Miss, BinError, Binary;
    var rows := Rows(obs, binOf, b);
    assert rows == Inside(obs, edges, b);
    RowsAreBinary(obs, binOf, b);
    MissIsResidual(rows);
    if rows != [] {
      ScaleOrder(BinError(rows), mce, |rows| as real);
    }
  }

  /** Everything the result says, of the edges and the observations alone: the table describes the
      bins one by one, the expected error is the mean miss, and the maximum error the largest one. */
  lemma CalibrationMeans(strategy: Strategy, targets: seq<int>, scores: seq<real>, bins: nat)
    requires ValidCalibration(targets, scores, bins)
    ensures var obs := Zip(targets, scores);
      var edges := Edges(strategy, obs, bins);
      var binOf, k := Assign(strategy, edges, bins), |edges| - 1;
      && |edges| >= 2
      && TableDescribes(TableOver(strategy, obs, edges, bins, k), obs, edges, strategy.EqualWidth?, k)
      && IsMeanMiss(BinnedEce(obs, binOf, k), obs, edges)
      && IsLargestMiss(BinnedMce(obs, binOf, k), obs, edges)
  {
    hide *;
    ValidCalibrationRows(targets, scores, bins);
    var obs := Zip(targets, scores);
    ScoresStayInBins(strategy, targets, scores, bins);
    var edges := Edges(strategy, obs, bins);
    forall b: int ensures Rows(obs, Assign(strategy, edges, bins), b) == Inside(obs, edges, b) {
      BinIsInterval(strategy, obs, bins, b);
    }
    IntervalByInterval(obs, Assign(strategy, edges, bins), edges);
    TableOverDescribes(strategy, obs, edges, bins, |edges| - 1);
    EceIsMeanMiss(obs, Assign(strategy, edges, bins), edges, |edges| - 1);
    MceIsLargestMiss(obs, Assign(strategy, edges, bins), edges);
  }

  lemma ValidCalibrationRows(targets: seq<int>, scores: seq<real>, bins: int)
    requires ValidCalibration(targets, scores, bins)
    ensures |targets| == |scores| > 0 && bins >= 2
    ensures Zip(targets, scores) != [] && Probabilities(Zip(targets, scores)) && Binary(Zip(targets, scores))
  {
  }

  lemma IntervalByInterval(obs: seq<Observation>, binOf: Observation -> int, edges: seq<real>)
    requires forall b: int :: Rows(obs, binOf, b) == Inside(obs, edges, b)
    ensures BinsAreIntervals(obs, binOf, edges)
  {
  }

  lemma ScoresStayInBins(strategy: Strategy, targets: seq<int>, scores: seq<real>, bins: nat)
    requires ValidCalibration(targets, scores, bins)
    ensures var obs := Zip(targets, scores);
      var edges := Edges(strategy, obs, bins);
      && |edges| >= 2
      && WellFormed(obs)
      && BinsRange(obs, Assign(strategy, edges, bins), |edges| - 1)
  {
    var obs := Zip(targets, scores);
    var edges := Edges(strategy, obs, bins);
    EdgesFacts(strategy, obs, bins);
    forall i | 0 <= i < |obs| ensures 0 <= Assign(strategy, edges, bins)(obs[i]) < |edges| - 1 {
      EveryRowIsInItsBin(strategy, obs, bins, i, BinOf(strategy, edges, bins, obs[i].score));
    }
  }

  /** For every accepted input and either strategy: gap <= ECE <= MCE <= 1. */
  lemma ErrorsAreOrdered(strategy: Strategy, targets: seq<int>, scores: seq<real>, bins: nat)
    requires ValidCalibration(targets, scores, bins)
    ensures var obs := Zip(targets, scores);
      var edges := Edges(strategy, obs, bins);
      var binOf := Assign(strategy, edges, bins);
      && |edges| >= 2
      && MeanProbabilityGap(obs) <= BinnedEce(obs, binOf, |edges| - 1) <= BinnedMce(obs, binOf, |edges| - 1) <= 1.0
  {
    hide BinnedEce, BinnedMce, MeanProbabilityGap, Edges, WellFormed, BinsRange;
    var obs := Zip(targets, scores);
    var edges := Edges(strategy, obs, bins);
    ScoresStayInBins(strategy, targets, scores, bins);
    GapEceMceChain(obs, Assign(strategy, edges, bins), |edges| - 1);
  }

  /** The whole computation, and what the gates may rely on. */
  method CalibrationTable(targets: seq<int>, scores: seq<real>, bins: int, strategy: Strategy)
    returns (r: CalibrationResult)
    ensures r.Rejected? <==> bins < 2 || Malformed(targets, scores)
    ensures r.Calibrated? ==>
      var obs := Zip(targets, scores);
      var edges := Edges(strategy, obs, bins);
      && |edges| >= 2
      && TableDescribes(r.table, obs, edges, strategy.EqualWidth?, |edges| - 1)
      && IsMeanMiss(r.ece, obs, edges)
      && IsLargestMiss(r.mce, obs, edges)
      && r.table == TableOver(strategy, obs, edges, bins, |edges| - 1)
      && r.ece == BinnedEce(obs, Assign(strategy, edges, bins), |edges| - 1)
      && r.mce == BinnedMce(obs, Assign(strategy, edges, bins), |edges| - 1)
      && MeanProbabilityGap(obs) <= r.ece <= r.mce <= 1.0
  {
    MalformedExactly(targets, scores);
    assert ValidCalibration(targets, scores, bins) <==> bins >= 2 && ValidInputs(targets, scores);
    hide *;
    if bins < 2 || !ValidInputs(targets, scores) {
      return Rejected;
    }
    ValidCalibrationRows(targets, scores, bins);
    CalibrationMeans(strategy, targets, scores, bins);
    var obs := Zip(targets, scores);
    ErrorsAreOrdered(strategy, targets, scores, bins);
    var table, ece, mce := AccumulateBins(strategy, obs, Edges(strategy, obs, bins), bins);
    r := Calibrated(table, ece, mce);
  }

  /** The counts listed in the table add up to the data set. */
  function ListedRows(table: seq<BinRow>): nat {
    if table == [] then 0 else ListedRows(table[..|table| - 1]) + table[|table| - 1].count
  }

  lemma {:induction false} ListedRowsAreTheBinCounts(
      strategy: Strategy, obs: seq<Observation>, edges: seq<real>, bins: nat, k: nat)
    requires k < |edges|
    ensures ListedRows(TableOver(strategy, obs, edges, bins, k)) == TotalCount(BinCounts(obs, Assign(strategy, edges, bins), k))
  {
    if k > 0 {
      ListedRowsAreTheBinCounts(strategy, obs, edges, bins, k - 1);
      var binOf := Assign(strategy, edges, bins);
      assert BinCounts(obs, binOf, k)[..k - 1] == BinCounts(obs, binOf, k - 1);
    }
  }

  /** The table loses no row, skipped bins included. */
  lemma TableListsEveryRow(strategy: Strategy, targets: seq<int>, scores: seq<real>, bins: nat)
    requires ValidCalibration(targets, scores, bins)
    ensures var obs := Zip(targets, scores);
      var edges := Edges(strategy, obs, bins);
      && |edges| >= 2
      && ListedRows(TableOver(strategy, obs, edges, bins, |edges| - 1)) == |obs|
  {
    hide BinCounts, TableOver, TotalCount, ListedRows, Edges, Assign;
    var obs := Zip(targets, scores);
    var edges := Edges(strategy, obs, bins);
    ScoresStayInBins(strategy, targets, scores, bins);
    ListedRowsAreTheBinCounts(strategy, obs, edges, bins, |edges| - 1);
    BinsPartition(obs, Assign(strategy, edges, bins), |edges| - 1);
  }
}
