/** The governed threshold sweep and the choice of a threshold
    (src/flight_delay/modeling/v1_selection.py), against the rescanning form of
    src/flight_delay/modeling/v2/selection.py. Ratios are exact. */
module ThresholdSweep {
  import opened Counting
  import opened Observations
  import opened Ordering
  import opened RealQuotients

  datatype Limits = Limits(recallMin: real, precisionMin: real, rateMax: real)

  datatype ThresholdRow = ThresholdRow(
    threshold: real, precision: real, recall: real, f1: real, rate: real, eligible: bool)

  function AtLeast(t: real): Observation -> bool { (o: Observation) => o.score >= t }
  function HitAtLeast(t: real): Observation -> bool { (o: Observation) => o.target == 1 && o.score >= t }

  // ---------------------------------------------------------------- the rescanning form

  /** The harmonic mean of precision and recall. */
  function FMeasure(precision: real, recall: real): real {
    if precision + recall == 0.0 then 0.0 else 2.0 * precision * recall / (precision + recall)
  }

  /** The operating point of threshold `t`, by scanning every observation. */
  function RowAt(obs: seq<Observation>, t: real, limits: Limits): ThresholdRow
    requires BothClasses(obs)
  {
    var positives := Count(obs, Positive());
    var predicted := Count(obs, AtLeast(t));
    var hits := Count(obs, HitAtLeast(t));
    var precision := if predicted > 0 then Ratio(hits, predicted) else 0.0;
    var recall := Ratio(hits, positives);
    var rate := Ratio(predicted, |obs|);
    ThresholdRow(
      t, precision, recall, FMeasure(precision, recall), rate,
      recall >= limits.recallMin && precision >= limits.precisionMin && rate <= limits.rateMax)
  }

  ghost predicate StrictlyDecreasing(xs: seq<real>) {
    forall i, j | 0 <= i < j < |xs| :: xs[i] > xs[j]
  }

  ghost predicate ScoresOf(obs: seq<Observation>, xs: seq<real>) {
    && (forall i | 0 <= i < |obs| :: obs[i].score in xs)
    && (forall x | x in xs :: exists i :: 0 <= i < |obs| && obs[i].score == x)
  }

  /** The different scores, from high to low. */
  ghost predicate IsThresholds(obs: seq<Observation>, xs: seq<real>) {
    StrictlyDecreasing(xs) && ScoresOf(obs, xs)
  }

  /** One row per different score, from high to low. */
  ghost predicate IsThresholdTable(obs: seq<Observation>, limits: Limits, table: seq<ThresholdRow>)
    requires BothClasses(obs)
  {
    && IsThresholds(obs, ThresholdColumn(table))
    && forall k | 0 <= k < |table| :: table[k] == RowAt(obs, table[k].threshold, limits)
  }

  function ThresholdColumn(table: seq<ThresholdRow>): (xs: seq<real>)
    ensures |xs| == |table| && forall k | 0 <= k < |table| :: xs[k] == table[k].threshold
  {
    seq(|table|, k requires 0 <= k < |table| => table[k].threshold)
  }

  lemma {:induction false} DecreasingIsUnique(xs: seq<real>, ys: seq<real>)
    requires StrictlyDecreasing(xs) && StrictlyDecreasing(ys)
    requires forall x :: x in xs <==> x in ys
    ensures xs == ys
  {
    assert xs != [] ==> xs[0] in xs;
    assert ys != [] ==> ys[0] in ys;
    if xs != [] {
      assert xs[0] in xs && ys[0] in ys;
      var i :| 0 <= i < |ys| && ys[i] == xs[0];
      var j :| 0 <= j < |xs| && xs[j] == ys[0];
      assert xs[0] == ys[0];
      assert xs == [xs[0]] + xs[1..] && ys == [ys[0]] + ys[1..];
      forall x ensures x in xs[1..] <==> x in ys[1..] {
        assert x in xs[1..] ==> x != xs[0] && x in xs;
        assert x in ys[1..] ==> x != ys[0] && x in ys;
      }
      DecreasingIsUnique(xs[1..], ys[1..]);
    }
  }

  /** The counts of a row do not depend on the order of the observations. */
  lemma RowIgnoresOrder(obs: seq<Observation>, obs': seq<Observation>, t: real, limits: Limits)
    requires multiset(obs) == multiset(obs') && BothClasses(obs) && BothClasses(obs')
    ensures RowAt(obs, t, limits) == RowAt(obs', t, limits)
  {
    SameElements(obs, obs');
    CountPermutation(obs, obs', Positive());
    CountPermutation(obs, obs', AtLeast(t));
    CountPermutation(obs, obs', HitAtLeast(t));
  }

  /** A data set has exactly one table, whatever the order of its observations. */
  lemma TableIsUnique(obs: seq<Observation>, obs': seq<Observation>, limits: Limits,
                      table: seq<ThresholdRow>, table': seq<ThresholdRow>)
    requires multiset(obs) == multiset(obs') && BothClasses(obs) && BothClasses(obs')
    requires IsThresholdTable(obs, limits, table) && IsThresholdTable(obs', limits, table')
    ensures table == table'
  {
    var xs, ys := ThresholdColumn(table), ThresholdColumn(table');
    SameElements(obs, obs');
    SameScores(obs, obs', xs, ys);
    SameScores(obs', obs, ys, xs);
    DecreasingIsUnique(xs, ys);
    forall k | 0 <= k < |table| ensures table[k] == table'[k] {
      assert xs[k] == ys[k];
      RowIgnoresOrder(obs, obs', xs[k], limits);
    }
  }

  lemma SameScores(obs: seq<Observation>, obs': seq<Observation>, xs: seq<real>, ys: seq<real>)
    requires (forall o | o in obs :: o in obs') && ScoresOf(obs, xs) && ScoresOf(obs', ys)
    ensures forall x | x in xs :: x in ys
  {
    forall x | x in xs ensures x in ys {
      var i :| 0 <= i < |obs| && obs[i].score == x;
      assert obs[i] in obs';
    }
  }

  // ---------------------------------------------------------------- the sweep

  function HigherScore(): (Observation, Observation) -> bool {
    (a: Observation, b: Observation) => a.score > b.score
  }

  ghost predicate Descending(sorted: seq<Observation>) {
    forall i, j | 0 <= i < j < |sorted| :: sorted[i].score >= sorted[j].score
  }

  /** `argsort(-scores, kind="stable")`, applied. */
  function SortedByScore(obs: seq<Observation>): seq<Observation> {
    StableSort(obs, HigherScore())
  }

  lemma SortedByScoreFacts(obs: seq<Observation>)
    ensures multiset(SortedByScore(obs)) == multiset(obs)
    ensures |SortedByScore(obs)| == |obs|
    ensures Descending(SortedByScore(obs))
  {
    var sorted := SortedByScore(obs);
    SortIsPermutation(obs, HigherScore());
    SameElements(sorted, obs);
    SortIsSorted(obs, Elements(obs), HigherScore());
    forall i, j | 0 <= i < j < |sorted| ensures sorted[i].score >= sorted[j].score {
      assert !HigherScore()(sorted[j], sorted[i]);
    }
  }

  /** `cumsum` of the sorted targets. */
  method CumulativeHits(sorted: seq<Observation>) returns (cumulative: seq<nat>)
    ensures |cumulative| == |sorted|
    ensures forall i | 0 <= i < |sorted| :: cumulative[i] == Count(sorted[..i + 1], Positive())
  {
    cumulative := [];
    var hits := 0;
    for i := 0 to |sorted|
      invariant |cumulative| == i && hits == Count(sorted[..i], Positive())
      invariant forall k | 0 <= k < i :: cumulative[k] == Count(sorted[..k + 1], Positive())
    {
      assert sorted[..i + 1] == sorted[..i] + [sorted[i]];
      CountAppend(sorted[..i], [sorted[i]], Positive());
      hits := hits + if sorted[i].target == 1 then 1 else 0;
      cumulative := cumulative + [hits];
    }
  }

  function GroupStart(ends: seq<nat>, j: nat): nat
    requires j <= |ends|
  {
    if j == 0 then 0 else ends[j - 1]
  }

  /** `sorted[start..end]` is a maximal run of equal scores from `start` on. */
  ghost predicate IsRun(sorted: seq<Observation>, start: nat, end: nat) {
    && start < end <= |sorted|
    && (forall i | start <= i < end :: sorted[i].score == sorted[start].score)
    && (end < |sorted| ==> sorted[end].score != sorted[start].score)
  }

  /** `ends` cuts a prefix of `sorted` into its runs. */
  ghost predicate CutsRuns(sorted: seq<Observation>, ends: seq<nat>) {
    forall j {:trigger GroupStart(ends, j)} | 0 <= j < |ends| :: IsRun(sorted, GroupStart(ends, j), ends[j])
  }

  lemma AddRun(sorted: seq<Observation>, ends: seq<nat>, end: nat)
    requires CutsRuns(sorted, ends) && IsRun(sorted, GroupStart(ends, |ends|), end)
    ensures CutsRuns(sorted, ends + [end])
  {
    var more := ends + [end];
    forall j | 0 <= j < |more| ensures IsRun(sorted, GroupStart(more, j), more[j]) {
      assert GroupStart(more, j) == GroupStart(ends, j);
    }
  }

  /** The run ends: where a score differs from the next, and the end of the vector. */
  method GroupEnds(sorted: seq<Observation>) returns (ends: seq<nat>)
    requires sorted != []
    ensures CutsRuns(sorted, ends) && ends != [] && ends[|ends| - 1] == |sorted|
  {
    ends := [];
    for i := 1 to |sorted|
      invariant CutsRuns(sorted, ends) && GroupStart(ends, |ends|) < i
      invariant forall k | GroupStart(ends, |ends|) <= k < i :: sorted[k].score == sorted[GroupStart(ends, |ends|)].score
    {
      if sorted[i].score != sorted[i - 1].score {
        AddRun(sorted, ends, i);
        ends := ends + [i];
      }
    }
    AddRun(sorted, ends, |sorted|);
    ends := ends + [|sorted|];
  }

  lemma CountPrefix(sorted: seq<Observation>, e: nat, p: Observation -> bool, q: Observation -> bool)
    requires e <= |sorted|
    requires forall i | 0 <= i < e :: p(sorted[i]) == q(sorted[i])
    requires forall i | e <= i < |sorted| :: !p(sorted[i])
    ensures Count(sorted, p) == Count(sorted[..e], q)
  {
    assert sorted == sorted[..e] + sorted[e..];
    CountAppend(sorted[..e], sorted[e..], p);
    CountIsBounded(sorted[e..], p);
    CountSame(sorted[..e], p, q);
  }

  /** At the end of a run the sweep's counters are the rescanned counts of that run's score. */
  lemma RunEndCounts(sorted: seq<Observation>, start: nat, end: nat)
    requires Descending(sorted) && IsRun(sorted, start, end)
    ensures Count(sorted, AtLeast(sorted[start].score)) == end
    ensures Count(sorted, HitAtLeast(sorted[start].score)) == Count(sorted[..end], Positive())
  {
    var t := sorted[start].score;
    forall i | 0 <= i < |sorted| ensures sorted[i].score >= t <==> i < end {
      assert i < start ==> sorted[i].score >= t;
      assert i > end ==> sorted[i].score <= sorted[end].score;
      assert end < |sorted| ==> sorted[end].score <= t;
    }
    var all := (o: Observation) => true;
    CountPrefix(sorted, end, AtLeast(t), all);
    CountIsBounded(sorted[..end], all);
    CountPrefix(sorted, end, HitAtLeast(t), Positive());
  }

  lemma {:induction false} LaterRunStartsLater(sorted: seq<Observation>, ends: seq<nat>, j: nat, k: nat)
    requires CutsRuns(sorted, ends) && j < k < |ends|
    ensures ends[j] <= GroupStart(ends, k)
  {
    if j + 1 < k {
      LaterRunStartsLater(sorted, ends, j, k - 1);
      assert IsRun(sorted, GroupStart(ends, k - 1), ends[k - 1]);
    }
  }

  lemma {:induction false} RunOf(sorted: seq<Observation>, ends: seq<nat>, n: nat, i: nat) returns (j: nat)
    requires CutsRuns(sorted, ends) && n <= |ends| && i < GroupStart(ends, n)
    ensures j < |ends| && GroupStart(ends, j) <= i < ends[j]
  {
    j := n - 1;
    if i < GroupStart(ends, j) {
      j := RunOf(sorted, ends, j, i);
    }
  }

  /** `xs` holds the scores of the runs, from high to low. */
  ghost predicate RunScores(sorted: seq<Observation>, ends: seq<nat>, xs: seq<real>) {
    && |xs| == |ends|
    && forall k {:trigger GroupStart(ends, k)} | 0 <= k < |ends| ::
         GroupStart(ends, k) < |sorted| && xs[k] == sorted[GroupStart(ends, k)].score
  }

  lemma RunScoresDecrease(sorted: seq<Observation>, ends: seq<nat>, xs: seq<real>)
    requires Descending(sorted) && CutsRuns(sorted, ends) && RunScores(sorted, ends, xs)
    ensures StrictlyDecreasing(xs)
  {
    forall j, k | 0 <= j < k < |xs| ensures xs[j] > xs[k] {
      LaterRunStartsLater(sorted, ends, j, k);
      var start, end, next := GroupStart(ends, j), ends[j], GroupStart(ends, k);
      assert IsRun(sorted, start, end) && IsRun(sorted, next, ends[k]);
      assert sorted[end].score < sorted[start].score;
      assert end < next ==> sorted[next].score <= sorted[end].score;
    }
  }

  lemma RunScoresAreThresholds(obs: seq<Observation>, sorted: seq<Observation>, ends: seq<nat>, xs: seq<real>)
    requires multiset(sorted) == multiset(obs) && Descending(sorted)
    requires CutsRuns(sorted, ends) && ends != [] && ends[|ends| - 1] == |sorted|
    requires RunScores(sorted, ends, xs)
    ensures IsThresholds(obs, xs)
  {
    SameElements(sorted, obs);
    RunScoresDecrease(sorted, ends, xs);
    forall i | 0 <= i < |obs| ensures obs[i].score in xs {
      assert obs[i] in sorted;
      var p :| 0 <= p < |sorted| && sorted[p] == obs[i];
      var j := RunOf(sorted, ends, |ends|, p);
      assert IsRun(sorted, GroupStart(ends, j), ends[j]);
      assert xs[j] == sorted[p].score;
    }
    forall x | x in xs ensures exists i :: 0 <= i < |obs| && obs[i].score == x {
      var j :| 0 <= j < |xs| && xs[j] == x;
      assert xs[j] == sorted[GroupStart(ends, j)].score;
      assert sorted[GroupStart(ends, j)] in obs;
    }
  }

  /** The row of the sweep, from its running counters. */
  function SweptRow(t: real, hits: nat, predicted: nat, positives: nat, total: nat, limits: Limits): ThresholdRow
    requires positives > 0 && total > 0
  {
    var precision := if predicted > 0 then Ratio(hits, predicted) else 0.0;
    var recall := Ratio(hits, positives);
    var rate := Ratio(predicted, total);
    ThresholdRow(
      t, precision, recall, Ratio(2 * hits, positives + predicted), rate,
      recall >= limits.recallMin && precision >= limits.precisionMin && rate <= limits.rateMax)
  }

  /** The closed form `2 TP / (P + predicted)` is the harmonic mean of precision and recall. */
  lemma ClosedFormOfFMeasure(hits: nat, predicted: nat, positives: nat)
    requires predicted > 0 && positives > 0
    ensures Ratio(2 * hits, positives + predicted) == FMeasure(Ratio(hits, predicted), Ratio(hits, positives))
  {
    var h, d, p := hits as real, predicted as real, positives as real;
    var precision, recall := h / d, h / p;
    QuotientTimes(h, d);
    QuotientTimes(h, p);
    if hits == 0 {
      QuotientIs(0.0, h, d);
      QuotientIs(0.0, h, p);
      QuotientIs(0.0, 2.0 * h, p + d);
    } else {
      QuotientAtLeast(h, d, 0.0);
      QuotientAtLeast(h, p, 0.0);
    }
  }

  /** The row of a threshold that predicts `predicted` of `n` observations and hits `hits` of the
      `positives`: each number is the quotient it is named after, and precision is zero when nothing
      is predicted. */
  ghost predicate SaysCounts(row: ThresholdRow, hits: nat, predicted: nat, positives: nat, n: nat) {
    && row.rate * n as real == predicted as real
    && row.recall * positives as real == hits as real
    && row.precision * predicted as real == hits as real && (predicted == 0 ==> row.precision == 0.0)
    && row.f1 * (positives as real + predicted as real) == 2.0 * hits as real
  }

  lemma QuotientsSayCounts(row: ThresholdRow, hits: nat, predicted: nat, positives: nat, n: nat)
    requires hits <= predicted && positives > 0 && n > 0
    requires row.rate == Ratio(predicted, n) && row.recall == Ratio(hits, positives)
    requires row.precision == if predicted > 0 then Ratio(hits, predicted) else 0.0
    requires row.f1 == FMeasure(row.precision, row.recall)
    ensures SaysCounts(row, hits, predicted, positives, n)
  {
    hide FMeasure, Ratio;
    FMeasureSaysTheCounts(hits, predicted, positives);
    RatioSaysTheCounts(predicted, n);
    RatioSaysTheCounts(hits, positives);
    if predicted > 0 {
      RatioSaysTheCounts(hits, predicted);
    } else {
      assert row.precision * predicted as real == 0.0;
    }
  }

  /** What every row of a table says about the observations at or above its threshold. */
  lemma RowSaysTheCounts(obs: seq<Observation>, t: real, limits: Limits)
    requires BothClasses(obs)
    ensures var row := RowAt(obs, t, limits);
      && row.threshold == t
      && SaysCounts(row, Count(obs, HitAtLeast(t)), Count(obs, AtLeast(t)), Count(obs, Positive()), |obs|)
      && (row.eligible <==>
           row.recall >= limits.recallMin && row.precision >= limits.precisionMin && row.rate <= limits.rateMax)
  {
    hide SaysCounts, FMeasure, Ratio;
    CountMonotone(obs, HitAtLeast(t), AtLeast(t));
    QuotientsSayCounts(
      RowAt(obs, t, limits), Count(obs, HitAtLeast(t)), Count(obs, AtLeast(t)), Count(obs, Positive()), |obs|);
  }

  lemma RatioSaysTheCounts(n: nat, d: nat)
    requires d > 0
    ensures Ratio(n, d) * d as real == n as real
  {
    QuotientTimes(n as real, d as real);
  }

  lemma NoFMeasure(recall: real)
    ensures FMeasure(0.0, recall) == 0.0
  {
    if recall != 0.0 {
      QuotientIs(0.0, 2.0 * 0.0 * recall, recall);
    }
  }

  lemma FMeasureSaysTheCounts(hits: nat, predicted: nat, positives: nat)
    requires hits <= predicted && positives > 0
    ensures var precision := if predicted > 0 then Ratio(hits, predicted) else 0.0;
      FMeasure(precision, Ratio(hits, positives)) * (positives as real + predicted as real) == 2.0 * hits as real
  {
    if predicted > 0 {
      ClosedFormOfFMeasure(hits, predicted, positives);
      QuotientTimes((2 * hits) as real, (positives + predicted) as real);
    } else {
      NoFMeasure(Ratio(hits, positives));
    }
  }

  lemma SweptRowIsRescanned(obs: seq<Observation>, sorted: seq<Observation>, start: nat, end: nat, limits: Limits)
    requires BothClasses(obs) && multiset(sorted) == multiset(obs) && Descending(sorted)
    requires IsRun(sorted, start, end)
    ensures RowAt(obs, sorted[start].score, limits)
         == SweptRow(sorted[start].score, Count(sorted[..end], Positive()), end, Count(obs, Positive()), |obs|, limits)
  {
    var t := sorted[start].score;
    RunEndCounts(sorted, start, end);
    CountPermutation(sorted, obs, AtLeast(t));
    CountPermutation(sorted, obs, HitAtLeast(t));
    ClosedFormOfFMeasure(Count(sorted[..end], Positive()), end, Count(obs, Positive()));
  }

  /** One pass over the sorted scores computes the table of the rescanning form. */
  method SweepTable(obs: seq<Observation>, limits: Limits) returns (rows: seq<ThresholdRow>)
    requires BothClasses(obs)
    ensures IsThresholdTable(obs, limits, rows)
  {
    var sorted := SortedByScore(obs);
    SortedByScoreFacts(obs);
    var cumulative := CumulativeHits(sorted);
    var ends := GroupEnds(sorted);
    var totalPositives := Count(obs, Positive());
    rows := [];
    var groupStart := 0;
    for j := 0 to |ends|
      invariant groupStart == GroupStart(ends, j)
      invariant |rows| == j
      invariant forall k {:trigger GroupStart(ends, k)} | 0 <= k < j ::
        GroupStart(ends, k) < |sorted| && rows[k] == RowAt(obs, sorted[GroupStart(ends, k)].score, limits)
    {
      var groupEnd := ends[j];
      assert IsRun(sorted, groupStart, groupEnd);
      var hits := cumulative[groupEnd - 1];
      SweptRowIsRescanned(obs, sorted, groupStart, groupEnd, limits);
      rows := rows + [SweptRow(sorted[groupStart].score, hits, groupEnd, totalPositives, |obs|, limits)];
      groupStart := groupEnd;
    }
    RunScoresAreThresholds(obs, sorted, ends, ThresholdColumn(rows));
    forall k | 0 <= k < |rows| ensures rows[k] == RowAt(obs, rows[k].threshold, limits) {
      assert rows[k] == RowAt(obs, sorted[GroupStart(ends, k)].score, limits);
    }
  }
}
