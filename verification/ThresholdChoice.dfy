/** Choosing a threshold, and the gates downstream of the choice
    (src/flight_delay/modeling/v1_selection.py, v2/selection.py and v3/selection.py). */
module ThresholdChoice {
  import opened Counting
  import opened Lexicographic
  import opened Observations
  import opened Options
  import opened RealQuotients
  import opened ThresholdSweep

  /** The six locked tie breaks: F1, precision and recall from high to low, then the lower positive
      rate, the threshold nearer to one half, and the higher threshold. */
  function ChoiceKey(): ThresholdRow -> seq<real> {
    (row: ThresholdRow) => [-row.f1, -row.precision, -row.recall, row.rate, Abs(row.threshold - 0.5), -row.threshold]
  }

  /** The order of preference: the higher F1; on a tie the higher precision, then the higher recall,
      the lower positive rate, the threshold nearer to one half, and the higher threshold. */
  predicate Preferred(best: ThresholdRow, row: ThresholdRow) {
    Higher(best.f1, row.f1, Higher(best.precision, row.precision, Higher(best.recall, row.recall,
      Lower(best.rate, row.rate,
        Lower(Abs(best.threshold - 0.5), Abs(row.threshold - 0.5), best.threshold >= row.threshold)))))
  }

  lemma KeysFollowThePreference(best: ThresholdRow, row: ThresholdRow)
    ensures !LexLess(ChoiceKey()(row), ChoiceKey()(best)) <==> Preferred(best, row)
  {
    hide LexLess, Abs;
    var a, b := ChoiceKey()(best), ChoiceKey()(row);
    assert a[0..] == a && b[0..] == b;
    LexPosition(a, b, 0);
    LexPosition(a, b, 1);
    LexPosition(a, b, 2);
    LexPosition(a, b, 3);
    LexPosition(a, b, 4);
    LexPosition(a, b, 5);
    assert !LexLess(b[6..], a[6..]) by {
      LexIrreflexive(a[6..]);
      assert a[6..] == b[6..];
    }
  }

  function Eligible(): ThresholdRow -> bool { (row: ThresholdRow) => row.eligible }

  function ChooseThresholdRow(rows: seq<ThresholdRow>): Option<ThresholdRow> {
    var eligible := Filter(rows, Eligible());
    if eligible == [] then None else Some(MinBy(eligible, ChoiceKey()))
  }

  lemma EligibleRows(rows: seq<ThresholdRow>)
    ensures Filter(rows, Eligible()) == [] <==> forall row | row in rows :: !row.eligible
    ensures forall row :: row in Filter(rows, Eligible()) <==> row in rows && row.eligible
  {
    var eligible := Filter(rows, Eligible());
    FilterMembers(rows, Eligible());
    assert eligible != [] ==> eligible[0] in eligible;
  }

  /** The choice is an eligible row preferred to every other one, and fails only without one. */
  lemma ChoiceIsOptimal(rows: seq<ThresholdRow>)
    ensures ChooseThresholdRow(rows).None? <==> forall row | row in rows :: !row.eligible
    ensures ChooseThresholdRow(rows).Some? ==>
      var best := ChooseThresholdRow(rows).value;
      && best in rows && best.eligible
      && forall row | row in rows && row.eligible :: Preferred(best, row)
  {
    hide Preferred, LexLess;
    var eligible := Filter(rows, Eligible());
    EligibleRows(rows);
    if eligible != [] {
      MinByIsLeast(eligible, ChoiceKey());
      var best := MinBy(eligible, ChoiceKey());
      forall row | row in rows && row.eligible ensures Preferred(best, row) {
        KeysFollowThePreference(best, row);
      }
    }
  }

  /** Rows preferred to each other have the same threshold, so the optimum is unique. */
  lemma OptimumIsUnique(obs: seq<Observation>, limits: Limits, table: seq<ThresholdRow>, row: ThresholdRow)
    requires BothClasses(obs) && IsThresholdTable(obs, limits, table)
    requires row in table && row.eligible
    requires forall other | other in table && other.eligible :: Preferred(row, other)
    ensures ChooseThresholdRow(table) == Some(row)
  {
    hide ChooseThresholdRow;
    ChoiceIsOptimal(table);
    var best := ChooseThresholdRow(table).value;
    assert Preferred(best, row) && Preferred(row, best);
    assert best.threshold == row.threshold;
    var i :| 0 <= i < |table| && table[i] == best;
    var j :| 0 <= j < |table| && table[j] == row;
  }

  // ---------------------------------------------------------------- which ties can happen

  lemma CountsOfThresholds(obs: seq<Observation>, s: real, t: real)
    requires s > t && (exists i :: 0 <= i < |obs| && obs[i].score == t)
    ensures Count(obs, AtLeast(s)) < Count(obs, AtLeast(t))
  {
    var between := (o: Observation) => t <= o.score < s;
    CountSplit(obs, AtLeast(t), AtLeast(s), between);
    CountIsBounded(obs, between);
    var i :| 0 <= i < |obs| && obs[i].score == t;
    assert between(obs[i]);
  }

  lemma SameRatioSameCount(a: nat, b: nat, d: nat)
    requires d > 0 && Ratio(a, d) == Ratio(b, d)
    ensures a == b
  {
    SameQuotientSameNumerator(a as real, b as real, d as real);
  }

  /** With a positive recall floor two different eligible rows never agree on precision and recall,
      so the last three tie breaks are never reached. */
  lemma EligibleRowsDiffer(obs: seq<Observation>, limits: Limits, table: seq<ThresholdRow>, j: nat, k: nat)
    requires BothClasses(obs) && IsThresholdTable(obs, limits, table) && limits.recallMin > 0.0
    requires j < k < |table| && table[j].eligible && table[k].eligible
    ensures table[j].precision != table[k].precision || table[j].recall != table[k].recall
  {
    var s, t := table[j].threshold, table[k].threshold;
    var xs := ThresholdColumn(table);
    assert xs[j] == s && xs[k] == t && xs[k] in xs;
    CountsOfThresholds(obs, s, t);
    var hits, hits' := Count(obs, HitAtLeast(s)), Count(obs, HitAtLeast(t));
    var predicted, predicted' := Count(obs, AtLeast(s)), Count(obs, AtLeast(t));
    var positives := Count(obs, Positive());
    HitsArePredicted(obs, s);
    if table[j].recall == table[k].recall {
      SameRatioSameCount(hits, hits', positives);
      if hits == 0 {
        QuotientIs(0.0, 0.0, positives as real);
      } else if table[j].precision == table[k].precision {
        SameQuotientSameDenominator(hits as real, predicted as real, predicted' as real);
      }
    }
  }

  lemma HitsArePredicted(obs: seq<Observation>, t: real)
    ensures Count(obs, HitAtLeast(t)) <= Count(obs, AtLeast(t)) <= |obs|
    ensures Count(obs, HitAtLeast(t)) <= Count(obs, Positive())
  {
    CountMonotone(obs, HitAtLeast(t), AtLeast(t));
    CountMonotone(obs, HitAtLeast(t), Positive());
    CountIsBounded(obs, AtLeast(t));
  }

  // ---------------------------------------------------------------- thresholds that are not scores

  /** The lowest score that is still at or above `t`. */
  lemma {:induction false} NextScore(obs: seq<Observation>, t: real) returns (k: nat)
    requires Count(obs, AtLeast(t)) > 0
    ensures k < |obs| && obs[k].score >= t
    ensures forall i | 0 <= i < |obs| && obs[i].score >= t :: obs[i].score >= obs[k].score
  {
    var n := |obs| - 1;
    var front := obs[..n];
    assert obs == front + [obs[n]];
    CountAppend(front, [obs[n]], AtLeast(t));
    if Count(front, AtLeast(t)) == 0 {
      CountIsBounded(front, AtLeast(t));
      assert forall i | 0 <= i < n :: !AtLeast(t)(front[i]);
      k := n;
    } else {
      k := NextScore(front, t);
      if t <= obs[n].score < obs[k].score {
        k := n;
      }
    }
  }

  /** Any threshold that predicts something acts as the next observed score does. */
  lemma ThresholdActsAsAScore(obs: seq<Observation>, t: real, limits: Limits) returns (k: nat)
    requires BothClasses(obs) && Count(obs, AtLeast(t)) > 0
    ensures k < |obs|
    ensures RowAt(obs, t, limits) == RowAt(obs, obs[k].score, limits).(threshold := t)
  {
    k := NextScore(obs, t);
    CountSame(obs, AtLeast(t), AtLeast(obs[k].score));
    CountSame(obs, HitAtLeast(t), HitAtLeast(obs[k].score));
  }

  /** The row of a threshold above every score. */
  lemma NothingPredicted(obs: seq<Observation>, t: real, limits: Limits)
    requires BothClasses(obs) && Count(obs, AtLeast(t)) == 0
    ensures RowAt(obs, t, limits).eligible <==>
      limits.recallMin <= 0.0 && limits.precisionMin <= 0.0 && limits.rateMax >= 0.0
  {
    HitsArePredicted(obs, t);
    QuotientIs(0.0, 0.0, Count(obs, Positive()) as real);
    QuotientIs(0.0, 0.0, |obs| as real);
  }

  /** `None` means that no real threshold whatever meets the constraints, except that a threshold
      above every score, which predicts nothing, meets constraints that allow predicting nothing. */
  lemma SelectionIsComplete(obs: seq<Observation>, limits: Limits, table: seq<ThresholdRow>)
    requires BothClasses(obs) && IsThresholdTable(obs, limits, table)
    ensures (exists t: real :: RowAt(obs, t, limits).eligible) <==>
      ChooseThresholdRow(table).Some? ||
      (limits.recallMin <= 0.0 && limits.precisionMin <= 0.0 && limits.rateMax >= 0.0)
  {
    ChoiceIsOptimal(table);
    var xs := ThresholdColumn(table);
    if t: real :| RowAt(obs, t, limits).eligible {
      if Count(obs, AtLeast(t)) > 0 {
        var k := ThresholdActsAsAScore(obs, t, limits);
      } else {
        NothingPredicted(obs, t, limits);
      }
    }
    if ChooseThresholdRow(table).Some? {
      var best := ChooseThresholdRow(table).value;
      assert RowAt(obs, best.threshold, limits).eligible;
    }
    var top := xs[0] + 1.0;
    CountIsBounded(obs, AtLeast(top));
    forall i | 0 <= i < |obs| ensures obs[i].score < top {
      assert obs[i].score in xs;
    }
    NothingPredicted(obs, top, limits);
  }

  // ---------------------------------------------------------------- when a missing choice misses a threshold

  function TopScore(obs: seq<Observation>): real
    requires obs != []
  {
    if |obs| == 1 then obs[0].score
    else
      var rest := TopScore(obs[1..]);
      if obs[0].score > rest then obs[0].score else rest
  }

  /** The share of the observations that have the highest score. */
  function TopShare(obs: seq<Observation>): real
    requires obs != []
  {
    Ratio(Count(obs, AtLeast(TopScore(obs))), |obs|)
  }

  lemma {:induction false} TopScoreIsHighest(obs: seq<Observation>)
    requires obs != []
    ensures exists i :: 0 <= i < |obs| && obs[i].score == TopScore(obs)
    ensures forall i | 0 <= i < |obs| :: obs[i].score <= TopScore(obs)
  {
    if |obs| > 1 {
      TopScoreIsHighest(obs[1..]);
      var k :| 0 <= k < |obs[1..]| && obs[1..][k].score == TopScore(obs[1..]);
      assert obs[k + 1].score == TopScore(obs[1..]);
      forall i | 0 <= i < |obs| ensures obs[i].score <= TopScore(obs) {
        assert i > 0 ==> obs[i] == obs[1..][i - 1];
      }
    } else {
      assert obs[0].score == TopScore(obs);
    }
  }

  /** The first row of the table is that of the highest score. */
  lemma FirstRowIsTheTop(obs: seq<Observation>, limits: Limits, table: seq<ThresholdRow>)
    requires BothClasses(obs) && IsThresholdTable(obs, limits, table)
    ensures table != [] && table[0] == RowAt(obs, TopScore(obs), limits)
  {
    var xs := ThresholdColumn(table);
    TopScoreIsHighest(obs);
    assert obs[0].score in xs && xs[0] in xs;
    var i :| 0 <= i < |obs| && obs[i].score == xs[0];
    var j :| 0 <= j < |obs| && obs[j].score == TopScore(obs);
    assert obs[j].score in xs;
    assert xs[0] == TopScore(obs);
  }

  /** A lower threshold predicts no fewer observations. */
  lemma RatesGrowDownwards(obs: seq<Observation>, s: real, t: real, limits: Limits)
    requires BothClasses(obs) && s >= t
    ensures RowAt(obs, s, limits).rate <= RowAt(obs, t, limits).rate
  {
    CountMonotone(obs, AtLeast(s), AtLeast(t));
    QuotientOrder(Count(obs, AtLeast(s)) as real, Count(obs, AtLeast(t)) as real, |obs| as real);
  }

  /** Without floors a threshold is observed and eligible exactly when the rate limit admits the
      observations of the highest score. */
  lemma ChoiceWithoutFloors(obs: seq<Observation>, limits: Limits, table: seq<ThresholdRow>)
    requires BothClasses(obs) && IsThresholdTable(obs, limits, table)
    requires limits.recallMin <= 0.0 && limits.precisionMin <= 0.0
    ensures ChooseThresholdRow(table).None? <==> limits.rateMax < TopShare(obs)
  {
    ChoiceIsOptimal(table);
    FirstRowIsTheTop(obs, limits, table);
    TopScoreIsHighest(obs);
    RowIsNonNegative(obs, TopScore(obs), limits);
    assert table[0] in table && table[0].rate == TopShare(obs);
    if ChooseThresholdRow(table).Some? {
      var best := ChooseThresholdRow(table).value;
      var k :| 0 <= k < |table| && table[k] == best;
      var xs := ThresholdColumn(table);
      assert xs[k] in xs;
      var i :| 0 <= i < |obs| && obs[i].score == xs[k];
      RatesGrowDownwards(obs, TopScore(obs), best.threshold, limits);
    }
  }

  /** The selector finds nothing although some threshold meets the constraints exactly when there
      are no floors and the rate limit lies below the share of the highest score: then only
      predicting nothing meets them, and no observed score does. */
  lemma MissesExactly(obs: seq<Observation>, limits: Limits, table: seq<ThresholdRow>)
    requires BothClasses(obs) && IsThresholdTable(obs, limits, table)
    ensures (ChooseThresholdRow(table).None? && exists t: real :: RowAt(obs, t, limits).eligible)
       <==> limits.recallMin <= 0.0 && limits.precisionMin <= 0.0 && 0.0 <= limits.rateMax < TopShare(obs)
  {
    hide RowAt, ChooseThresholdRow, TopShare, IsThresholdTable;
    SelectionIsComplete(obs, limits, table);
    if limits.recallMin <= 0.0 && limits.precisionMin <= 0.0 {
      ChoiceWithoutFloors(obs, limits, table);
    }
  }

  const TIED_SCORES: seq<Observation> := [Observation(0, 0.5), Observation(1, 0.5)]

  /** Two tied scores under a rate limit of one quarter and no floors: a threshold of one is
      eligible, and nothing is selected. */
  lemma SelectionCanMiss(table: seq<ThresholdRow>)
    requires BothClasses(TIED_SCORES) && IsThresholdTable(TIED_SCORES, Limits(0.0, 0.0, 0.25), table)
    ensures ChooseThresholdRow(table).None? && RowAt(TIED_SCORES, 1.0, Limits(0.0, 0.0, 0.25)).eligible
  {
    var limits := Limits(0.0, 0.0, 0.25);
    CountIsBounded(TIED_SCORES, AtLeast(1.0));
    NothingPredicted(TIED_SCORES, 1.0, limits);
    TopScoreIsHighest(TIED_SCORES);
    CountIsBounded(TIED_SCORES, AtLeast(TopScore(TIED_SCORES)));
    assert TopShare(TIED_SCORES) == 1.0;
    ChoiceWithoutFloors(TIED_SCORES, limits, table);
  }

  /** The premises of that example can be met. */
  lemma TiedScoresHaveATable() returns (table: seq<ThresholdRow>)
    ensures BothClasses(TIED_SCORES) && IsThresholdTable(TIED_SCORES, Limits(0.0, 0.0, 0.25), table)
  {
    assert Count(TIED_SCORES, Positive()) == 1;
    table := [RowAt(TIED_SCORES, 0.5, Limits(0.0, 0.0, 0.25))];
    var xs := ThresholdColumn(table);
    assert xs[0] == 0.5 && TIED_SCORES[0].score == 0.5;
  }

  // ---------------------------------------------------------------- the selector

  datatype Selection =
    | Invalid
    | Selected(choice: Option<ThresholdRow>, table: seq<ThresholdRow>)

  /** The whole selector: refuse malformed vectors, otherwise sweep and choose. */
  method SelectV1Threshold(targets: seq<int>, scores: seq<real>, limits: Limits) returns (r: Selection)
    ensures r.Invalid? <==> Malformed(targets, scores)
    ensures r.Selected? ==>
      var obs := Zip(targets, scores);
      && BothClasses(obs)
      && IsThresholdTable(obs, limits, r.table)
      && r.choice == ChooseThresholdRow(r.table)
      && (r.choice.None? <==> forall row | row in r.table :: !row.eligible)
      && (r.choice.Some? ==>
           && r.choice.value in r.table && r.choice.value.eligible
           && forall row | row in r.table && row.eligible :: Preferred(r.choice.value, row))
  {
    MalformedExactly(targets, scores);
    if !ValidInputs(targets, scores) {
      return Invalid;
    }
    ValidInputsHaveBothClasses(targets, scores);
    var table := SweepTable(Zip(targets, scores), limits);
    ChoiceIsOptimal(table);
    r := Selected(ChooseThresholdRow(table), table);
  }

  // ---------------------------------------------------------------- the high-recall search

  /** The different scores, from high to low, as `sorted(set(scores), reverse=True)` lists them. */
  function DistinctScores(obs: seq<Observation>): seq<real> {
    if obs == [] then [] else InsertScore(DistinctScores(obs[..|obs| - 1]), obs[|obs| - 1].score)
  }

  function InsertScore(xs: seq<real>, x: real): seq<real> {
    if xs == [] || x > xs[0] then [x] + xs
    else if x == xs[0] then xs
    else [xs[0]] + InsertScore(xs[1..], x)
  }

  lemma PrependLarger(xs: seq<real>, x: real)
    requires StrictlyDecreasing(xs) && forall y | y in xs :: y < x
    ensures StrictlyDecreasing([x] + xs)
  {
    forall i, j | 0 <= i < j < |[x] + xs| ensures ([x] + xs)[i] > ([x] + xs)[j] {
      assert xs[j - 1] in xs;
    }
  }

  lemma {:induction false} InsertScoreFacts(xs: seq<real>, x: real)
    requires StrictlyDecreasing(xs)
    ensures StrictlyDecreasing(InsertScore(xs, x))
    ensures forall y :: y in InsertScore(xs, x) <==> y in xs || y == x
  {
    if xs == [] || x > xs[0] {
    } else if x == xs[0] {
    } else {
      var tail := xs[1..];
      assert xs == [xs[0]] + tail;
      InsertScoreFacts(tail, x);
      var rest := InsertScore(tail, x);
      forall y | y in rest ensures y < xs[0] {
        if y != x {
          var i :| 0 <= i < |tail| && tail[i] == y;
          assert xs[i + 1] == y;
        }
      }
      PrependLarger(rest, xs[0]);
    }
  }

  lemma {:induction false} DistinctScoresAreThresholds(obs: seq<Observation>)
    ensures IsThresholds(obs, DistinctScores(obs))
  {
    if obs != [] {
      var front, last := obs[..|obs| - 1], obs[|obs| - 1];
      var xs := DistinctScores(front);
      DistinctScoresAreThresholds(front);
      InsertScoreFacts(xs, last.score);
      forall i | 0 <= i < |obs| ensures obs[i].score in DistinctScores(obs) {
        if i < |obs| - 1 {
          assert front[i] == obs[i];
        }
      }
      forall x | x in DistinctScores(obs) ensures exists i :: 0 <= i < |obs| && obs[i].score == x {
        if x == last.score {
          assert obs[|obs| - 1].score == x;
        } else {
          var i :| 0 <= i < |front| && front[i].score == x;
          assert obs[i].score == x;
        }
      }
    }
  }

  datatype SearchOperatingPoint =
    | BadVectors
    | SearchOperatingPoint(choice: Option<ThresholdRow>, bestF1: real)

  function SearchKey(): ThresholdRow -> seq<real> {
    (row: ThresholdRow) => [-row.precision, -row.recall, row.rate, Abs(row.threshold - 0.5), -row.threshold]
  }

  /** The search's order of preference starts at precision. */
  predicate SearchPreferred(best: ThresholdRow, row: ThresholdRow) {
    Higher(best.precision, row.precision, Higher(best.recall, row.recall, Lower(best.rate, row.rate,
      Lower(Abs(best.threshold - 0.5), Abs(row.threshold - 0.5), best.threshold >= row.threshold))))
  }

  lemma SearchKeysFollowThePreference(best: ThresholdRow, row: ThresholdRow)
    ensures !LexLess(SearchKey()(row), SearchKey()(best)) <==> SearchPreferred(best, row)
  {
    hide LexLess, Abs;
    var a, b := SearchKey()(best), SearchKey()(row);
    assert a[0..] == a && b[0..] == b;
    LexPosition(a, b, 0);
    LexPosition(a, b, 1);
    LexPosition(a, b, 2);
    LexPosition(a, b, 3);
    LexPosition(a, b, 4);
    assert !LexLess(b[5..], a[5..]) by {
      LexIrreflexive(a[5..]);
      assert a[5..] == b[5..];
    }
  }

  lemma LeastIsSearchChoice(table: seq<ThresholdRow>, eligible: seq<ThresholdRow>)
    requires eligible == Filter(table, Eligible()) && eligible != []
    ensures IsSearchChoice(table, Some(MinBy(eligible, SearchKey())))
  {
    hide SearchPreferred, LexLess, SearchKey;
    EligibleRows(table);
    MinByIsLeast(eligible, SearchKey());
    var best := MinBy(eligible, SearchKey());
    forall row | row in table && row.eligible ensures SearchPreferred(best, row) {
      SearchKeysFollowThePreference(best, row);
    }
  }

  /** `m` is the largest F1 in `rows`, zero when there is none. */
  ghost predicate IsBestF1(rows: seq<ThresholdRow>, rateMax: real, m: real) {
    && (forall row | row in rows && row.rate <= rateMax :: row.f1 <= m)
    && (if forall row | row in rows :: row.rate > rateMax then m == 0.0
        else exists row :: row in rows && row.rate <= rateMax && row.f1 == m)
  }

  ghost predicate IsSearchChoice(rows: seq<ThresholdRow>, choice: Option<ThresholdRow>) {
    match choice
    case None => forall row | row in rows :: !row.eligible
    case Some(best) =>
      && best in rows && best.eligible
      && forall row | row in rows && row.eligible :: SearchPreferred(best, row)
  }

  lemma FilterPrefixStep(rows: seq<ThresholdRow>, row: ThresholdRow)
    ensures Filter(rows + [row], Eligible()) == Filter(rows, Eligible()) + if row.eligible then [row] else []
  {
    FilterAppend(rows, [row], Eligible());
    assert Filter([row], Eligible()) == if row.eligible then [row] else [];
  }

  lemma RowIsNonNegative(obs: seq<Observation>, t: real, limits: Limits)
    requires BothClasses(obs)
    ensures var row := RowAt(obs, t, limits); row.precision >= 0.0 && row.recall >= 0.0 && row.f1 >= 0.0
  {
    var hits, predicted, positives := Count(obs, HitAtLeast(t)), Count(obs, AtLeast(t)), Count(obs, Positive());
    var precision := if predicted > 0 then Ratio(hits, predicted) else 0.0;
    var recall := Ratio(hits, positives);
    QuotientAtLeast(hits as real, positives as real, 0.0);
    if predicted > 0 {
      QuotientAtLeast(hits as real, predicted as real, 0.0);
    }
    FMeasureIsNonNegative(precision, recall);
  }

  lemma FMeasureIsNonNegative(precision: real, recall: real)
    requires precision >= 0.0 && recall >= 0.0
    ensures FMeasure(precision, recall) >= 0.0
  {
    ProductSign(precision, recall);
    if precision + recall > 0.0 {
      QuotientAtLeast(2.0 * precision * recall, precision + recall, 0.0);
    }
  }

  /** Rescan every observation for each threshold, keeping the rows of the operating region and the
      best F1 under the rate limit. */
  method ScanThresholds(obs: seq<Observation>, thresholds: seq<real>, recallMin: real, rateMax: real)
    returns (eligible: seq<ThresholdRow>, bestF1: real, ghost table: seq<ThresholdRow>)
    requires BothClasses(obs)
    ensures |table| == |thresholds|
    ensures forall j | 0 <= j < |table| :: table[j] == RowAt(obs, thresholds[j], Limits(recallMin, 0.0, rateMax))
    ensures eligible == Filter(table, Eligible())
    ensures IsBestF1(table, rateMax, bestF1)
  {
    var limits := Limits(recallMin, 0.0, rateMax);
    eligible, bestF1, table := [], 0.0, [];
    for k := 0 to |thresholds|
      invariant |table| == k
      invariant forall j | 0 <= j < k :: table[j] == RowAt(obs, thresholds[j], limits)
      invariant eligible == Filter(table, Eligible())
      invariant bestF1 >= 0.0 && IsBestF1(table, rateMax, bestF1)
    {
      var row := RowAt(obs, thresholds[k], limits);
      RowIsNonNegative(obs, thresholds[k], limits);
      FilterPrefixStep(table, row);
      if row.rate <= rateMax {
        bestF1 := if row.f1 > bestF1 then row.f1 else bestF1;
        if row.recall >= recallMin {
          eligible := eligible + [row];
        }
      }
      table := table + [row];
    }
  }

  /** Maximize precision at the required recall. */
  method SearchPoint(targets: seq<int>, scores: seq<real>, recallMin: real, rateMax: real)
    returns (point: SearchOperatingPoint, ghost table: seq<ThresholdRow>)
    ensures point.BadVectors? <==> Malformed(targets, scores)
    ensures point.SearchOperatingPoint? ==>
      var obs := Zip(targets, scores);
      && BothClasses(obs)
      && IsThresholdTable(obs, Limits(recallMin, 0.0, rateMax), table)
      && IsSearchChoice(table, point.choice)
      && IsBestF1(table, rateMax, point.bestF1)
  {
    MalformedExactly(targets, scores);
    if !ValidInputs(targets, scores) {
      return BadVectors, [];
    }
    ValidInputsHaveBothClasses(targets, scores);
    var obs := Zip(targets, scores);
    var thresholds := DistinctScores(obs);
    DistinctScoresAreThresholds(obs);
    var eligible, bestF1;
    eligible, bestF1, table := ScanThresholds(obs, thresholds, recallMin, rateMax);
    assert ThresholdColumn(table) == thresholds;
    EligibleRows(table);
    if eligible == [] {
      return SearchOperatingPoint(None, bestF1), table;
    }
    LeastIsSearchChoice(table, eligible);
    point := SearchOperatingPoint(Some(MinBy(eligible, SearchKey())), bestF1);
  }

  lemma SearchRowMatches(obs: seq<Observation>, limits: Limits, other: Limits,
                         table: seq<ThresholdRow>, table': seq<ThresholdRow>, row: ThresholdRow)
    requires BothClasses(obs)
    requires IsThresholdTable(obs, limits, table) && IsThresholdTable(obs, other, table')
    requires row in table
    ensures RowAt(obs, row.threshold, other) in table'
  {
    var k :| 0 <= k < |table| && table[k] == row;
    var xs := ThresholdColumn(table);
    assert xs[k] in xs;
    var i :| 0 <= i < |obs| && obs[i].score == row.threshold;
  }

  /** The two selectors agree: the governed one finds a threshold exactly when the search finds one
      whose precision reaches the floor, and the F1 it settles for is never above the search's best. */
  lemma SelectorAgreesWithSearch(obs: seq<Observation>, limits: Limits, table: seq<ThresholdRow>,
                                 table': seq<ThresholdRow>, choice: Option<ThresholdRow>, bestF1: real)
    requires BothClasses(obs)
    requires IsThresholdTable(obs, limits, table)
    requires IsThresholdTable(obs, Limits(limits.recallMin, 0.0, limits.rateMax), table')
    requires IsSearchChoice(table', choice) && IsBestF1(table', limits.rateMax, bestF1)
    ensures ChooseThresholdRow(table).Some? <==> choice.Some? && choice.value.precision >= limits.precisionMin
    ensures ChooseThresholdRow(table).Some? ==> ChooseThresholdRow(table).value.f1 <= bestF1
  {
    var relaxed := Limits(limits.recallMin, 0.0, limits.rateMax);
    ChoiceIsOptimal(table);
    if ChooseThresholdRow(table).Some? {
      var row := ChooseThresholdRow(table).value;
      SearchRowMatches(obs, limits, relaxed, table, table', row);
      RowIsNonNegative(obs, row.threshold, relaxed);
      assert SearchPreferred(choice.value, RowAt(obs, row.threshold, relaxed));
    }
    if choice.Some? && choice.value.precision >= limits.precisionMin {
      SearchRowMatches(obs, relaxed, limits, table', table, choice.value);
      assert RowAt(obs, choice.value.threshold, limits).eligible;
    }
  }
}
