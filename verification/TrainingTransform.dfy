/** The month-by-month training transform and its temporal non-interference
    (src/flight_delay/modeling/v3/features.py and src/flight_delay/modeling/v2/features.py). */
module TrainingTransform {
  import opened Calendar
  import opened Counting
  import opened HistoricalState
  import opened HistoryTables
  import opened Ordering
  import opened ServingTransform
  import Seasonal

  const PERIOD_START := Month(2024, 2)
  const PERIOD_END_EXCLUSIVE := Month(2025, 12)

  function BeforeMonth(m: Month): Labelled -> bool { (r: Labelled) => Before(r.flight.date, FirstDay(m)) }

  /** The state from all eligible rows before month `m`. */
  function StateBefore(history: seq<Labelled>, m: Month): Result<SeasonalState> {
    BuildState(Filter(history, BeforeMonth(m)), CutoffBefore(m))
  }

  // ---------------------------------------------------------------- when the state exists

  /** In one of the three months before `m`. */
  predicate InTrailingWindow(d: Date, m: Month) {
    MonthBefore(MonthOf(d), m) && !MonthBefore(MonthOf(d), PreviousMonth(PreviousMonth(PreviousMonth(m))))
  }

  lemma TrailingWindowIsTheRecentOne(m: Month, d: Date)
    requires ValidMonth(m) && ValidDate(d)
    ensures InTrailingWindow(d, m) <==> Before(d, FirstDay(m)) && !Before(d, RecentStart(CutoffBefore(m)))
  {
  }

  ghost predicate HasTrailingHistory(history: seq<Labelled>, m: Month) {
    exists r | r in history :: InTrailingWindow(r.flight.date, m)
  }

  /** On the training path the cutoff guard never fires, and the builder refuses a month exactly
      when none of the three months before it has a row. */
  lemma StateExistsExactly(history: seq<Labelled>, m: Month)
    requires ValidMonth(m) && ValidHistory(history)
    ensures StateBefore(history, m).Ok? <==> HasTrailingHistory(history, m)
  {
    hide StableSort, SeasonalStateOf, RecentStart, CutoffBefore, InTrailingWindow, Before, FirstDay;
    var eligible, cutoff := Filter(history, BeforeMonth(m)), CutoffBefore(m);
    FilterMembers(history, BeforeMonth(m));
    NormalizedKeepsRows(eligible);
    FilterMembers(Normalized(eligible), OnOrAfter(RecentStart(cutoff)));
    forall r | r in eligible ensures !Before(cutoff, r.flight.date) {
      CutoffSeparates(m, r.flight.date);
    }
    forall r | r in history
      ensures InTrailingWindow(r.flight.date, m)
         <==> BeforeMonth(m)(r) && OnOrAfter(RecentStart(cutoff))(r)
    {
      TrailingWindowIsTheRecentOne(m, r.flight.date);
    }
    RecentExists(history, eligible, Filter(Normalized(eligible), OnOrAfter(RecentStart(cutoff))), m, RecentStart(cutoff));
  }

  lemma RecentExists(history: seq<Labelled>, eligible: seq<Labelled>, recent: seq<Labelled>, m: Month, start: Date)
    requires forall r :: r in eligible <==> r in history && BeforeMonth(m)(r)
    requires forall r :: r in recent <==> r in eligible && OnOrAfter(start)(r)
    requires forall r | r in history :: InTrailingWindow(r.flight.date, m) <==> BeforeMonth(m)(r) && OnOrAfter(start)(r)
    ensures recent != [] <==> HasTrailingHistory(history, m)
    ensures recent != [] ==> eligible != []
  {
    hide InTrailingWindow, BeforeMonth, OnOrAfter;
    if recent != [] {
      assert recent[0] in recent;
    }
    if HasTrailingHistory(history, m) {
      var r :| r in history && InTrailingWindow(r.flight.date, m);
      assert r in recent;
    }
  }

  // ---------------------------------------------------------------- the guards never fire

  lemma MaxYearIsEarlier(rows: seq<Labelled>, m: Month, month: int)
    requires forall r | r in rows :: MonthBefore(MonthOf(r.flight.date), m)
    requires month == m.month && m.year > 0 && month in MaxYears(rows)
    ensures MaxYears(rows)[month] < m.year
  {
    LatestYearIsLatest(rows, month);
  }

  /** The state before a month ends before it, and holds that calendar month only from strictly
      earlier years: neither guard can refuse a row of that month. */
  lemma GuardsNeverFire(history: seq<Labelled>, m: Month, f: Flight)
    requires ValidMonth(m) && ValidHistory(history) && StateBefore(history, m).Ok?
    requires ValidFlight(f) && MonthOf(f.date) == m
    ensures Before(StateBefore(history, m).value.base.asOf, FirstDay(MonthOf(f.date)))
    ensures !ServingTransform.OwnYearInState(f, StateBefore(history, m).value)
  {
    hide StableSort, BaseStateOf, RecentStart, Aggregate, CutoffBefore;
    var eligible, cutoff := Filter(history, BeforeMonth(m)), CutoffBefore(m);
    BuiltStatesAreUsable(eligible, cutoff);
    assert Before(cutoff, FirstDay(m)) by {
      CutoffSeparates(m, FirstDay(m));
    }
    FilterMembers(history, BeforeMonth(m));
    NormalizedKeepsRows(eligible);
    var rows := Normalized(eligible);
    forall r | r in rows ensures MonthBefore(MonthOf(r.flight.date), m) {
      CutoffSeparates(m, r.flight.date);
    }
    if f.date.month in MaxYears(rows) {
      MaxYearIsEarlier(rows, m, f.date.month);
    }
  }

  // ---------------------------------------------------------------- temporal non-interference

  /** The two histories have the same rows before month `m`. */
  ghost predicate AgreeBefore(a: seq<Labelled>, b: seq<Labelled>, m: Month) {
    multiset(Filter(a, BeforeMonth(m))) == multiset(Filter(b, BeforeMonth(m)))
  }

  lemma AgreeingStates(a: seq<Labelled>, b: seq<Labelled>, m: Month)
    requires AgreeBefore(a, b, m)
    ensures StateBefore(a, m) == StateBefore(b, m)
  {
    hide BuildState;
    StateIgnoresRowOrder(Filter(a, BeforeMonth(m)), Filter(b, BeforeMonth(m)), CutoffBefore(m));
  }

  /** Give every row from month `m` on another label. */
  function Relabelled(history: seq<Labelled>, m: Month, labelOf: Labelled -> int): seq<Labelled> {
    if history == [] then []
    else
      var r := history[0];
      [if BeforeMonth(m)(r) then r else Labelled(r.flight, labelOf(r))] + Relabelled(history[1..], m, labelOf)
  }

  lemma {:induction false} RelabellingLater(history: seq<Labelled>, m: Month, labelOf: Labelled -> int)
    ensures Filter(Relabelled(history, m, labelOf), BeforeMonth(m)) == Filter(history, BeforeMonth(m))
  {
    hide Before, FirstDay;
    if history != [] {
      RelabellingLater(history[1..], m, labelOf);
      var changed := Relabelled(history, m, labelOf);
      assert changed[1..] == Relabelled(history[1..], m, labelOf);
      assert BeforeMonth(m)(changed[0]) == BeforeMonth(m)(history[0]);
    }
  }

  // ---------------------------------------------------------------- the training set

  datatype TrainingRow = TrainingRow(features: RowFeatures, target: int, date: Date)

  datatype TrainingSet = TrainingSet(rows: seq<TrainingRow>, states: map<Month, SeasonalState>)

  /** `out` is the training row of `row`: features from the state before its month only, and its
      own label and date beside them. */
  ghost predicate IsRowFor(history: seq<Labelled>, row: Labelled, out: TrainingRow) {
    && ValidDate(row.flight.date) && Seasonal.AnchorYears(row.flight.date.year)
    && StateBefore(history, MonthOf(row.flight.date)).Ok?
    && SeasonallyUsable(StateBefore(history, MonthOf(row.flight.date)).value)
    && AreFeatures(row.flight, StateBefore(history, MonthOf(row.flight.date)).value, out.features)
    && out.target == row.target && out.date == row.flight.date
  }

  ghost predicate IsTrainingSet(history: seq<Labelled>, rows: seq<Labelled>, out: TrainingSet) {
    && |out.rows| == |rows|
    && (forall i | 0 <= i < |rows| :: IsRowFor(history, rows[i], out.rows[i]))
    && (forall m :: m in out.states <==> exists r :: r in rows && MonthOf(r.flight.date) == m)
    && (forall m | m in out.states :: StateBefore(history, m) == Ok(out.states[m]))
  }

  /** Two runs whose histories agree before month `m` give any month-`m` flight the same features,
      whatever the labels of month `m` and later are, the row's own included. */
  lemma TemporalNonInterference(
      a: seq<Labelled>, rowsA: seq<Labelled>, outA: TrainingSet,
      b: seq<Labelled>, rowsB: seq<Labelled>, outB: TrainingSet, m: Month, i: nat, j: nat)
    requires IsTrainingSet(a, rowsA, outA) && IsTrainingSet(b, rowsB, outB)
    requires AgreeBefore(a, b, m)
    requires i < |rowsA| && j < |rowsB| && rowsA[i].flight == rowsB[j].flight && MonthOf(rowsA[i].flight.date) == m
    ensures outA.rows[i].features == outB.rows[j].features
  {
    hide StateBefore, AreFeatures, Usable;
    AgreeingStates(a, b, m);
    assert IsRowFor(a, rowsA[i], outA.rows[i]) && IsRowFor(b, rowsB[j], outB.rows[j]);
    FeaturesAreUnique(rowsA[i].flight, StateBefore(a, m).value, outA.rows[i].features, outB.rows[j].features);
  }

  /** In particular, rewriting any labels from month `m` on changes no month-`m` feature. */
  lemma LaterLabelsAreInvisible(
      history: seq<Labelled>, rows: seq<Labelled>, out: TrainingSet,
      rowsB: seq<Labelled>, outB: TrainingSet, m: Month, labelOf: Labelled -> int, i: nat)
    requires IsTrainingSet(history, rows, out) && IsTrainingSet(Relabelled(history, m, labelOf), rowsB, outB)
    requires i < |rows| && i < |rowsB| && rows[i].flight == rowsB[i].flight && MonthOf(rows[i].flight.date) == m
    ensures out.rows[i].features == outB.rows[i].features
  {
    hide StateBefore, AreFeatures, Usable;
    RelabellingLater(history, m, labelOf);
    TemporalNonInterference(history, rows, out, Relabelled(history, m, labelOf), rowsB, outB, m, i, i);
  }

  // ---------------------------------------------------------------- rows with their index

  datatype Indexed<T> = Indexed(index: nat, value: T)

  function Enumerate(rows: seq<Labelled>): (xs: seq<Indexed<Labelled>>)
    ensures |xs| == |rows| && forall i | 0 <= i < |rows| :: xs[i] == Indexed(i, rows[i])
  {
    seq(|rows|, i requires 0 <= i < |rows| => Indexed(i, rows[i]))
  }

  ghost predicate DistinctIndex<T>(xs: seq<Indexed<T>>) {
    forall i, j | 0 <= i < j < |xs| :: xs[i].index != xs[j].index
  }

  ghost predicate HasIndex<T>(xs: seq<Indexed<T>>, index: nat) {
    exists i :: 0 <= i < |xs| && xs[i].index == index
  }

  function EarlierRow(): (Indexed<Labelled>, Indexed<Labelled>) -> bool {
    (a: Indexed<Labelled>, b: Indexed<Labelled>) => Before(a.value.flight.date, b.value.flight.date)
  }

  function EarlierIndex<T>(): (Indexed<T>, Indexed<T>) -> bool {
    (a: Indexed<T>, b: Indexed<T>) => a.index < b.index
  }

  function InMonth(m: Month): Indexed<Labelled> -> bool {
    (x: Indexed<Labelled>) => MonthOf(x.value.flight.date) == m
  }

  /** The different months of `xs`, in order of appearance. */
  function Months(xs: seq<Indexed<Labelled>>): seq<Month> {
    if xs == [] then []
    else
      var front := Months(xs[..|xs| - 1]);
      var m := MonthOf(xs[|xs| - 1].value.flight.date);
      if m in front then front else front + [m]
  }

  lemma {:induction false} MonthsAreAllMonths(xs: seq<Indexed<Labelled>>)
    ensures Distinct(Months(xs))
    ensures forall m :: m in Months(xs) <==> exists x :: x in xs && MonthOf(x.value.flight.date) == m
  {
    if xs != [] {
      MonthsAreAllMonths(xs[..|xs| - 1]);
      assert xs == xs[..|xs| - 1] + [xs[|xs| - 1]];
    }
  }

  lemma SortedIndicesStayDistinct<T(!new)>(xs: seq<Indexed<T>>, precedes: (Indexed<T>, Indexed<T>) -> bool)
    requires DistinctIndex(xs)
    ensures DistinctIndex(StableSort(xs, precedes))
    ensures forall x :: x in StableSort(xs, precedes) <==> x in xs
  {
    hide StableSort;
    var ys := StableSort(xs, precedes);
    SortIsPermutation(xs, precedes);
    SameElements(xs, ys);
    PermutationIsDistinct(xs, ys);
    forall i, j | 0 <= i < j < |ys| ensures ys[i].index != ys[j].index {
      assert ys[i] in ys && ys[j] in ys;
      var a :| 0 <= a < |xs| && xs[a] == ys[i];
      var b :| 0 <= b < |xs| && xs[b] == ys[j];
      assert a != b;
    }
  }

  lemma {:induction false} FilteredIndicesStayDistinct<T(!new)>(xs: seq<Indexed<T>>, p: Indexed<T> -> bool)
    requires DistinctIndex(xs)
    ensures DistinctIndex(Filter(xs, p))
  {
    if xs != [] {
      FilteredIndicesStayDistinct(xs[1..], p);
      FilterMembers(xs[1..], p);
      var rest := Filter(xs[1..], p);
      forall i | 0 <= i < |rest| ensures rest[i].index != xs[0].index {
        assert rest[i] in xs[1..];
      }
    }
  }

  /** Sorted by distinct indices that cover `0..n`, the element at position `k` has index `k`. */
  lemma {:induction false} SortedIndexIsPosition<T(!new)>(xs: seq<Indexed<T>>, n: nat)
    requires SortedBy(xs, EarlierIndex()) && DistinctIndex(xs)
    requires forall i | 0 <= i < |xs| :: xs[i].index < n
    requires forall k: nat | k < n :: HasIndex(xs, k)
    ensures |xs| == n && forall k | 0 <= k < n :: xs[k].index == k
    decreases n
  {
    if n > 0 {
      var top: nat := n - 1;
      assert HasIndex(xs, top);
      var i :| 0 <= i < |xs| && xs[i].index == top;
      var front := xs[..|xs| - 1];
      forall k | 0 <= k < |xs| - 1 ensures xs[k].index < xs[|xs| - 1].index {
        assert !EarlierIndex()(xs[|xs| - 1], xs[k]);
      }
      forall k: nat | k < top ensures HasIndex(front, k) {
        assert HasIndex(xs, k);
        var j :| 0 <= j < |xs| && xs[j].index == k;
        assert front[j].index == k;
      }
      SortedIndexIsPosition(front, top);
    } else {
      assert |xs| > 0 ==> xs[0].index < n;
    }
  }

  lemma SortBackByIndex<T(!new)>(xs: seq<Indexed<T>>, n: nat)
    requires DistinctIndex(xs)
    requires forall i | 0 <= i < |xs| :: xs[i].index < n
    requires forall k: nat | k < n :: HasIndex(xs, k)
    ensures var ys := StableSort(xs, EarlierIndex());
      && |ys| == n && (forall k | 0 <= k < n :: ys[k].index == k)
      && (forall y | y in ys :: y in xs)
  {
    hide StableSort;
    var ys := StableSort(xs, EarlierIndex());
    SortedIndicesStayDistinct(xs, EarlierIndex());
    forall i | 0 <= i < |xs| ensures xs[i] in Elements(xs) {
    }
    SortIsSorted(xs, Elements(xs), EarlierIndex());
    forall i | 0 <= i < |ys| ensures ys[i].index < n {
      assert ys[i] in ys;
    }
    forall k: nat | k < n ensures HasIndex(ys, k) {
      assert HasIndex(xs, k);
      var i :| 0 <= i < |xs| && xs[i].index == k;
      assert xs[i] in ys;
      var j :| 0 <= j < |ys| && ys[j] == xs[i];
      assert ys[j].index == k;
    }
    SortedIndexIsPosition(ys, n);
  }

  // ---------------------------------------------------------------- the loop over months

  predicate InPeriod(m: Month) { !MonthBefore(m, PERIOD_START) && MonthBefore(m, PERIOD_END_EXCLUSIVE) }

  /** Exactly when training rows can be made: valid inputs, every row in the model period, and for
      every row some labelled flight in the three months before its own. */
  ghost predicate Trainable(history: seq<Labelled>, rows: seq<Labelled>) {
    && ValidHistory(history) && ValidHistory(rows)
    && (forall r | r in rows :: InPeriod(MonthOf(r.flight.date)))
    && (forall r | r in rows :: HasTrailingHistory(history, MonthOf(r.flight.date)))
  }

  lemma StateBeforeSorted(history: seq<Labelled>, m: Month)
    ensures StateBefore(Normalized(history), m) == StateBefore(history, m)
  {
    hide StateBefore, Normalized;
    NormalizedKeepsRows(history);
    FilterPermutation(Normalized(history), history, BeforeMonth(m));
    AgreeingStates(Normalized(history), history, m);
  }

  /** One iteration: all rows of one month against the state before it. */
  method TransformMonth(history: seq<Labelled>, monthly: seq<Indexed<Labelled>>, m: Month)
    returns (r: Result<(SeasonalState, seq<Indexed<TrainingRow>>)>)
    requires ValidHistory(history) && InPeriod(m) && ValidMonth(m)
    requires monthly != []
    requires forall x | x in monthly :: ValidFlight(x.value.flight) && MonthOf(x.value.flight.date) == m
    ensures r.Ok? <==> HasTrailingHistory(history, m)
    ensures r.Ok? ==>
      && StateBefore(history, m) == Ok(r.value.0)
      && |r.value.1| == |monthly|
      && (forall k | 0 <= k < |monthly| :: r.value.1[k].index == monthly[k].index)
      && (forall k | 0 <= k < |monthly| :: IsRowFor(history, monthly[k].value, r.value.1[k].value))
  {
    hide BuildState, Usable, AreFeatures, HasTrailingHistory, Before, Normalized;
    StateExistsExactly(history, m);
    StateBeforeSorted(history, m);
    var built := BuildState(Filter(Normalized(history), BeforeMonth(m)), CutoffBefore(m));
    if built.Err? {
      return Err(built.failure);
    }
    var state := built.value;
    BuiltStatesAreUsable(Filter(Normalized(history), BeforeMonth(m)), CutoffBefore(m));
    var flights := seq(|monthly|, k requires 0 <= k < |monthly| => monthly[k].value.flight);
    forall k | 0 <= k < |flights|
      ensures ValidFlight(flights[k]) && Servable(flights[k], state)
      ensures Before(state.base.asOf, FirstDay(MonthOf(flights[k].date)))
    {
      assert monthly[k] in monthly;
      GuardsNeverFire(history, m, flights[k]);
    }
    var features := TransformBatch(flights, state);
    var rows: seq<Indexed<TrainingRow>> := seq(|monthly|, k requires 0 <= k < |monthly| =>
      Indexed(monthly[k].index, TrainingRow(features.value[k], monthly[k].value.target, monthly[k].value.flight.date)));
    forall k | 0 <= k < |monthly| ensures IsRowFor(history, monthly[k].value, rows[k].value) {
      assert monthly[k] in monthly && AreFeatures(flights[k], state, features.value[k]);
    }
    r := Ok((state, rows));
  }

  /** What has been collected once the rows of `done` months are through. */
  ghost predicate Collected(
      history: seq<Labelled>, rows: seq<Labelled>, done: seq<Month>, collected: seq<Indexed<TrainingRow>>)
  {
    && DistinctIndex(collected)
    && (forall i | 0 <= i < |collected| :: collected[i].index < |rows|
          && MonthOf(rows[collected[i].index].flight.date) in done
          && IsRowFor(history, rows[collected[i].index], collected[i].value))
    && (forall k: nat | k < |rows| && MonthOf(rows[k].flight.date) in done :: HasIndex(collected, k))
  }

  lemma CollectMonth(
      history: seq<Labelled>, rows: seq<Labelled>, done: seq<Month>, m: Month,
      collected: seq<Indexed<TrainingRow>>, monthly: seq<Indexed<Labelled>>, more: seq<Indexed<TrainingRow>>)
    requires Collected(history, rows, done, collected) && m !in done
    requires DistinctIndex(monthly)
    requires forall x :: x in monthly <==> x.index < |rows| && x.value == rows[x.index] && MonthOf(x.value.flight.date) == m
    requires |more| == |monthly| && forall k | 0 <= k < |monthly| :: more[k].index == monthly[k].index
    requires forall k | 0 <= k < |monthly| :: IsRowFor(history, monthly[k].value, more[k].value)
    ensures Collected(history, rows, done + [m], collected + more)
  {
    hide IsRowFor;
    var both := collected + more;
    forall k | 0 <= k < |more|
      ensures more[k].index < |rows| && MonthOf(rows[more[k].index].flight.date) == m
      ensures more[k].index < |rows| && IsRowFor(history, rows[more[k].index], more[k].value)
    {
      assert monthly[k] in monthly;
    }
    forall k: nat | k < |rows| && MonthOf(rows[k].flight.date) in done + [m] ensures HasIndex(both, k) {
      if MonthOf(rows[k].flight.date) == m {
        var x := Indexed(k, rows[k]);
        assert x in monthly;
        var i :| 0 <= i < |monthly| && monthly[i] == x;
        assert both[|collected| + i].index == k;
      } else {
        assert HasIndex(collected, k);
        var i :| 0 <= i < |collected| && collected[i].index == k;
        assert both[i].index == k;
      }
    }
  }

  /** The rows of `ordered` are those of `rows`, each once, and `months` their months. */
  ghost predicate Grouped(rows: seq<Labelled>, ordered: seq<Indexed<Labelled>>, months: seq<Month>) {
    && DistinctIndex(ordered) && Distinct(months)
    && (forall x :: x in ordered <==> x.index < |rows| && x.value == rows[x.index])
    && (forall m :: m in months <==> exists x :: x in ordered && MonthOf(x.value.flight.date) == m)
  }

  ghost predicate StatesOf(history: seq<Labelled>, months: seq<Month>, states: map<Month, SeasonalState>) {
    && (forall m :: m in states <==> m in months)
    && (forall m | m in states :: StateBefore(history, m) == Ok(states[m]))
  }

  /** The loop over the months, in order of appearance. */
  method TransformMonths(
      history: seq<Labelled>, rows: seq<Labelled>, ordered: seq<Indexed<Labelled>>, months: seq<Month>)
    returns (r: Result<(map<Month, SeasonalState>, seq<Indexed<TrainingRow>>)>)
    requires ValidHistory(history) && ValidHistory(rows) && forall row | row in rows :: InPeriod(MonthOf(row.flight.date))
    requires Grouped(rows, ordered, months)
    ensures r.Ok? <==> forall m | m in months :: HasTrailingHistory(history, m)
    ensures r.Ok? ==> StatesOf(history, months, r.value.0) && Collected(history, rows, months, r.value.1)
  {
    hide IsRowFor, HasTrailingHistory, StateBefore, Before, Filter, ValidHistory, DistinctIndex, InPeriod;
    NothingCollected(history, rows);
    hide Collected;
    var collected: seq<Indexed<TrainingRow>> := [];
    var states: map<Month, SeasonalState> := map[];
    for k := 0 to |months|
      invariant Collected(history, rows, months[..k], collected)
      invariant StatesOf(history, months[..k], states)
      invariant forall m | m in months[..k] :: HasTrailingHistory(history, m)
    {
      var m := months[k];
      assert m in months && months[..k + 1] == months[..k] + [m] && m !in months[..k];
      var monthly := Filter(ordered, InMonth(m));
      MonthlyRows(rows, ordered, months, monthly, m);
      var one := TransformMonth(history, monthly, m);
      if one.Err? {
        return Err(one.failure);
      }
      CollectMonth(history, rows, months[..k], m, collected, monthly, one.value.1);
      states := states[m := one.value.0];
      collected := collected + one.value.1;
    }
    assert months[..|months|] == months;
    r := Ok((states, collected));
  }

  /** `transform_v3_training_rows`: sort, group by month, transform each group against the state
      before it, and put the rows back in their original order. */
  method TransformTrainingRows(fullHistory: seq<Labelled>, modelRows: seq<Labelled>) returns (r: Result<TrainingSet>)
    ensures r.Ok? <==> Trainable(fullHistory, modelRows)
    ensures r.Ok? ==> IsTrainingSet(fullHistory, modelRows, r.value)
  {
    hide IsRowFor, HasTrailingHistory, StateBefore, Before, StableSort, Filter, Months, ValidLabelled, Collected, Grouped;
    if !ValidHistory(fullHistory) || !ValidHistory(modelRows) {
      return Err(InvalidRows);
    }
    if exists row | row in modelRows :: MonthBefore(MonthOf(row.flight.date), PERIOD_START) {
      return Err(BeforePeriod);
    }
    if exists row | row in modelRows :: !MonthBefore(MonthOf(row.flight.date), PERIOD_END_EXCLUSIVE) {
      return Err(AfterPeriod);
    }
    var ordered := StableSort(Enumerate(modelRows), EarlierRow());
    var months := Months(ordered);
    GroupedByMonth(modelRows, ordered, months);
    var groups := TransformMonths(fullHistory, modelRows, ordered, months);
    GroupsAreTheRowMonths(modelRows, ordered, months);
    if groups.Err? {
      return Err(groups.failure);
    }
    var sorted := StableSort(groups.value.1, EarlierIndex());
    var rows := seq(|sorted|, k requires 0 <= k < |sorted| => sorted[k].value);
    RowsAreInOrder(fullHistory, modelRows, months, groups.value.1, sorted, rows);
    r := Ok(TrainingSet(rows, groups.value.0));
  }

  lemma GroupedByMonth(rows: seq<Labelled>, ordered: seq<Indexed<Labelled>>, months: seq<Month>)
    requires ordered == StableSort(Enumerate(rows), EarlierRow()) && months == Months(ordered)
    ensures Grouped(rows, ordered, months)
  {
    hide StableSort, Months, Distinct, DistinctIndex;
    EnumerateMembers(rows);
    SortedIndicesStayDistinct(Enumerate(rows), EarlierRow());
    MonthsAreAllMonths(ordered);
  }

  lemma GroupsAreTheRowMonths(rows: seq<Labelled>, ordered: seq<Indexed<Labelled>>, months: seq<Month>)
    requires Grouped(rows, ordered, months)
    ensures forall k | 0 <= k < |rows| :: MonthOf(rows[k].flight.date) in months
    ensures forall m :: m in months <==> exists r :: r in rows && MonthOf(r.flight.date) == m
  {
    forall k | 0 <= k < |rows| ensures MonthOf(rows[k].flight.date) in months {
      assert Indexed(k, rows[k]) in ordered;
    }
    forall m | m in months ensures exists r :: r in rows && MonthOf(r.flight.date) == m {
      var x :| x in ordered && MonthOf(x.value.flight.date) == m;
      assert x.value in rows;
    }
  }

  lemma NothingCollected(history: seq<Labelled>, rows: seq<Labelled>)
    ensures Collected(history, rows, [], [])
  {
  }

  lemma RowsAreInOrder(
      history: seq<Labelled>, modelRows: seq<Labelled>, months: seq<Month>,
      collected: seq<Indexed<TrainingRow>>, sorted: seq<Indexed<TrainingRow>>, rows: seq<TrainingRow>)
    requires Collected(history, modelRows, months, collected)
    requires forall k | 0 <= k < |modelRows| :: MonthOf(modelRows[k].flight.date) in months
    requires sorted == StableSort(collected, EarlierIndex())
    requires |rows| == |sorted| && forall k | 0 <= k < |rows| :: rows[k] == sorted[k].value
    ensures |rows| == |modelRows| && forall k | 0 <= k < |rows| :: IsRowFor(history, modelRows[k], rows[k])
  {
    hide StableSort, IsRowFor, HasIndex;
    SortBackByIndex(collected, |modelRows|);
    forall k | 0 <= k < |rows| ensures IsRowFor(history, modelRows[k], rows[k]) {
      assert sorted[k] in collected;
    }
  }

  lemma EnumerateMembers(rows: seq<Labelled>)
    ensures DistinctIndex(Enumerate(rows))
    ensures forall x :: x in Enumerate(rows) <==> x.index < |rows| && x.value == rows[x.index]
  {
    forall x ensures x in Enumerate(rows) <==> x.index < |rows| && x.value == rows[x.index] {
      if x.index < |rows| && x.value == rows[x.index] {
        assert Enumerate(rows)[x.index] == x;
      }
    }
  }

  /** The rows of one month are valid and there are some. */
  lemma MonthlyRows(
      rows: seq<Labelled>, ordered: seq<Indexed<Labelled>>, months: seq<Month>, monthly: seq<Indexed<Labelled>>, m: Month)
    requires ValidHistory(rows) && forall r | r in rows :: InPeriod(MonthOf(r.flight.date))
    requires Grouped(rows, ordered, months) && m in months && monthly == Filter(ordered, InMonth(m))
    ensures monthly != [] && InPeriod(m) && ValidMonth(m) && DistinctIndex(monthly)
    ensures forall x | x in monthly :: ValidFlight(x.value.flight) && MonthOf(x.value.flight.date) == m
    ensures forall x :: x in monthly <==> x.index < |rows| && x.value == rows[x.index] && MonthOf(x.value.flight.date) == m
  {
    FilterMembers(ordered, InMonth(m));
    FilteredIndicesStayDistinct(ordered, InMonth(m));
    var x :| x in ordered && MonthOf(x.value.flight.date) == m;
    assert x.value in rows && x in monthly;
    forall y | y in monthly ensures ValidFlight(y.value.flight) && MonthOf(y.value.flight.date) == m {
      assert y.value in rows;
    }
  }
}
