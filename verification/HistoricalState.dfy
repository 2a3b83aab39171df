/** The prior-period propensity state: what it is built from, how a rate is smoothed, and what
    each looked-up rate says about the history (src/flight_delay/modeling/v2/features.py and
    src/flight_delay/modeling/v3/features.py). Rates are exact. */
module HistoricalState {
  import opened Calendar
  import opened Counting
  import opened HistoryTables
  import opened Options
  import opened Ordering
  import opened RealQuotients

  const PRIOR_STRENGTH := 50
  const TRAILING_MONTHS := 3

  datatype State = State(
    asOf: Date, global: Counts, recentGlobal: Counts,
    full: map<FullTable, map<Key, Counts>>, recent: map<RecentTable, map<Key, Counts>>, priorStrength: int)

  /** The seasonal state contains the state it extends. */
  datatype SeasonalState = SeasonalState(
    base: State, seasonal: map<SeasonalTable, map<Key, Counts>>, maxYear: map<int, int>)

  datatype Failure =
    | InvalidRows | LabelsAfterCutoff | EmptyRecentWindow
    | StateTooRecent | OwnYearInState | YearOutOfRange | BeforePeriod | AfterPeriod

  datatype Result<+T> = Ok(value: T) | Err(failure: Failure)

  const FULL_TABLES: set<FullTable> :=
    {Carrier, Origin, Destination, Route, CarrierRoute, CarrierOrigin, CarrierDestination,
     OriginDepartureHour, DestinationArrivalHour}

  const RECENT_TABLES: set<RecentTable> :=
    {RecentCarrier, RecentOrigin, RecentDestination, RecentRoute}

  const SEASONAL_TABLES: set<SeasonalTable> :=
    {MonthGlobal, MonthCarrier, MonthOrigin, MonthDestination, MonthRoute}

  lemma EveryTableIsListed()
    ensures forall t :: t in FULL_TABLES
    ensures forall t :: t in RECENT_TABLES
    ensures forall t :: t in SEASONAL_TABLES
  {
    forall t: FullTable ensures t in FULL_TABLES {
      match t
      case Carrier =>
      case Origin =>
      case Destination =>
      case Route =>
      case CarrierRoute =>
      case CarrierOrigin =>
      case CarrierDestination =>
      case OriginDepartureHour =>
      case DestinationArrivalHour =>
    }
    forall t: RecentTable ensures t in RECENT_TABLES {
      match t
      case RecentCarrier =>
      case RecentOrigin =>
      case RecentDestination =>
      case RecentRoute =>
    }
    forall t: SeasonalTable ensures t in SEASONAL_TABLES {
      match t
      case MonthGlobal =>
      case MonthCarrier =>
      case MonthOrigin =>
      case MonthDestination =>
      case MonthRoute =>
    }
  }

  // ---------------------------------------------------------------- months

  datatype Month = Month(year: int, month: int)

  predicate ValidMonth(m: Month) { m.year > MIN_YEAR && 1 <= m.month <= 12 }

  function MonthOf(d: Date): Month { Month(d.year, d.month) }

  predicate MonthBefore(a: Month, b: Month) {
    a.year < b.year || (a.year == b.year && a.month < b.month)
  }

  function PreviousMonth(m: Month): Month {
    if m.month == 1 then Month(m.year - 1, 12) else Month(m.year, m.month - 1)
  }

  function FirstDay(m: Month): Date { Date(m.year, m.month, 1) }

  function LastDay(m: Month): Date { Date(m.year, m.month, DaysInMonth(m.year, m.month)) }

  /** The state's cutoff: the day before the month starts. */
  function CutoffBefore(m: Month): Date { LastDay(PreviousMonth(m)) }

  /** "After the cutoff" and "from the month on" are the same. */
  lemma CutoffSeparates(m: Month, d: Date)
    requires ValidMonth(m) && ValidDate(d)
    ensures Before(d, FirstDay(m)) <==> MonthBefore(MonthOf(d), m)
    ensures Before(CutoffBefore(m), d) <==> !Before(d, FirstDay(m))
  {
    hide Ordinal;
    OrdinalsFollowTheCalendar(CutoffBefore(m), d);
    OrdinalsFollowTheCalendar(d, FirstDay(m));
  }

  /** The first day of the trailing window: two whole months before the cutoff's own. */
  function RecentStart(cutoff: Date): Date {
    FirstDay(PreviousMonth(PreviousMonth(MonthOf(cutoff))))
  }

  // ---------------------------------------------------------------- rows

  predicate ValidFlight(f: Flight) {
    && ValidDate(f.date) && InTimestampRange(f.date)
    && f.carrier != "" && f.origin != "" && f.destination != "" && f.route != ""
    && 0 <= f.departureHour <= 23 && 0 <= f.arrivalHour <= 23
  }

  predicate ValidLabelled(r: Labelled) { ValidFlight(r.flight) && (r.target == 0 || r.target == 1) }

  predicate ValidHistory(rows: seq<Labelled>) {
    rows != [] && forall r | r in rows :: ValidLabelled(r)
  }

  function EarlierFlight(): (Labelled, Labelled) -> bool {
    (a: Labelled, b: Labelled) => Before(a.flight.date, b.flight.date)
  }

  /** Rows in date order, ties as they came. */
  function Normalized(rows: seq<Labelled>): seq<Labelled> { StableSort(rows, EarlierFlight()) }

  lemma NormalizedKeepsRows(rows: seq<Labelled>)
    ensures multiset(Normalized(rows)) == multiset(rows)
    ensures forall r :: r in Normalized(rows) <==> r in rows
  {
    SortIsPermutation(rows, EarlierFlight());
    SameElements(Normalized(rows), rows);
  }

  function OnOrAfter(start: Date): Labelled -> bool { (r: Labelled) => !Before(r.flight.date, start) }

  // ---------------------------------------------------------------- building

  /** The latest year in which `month` occurs, or zero. */
  function LatestYear(rows: seq<Labelled>, month: int): int {
    if rows == [] then 0
    else
      var rest := LatestYear(rows[1..], month);
      var d := rows[0].flight.date;
      if d.month == month && d.year > rest then d.year else rest
  }

  function MaxYears(rows: seq<Labelled>): map<int, int> {
    map month | month in (set r | r in rows :: r.flight.date.month) :: LatestYear(rows, month)
  }

  function BaseStateOf(rows: seq<Labelled>, recent: seq<Labelled>, cutoff: Date): State {
    State(
      cutoff, Totals(rows), Totals(recent),
      map t | t in FULL_TABLES :: Aggregate(rows, FullColumns(t)),
      map t | t in RECENT_TABLES :: Aggregate(recent, RecentColumns(t)),
      PRIOR_STRENGTH)
  }

  function SeasonalStateOf(rows: seq<Labelled>, recent: seq<Labelled>, cutoff: Date): SeasonalState {
    SeasonalState(
      BaseStateOf(rows, recent, cutoff),
      map t | t in SEASONAL_TABLES :: Aggregate(rows, SeasonalColumns(t)),
      MaxYears(rows))
  }

  /** `build_v3_historical_state`: all of `history`, none of it after the cutoff. */
  function BuildState(history: seq<Labelled>, cutoff: Date): Result<SeasonalState> {
    var rows := Normalized(history);
    var recent := Filter(rows, OnOrAfter(RecentStart(cutoff)));
    if !ValidHistory(history) then Err(InvalidRows)
    else if exists r | r in rows :: Before(cutoff, r.flight.date) then Err(LabelsAfterCutoff)
    else if recent == [] then Err(EmptyRecentWindow)
    else Ok(SeasonalStateOf(rows, recent, cutoff))
  }

  // ---------------------------------------------------------------- the latest year

  lemma {:induction false} LatestYearIsLatest(rows: seq<Labelled>, month: int)
    ensures forall r | r in rows && r.flight.date.month == month :: r.flight.date.year <= LatestYear(rows, month)
    ensures LatestYear(rows, month) == 0
         || exists r | r in rows :: r.flight.date.month == month && r.flight.date.year == LatestYear(rows, month)
  {
    if rows != [] {
      LatestYearIsLatest(rows[1..], month);
      assert rows == [rows[0]] + rows[1..];
      assert rows[0] in rows;
      assert forall r | r in rows[1..] :: r in rows;
    }
  }

  lemma LatestYearSame(rows: seq<Labelled>, others: seq<Labelled>, month: int)
    requires forall r :: r in rows <==> r in others
    requires forall r | r in rows :: r.flight.date.year > 0
    ensures LatestYear(rows, month) == LatestYear(others, month)
  {
    LatestYearIsLatest(rows, month);
    LatestYearIsLatest(others, month);
  }

  // ---------------------------------------------------------------- the row order does not matter

  lemma FilterPermutation<T(!new)>(xs: seq<T>, ys: seq<T>, p: T -> bool)
    requires multiset(xs) == multiset(ys)
    ensures multiset(Filter(xs, p)) == multiset(Filter(ys, p))
  {
    var a, b := multiset(Filter(xs, p)), multiset(Filter(ys, p));
    forall x: T ensures a[x] == b[x] {
      FilterMultiplicity(xs, p, x);
      FilterMultiplicity(ys, p, x);
    }
    assert a == b;
  }

  lemma {:induction false} FilterMultiplicity<T(!new)>(xs: seq<T>, p: T -> bool, x: T)
    ensures multiset(Filter(xs, p))[x] == if p(x) then multiset(xs)[x] else 0
  {
    if xs != [] {
      FilterMultiplicity(xs[1..], p, x);
      assert xs == [xs[0]] + xs[1..];
    }
  }

  lemma TotalsIgnoreRowOrder(rows: seq<Labelled>, others: seq<Labelled>)
    requires multiset(rows) == multiset(others)
    ensures Totals(rows) == Totals(others)
  {
    SameElements(rows, others);
    CountPermutation(rows, others, (r: Labelled) => r.target == 1);
  }

  lemma BaseStateIgnoresRowOrder(
      rows: seq<Labelled>, others: seq<Labelled>, recent: seq<Labelled>, otherRecent: seq<Labelled>, cutoff: Date)
    requires multiset(rows) == multiset(others) && multiset(recent) == multiset(otherRecent)
    ensures BaseStateOf(rows, recent, cutoff) == BaseStateOf(others, otherRecent, cutoff)
  {
    hide Aggregate, FullColumns, RecentColumns, Totals;
    TotalsIgnoreRowOrder(rows, others);
    TotalsIgnoreRowOrder(recent, otherRecent);
    forall t | t in FULL_TABLES ensures Aggregate(rows, FullColumns(t)) == Aggregate(others, FullColumns(t)) {
      TableIgnoresRowOrder(rows, others, FullColumns(t));
    }
    forall t | t in RECENT_TABLES ensures Aggregate(recent, RecentColumns(t)) == Aggregate(otherRecent, RecentColumns(t)) {
      TableIgnoresRowOrder(recent, otherRecent, RecentColumns(t));
    }
    assert BaseStateOf(rows, recent, cutoff).full == BaseStateOf(others, otherRecent, cutoff).full;
    assert BaseStateOf(rows, recent, cutoff).recent == BaseStateOf(others, otherRecent, cutoff).recent;
  }

  lemma SeasonalTablesIgnoreRowOrder(
      rows: seq<Labelled>, others: seq<Labelled>, recent: seq<Labelled>, otherRecent: seq<Labelled>, cutoff: Date)
    requires multiset(rows) == multiset(others)
    ensures SeasonalStateOf(rows, recent, cutoff).seasonal == SeasonalStateOf(others, otherRecent, cutoff).seasonal
  {
    hide Aggregate, SeasonalColumns, BaseStateOf;
    forall t | t in SEASONAL_TABLES ensures Aggregate(rows, SeasonalColumns(t)) == Aggregate(others, SeasonalColumns(t)) {
      TableIgnoresRowOrder(rows, others, SeasonalColumns(t));
    }
  }

  lemma MaxYearsIgnoreRowOrder(rows: seq<Labelled>, others: seq<Labelled>)
    requires multiset(rows) == multiset(others)
    requires forall r | r in rows :: r.flight.date.year > 0
    ensures MaxYears(rows) == MaxYears(others)
  {
    SameElements(rows, others);
    var months, otherMonths := (set r | r in rows :: r.flight.date.month), (set r | r in others :: r.flight.date.month);
    assert months == otherMonths;
    forall month | month in months ensures LatestYear(rows, month) == LatestYear(others, month) {
      LatestYearSame(rows, others, month);
    }
  }

  /** A state depends on its history only as a multiset of rows. */
  lemma StateIgnoresRowOrder(history: seq<Labelled>, other: seq<Labelled>, cutoff: Date)
    requires multiset(history) == multiset(other)
    ensures BuildState(history, cutoff) == BuildState(other, cutoff)
  {
    hide StableSort, SeasonalStateOf, RecentStart, Before;
    SameElements(history, other);
    NormalizedKeepsRows(history);
    NormalizedKeepsRows(other);
    var rows, rows' := Normalized(history), Normalized(other);
    var recent, recent' := Filter(rows, OnOrAfter(RecentStart(cutoff))), Filter(rows', OnOrAfter(RecentStart(cutoff)));
    FilterPermutation(rows, rows', OnOrAfter(RecentStart(cutoff)));
    SameElements(recent, recent');
    if ValidHistory(history) {
      StatesAgree(rows, rows', recent, recent', cutoff);
    }
  }

  lemma StatesAgree(
      rows: seq<Labelled>, others: seq<Labelled>, recent: seq<Labelled>, otherRecent: seq<Labelled>, cutoff: Date)
    requires multiset(rows) == multiset(others) && multiset(recent) == multiset(otherRecent)
    requires forall r | r in rows :: ValidLabelled(r)
    ensures SeasonalStateOf(rows, recent, cutoff) == SeasonalStateOf(others, otherRecent, cutoff)
  {
    hide BaseStateOf, MaxYears, Aggregate;
    BaseStateIgnoresRowOrder(rows, others, recent, otherRecent, cutoff);
    SeasonalTablesIgnoreRowOrder(rows, others, recent, otherRecent, cutoff);
    MaxYearsIgnoreRowOrder(rows, others);
  }

  // ---------------------------------------------------------------- smoothing

  function Rate(c: Counts): real
    requires c.count > 0
  {
    c.positive as real / c.count as real
  }

  function Lookup(table: map<Key, Counts>, key: Key): Option<Counts> {
    if key in table then Some(table[key]) else None
  }

  /** A group's rate with `strength` further rows at the global rate mixed in. */
  function Blend(c: Counts, strength: int, rate: real): real
    requires c.count >= 0 && strength > 0
  {
    (c.positive as real + strength as real * rate) / (c.count + strength) as real
  }

  /** The smoothed rate of a group, or the global rate of a group never seen. */
  function Smoothed(state: State, counts: Option<Counts>): real
    requires Usable(state) && (counts.Some? ==> ValidCounts(counts.value))
  {
    if counts.None? then Rate(state.global) else Blend(counts.value, state.priorStrength, Rate(state.global))
  }

  ghost predicate ValidTable(table: map<Key, Counts>) {
    forall key | key in table :: ValidCounts(table[key])
  }

  /** All tables present, all counts valid. */
  ghost predicate Usable(state: State) {
    && ValidCounts(state.global) && ValidCounts(state.recentGlobal)
    && state.priorStrength > 0
    && (forall t :: t in state.full && ValidTable(state.full[t]))
    && (forall t :: t in state.recent && ValidTable(state.recent[t]))
  }

  ghost predicate SeasonallyUsable(state: SeasonalState) {
    Usable(state.base) && forall t :: t in state.seasonal && ValidTable(state.seasonal[t])
  }

  lemma AggregateIsValid(rows: seq<Labelled>, columns: Columns)
    ensures ValidTable(Aggregate(rows, columns))
  {
    forall key | key in Aggregate(rows, columns) ensures ValidCounts(Aggregate(rows, columns)[key]) {
      TableCountsAreValid(rows, columns, key);
    }
  }

  lemma TotalsAreValid(rows: seq<Labelled>)
    requires rows != []
    ensures ValidCounts(Totals(rows))
  {
    CountIsBounded(rows, (r: Labelled) => r.target == 1);
  }

  /** Everything the builder returns is usable, ends at the cutoff and has the fixed strength. */
  lemma BuiltStatesAreUsable(history: seq<Labelled>, cutoff: Date)
    requires BuildState(history, cutoff).Ok?
    ensures var state := BuildState(history, cutoff).value;
      SeasonallyUsable(state) && state.base.asOf == cutoff && state.base.priorStrength == 50
  {
    hide Aggregate, StableSort, FullColumns, RecentColumns, SeasonalColumns, Totals, ValidTable, RecentStart;
    EveryTableIsListed();
    NormalizedKeepsRows(history);
    var rows := Normalized(history);
    var recent := Filter(rows, OnOrAfter(RecentStart(cutoff)));
    assert rows != [] by {
      assert history[0] in rows;
    }
    TotalsAreValid(rows);
    TotalsAreValid(recent);
    forall t: FullTable ensures ValidTable(Aggregate(rows, FullColumns(t))) {
      AggregateIsValid(rows, FullColumns(t));
    }
    forall t: RecentTable ensures ValidTable(Aggregate(recent, RecentColumns(t))) {
      AggregateIsValid(recent, RecentColumns(t));
    }
    forall t: SeasonalTable ensures ValidTable(Aggregate(rows, SeasonalColumns(t))) {
      AggregateIsValid(rows, SeasonalColumns(t));
    }
  }

  /** The builder refuses exactly invalid rows, any label after the cutoff, and a trailing window
      without rows. */
  lemma BuildRefusesExactly(history: seq<Labelled>, cutoff: Date)
    ensures BuildState(history, cutoff).Ok? ==> ValidHistory(history)
    ensures BuildState(history, cutoff).Ok?
       <==> && history != []
            && (forall r | r in history ::
                  && ValidDate(r.flight.date) && 16770922 <= Numeral(r.flight.date) <= 22620411
                  && r.flight.carrier != "" && r.flight.origin != "" && r.flight.destination != "" && r.flight.route != ""
                  && 0 <= r.flight.departureHour <= 23 && 0 <= r.flight.arrivalHour <= 23 && r.target in {0, 1})
            && (forall r | r in history :: !Before(cutoff, r.flight.date))
            && (exists r | r in history :: !Before(r.flight.date, RecentStart(cutoff)))
  {
    hide StableSort, SeasonalStateOf, RecentStart, Before, InTimestampRange, Numeral;
    forall r | r in history && ValidDate(r.flight.date)
      ensures InTimestampRange(r.flight.date) <==> 16770922 <= Numeral(r.flight.date) <= 22620411
    {
      TimestampRangeExactly(r.flight.date);
    }
    NormalizedKeepsRows(history);
    var rows, keep := Normalized(history), OnOrAfter(RecentStart(cutoff));
    FilterMembers(rows, keep);
    var recent := Filter(rows, keep);
    assert recent != [] ==> recent[0] in rows && keep(recent[0]);
    forall r | r in history && keep(r) ensures recent != [] {
      assert r in recent;
    }
  }

  // ---------------------------------------------------------------- what a looked-up rate says

  /** A table's entry is the group's counts, and it is missing exactly when the group is empty. */
  lemma LookupIsGroupCounts(rows: seq<Labelled>, columns: Columns, key: Key)
    ensures var found := Lookup(Aggregate(rows, columns), key);
      if Count(rows, InGroup(columns, key)) == 0 then found == None
      else found == Some(GroupCounts(rows, columns, key))
  {
    CountIsBounded(rows, InGroup(columns, key));
    if key in Aggregate(rows, columns) {
      var r :| r in rows && columns(r.flight) == key;
      var i :| 0 <= i < |rows| && rows[i] == r;
      assert InGroup(columns, key)(rows[i]);
    } else {
      forall i | 0 <= i < |rows| ensures !InGroup(columns, key)(rows[i]) {
        assert rows[i] in rows;
      }
    }
  }

  /** The rate of a group read off the rows themselves, seen or unseen. */
  function DirectRate(rows: seq<Labelled>, columns: Columns, key: Key, global: real): real {
    Blend(GroupCounts(rows, columns, key), PRIOR_STRENGTH, global)
  }

  /** The smoothing equation: `x`, given to each of `n` flights and to fifty more, makes up for `d`
      delays and fifty times the rate `g`. */
  ghost predicate SolvesSmoothing(x: real, n: int, d: int, g: real) {
    x * (n + 50) as real == d as real + 50.0 * g
  }

  lemma BlendSolves(c: Counts, rate: real, x: real)
    requires c.count >= 0 && x == Blend(c, PRIOR_STRENGTH, rate)
    ensures SolvesSmoothing(x, c.count, c.positive, rate)
  {
    QuotientTimes(c.positive as real + 50.0 * rate, (c.count + 50) as real);
  }

  /** The fallback for a group never seen is the smoothing formula itself at zero counts. */
  lemma SmoothedIsDirect(state: State, rows: seq<Labelled>, columns: Columns, key: Key)
    requires Usable(state) && state.priorStrength == PRIOR_STRENGTH
    ensures var found := Lookup(Aggregate(rows, columns), key);
      && (found.Some? ==> ValidCounts(found.value))
      && Smoothed(state, found) == DirectRate(rows, columns, key, Rate(state.global))
  {
    assert state.global.count > 0;
    hide Aggregate, Usable, Rate;
    LookupIsGroupCounts(rows, columns, key);
    AggregateIsValid(rows, columns);
    CountMonotone(rows, DelayedInGroup(columns, key), InGroup(columns, key));
  }

  /** A looked-up rate solves the smoothing equation of its group, seen or unseen. */
  lemma SmoothedSolves(state: State, rows: seq<Labelled>, columns: Columns, key: Key)
    requires Usable(state) && state.priorStrength == 50
    ensures var found := Lookup(Aggregate(rows, columns), key);
      var n, d := Count(rows, InGroup(columns, key)), Count(rows, DelayedInGroup(columns, key));
      && (found.Some? ==> ValidCounts(found.value))
      && SolvesSmoothing(Smoothed(state, found), n, d, Rate(state.global))
  {
    assert state.global.count > 0;
    SmoothedIsDirect(state, rows, columns, key);
    hide Smoothed, Aggregate, Usable, Rate, Blend, SolvesSmoothing;
    BlendSolves(GroupCounts(rows, columns, key), Rate(state.global), DirectRate(rows, columns, key, Rate(state.global)));
  }

  ghost predicate Between(x: real, a: real, b: real) {
    (a <= x <= b) || (b <= x <= a)
  }

  lemma MeanAtLeast(low: real, high: real, m: real, n: real, x: real)
    requires m > 0.0 && n > 0.0 && low <= high && x * (m + n) == low * m + high * n
    ensures low <= x
  {
    ScaleOrder(low, high, n);
    assert low * (m + n) == low * m + low * n;
    ScaledAtLeast(x, x * (m + n), m + n, low);
  }

  lemma MeanAtMost(low: real, high: real, m: real, n: real, x: real)
    requires m > 0.0 && n > 0.0 && low <= high && x * (m + n) == low * m + high * n
    ensures x <= high
  {
    ScaleOrder(low, high, m);
    assert high * (m + n) == high * m + high * n;
    ScaledAtLeast(high, high * (m + n), m + n, x);
  }

  lemma WeightedMeanIsBetween(a: real, b: real, m: real, n: real, x: real)
    requires m > 0.0 && n > 0.0 && x * (m + n) == a * m + b * n
    ensures Between(x, a, b)
  {
    if a <= b {
      MeanAtLeast(a, b, m, n, x);
      MeanAtMost(a, b, m, n, x);
    } else {
      assert x * (n + m) == b * n + a * m;
      MeanAtLeast(b, a, n, m, x);
      MeanAtMost(b, a, n, m, x);
    }
  }

  /** Smoothing pulls a group's raw rate towards the global rate and never past it. */
  lemma SmoothedIsBetween(state: State, c: Counts)
    requires Usable(state) && ValidCounts(c)
    ensures Between(Smoothed(state, Some(c)), Rate(c), Rate(state.global))
  {
    var k, n, g := state.priorStrength as real, c.count as real, Rate(state.global);
    assert k > 0.0 && n > 0.0;
    var x := Smoothed(state, Some(c));
    assert x * (n + k) == c.positive as real + g * k by {
      QuotientTimes(c.positive as real + k * g, n + k);
    }
    assert Rate(c) * n == c.positive as real by {
      QuotientTimes(c.positive as real, n);
    }
    hide Rate, Smoothed, Usable, Between;
    WeightedMeanIsBetween(Rate(c), g, n, k, x);
  }
}
