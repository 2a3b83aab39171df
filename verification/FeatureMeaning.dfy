/** What the propensity features of a flight say about the history they were computed from, without
    tables, keys or smoothing code (src/flight_delay/modeling/v3/features.py). */
module FeatureMeaning {
  import opened Calendar
  import opened Counting
  import opened HistoricalState
  import opened HistoryTables
  import opened RealQuotients
  import opened ServingTransform
  import opened TrainingTransform
  import Seasonal

  /** A group of flights that are alike in what they name. */
  type Group = Flight -> bool

  function Everybody(): Group { (h: Flight) => true }
  function SameCarrier(f: Flight): Group { (h: Flight) => h.carrier == f.carrier }
  function SameOrigin(f: Flight): Group { (h: Flight) => h.origin == f.origin }
  function SameDestination(f: Flight): Group { (h: Flight) => h.destination == f.destination }
  function SameRoute(f: Flight): Group { (h: Flight) => h.route == f.route }
  function SameDepartureHour(f: Flight): Group { (h: Flight) => h.departureHour == f.departureHour }
  function SameArrivalHour(f: Flight): Group { (h: Flight) => h.arrivalHour == f.arrivalHour }
  function SameMonth(f: Flight): Group { (h: Flight) => h.date.month == f.date.month }
  function Both(a: Group, b: Group): Group { (h: Flight) => a(h) && b(h) }

  function InGroupOf(group: Group): Labelled -> bool { (r: Labelled) => group(r.flight) }
  function DelayedOf(group: Group): Labelled -> bool { (r: Labelled) => group(r.flight) && r.target == 1 }

  function Flights(rows: seq<Labelled>, group: Group): nat { Count(rows, InGroupOf(group)) }
  function Delayed(rows: seq<Labelled>, group: Group): nat { Count(rows, DelayedOf(group)) }

  /** `x` is the delay rate of the group with fifty further flights at the rate `g` mixed in. */
  ghost predicate Smooths(x: real, rows: seq<Labelled>, group: Group, g: real) {
    SolvesSmoothing(x, Flights(rows, group), Delayed(rows, group), g)
  }

  /** The base features of `f`, from all rows and from the recent ones. */
  ghost predicate BaseMeans(b: BaseFeatures, rows: seq<Labelled>, recent: seq<Labelled>, f: Flight) {
    && b.global * |rows| as real == Delayed(rows, Everybody()) as real
    && Smooths(b.carrier, rows, SameCarrier(f), b.global)
    && Smooths(b.origin, rows, SameOrigin(f), b.global)
    && Smooths(b.destination, rows, SameDestination(f), b.global)
    && Smooths(b.route, rows, SameRoute(f), b.global)
    && Smooths(b.carrierRoute, rows, Both(SameCarrier(f), SameRoute(f)), b.global)
    && Smooths(b.carrierOrigin, rows, Both(SameCarrier(f), SameOrigin(f)), b.global)
    && Smooths(b.carrierDestination, rows, Both(SameCarrier(f), SameDestination(f)), b.global)
    && Smooths(b.originDepartureHour, rows, Both(SameOrigin(f), SameDepartureHour(f)), b.global)
    && Smooths(b.destinationArrivalHour, rows, Both(SameDestination(f), SameArrivalHour(f)), b.global)
    && b.routeSupport == Flights(rows, SameRoute(f))
    && b.carrierRouteSupport == Flights(rows, Both(SameCarrier(f), SameRoute(f)))
    && Smooths(b.recentGlobal, recent, Everybody(), b.global)
    && Smooths(b.recentCarrier, recent, SameCarrier(f), b.global)
    && Smooths(b.recentOrigin, recent, SameOrigin(f), b.global)
    && Smooths(b.recentDestination, recent, SameDestination(f), b.global)
    && Smooths(b.recentRoute, recent, SameRoute(f), b.global)
  }

  /** The same-calendar-month features of `f`; `g` is the global rate. */
  ghost predicate SameMonthMeans(s: SameMonthFeatures, rows: seq<Labelled>, f: Flight, g: real) {
    && Smooths(s.global, rows, SameMonth(f), g)
    && Smooths(s.carrier, rows, Both(SameMonth(f), SameCarrier(f)), g)
    && Smooths(s.origin, rows, Both(SameMonth(f), SameOrigin(f)), g)
    && Smooths(s.destination, rows, Both(SameMonth(f), SameDestination(f)), g)
    && Smooths(s.route, rows, Both(SameMonth(f), SameRoute(f)), g)
  }

  function MonthNumber(d: Date): int { 12 * d.year + d.month }

  // ---------------------------------------------------------------- one rate

  /** The columns select the same flights as the group. */
  ghost predicate Selects(columns: Columns, f: Flight, group: Group) {
    forall h: Flight :: columns(h) == columns(f) <==> group(h)
  }

  lemma GroupIsCounted(rows: seq<Labelled>, columns: Columns, f: Flight, group: Group)
    requires Selects(columns, f, group)
    ensures GroupCounts(rows, columns, columns(f)) == Counts(Flights(rows, group), Delayed(rows, group))
    ensures SupportLike(rows, columns, f) == Flights(rows, group)
  {
    forall i | 0 <= i < |rows| ensures InGroup(columns, columns(f))(rows[i]) == InGroupOf(group)(rows[i]) {
      var h := rows[i].flight;
      assert columns(h) == columns(f) <==> group(h);
    }
    CountSame(rows, InGroup(columns, columns(f)), InGroupOf(group));
    CountSame(rows, DelayedInGroup(columns, columns(f)), DelayedOf(group));
  }

  lemma RateSolves(rows: seq<Labelled>, columns: Columns, f: Flight, group: Group, g: real)
    requires Selects(columns, f, group)
    ensures Smooths(RateLike(rows, columns, f, g), rows, group, g)
  {
    hide Blend;
    GroupIsCounted(rows, columns, f, group);
    BlendSolves(GroupCounts(rows, columns, columns(f)), g, RateLike(rows, columns, f, g));
  }

  lemma OneColumn(columns: Columns, f: Flight, group: Group)
    requires forall h: Flight :: |columns(h)| == 1
    requires forall h: Flight :: columns(h)[0] == columns(f)[0] <==> group(h)
    ensures Selects(columns, f, group)
  {
    forall h: Flight ensures columns(h) == columns(f) <==> group(h) {
      assert columns(h) == [columns(h)[0]] && columns(f) == [columns(f)[0]];
    }
  }

  lemma TwoColumns(columns: Columns, f: Flight, a: Group, b: Group)
    requires forall h: Flight :: |columns(h)| == 2
    requires forall h: Flight :: (columns(h)[0] == columns(f)[0] <==> a(h)) && (columns(h)[1] == columns(f)[1] <==> b(h))
    ensures Selects(columns, f, Both(a, b))
  {
    forall h: Flight ensures columns(h) == columns(f) <==> a(h) && b(h) {
      assert columns(h) == [columns(h)[0], columns(h)[1]] && columns(f) == [columns(f)[0], columns(f)[1]];
    }
  }

  lemma FullTablesSelect(f: Flight)
    ensures Selects(FullColumns(Carrier), f, SameCarrier(f)) && Selects(FullColumns(Origin), f, SameOrigin(f))
    ensures Selects(FullColumns(Destination), f, SameDestination(f)) && Selects(FullColumns(Route), f, SameRoute(f))
    ensures Selects(FullColumns(CarrierRoute), f, Both(SameCarrier(f), SameRoute(f)))
    ensures Selects(FullColumns(CarrierOrigin), f, Both(SameCarrier(f), SameOrigin(f)))
    ensures Selects(FullColumns(CarrierDestination), f, Both(SameCarrier(f), SameDestination(f)))
    ensures Selects(FullColumns(OriginDepartureHour), f, Both(SameOrigin(f), SameDepartureHour(f)))
    ensures Selects(FullColumns(DestinationArrivalHour), f, Both(SameDestination(f), SameArrivalHour(f)))
  {
    hide Selects;
    OneColumn(FullColumns(Carrier), f, SameCarrier(f));
    OneColumn(FullColumns(Origin), f, SameOrigin(f));
    OneColumn(FullColumns(Destination), f, SameDestination(f));
    OneColumn(FullColumns(Route), f, SameRoute(f));
    TwoColumns(FullColumns(CarrierRoute), f, SameCarrier(f), SameRoute(f));
    TwoColumns(FullColumns(CarrierOrigin), f, SameCarrier(f), SameOrigin(f));
    TwoColumns(FullColumns(CarrierDestination), f, SameCarrier(f), SameDestination(f));
    TwoColumns(FullColumns(OriginDepartureHour), f, SameOrigin(f), SameDepartureHour(f));
    TwoColumns(FullColumns(DestinationArrivalHour), f, SameDestination(f), SameArrivalHour(f));
  }

  lemma SeasonalTablesSelect(f: Flight)
    ensures Selects(SeasonalColumns(MonthGlobal), f, SameMonth(f))
    ensures Selects(SeasonalColumns(MonthCarrier), f, Both(SameMonth(f), SameCarrier(f)))
    ensures Selects(SeasonalColumns(MonthOrigin), f, Both(SameMonth(f), SameOrigin(f)))
    ensures Selects(SeasonalColumns(MonthDestination), f, Both(SameMonth(f), SameDestination(f)))
    ensures Selects(SeasonalColumns(MonthRoute), f, Both(SameMonth(f), SameRoute(f)))
  {
    hide Selects;
    OneColumn(SeasonalColumns(MonthGlobal), f, SameMonth(f));
    TwoColumns(SeasonalColumns(MonthCarrier), f, SameMonth(f), SameCarrier(f));
    TwoColumns(SeasonalColumns(MonthOrigin), f, SameMonth(f), SameOrigin(f));
    TwoColumns(SeasonalColumns(MonthDestination), f, SameMonth(f), SameDestination(f));
    TwoColumns(SeasonalColumns(MonthRoute), f, SameMonth(f), SameRoute(f));
  }

  // ---------------------------------------------------------------- all features of a built state

  lemma TotalsAreEverybody(rows: seq<Labelled>)
    ensures Totals(rows) == Counts(Flights(rows, Everybody()), Delayed(rows, Everybody()))
    ensures Flights(rows, Everybody()) == |rows|
  {
    CountSame(rows, (r: Labelled) => r.target == 1, DelayedOf(Everybody()));
    CountIsBounded(rows, InGroupOf(Everybody()));
  }

  lemma DirectBaseMeans(rows: seq<Labelled>, recent: seq<Labelled>, f: Flight)
    requires rows != []
    ensures BaseMeans(DirectBase(rows, recent, f), rows, recent, f)
  {
    hide Selects, Smooths, RateLike, SupportLike, Blend, FullColumns, Flights, Delayed;
    var g := Rate(Totals(rows));
    FullTablesSelect(f);
    GlobalRates(rows, recent, g);
    RateSolves(rows, FullColumns(Carrier), f, SameCarrier(f), g);
    RateSolves(rows, FullColumns(Origin), f, SameOrigin(f), g);
    RateSolves(rows, FullColumns(Destination), f, SameDestination(f), g);
    RateSolves(rows, FullColumns(Route), f, SameRoute(f), g);
    RateSolves(rows, FullColumns(CarrierRoute), f, Both(SameCarrier(f), SameRoute(f)), g);
    RateSolves(rows, FullColumns(CarrierOrigin), f, Both(SameCarrier(f), SameOrigin(f)), g);
    RateSolves(rows, FullColumns(CarrierDestination), f, Both(SameCarrier(f), SameDestination(f)), g);
    RateSolves(rows, FullColumns(OriginDepartureHour), f, Both(SameOrigin(f), SameDepartureHour(f)), g);
    RateSolves(rows, FullColumns(DestinationArrivalHour), f, Both(SameDestination(f), SameArrivalHour(f)), g);
    GroupIsCounted(rows, FullColumns(Route), f, SameRoute(f));
    GroupIsCounted(rows, FullColumns(CarrierRoute), f, Both(SameCarrier(f), SameRoute(f)));
    RateSolves(recent, FullColumns(Carrier), f, SameCarrier(f), g);
    RateSolves(recent, FullColumns(Origin), f, SameOrigin(f), g);
    RateSolves(recent, FullColumns(Destination), f, SameDestination(f), g);
    RateSolves(recent, FullColumns(Route), f, SameRoute(f), g);
    hide Rate, Totals;
  }

  lemma GlobalRates(rows: seq<Labelled>, recent: seq<Labelled>, g: real)
    requires rows != [] && g == Rate(Totals(rows))
    ensures g * |rows| as real == Delayed(rows, Everybody()) as real
    ensures Smooths(Blend(Totals(recent), PRIOR_STRENGTH, g), recent, Everybody(), g)
  {
    hide Blend;
    TotalsAreEverybody(rows);
    TotalsAreEverybody(recent);
    QuotientTimes(Totals(rows).positive as real, Totals(rows).count as real);
    BlendSolves(Totals(recent), g, Blend(Totals(recent), PRIOR_STRENGTH, g));
  }

  lemma DirectSameMonthMeans(rows: seq<Labelled>, f: Flight)
    requires rows != []
    ensures SameMonthMeans(DirectSameMonth(rows, f), rows, f, Rate(Totals(rows)))
  {
    var g := Rate(Totals(rows));
    hide Selects, Smooths, RateLike, SeasonalColumns, Rate, Totals;
    SeasonalTablesSelect(f);
    RateSolves(rows, SeasonalColumns(MonthGlobal), f, SameMonth(f), g);
    RateSolves(rows, SeasonalColumns(MonthCarrier), f, Both(SameMonth(f), SameCarrier(f)), g);
    RateSolves(rows, SeasonalColumns(MonthOrigin), f, Both(SameMonth(f), SameOrigin(f)), g);
    RateSolves(rows, SeasonalColumns(MonthDestination), f, Both(SameMonth(f), SameDestination(f)), g);
    RateSolves(rows, SeasonalColumns(MonthRoute), f, Both(SameMonth(f), SameRoute(f)), g);
  }

  /** Rows of the cutoff's month and the two months before it. */
  function InLastThreeMonths(cutoff: Date): Labelled -> bool {
    (r: Labelled) => MonthNumber(cutoff) - MonthNumber(r.flight.date) <= 2
  }

  lemma RecentRowsAreTheLastThreeMonths(history: seq<Labelled>, cutoff: Date)
    requires ValidHistory(history) && ValidDate(cutoff)
    ensures Filter(history, OnOrAfter(RecentStart(cutoff))) == Filter(history, InLastThreeMonths(cutoff))
  {
    forall i | 0 <= i < |history| ensures OnOrAfter(RecentStart(cutoff))(history[i]) == InLastThreeMonths(cutoff)(history[i]) {
      assert history[i] in history;
    }
    FilterSame(history, OnOrAfter(RecentStart(cutoff)), InLastThreeMonths(cutoff));
  }

  /** Whatever the serving transform or the batch returns for a flight from a state built of
      `history`: every rate solves its smoothing equation over the history rows alike the flight. */
  lemma ServedFeaturesMean(history: seq<Labelled>, cutoff: Date, f: Flight, out: RowFeatures)
    requires BuildState(history, cutoff).Ok? && SeasonallyUsable(BuildState(history, cutoff).value)
    requires ValidDate(cutoff) && ValidDate(f.date) && Seasonal.AnchorYears(f.date.year)
    requires AreFeatures(f, BuildState(history, cutoff).value, out)
    ensures BaseMeans(out.base, history, Filter(history, InLastThreeMonths(cutoff)), f)
    ensures SameMonthMeans(out.sameMonth, history, f, out.base.global)
  {
    hide BaseMeans, SameMonthMeans, TransformOne, SameMonthRates, Seasonal.AreSeasonalFeatures, BuildState, ValidDate;
    BuildRefusesExactly(history, cutoff);
    FeaturesAreDirect(history, cutoff, f);
    RecentRowsAreTheLastThreeMonths(history, cutoff);
    DirectBaseMeans(history, Filter(history, InLastThreeMonths(cutoff)), f);
    DirectSameMonthMeans(history, f);
  }

  /** A flight is refused for its own year exactly when the history already holds its calendar month
      of its own year or a later one. */
  lemma OwnYearIsRefusedExactly(history: seq<Labelled>, cutoff: Date, f: Flight)
    requires BuildState(history, cutoff).Ok? && f.date.year >= 1
    ensures ServingTransform.OwnYearInState(f, BuildState(history, cutoff).value)
       <==> exists r | r in history :: r.flight.date.month == f.date.month && r.flight.date.year >= f.date.year
  {
    hide Normalized, BaseStateOf, RecentStart, Aggregate, LatestYear;
    NormalizedKeepsRows(history);
    LatestYearIsLatest(Normalized(history), f.date.month);
  }

  // ---------------------------------------------------------------- the rows of a training set

  /** Rows of a month before that of `d`. */
  function InEarlierMonth(d: Date): Labelled -> bool {
    (r: Labelled) => MonthNumber(r.flight.date) < MonthNumber(d)
  }

  /** Rows of the three months before that of `d`. */
  function InThreeMonthsBefore(d: Date): Labelled -> bool {
    (r: Labelled) => 1 <= MonthNumber(d) - MonthNumber(r.flight.date) <= 3
  }

  lemma {:induction false} FilterTwice<T(!new)>(xs: seq<T>, p: T -> bool, q: T -> bool, both: T -> bool)
    requires forall i | 0 <= i < |xs| :: both(xs[i]) == (p(xs[i]) && q(xs[i]))
    ensures Filter(Filter(xs, p), q) == Filter(xs, both)
  {
    if xs != [] {
      assert forall i | 0 <= i < |xs| - 1 :: xs[1..][i] == xs[i + 1];
      FilterTwice(xs[1..], p, q, both);
      var once := Filter(xs[1..], p);
      if p(xs[0]) {
        assert Filter(xs, p) == [xs[0]] + once && ([xs[0]] + once)[1..] == once;
      } else {
        assert Filter(xs, p) == once;
      }
    }
  }

  lemma RowsBeforeMonth(history: seq<Labelled>, d: Date)
    requires ValidHistory(history) && ValidDate(d)
    ensures Filter(history, BeforeMonth(MonthOf(d))) == Filter(history, InEarlierMonth(d))
  {
    forall i | 0 <= i < |history| ensures BeforeMonth(MonthOf(d))(history[i]) == InEarlierMonth(d)(history[i]) {
      assert history[i] in history;
    }
    FilterSame(history, BeforeMonth(MonthOf(d)), InEarlierMonth(d));
  }

  lemma RecentRowsBeforeMonth(history: seq<Labelled>, d: Date)
    requires ValidHistory(history) && ValidDate(d) && ValidMonth(MonthOf(d))
    ensures ValidDate(CutoffBefore(MonthOf(d)))
    ensures Filter(Filter(history, InEarlierMonth(d)), InLastThreeMonths(CutoffBefore(MonthOf(d))))
         == Filter(history, InThreeMonthsBefore(d))
  {
    var cutoff := CutoffBefore(MonthOf(d));
    FilterTwice(history, InEarlierMonth(d), InLastThreeMonths(cutoff), InThreeMonthsBefore(d));
  }

  /** A row of a training set: its label and its date are its own, and its features speak only of the
      history rows of earlier months, the recent ones of those of the three months before its own. */
  lemma TrainingRowMeans(history: seq<Labelled>, rows: seq<Labelled>, out: TrainingSet, i: nat)
    requires ValidHistory(history) && IsTrainingSet(history, rows, out) && i < |rows|
    ensures var f, row := rows[i].flight, out.rows[i];
      && row.target == rows[i].target && row.date == f.date
      && ValidDate(f.date) && Seasonal.AnchorYears(f.date.year)
      && Seasonal.AreSeasonalFeatures(f.date, row.features.seasonal)
      && BaseMeans(row.features.base, Filter(history, InEarlierMonth(f.date)), Filter(history, InThreeMonthsBefore(f.date)), f)
      && SameMonthMeans(row.features.sameMonth, Filter(history, InEarlierMonth(f.date)), f, row.features.base.global)
  {
    hide BaseMeans, SameMonthMeans, TransformOne, SameMonthRates, Seasonal.AreSeasonalFeatures;
    hide BuildState, Usable, ValidDate, ValidHistory, CutoffBefore;
    var f, row := rows[i].flight, out.rows[i];
    assert IsRowFor(history, rows[i], row);
    TrainingDates(f.date);
    RowsBeforeMonth(history, f.date);
    RecentRowsBeforeMonth(history, f.date);
    ServedFeaturesMean(Filter(history, InEarlierMonth(f.date)), CutoffBefore(MonthOf(f.date)), f, row.features);
  }

  lemma TrainingDates(d: Date)
    requires ValidDate(d) && Seasonal.AnchorYears(d.year)
    ensures ValidMonth(MonthOf(d))
  {
  }

  /** Which rows can be trained on: those from February 2024 to November 2025 with some history in the
      three months before their own. */
  lemma TrainableExactly(history: seq<Labelled>, rows: seq<Labelled>)
    ensures Trainable(history, rows)
       <==> && ValidHistory(history) && ValidHistory(rows)
            && forall r | r in rows ::
                 && MonthNumber(Date(2024, 2, 1)) <= MonthNumber(r.flight.date) <= MonthNumber(Date(2025, 11, 30))
                 && exists h | h in history :: 1 <= MonthNumber(r.flight.date) - MonthNumber(h.flight.date) <= 3
  {
    if ValidHistory(history) && ValidHistory(rows) {
      forall r | r in rows
        ensures InPeriod(MonthOf(r.flight.date))
           <==> MonthNumber(Date(2024, 2, 1)) <= MonthNumber(r.flight.date) <= MonthNumber(Date(2025, 11, 30))
        ensures HasTrailingHistory(history, MonthOf(r.flight.date))
           <==> exists h | h in history :: 1 <= MonthNumber(r.flight.date) - MonthNumber(h.flight.date) <= 3
      {
        TrailingMonths(history, r.flight.date);
      }
    }
  }

  lemma TrailingMonths(history: seq<Labelled>, d: Date)
    requires ValidHistory(history) && ValidDate(d)
    ensures HasTrailingHistory(history, MonthOf(d))
       <==> exists h | h in history :: 1 <= MonthNumber(d) - MonthNumber(h.flight.date) <= 3
  {
    forall h | h in history
      ensures InTrailingWindow(h.flight.date, MonthOf(d)) <==> 1 <= MonthNumber(d) - MonthNumber(h.flight.date) <= 3
    {
    }
  }
}
