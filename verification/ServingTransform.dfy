/** The one-row serving transform and its vectorized batch twin
    (src/flight_delay/modeling/v2/features.py and src/flight_delay/modeling/v3/features.py).
    A support feature stands for its count: the logarithm applied to it is not modelled. */
module ServingTransform {
  import opened Calendar
  import opened Counting
  import opened HistoricalState
  import opened HistoryTables
  import opened Options
  import opened Ordering
  import Seasonal

  datatype BaseFeatures = BaseFeatures(
    global: real, carrier: real, origin: real, destination: real, route: real,
    carrierRoute: real, carrierOrigin: real, carrierDestination: real,
    originDepartureHour: real, destinationArrivalHour: real,
    routeSupport: int, carrierRouteSupport: int,
    recentGlobal: real, recentCarrier: real, recentOrigin: real, recentDestination: real, recentRoute: real)

  datatype SameMonthFeatures = SameMonthFeatures(
    global: real, carrier: real, origin: real, destination: real, route: real)

  datatype RowFeatures = RowFeatures(
    seasonal: Seasonal.Features, base: BaseFeatures, sameMonth: SameMonthFeatures)

  // ---------------------------------------------------------------- one row

  function FullRate(state: State, table: FullTable, key: Key): real
    requires Usable(state)
  {
    Smoothed(state, Lookup(state.full[table], key))
  }

  function RecentRate(state: State, table: RecentTable, key: Key): real
    requires Usable(state)
  {
    Smoothed(state, Lookup(state.recent[table], key))
  }

  function SeasonalRate(state: SeasonalState, table: SeasonalTable, key: Key): real
    requires SeasonallyUsable(state)
  {
    Smoothed(state.base, Lookup(state.seasonal[table], key))
  }

  function Support(counts: Option<Counts>): int {
    if counts.Some? then counts.value.count else 0
  }

  /** The seventeen features of one scheduled flight. */
  function TransformOne(f: Flight, state: State): BaseFeatures
    requires Usable(state)
  {
    BaseFeatures(
      Rate(state.global),
      FullRate(state, Carrier, [Text(f.carrier)]),
      FullRate(state, Origin, [Text(f.origin)]),
      FullRate(state, Destination, [Text(f.destination)]),
      FullRate(state, Route, [Text(f.route)]),
      FullRate(state, CarrierRoute, [Text(f.carrier), Text(f.route)]),
      FullRate(state, CarrierOrigin, [Text(f.carrier), Text(f.origin)]),
      FullRate(state, CarrierDestination, [Text(f.carrier), Text(f.destination)]),
      FullRate(state, OriginDepartureHour, [Text(f.origin), Number(f.departureHour)]),
      FullRate(state, DestinationArrivalHour, [Text(f.destination), Number(f.arrivalHour)]),
      Support(Lookup(state.full[Route], [Text(f.route)])),
      Support(Lookup(state.full[CarrierRoute], [Text(f.carrier), Text(f.route)])),
      Smoothed(state, Some(state.recentGlobal)),
      RecentRate(state, RecentCarrier, [Text(f.carrier)]),
      RecentRate(state, RecentOrigin, [Text(f.origin)]),
      RecentRate(state, RecentDestination, [Text(f.destination)]),
      RecentRate(state, RecentRoute, [Text(f.route)]))
  }

  /** The state already holds labels of the flight's calendar month from its own year or later. */
  predicate OwnYearInState(f: Flight, state: SeasonalState) {
    f.date.month in state.maxYear && state.maxYear[f.date.month] >= f.date.year
  }

  function SameMonthRates(f: Flight, state: SeasonalState): SameMonthFeatures
    requires SeasonallyUsable(state)
  {
    var m := Number(f.date.month);
    SameMonthFeatures(
      SeasonalRate(state, MonthGlobal, [m]),
      SeasonalRate(state, MonthCarrier, [m, Text(f.carrier)]),
      SeasonalRate(state, MonthOrigin, [m, Text(f.origin)]),
      SeasonalRate(state, MonthDestination, [m, Text(f.destination)]),
      SeasonalRate(state, MonthRoute, [m, Text(f.route)]))
  }

  /** What the features of one flight are. */
  ghost predicate AreFeatures(f: Flight, state: SeasonalState, out: RowFeatures)
    requires SeasonallyUsable(state) && ValidDate(f.date) && Seasonal.AnchorYears(f.date.year)
  {
    && Seasonal.AreSeasonalFeatures(f.date, out.seasonal)
    && out.base == TransformOne(f, state.base)
    && out.sameMonth == SameMonthRates(f, state)
  }

  /** There is only one answer, so two computations that both give it agree. */
  lemma FeaturesAreUnique(f: Flight, state: SeasonalState, a: RowFeatures, b: RowFeatures)
    requires SeasonallyUsable(state) && ValidDate(f.date) && Seasonal.AnchorYears(f.date.year)
    requires AreFeatures(f, state, a) && AreFeatures(f, state, b)
    ensures a == b
  {
    Seasonal.SeasonalFeaturesAreUnique(f.date, a.seasonal, b.seasonal);
  }

  predicate Servable(f: Flight, state: SeasonalState) {
    Seasonal.AnchorYears(f.date.year) && !OwnYearInState(f, state)
  }

  /** All features of one scheduled flight. */
  method TransformOneRow(f: Flight, state: SeasonalState) returns (r: Result<RowFeatures>)
    requires SeasonallyUsable(state) && ValidDate(f.date)
    ensures r.Ok? <==> Servable(f, state)
    ensures r.Ok? ==> AreFeatures(f, state, r.value)
  {
    var seasonal := Seasonal.SeasonalFeaturesForDate(f.date);
    if seasonal.Refused? {
      return Err(YearOutOfRange);
    }
    if OwnYearInState(f, state) {
      return Err(HistoricalState.OwnYearInState);
    }
    r := Ok(RowFeatures(seasonal.value, TransformOne(f, state.base), SameMonthRates(f, state)));
  }

  // ---------------------------------------------------------------- the batch

  /** What `reindex` finds for one target: a missing entry reads as not-a-number. */
  function Reindexed(entries: seq<Entry>, key: Key): Option<Counts> {
    if entries == [] then None
    else if entries[0].key == key then Some(entries[0].counts)
    else Reindexed(entries[1..], key)
  }

  lemma {:induction false} ReindexedFinds(entries: seq<Entry>, key: Key)
    requires DistinctKeys(entries)
    ensures (exists i :: 0 <= i < |entries| && entries[i].key == key) <==> Reindexed(entries, key).Some?
    ensures forall i | 0 <= i < |entries| && entries[i].key == key :: Reindexed(entries, key) == Some(entries[i].counts)
  {
    if entries != [] && entries[0].key != key {
      var rest := entries[1..];
      ReindexedFinds(rest, key);
      forall i | 0 <= i < |entries| && entries[i].key == key
        ensures Reindexed(entries, key) == Some(entries[i].counts)
      {
        assert rest[i - 1] == entries[i];
      }
      assert forall i | 0 <= i < |rest| :: rest[i] == entries[i + 1];
    }
  }

  /** `_aligned_counts`: the table reshaped into an index and aligned to the batch's keys. */
  method AlignedCounts(table: map<Key, Counts>, keys: seq<Key>) returns (aligned: seq<Option<Counts>>)
    ensures |aligned| == |keys| && forall i | 0 <= i < |keys| :: aligned[i] == Lookup(table, keys[i])
  {
    var entries := DictionaryItems(table);
    aligned := seq(|keys|, i requires 0 <= i < |keys| => Reindexed(entries, keys[i]));
    forall i | 0 <= i < |keys| ensures aligned[i] == Lookup(table, keys[i]) {
      ReindexedFinds(entries, keys[i]);
    }
  }

  /** `_smoothed_vector` over one aligned column. */
  method RateColumn(state: State, table: map<Key, Counts>, keys: seq<Key>) returns (column: seq<real>)
    requires Usable(state) && ValidTable(table)
    ensures |column| == |keys|
    ensures forall i | 0 <= i < |keys| :: column[i] == Smoothed(state, Lookup(table, keys[i]))
  {
    hide Rate, Blend;
    var aligned := AlignedCounts(table, keys);
    var rate := Rate(state.global);
    column := seq(|keys|, i requires 0 <= i < |keys| =>
      if aligned[i].None? then rate else Blend(aligned[i].value, state.priorStrength, rate));
  }

  function KeysOf(flights: seq<Flight>, columns: Columns): (keys: seq<Key>)
    ensures |keys| == |flights| && forall i | 0 <= i < |flights| :: keys[i] == columns(flights[i])
  {
    seq(|flights|, i requires 0 <= i < |flights| => columns(flights[i]))
  }

  function SupportColumn(aligned: seq<Option<Counts>>): (column: seq<int>)
    ensures |column| == |aligned| && forall i | 0 <= i < |aligned| :: column[i] == Support(aligned[i])
  {
    seq(|aligned|, i requires 0 <= i < |aligned| => Support(aligned[i]))
  }

  datatype SingleColumns = SingleColumns(carrier: seq<real>, origin: seq<real>, destination: seq<real>, route: seq<real>)

  datatype PairColumns = PairColumns(
    carrierRoute: seq<real>, carrierOrigin: seq<real>, carrierDestination: seq<real>,
    originDepartureHour: seq<real>, destinationArrivalHour: seq<real>)

  datatype SupportColumns = SupportColumns(route: seq<int>, carrierRoute: seq<int>)

  /** The full tables with one entity. */
  method SingleFrame(flights: seq<Flight>, state: State) returns (c: SingleColumns)
    requires Usable(state)
    ensures |c.carrier| == |c.origin| == |c.destination| == |c.route| == |flights|
    ensures forall i | 0 <= i < |flights| :: var f := flights[i];
      && c.carrier[i] == FullRate(state, Carrier, [Text(f.carrier)])
      && c.origin[i] == FullRate(state, Origin, [Text(f.origin)])
      && c.destination[i] == FullRate(state, Destination, [Text(f.destination)])
      && c.route[i] == FullRate(state, Route, [Text(f.route)])
  {
    hide Smoothed;
    var carrier := RateColumn(state, state.full[Carrier], KeysOf(flights, (f: Flight) => [Text(f.carrier)]));
    var origin := RateColumn(state, state.full[Origin], KeysOf(flights, (f: Flight) => [Text(f.origin)]));
    var destination := RateColumn(state, state.full[Destination], KeysOf(flights, (f: Flight) => [Text(f.destination)]));
    var route := RateColumn(state, state.full[Route], KeysOf(flights, (f: Flight) => [Text(f.route)]));
    c := SingleColumns(carrier, origin, destination, route);
  }

  /** The full tables with two entities. */
  method PairFrame(flights: seq<Flight>, state: State) returns (c: PairColumns)
    requires Usable(state)
    ensures |c.carrierRoute| == |c.carrierOrigin| == |c.carrierDestination| == |flights|
    ensures |c.originDepartureHour| == |c.destinationArrivalHour| == |flights|
    ensures forall i | 0 <= i < |flights| :: var f := flights[i];
      && c.carrierRoute[i] == FullRate(state, CarrierRoute, [Text(f.carrier), Text(f.route)])
      && c.carrierOrigin[i] == FullRate(state, CarrierOrigin, [Text(f.carrier), Text(f.origin)])
      && c.carrierDestination[i] == FullRate(state, CarrierDestination, [Text(f.carrier), Text(f.destination)])
      && c.originDepartureHour[i] == FullRate(state, OriginDepartureHour, [Text(f.origin), Number(f.departureHour)])
      && c.destinationArrivalHour[i]
         == FullRate(state, DestinationArrivalHour, [Text(f.destination), Number(f.arrivalHour)])
  {
    hide Smoothed;
    var carrierRoute := RateColumn(
      state, state.full[CarrierRoute], KeysOf(flights, (f: Flight) => [Text(f.carrier), Text(f.route)]));
    var carrierOrigin := RateColumn(
      state, state.full[CarrierOrigin], KeysOf(flights, (f: Flight) => [Text(f.carrier), Text(f.origin)]));
    var carrierDestination := RateColumn(
      state, state.full[CarrierDestination], KeysOf(flights, (f: Flight) => [Text(f.carrier), Text(f.destination)]));
    var originDepartureHour := RateColumn(
      state, state.full[OriginDepartureHour], KeysOf(flights, (f: Flight) => [Text(f.origin), Number(f.departureHour)]));
    var destinationArrivalHour := RateColumn(
      state, state.full[DestinationArrivalHour],
      KeysOf(flights, (f: Flight) => [Text(f.destination), Number(f.arrivalHour)]));
    c := PairColumns(carrierRoute, carrierOrigin, carrierDestination, originDepartureHour, destinationArrivalHour);
  }

  method SupportFrame(flights: seq<Flight>, state: State) returns (c: SupportColumns)
    requires Usable(state)
    ensures |c.route| == |c.carrierRoute| == |flights|
    ensures forall i | 0 <= i < |flights| :: var f := flights[i];
      && c.route[i] == Support(Lookup(state.full[Route], [Text(f.route)]))
      && c.carrierRoute[i] == Support(Lookup(state.full[CarrierRoute], [Text(f.carrier), Text(f.route)]))
  {
    var route := AlignedCounts(state.full[Route], KeysOf(flights, (f: Flight) => [Text(f.route)]));
    var carrierRoute := AlignedCounts(
      state.full[CarrierRoute], KeysOf(flights, (f: Flight) => [Text(f.carrier), Text(f.route)]));
    c := SupportColumns(SupportColumn(route), SupportColumn(carrierRoute));
  }

  method RecentFrame(flights: seq<Flight>, state: State) returns (c: SingleColumns)
    requires Usable(state)
    ensures |c.carrier| == |c.origin| == |c.destination| == |c.route| == |flights|
    ensures forall i | 0 <= i < |flights| :: var f := flights[i];
      && c.carrier[i] == RecentRate(state, RecentCarrier, [Text(f.carrier)])
      && c.origin[i] == RecentRate(state, RecentOrigin, [Text(f.origin)])
      && c.destination[i] == RecentRate(state, RecentDestination, [Text(f.destination)])
      && c.route[i] == RecentRate(state, RecentRoute, [Text(f.route)])
  {
    hide Smoothed;
    var carrier := RateColumn(state, state.recent[RecentCarrier], KeysOf(flights, (f: Flight) => [Text(f.carrier)]));
    var origin := RateColumn(state, state.recent[RecentOrigin], KeysOf(flights, (f: Flight) => [Text(f.origin)]));
    var destination := RateColumn(
      state, state.recent[RecentDestination], KeysOf(flights, (f: Flight) => [Text(f.destination)]));
    var route := RateColumn(state, state.recent[RecentRoute], KeysOf(flights, (f: Flight) => [Text(f.route)]));
    c := SingleColumns(carrier, origin, destination, route);
  }

  /** `_base_historical_frame`: every row of the assembled columns is that flight's serving row. */
  method BaseHistoricalFrame(flights: seq<Flight>, state: State) returns (rows: seq<BaseFeatures>)
    requires Usable(state)
    ensures |rows| == |flights|
    ensures forall i | 0 <= i < |flights| :: rows[i] == TransformOne(flights[i], state)
  {
    var global, recentGlobal := Rate(state.global), Smoothed(state, Some(state.recentGlobal));
    hide Smoothed, Rate, Usable, FullRate, RecentRate, Support;
    var singles := SingleFrame(flights, state);
    var pairs := PairFrame(flights, state);
    var supports := SupportFrame(flights, state);
    var recents := RecentFrame(flights, state);
    rows := seq(|flights|, i requires 0 <= i < |flights| => BaseFeatures(
      global, singles.carrier[i], singles.origin[i], singles.destination[i], singles.route[i],
      pairs.carrierRoute[i], pairs.carrierOrigin[i], pairs.carrierDestination[i],
      pairs.originDepartureHour[i], pairs.destinationArrivalHour[i],
      supports.route[i], supports.carrierRoute[i],
      recentGlobal, recents.carrier[i], recents.origin[i], recents.destination[i], recents.route[i]));
  }

  /** The five same-calendar-month columns of a batch. */
  method SeasonalHistoricalFrame(flights: seq<Flight>, state: SeasonalState) returns (r: Result<seq<SameMonthFeatures>>)
    requires SeasonallyUsable(state)
    ensures r.Ok? <==> forall i | 0 <= i < |flights| :: !OwnYearInState(flights[i], state)
    ensures r.Ok? ==>
      && |r.value| == |flights|
      && forall i | 0 <= i < |flights| :: r.value[i] == SameMonthRates(flights[i], state)
  {
    hide Smoothed;
    for i := 0 to |flights|
      invariant forall k | 0 <= k < i :: !OwnYearInState(flights[k], state)
    {
      if OwnYearInState(flights[i], state) {
        return Err(HistoricalState.OwnYearInState);
      }
    }
    var global := RateColumn(state.base, state.seasonal[MonthGlobal], KeysOf(flights, (f: Flight) => [Number(f.date.month)]));
    var carrier := RateColumn(
      state.base, state.seasonal[MonthCarrier], KeysOf(flights, (f: Flight) => [Number(f.date.month), Text(f.carrier)]));
    var origin := RateColumn(
      state.base, state.seasonal[MonthOrigin], KeysOf(flights, (f: Flight) => [Number(f.date.month), Text(f.origin)]));
    var destination := RateColumn(
      state.base, state.seasonal[MonthDestination],
      KeysOf(flights, (f: Flight) => [Number(f.date.month), Text(f.destination)]));
    var route := RateColumn(
      state.base, state.seasonal[MonthRoute], KeysOf(flights, (f: Flight) => [Number(f.date.month), Text(f.route)]));
    r := Ok(seq(|flights|, i requires 0 <= i < |flights| =>
      SameMonthFeatures(global[i], carrier[i], origin[i], destination[i], route[i])));
  }

  /** The batch can be transformed: valid rows, a state that ends before every row's month, and
      every row servable on its own. */
  predicate Transformable(flights: seq<Flight>, state: SeasonalState) {
    && flights != []
    && (forall i | 0 <= i < |flights| :: ValidFlight(flights[i]))
    && (forall i | 0 <= i < |flights| :: Before(state.base.asOf, FirstDay(MonthOf(flights[i].date))))
    && (forall i | 0 <= i < |flights| :: Servable(flights[i], state))
  }

  /** `transform_with_v3_state`: row for row what the serving transform gives. */
  method TransformBatch(flights: seq<Flight>, state: SeasonalState) returns (r: Result<seq<RowFeatures>>)
    requires SeasonallyUsable(state)
    ensures r.Ok? <==> Transformable(flights, state)
    ensures r.Ok? ==>
      && |r.value| == |flights|
      && forall i | 0 <= i < |flights| :: AreFeatures(flights[i], state, r.value[i])
  {
    hide TransformOne, SameMonthRates, Usable, Seasonal.AreSeasonalFeatures;
    if flights == [] || exists i | 0 <= i < |flights| :: !ValidFlight(flights[i]) {
      return Err(InvalidRows);
    }
    if exists i | 0 <= i < |flights| :: !Before(state.base.asOf, FirstDay(MonthOf(flights[i].date))) {
      return Err(StateTooRecent);
    }
    var dates := seq(|flights|, i requires 0 <= i < |flights| => flights[i].date);
    var seasonal := Seasonal.DeriveSeasonalFeatures(dates);
    if seasonal.Refused? {
      return Err(YearOutOfRange);
    }
    var base := BaseHistoricalFrame(flights, state.base);
    var sameMonth := SeasonalHistoricalFrame(flights, state);
    if sameMonth.Err? {
      return Err(sameMonth.failure);
    }
    forall i | 0 <= i < |flights| ensures Servable(flights[i], state) {
      assert Seasonal.AnchorYears(dates[i].year);
    }
    r := Ok(seq(|flights|, i requires 0 <= i < |flights| => RowFeatures(seasonal.value[i], base[i], sameMonth.value[i])));
  }

  // ---------------------------------------------------------------- rates stay between the group's and the global one

  /** A rate of a group never seen is the global rate; otherwise it lies between the group's own
      rate and the global one. */
  ghost predicate Tempered(x: real, found: Option<Counts>, state: State)
    requires Usable(state) && (found.Some? ==> ValidCounts(found.value))
  {
    if found.None? then x == Rate(state.global) else Between(x, Rate(found.value), Rate(state.global))
  }

  lemma LookedUpRateIsTempered(state: State, table: map<Key, Counts>, key: Key)
    requires Usable(state) && ValidTable(table)
    ensures Tempered(Smoothed(state, Lookup(table, key)), Lookup(table, key), state)
  {
    if key in table {
      SmoothedIsBetween(state, table[key]);
    }
  }

  /** Every rate the state can serve is tempered. */
  lemma EveryRateIsTempered(state: SeasonalState, t: FullTable, r: RecentTable, s: SeasonalTable, key: Key)
    requires SeasonallyUsable(state)
    ensures Tempered(FullRate(state.base, t, key), Lookup(state.base.full[t], key), state.base)
    ensures Tempered(RecentRate(state.base, r, key), Lookup(state.base.recent[r], key), state.base)
    ensures Tempered(SeasonalRate(state, s, key), Lookup(state.seasonal[s], key), state.base)
    ensures Tempered(Smoothed(state.base, Some(state.base.recentGlobal)), Some(state.base.recentGlobal), state.base)
  {
    LookedUpRateIsTempered(state.base, state.base.full[t], key);
    LookedUpRateIsTempered(state.base, state.base.recent[r], key);
    LookedUpRateIsTempered(state.base, state.seasonal[s], key);
    SmoothedIsBetween(state.base, state.base.recentGlobal);
  }

  // ---------------------------------------------------------------- what the features say about the history

  /** The smoothed delay rate of the flights in `rows` that share the columns of `f`. */
  function RateLike(rows: seq<Labelled>, columns: Columns, f: Flight, global: real): real {
    DirectRate(rows, columns, columns(f), global)
  }

  function SupportLike(rows: seq<Labelled>, columns: Columns, f: Flight): int {
    Count(rows, InGroup(columns, columns(f)))
  }

  function DirectBase(rows: seq<Labelled>, recent: seq<Labelled>, f: Flight): BaseFeatures
    requires rows != []
  {
    var g := Rate(Totals(rows));
    BaseFeatures(
      g,
      RateLike(rows, FullColumns(Carrier), f, g), RateLike(rows, FullColumns(Origin), f, g),
      RateLike(rows, FullColumns(Destination), f, g), RateLike(rows, FullColumns(Route), f, g),
      RateLike(rows, FullColumns(CarrierRoute), f, g), RateLike(rows, FullColumns(CarrierOrigin), f, g),
      RateLike(rows, FullColumns(CarrierDestination), f, g), RateLike(rows, FullColumns(OriginDepartureHour), f, g),
      RateLike(rows, FullColumns(DestinationArrivalHour), f, g),
      SupportLike(rows, FullColumns(Route), f), SupportLike(rows, FullColumns(CarrierRoute), f),
      Blend(Totals(recent), PRIOR_STRENGTH, g),
      RateLike(recent, FullColumns(Carrier), f, g), RateLike(recent, FullColumns(Origin), f, g),
      RateLike(recent, FullColumns(Destination), f, g), RateLike(recent, FullColumns(Route), f, g))
  }

  function DirectSameMonth(rows: seq<Labelled>, f: Flight): SameMonthFeatures
    requires rows != []
  {
    var g := Rate(Totals(rows));
    SameMonthFeatures(
      RateLike(rows, SeasonalColumns(MonthGlobal), f, g), RateLike(rows, SeasonalColumns(MonthCarrier), f, g),
      RateLike(rows, SeasonalColumns(MonthOrigin), f, g), RateLike(rows, SeasonalColumns(MonthDestination), f, g),
      RateLike(rows, SeasonalColumns(MonthRoute), f, g))
  }

  /** The state a history yields, without the sorting. */
  lemma BuiltStateReadsHistory(history: seq<Labelled>, cutoff: Date)
    requires BuildState(history, cutoff).Ok?
    ensures BuildState(history, cutoff).value
         == SeasonalStateOf(history, Filter(history, OnOrAfter(RecentStart(cutoff))), cutoff)
  {
    hide StableSort, SeasonalStateOf, RecentStart, Before;
    NormalizedKeepsRows(history);
    FilterPermutation(Normalized(history), history, OnOrAfter(RecentStart(cutoff)));
    StatesAgree(
      Normalized(history), history, Filter(Normalized(history), OnOrAfter(RecentStart(cutoff))),
      Filter(history, OnOrAfter(RecentStart(cutoff))), cutoff);
  }

  lemma FullRateIsDirect(state: State, rows: seq<Labelled>, t: FullTable, f: Flight)
    requires Usable(state) && state.priorStrength == PRIOR_STRENGTH && state.full[t] == Aggregate(rows, FullColumns(t))
    ensures FullRate(state, t, FullColumns(t)(f)) == RateLike(rows, FullColumns(t), f, Rate(state.global))
  {
    hide Aggregate, Smoothed, FullColumns, Rate;
    SmoothedIsDirect(state, rows, FullColumns(t), FullColumns(t)(f));
  }

  lemma RecentRateIsDirect(state: State, recent: seq<Labelled>, t: RecentTable, f: Flight)
    requires Usable(state) && state.priorStrength == PRIOR_STRENGTH && state.recent[t] == Aggregate(recent, RecentColumns(t))
    ensures RecentRate(state, t, RecentColumns(t)(f)) == RateLike(recent, RecentColumns(t), f, Rate(state.global))
  {
    hide Aggregate, Smoothed, RecentColumns, Rate;
    SmoothedIsDirect(state, recent, RecentColumns(t), RecentColumns(t)(f));
  }

  lemma SeasonalRateIsDirect(state: SeasonalState, rows: seq<Labelled>, t: SeasonalTable, f: Flight)
    requires SeasonallyUsable(state) && state.base.priorStrength == PRIOR_STRENGTH
    requires state.seasonal[t] == Aggregate(rows, SeasonalColumns(t))
    ensures SeasonalRate(state, t, SeasonalColumns(t)(f)) == RateLike(rows, SeasonalColumns(t), f, Rate(state.base.global))
  {
    hide Aggregate, Smoothed, SeasonalColumns, Rate;
    SmoothedIsDirect(state.base, rows, SeasonalColumns(t), SeasonalColumns(t)(f));
  }

  lemma SupportIsDirect(rows: seq<Labelled>, columns: Columns, f: Flight)
    ensures Support(Lookup(Aggregate(rows, columns), columns(f))) == SupportLike(rows, columns, f)
  {
    hide Aggregate;
    LookupIsGroupCounts(rows, columns, columns(f));
  }

  /** The served base features are the direct ones: each is the smoothed rate of the history rows
      that share the named entities with the flight. */
  lemma BaseFeaturesAreDirect(rows: seq<Labelled>, recent: seq<Labelled>, cutoff: Date, f: Flight)
    requires rows != [] && Usable(BaseStateOf(rows, recent, cutoff))
    ensures TransformOne(f, BaseStateOf(rows, recent, cutoff)) == DirectBase(rows, recent, f)
  {
    hide Aggregate, FullRate, RecentRate, RateLike, SupportLike, Rate, Smoothed, Support, Usable;
    EveryTableIsListed();
    var state := BaseStateOf(rows, recent, cutoff);
    FullRateIsDirect(state, rows, Carrier, f);
    FullRateIsDirect(state, rows, Origin, f);
    FullRateIsDirect(state, rows, Destination, f);
    FullRateIsDirect(state, rows, Route, f);
    FullRateIsDirect(state, rows, CarrierRoute, f);
    FullRateIsDirect(state, rows, CarrierOrigin, f);
    FullRateIsDirect(state, rows, CarrierDestination, f);
    FullRateIsDirect(state, rows, OriginDepartureHour, f);
    FullRateIsDirect(state, rows, DestinationArrivalHour, f);
    SupportIsDirect(rows, FullColumns(Route), f);
    SupportIsDirect(rows, FullColumns(CarrierRoute), f);
    RecentRateIsDirect(state, recent, RecentCarrier, f);
    RecentRateIsDirect(state, recent, RecentOrigin, f);
    RecentRateIsDirect(state, recent, RecentDestination, f);
    RecentRateIsDirect(state, recent, RecentRoute, f);
    RecentGlobalIsDirect(state);
  }

  lemma RecentGlobalIsDirect(state: State)
    requires Usable(state) && state.priorStrength == PRIOR_STRENGTH
    ensures Smoothed(state, Some(state.recentGlobal)) == Blend(state.recentGlobal, PRIOR_STRENGTH, Rate(state.global))
  {
  }

  lemma SameMonthRatesAreDirect(rows: seq<Labelled>, recent: seq<Labelled>, cutoff: Date, f: Flight)
    requires rows != [] && SeasonallyUsable(SeasonalStateOf(rows, recent, cutoff))
    ensures SameMonthRates(f, SeasonalStateOf(rows, recent, cutoff)) == DirectSameMonth(rows, f)
  {
    hide Aggregate, SeasonalRate, RateLike, Rate, Usable, MaxYears;
    EveryTableIsListed();
    var state := SeasonalStateOf(rows, recent, cutoff);
    SeasonalRateIsDirect(state, rows, MonthGlobal, f);
    SeasonalRateIsDirect(state, rows, MonthCarrier, f);
    SeasonalRateIsDirect(state, rows, MonthOrigin, f);
    SeasonalRateIsDirect(state, rows, MonthDestination, f);
    SeasonalRateIsDirect(state, rows, MonthRoute, f);
  }

  /** The features served from a built state, read off the history itself. */
  lemma FeaturesAreDirect(history: seq<Labelled>, cutoff: Date, f: Flight)
    requires BuildState(history, cutoff).Ok?
    ensures var state := BuildState(history, cutoff).value;
      && SeasonallyUsable(state)
      && TransformOne(f, state.base) == DirectBase(history, Filter(history, OnOrAfter(RecentStart(cutoff))), f)
      && SameMonthRates(f, state) == DirectSameMonth(history, f)
  {
    hide StableSort, Aggregate, TransformOne, SameMonthRates, DirectBase, DirectSameMonth, RecentStart;
    BuiltStatesAreUsable(history, cutoff);
    BuiltStateReadsHistory(history, cutoff);
    var recent := Filter(history, OnOrAfter(RecentStart(cutoff)));
    BaseFeaturesAreDirect(history, recent, cutoff, f);
    SameMonthRatesAreDirect(history, recent, cutoff, f);
  }
}
