/** Count tables over labelled flights (src/flight_delay/modeling/v2/features.py and
    src/flight_delay/modeling/v3/features.py). */
module HistoryTables {
  import opened Calendar
  import opened Counting
  import opened Ordering

  datatype Flight = Flight(
    date: Date, carrier: string, origin: string, destination: string, route: string,
    departureHour: int, arrivalHour: int)

  /** A flight with its binary label. */
  datatype Labelled = Labelled(flight: Flight, target: int)

  /** A lookup key is a list of scalars; its JSON text is not modelled further. */
  datatype Scalar = Text(text: string) | Number(number: int)
  type Key = seq<Scalar>

  datatype Counts = Counts(count: int, positive: int)

  /** What a column selection reads from a flight. */
  type Columns = Flight -> Key

  datatype FullTable =
    | Carrier | Origin | Destination | Route | CarrierRoute | CarrierOrigin | CarrierDestination
    | OriginDepartureHour | DestinationArrivalHour

  datatype RecentTable = RecentCarrier | RecentOrigin | RecentDestination | RecentRoute

  datatype SeasonalTable = MonthGlobal | MonthCarrier | MonthOrigin | MonthDestination | MonthRoute

  /** What each full table groups by. */
  function FullColumns(table: FullTable): Columns {
    match table
    case Carrier => (f: Flight) => [Text(f.carrier)]
    case Origin => (f: Flight) => [Text(f.origin)]
    case Destination => (f: Flight) => [Text(f.destination)]
    case Route => (f: Flight) => [Text(f.route)]
    case CarrierRoute => (f: Flight) => [Text(f.carrier), Text(f.route)]
    case CarrierOrigin => (f: Flight) => [Text(f.carrier), Text(f.origin)]
    case CarrierDestination => (f: Flight) => [Text(f.carrier), Text(f.destination)]
    case OriginDepartureHour => (f: Flight) => [Text(f.origin), Number(f.departureHour)]
    case DestinationArrivalHour => (f: Flight) => [Text(f.destination), Number(f.arrivalHour)]
  }

  /** `RECENT_TABLE_COLUMNS`: four of the full tables again. */
  function RecentColumns(table: RecentTable): Columns {
    match table
    case RecentCarrier => FullColumns(Carrier)
    case RecentOrigin => FullColumns(Origin)
    case RecentDestination => FullColumns(Destination)
    case RecentRoute => FullColumns(Route)
  }

  /** `SEASONAL_TABLE_COLUMNS`, each behind the calendar month. */
  function SeasonalColumns(table: SeasonalTable): Columns {
    match table
    case MonthGlobal => (f: Flight) => [Number(f.date.month)]
    case MonthCarrier => (f: Flight) => [Number(f.date.month), Text(f.carrier)]
    case MonthOrigin => (f: Flight) => [Number(f.date.month), Text(f.origin)]
    case MonthDestination => (f: Flight) => [Number(f.date.month), Text(f.destination)]
    case MonthRoute => (f: Flight) => [Number(f.date.month), Text(f.route)]
  }

  // ---------------------------------------------------------------- grouping

  function InGroup(columns: Columns, key: Key): Labelled -> bool {
    (r: Labelled) => columns(r.flight) == key
  }

  function DelayedInGroup(columns: Columns, key: Key): Labelled -> bool {
    (r: Labelled) => columns(r.flight) == key && r.target == 1
  }

  /** One group's size and its positive labels. */
  function GroupCounts(rows: seq<Labelled>, columns: Columns, key: Key): Counts {
    Counts(Count(rows, InGroup(columns, key)), Count(rows, DelayedInGroup(columns, key)))
  }

  function GroupKeys(rows: seq<Labelled>, columns: Columns): set<Key> {
    set r | r in rows :: columns(r.flight)
  }

  /** The table of all groups that occur. */
  function Aggregate(rows: seq<Labelled>, columns: Columns): map<Key, Counts> {
    map key | key in GroupKeys(rows, columns) :: GroupCounts(rows, columns, key)
  }

  /** The different keys, in order of appearance. */
  function KeyAppearances(rows: seq<Labelled>, columns: Columns): seq<Key> {
    if rows == [] then []
    else
      var front := KeyAppearances(rows[..|rows| - 1], columns);
      var key := columns(rows[|rows| - 1].flight);
      if key in front then front else front + [key]
  }

  lemma {:induction false} KeyAppearancesAreTheKeys(rows: seq<Labelled>, columns: Columns)
    ensures Distinct(KeyAppearances(rows, columns))
    ensures forall key :: key in KeyAppearances(rows, columns) <==> key in GroupKeys(rows, columns)
  {
    if rows != [] {
      var front, last := rows[..|rows| - 1], rows[|rows| - 1];
      KeyAppearancesAreTheKeys(front, columns);
      assert rows == front + [last];
      assert GroupKeys(rows, columns) == GroupKeys(front, columns) + {columns(last.flight)};
    }
  }

  /** `_aggregate`: fill a dictionary group by group. */
  method AggregateByGroup(rows: seq<Labelled>, columns: Columns) returns (result: map<Key, Counts>)
    ensures result == Aggregate(rows, columns)
  {
    var groups := KeyAppearances(rows, columns);
    KeyAppearancesAreTheKeys(rows, columns);
    result := map[];
    for i := 0 to |groups|
      invariant forall key :: key in result <==> key in groups[..i]
      invariant forall key | key in result :: result[key] == GroupCounts(rows, columns, key)
    {
      assert groups[..i + 1] == groups[..i] + [groups[i]];
      var key := groups[i];
      result := result[key := Counts(Count(rows, InGroup(columns, key)), Count(rows, DelayedInGroup(columns, key)))];
    }
    assert groups[..|groups|] == groups;
  }

  ghost predicate ValidCounts(c: Counts) {
    c.count > 0 && 0 <= c.positive <= c.count
  }

  /** Every group of a table has at least one row and no more positives than rows. */
  lemma TableCountsAreValid(rows: seq<Labelled>, columns: Columns, key: Key)
    requires key in Aggregate(rows, columns)
    ensures ValidCounts(Aggregate(rows, columns)[key])
  {
    var r :| r in rows && columns(r.flight) == key;
    var i :| 0 <= i < |rows| && rows[i] == r;
    CountIsBounded(rows, InGroup(columns, key));
    assert InGroup(columns, key)(rows[i]);
    CountMonotone(rows, DelayedInGroup(columns, key), InGroup(columns, key));
  }

  /** A table depends on its rows only as a multiset. */
  lemma TableIgnoresRowOrder(rows: seq<Labelled>, others: seq<Labelled>, columns: Columns)
    requires multiset(rows) == multiset(others)
    ensures Aggregate(rows, columns) == Aggregate(others, columns)
  {
    SameElements(rows, others);
    assert GroupKeys(rows, columns) == GroupKeys(others, columns);
    forall key | key in GroupKeys(rows, columns)
      ensures GroupCounts(rows, columns, key) == GroupCounts(others, columns, key)
    {
      CountPermutation(rows, others, InGroup(columns, key));
      CountPermutation(rows, others, DelayedInGroup(columns, key));
    }
  }

  /** One item of a table, as a dictionary yields it. */
  datatype Entry = Entry(key: Key, counts: Counts)

  ghost predicate DistinctKeys(entries: seq<Entry>) {
    forall i, j | 0 <= i < j < |entries| :: entries[i].key != entries[j].key
  }

  /** `entries` are the items of `table`, in some order. */
  ghost predicate Lists(entries: seq<Entry>, table: map<Key, Counts>) {
    && DistinctKeys(entries)
    && (forall i | 0 <= i < |entries| :: entries[i].key in table && table[entries[i].key] == entries[i].counts)
    && (forall key | key in table :: exists i :: 0 <= i < |entries| && entries[i].key == key)
  }

  /** The items of a table, in whatever order the dictionary holds them. */
  method DictionaryItems(table: map<Key, Counts>) returns (entries: seq<Entry>)
    ensures Lists(entries, table)
  {
    entries := [];
    var left := table.Keys;
    while left != {}
      invariant left <= table.Keys
      invariant DistinctKeys(entries)
      invariant forall i | 0 <= i < |entries| ::
        entries[i].key in table && entries[i].key !in left && table[entries[i].key] == entries[i].counts
      invariant forall key | key in table && key !in left :: exists i :: 0 <= i < |entries| && entries[i].key == key
      decreases left
    {
      ghost var before := entries;
      var key :| key in left;
      entries, left := entries + [Entry(key, table[key])], left - {key};
      assert entries[|before|].key == key;
      assert forall i | 0 <= i < |before| :: entries[i] == before[i];
    }
  }

  // ---------------------------------------------------------------- conservation

  /** The sum of the entries at `keys`. */
  function Tally(table: map<Key, Counts>, keys: seq<Key>): Counts
    requires forall k | k in keys :: k in table
  {
    if keys == [] then Counts(0, 0)
    else
      var rest := Tally(table, keys[1..]);
      Counts(table[keys[0]].count + rest.count, table[keys[0]].positive + rest.positive)
  }

  function InKeys(columns: Columns, keys: seq<Key>): Labelled -> bool {
    (r: Labelled) => columns(r.flight) in keys
  }

  function DelayedInKeys(columns: Columns, keys: seq<Key>): Labelled -> bool {
    (r: Labelled) => columns(r.flight) in keys && r.target == 1
  }

  /** Distinct groups add up to the rows that fall into any of them. */
  lemma {:induction false} TallyCountsRows(rows: seq<Labelled>, columns: Columns, keys: seq<Key>)
    requires Distinct(keys) && forall k | k in keys :: k in Aggregate(rows, columns)
    ensures Tally(Aggregate(rows, columns), keys)
         == Counts(Count(rows, InKeys(columns, keys)), Count(rows, DelayedInKeys(columns, keys)))
  {
    if keys == [] {
      assert Count(rows, InKeys(columns, keys)) == 0 by {
        CountIsBounded(rows, InKeys(columns, keys));
      }
      assert Count(rows, DelayedInKeys(columns, keys)) == 0 by {
        CountIsBounded(rows, DelayedInKeys(columns, keys));
      }
    } else {
      var table, key, rest := Aggregate(rows, columns), keys[0], keys[1..];
      assert keys == [key] + rest && key !in rest;
      TallyCountsRows(rows, columns, rest);
      assert table[key] == GroupCounts(rows, columns, key);
      assert Tally(table, keys).count == table[key].count + Tally(table, rest).count;
      assert Tally(table, keys).positive == table[key].positive + Tally(table, rest).positive;
      CountSplit(rows, InKeys(columns, keys), InGroup(columns, key), InKeys(columns, rest));
      CountSplit(rows, DelayedInKeys(columns, keys), DelayedInGroup(columns, key), DelayedInKeys(columns, rest));
    }
  }

  /** `keys` lists, once each, the keys of the fine table that project to `coarseKey`. */
  ghost predicate ListsPart(table: map<Key, Counts>, project: Key -> Key, coarseKey: Key, keys: seq<Key>) {
    && Distinct(keys)
    && forall k :: k in keys <==> k in table && project(k) == coarseKey
  }

  /** The coarse columns can be read off the fine ones. */
  ghost predicate Refines(fine: Columns, coarse: Columns, project: Key -> Key) {
    forall f: Flight :: project(fine(f)) == coarse(f)
  }

  /** A coarser table is the sum of the finer one: each of its entries is the total of the fine
      entries that project to it. */
  lemma CoarseIsSumOfFine(
      rows: seq<Labelled>, fine: Columns, coarse: Columns, project: Key -> Key, coarseKey: Key, keys: seq<Key>)
    requires Refines(fine, coarse, project)
    requires ListsPart(Aggregate(rows, fine), project, coarseKey, keys)
    ensures Tally(Aggregate(rows, fine), keys) == GroupCounts(rows, coarse, coarseKey)
  {
    TallyCountsRows(rows, fine, keys);
    forall i | 0 <= i < |rows|
      ensures InKeys(fine, keys)(rows[i]) == InGroup(coarse, coarseKey)(rows[i])
      ensures DelayedInKeys(fine, keys)(rows[i]) == DelayedInGroup(coarse, coarseKey)(rows[i])
    {
      assert rows[i] in rows;
      assert fine(rows[i].flight) in GroupKeys(rows, fine);
      assert project(fine(rows[i].flight)) == coarse(rows[i].flight);
    }
    CountSame(rows, InKeys(fine, keys), InGroup(coarse, coarseKey));
    CountSame(rows, DelayedInKeys(fine, keys), DelayedInGroup(coarse, coarseKey));
  }

  function NoColumns(): Columns { (f: Flight) => [] }
  function First(): Key -> Key { (k: Key) => if k == [] then [] else [k[0]] }
  function Second(): Key -> Key { (k: Key) => if |k| < 2 then [] else [k[1]] }
  function Nothing(): Key -> Key { (k: Key) => [] }

  /** The one-entity table a two-entity table refines by its first column. */
  function LeadingTable(t: FullTable): FullTable {
    match t
    case CarrierRoute => Carrier
    case CarrierOrigin => Carrier
    case CarrierDestination => Carrier
    case OriginDepartureHour => Origin
    case DestinationArrivalHour => Destination
    case _ => t
  }

  /** The table of the same entity without the calendar month. */
  function WithoutMonth(s: SeasonalTable): Columns {
    match s
    case MonthGlobal => NoColumns()
    case MonthCarrier => FullColumns(Carrier)
    case MonthOrigin => FullColumns(Origin)
    case MonthDestination => FullColumns(Destination)
    case MonthRoute => FullColumns(Route)
  }

  /** A two-entity table adds up to the table of its first entity. */
  lemma PairsAddUp(rows: seq<Labelled>, t: FullTable, key: Key, keys: seq<Key>)
    requires ListsPart(Aggregate(rows, FullColumns(t)), First(), key, keys)
    ensures Tally(Aggregate(rows, FullColumns(t)), keys) == GroupCounts(rows, FullColumns(LeadingTable(t)), key)
  {
    CoarseIsSumOfFine(rows, FullColumns(t), FullColumns(LeadingTable(t)), First(), key, keys);
  }

  /** A same-calendar-month table adds up to the month over its entities, and to the full table of
      its entity over the months. */
  lemma SeasonsAddUp(
      rows: seq<Labelled>, s: SeasonalTable, month: Key, inMonth: seq<Key>, entity: Key, ofEntity: seq<Key>)
    requires ListsPart(Aggregate(rows, SeasonalColumns(s)), First(), month, inMonth)
    requires ListsPart(Aggregate(rows, SeasonalColumns(s)), Second(), entity, ofEntity)
    ensures Tally(Aggregate(rows, SeasonalColumns(s)), inMonth) == GroupCounts(rows, SeasonalColumns(MonthGlobal), month)
    ensures Tally(Aggregate(rows, SeasonalColumns(s)), ofEntity) == GroupCounts(rows, WithoutMonth(s), entity)
  {
    CoarseIsSumOfFine(rows, SeasonalColumns(s), SeasonalColumns(MonthGlobal), First(), month, inMonth);
    CoarseIsSumOfFine(rows, SeasonalColumns(s), WithoutMonth(s), Second(), entity, ofEntity);
  }

  /** The counts of a whole data set. */
  function Totals(rows: seq<Labelled>): Counts {
    Counts(|rows|, Count(rows, (r: Labelled) => r.target == 1))
  }

  /** Every full table conserves the global counts. */
  lemma FullTablesConserveTotals(rows: seq<Labelled>, t: FullTable, keys: seq<Key>)
    requires Distinct(keys) && forall k :: k in keys <==> k in Aggregate(rows, FullColumns(t))
    ensures Tally(Aggregate(rows, FullColumns(t)), keys) == Totals(rows)
  {
    CoarseIsSumOfFine(rows, FullColumns(t), NoColumns(), Nothing(), [], keys);
    CountIsBounded(rows, InGroup(NoColumns(), []));
    CountSame(rows, DelayedInGroup(NoColumns(), []), (r: Labelled) => r.target == 1);
  }

  /** Rows that are kept by a filter never count for more than all rows. */
  lemma {:induction false} FilterCountsLess(rows: seq<Labelled>, keep: Labelled -> bool, p: Labelled -> bool)
    ensures Count(Filter(rows, keep), p) <= Count(rows, p)
  {
    if rows != [] {
      FilterCountsLess(rows[1..], keep, p);
      if keep(rows[0]) {
        assert Filter(rows, keep)[1..] == Filter(rows[1..], keep);
      } else {
        assert Filter(rows, keep) == Filter(rows[1..], keep);
      }
    }
  }

  /** The trailing-window tables are bounded by the full ones. */
  lemma RecentNeverExceedsFull(rows: seq<Labelled>, keep: Labelled -> bool, columns: Columns, key: Key)
    requires key in Aggregate(Filter(rows, keep), columns)
    ensures key in Aggregate(rows, columns)
    ensures Aggregate(Filter(rows, keep), columns)[key].count <= Aggregate(rows, columns)[key].count
    ensures Aggregate(Filter(rows, keep), columns)[key].positive <= Aggregate(rows, columns)[key].positive
  {
    FilterMembers(rows, keep);
    FilterCountsLess(rows, keep, InGroup(columns, key));
    FilterCountsLess(rows, keep, DelayedInGroup(columns, key));
  }
}
