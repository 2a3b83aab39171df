/** The value tree a state is written to and read back from: `as_dict` and `from_bytes`. */
module StateSerialization {
  import opened Calendar
  import opened Counting
  import opened HistoricalState
  import opened HistoryTables
  import opened Ordering

  /** Table items are written in the order of their key texts; that order enters as a parameter
      (src/flight_delay/modeling/v2/features.py, src/flight_delay/modeling/v3/features.py). */
  type KeyOrder = (Key, Key) -> bool

  ghost predicate IsKeyOrder(before: KeyOrder) {
    && (forall k :: !before(k, k))
    && (forall k, l :: k != l ==> before(k, l) || before(l, k))
    && (forall k, l, m {:trigger before(k, l), before(l, m)} :: before(k, l) && before(l, m) ==> before(k, m))
  }

  datatype BaseDocument = BaseDocument(
    asOf: Date, priorStrength: int, trailingMonths: int, global: Counts, recentGlobal: Counts,
    full: map<FullTable, seq<Entry>>, recent: map<RecentTable, seq<Entry>>)

  datatype Document = Document(
    base: BaseDocument, seasonal: map<SeasonalTable, seq<Entry>>, maxYear: map<int, int>)

  datatype Problem = WrongStrength | WrongTables | DuplicateKey | InvalidCounts

  datatype Reading<+T> = Read(value: T) | Refused(problem: Problem)

  // ---------------------------------------------------------------- one table

  function ByKey(before: KeyOrder): (Entry, Entry) -> bool {
    (a: Entry, b: Entry) => before(a.key, b.key)
  }

  /** The items of `table` in the order of their keys. */
  ghost predicate IsTableDocument(entries: seq<Entry>, table: map<Key, Counts>, before: KeyOrder) {
    Lists(entries, table) && SortedBy(entries, ByKey(before))
  }

  lemma EntriesAreTotallyOrdered(entries: seq<Entry>, before: KeyOrder)
    requires IsKeyOrder(before) && DistinctKeys(entries)
    ensures StrictTotalOrder(Elements(entries), ByKey(before)) && AllIn(entries, Elements(entries))
  {
    var domain := Elements(entries);
    forall x, y | x in domain && y in domain && x != y ensures ByKey(before)(x, y) || ByKey(before)(y, x) {
      var i :| 0 <= i < |entries| && entries[i] == x;
      var j :| 0 <= j < |entries| && entries[j] == y;
      assert x.key != y.key;
    }
    forall x, y | x in domain && y in domain && ByKey(before)(x, y) ensures !ByKey(before)(y, x) {
      assert before(y.key, x.key) ==> before(x.key, x.key);
    }
    forall x, y, z | x in domain && y in domain && z in domain && ByKey(before)(x, z)
      ensures ByKey(before)(x, y) || ByKey(before)(y, z)
    {
      if x.key != y.key && !before(x.key, y.key) {
        assert before(y.key, x.key) && before(x.key, z.key);
      }
    }
  }

  /** Distinct sequences with the same elements are permutations of one another. */
  lemma DistinctSameElements<T(!new)>(xs: seq<T>, ys: seq<T>)
    requires Distinct(xs) && Distinct(ys) && forall x :: x in xs <==> x in ys
    ensures multiset(xs) == multiset(ys)
  {
    forall x: T ensures multiset(xs)[x] == multiset(ys)[x] {
      DistinctOccursOnce(xs, x);
      DistinctOccursOnce(ys, x);
      assert x in xs <==> x in multiset(xs);
      assert x in ys <==> x in multiset(ys);
    }
  }

  lemma ListingsArePermutations(a: seq<Entry>, b: seq<Entry>, table: map<Key, Counts>)
    requires Lists(a, table) && Lists(b, table)
    ensures multiset(a) == multiset(b)
  {
    forall x ensures x in a <==> x in b {
      ListedElement(a, table, x);
      ListedElement(b, table, x);
    }
    DistinctSameElements(a, b);
  }

  lemma ListedElement(entries: seq<Entry>, table: map<Key, Counts>, x: Entry)
    requires Lists(entries, table)
    ensures x in entries <==> x.key in table && table[x.key] == x.counts
  {
    if x.key in table && table[x.key] == x.counts {
      var i :| 0 <= i < |entries| && entries[i].key == x.key;
      assert entries[i] == x;
    }
  }

  /** The written table does not depend on the insertion order of the dictionary. */
  lemma TableDocumentIsCanonical(a: seq<Entry>, b: seq<Entry>, table: map<Key, Counts>, before: KeyOrder)
    requires IsKeyOrder(before) && IsTableDocument(a, table, before) && IsTableDocument(b, table, before)
    ensures a == b
  {
    ListingsArePermutations(a, b, table);
    EntriesAreTotallyOrdered(a, before);
    SortedArrangementIsUnique(a, b, Elements(a), ByKey(before));
  }

  /** `items` are the dictionary's items in insertion order. */
  function TableDocument(items: seq<Entry>, before: KeyOrder): seq<Entry> { StableSort(items, ByKey(before)) }

  lemma TableDocumentIsTheTable(items: seq<Entry>, table: map<Key, Counts>, before: KeyOrder)
    requires IsKeyOrder(before) && Lists(items, table)
    ensures IsTableDocument(TableDocument(items, before), table, before)
  {
    hide StableSort;
    var sorted := TableDocument(items, before);
    EntriesAreTotallyOrdered(items, before);
    SortIsSorted(items, Elements(items), ByKey(before));
    SortIsPermutation(items, ByKey(before));
    SameElements(items, sorted);
    PermutationIsDistinct(items, sorted);
    forall i, j | 0 <= i < j < |sorted| ensures sorted[i].key != sorted[j].key {
      assert sorted[i] in sorted && sorted[j] in sorted;
      ListedElement(items, table, sorted[i]);
      ListedElement(items, table, sorted[j]);
    }
    forall i | 0 <= i < |sorted| ensures sorted[i].key in table && table[sorted[i].key] == sorted[i].counts {
      assert sorted[i] in sorted;
      ListedElement(items, table, sorted[i]);
    }
    forall key | key in table ensures exists i :: 0 <= i < |sorted| && sorted[i].key == key {
      var x := Entry(key, table[key]);
      ListedElement(items, table, x);
      assert x in sorted;
      var i :| 0 <= i < |sorted| && sorted[i] == x;
      assert sorted[i].key == key;
    }
  }

  /** What reading a list of entries accepts. */
  ghost predicate Acceptable(entries: seq<Entry>) {
    DistinctKeys(entries) && forall i | 0 <= i < |entries| :: ValidCounts(entries[i].counts)
  }

  /** The inner loop of `tables`: refuse a key seen before and counts that cannot be. */
  method ReadTable(entries: seq<Entry>) returns (r: Reading<map<Key, Counts>>)
    ensures r.Read? <==> Acceptable(entries)
    ensures r.Read? ==> Lists(entries, r.value)
  {
    var table: map<Key, Counts> := map[];
    for i := 0 to |entries|
      invariant Lists(entries[..i], table)
      invariant forall k | 0 <= k < i :: ValidCounts(entries[k].counts)
    {
      var e := entries[i];
      ghost var front := entries[..i];
      if e.key in table {
        assert exists k :: 0 <= k < i && front[k].key == e.key;
        return Refused(DuplicateKey);
      }
      if !(e.counts.count > 0 && 0 <= e.counts.positive <= e.counts.count) {
        return Refused(InvalidCounts);
      }
      AppendListing(front, table, e);
      assert entries[..i + 1] == front + [e];
      table := table[e.key := e.counts];
    }
    assert entries[..|entries|] == entries;
    r := Read(table);
  }

  lemma AppendListing(front: seq<Entry>, table: map<Key, Counts>, e: Entry)
    requires Lists(front, table) && e.key !in table
    ensures Lists(front + [e], table[e.key := e.counts])
  {
    var more, grown := front + [e], table[e.key := e.counts];
    forall key | key in grown ensures exists i :: 0 <= i < |more| && more[i].key == key {
      if key == e.key {
        assert more[|front|].key == key;
      } else {
        var i :| 0 <= i < |front| && front[i].key == key;
        assert more[i].key == key;
      }
    }
  }

  /** A listing determines its table. */
  lemma ListingDeterminesTable(entries: seq<Entry>, a: map<Key, Counts>, b: map<Key, Counts>)
    requires Lists(entries, a) && Lists(entries, b)
    ensures a == b
  {
    forall key | key in a ensures key in b {
      var i :| 0 <= i < |entries| && entries[i].key == key;
    }
    forall key | key in b ensures key in a {
      var i :| 0 <= i < |entries| && entries[i].key == key;
    }
    forall key | key in a ensures a[key] == b[key] {
      var i :| 0 <= i < |entries| && entries[i].key == key;
    }
  }

  lemma AcceptableExactlyWhenValid(entries: seq<Entry>, table: map<Key, Counts>)
    requires Lists(entries, table)
    ensures Acceptable(entries) <==> ValidTable(table)
  {
    if ValidTable(table) {
      forall i | 0 <= i < |entries| ensures ValidCounts(entries[i].counts) {
        assert entries[i].key in table;
      }
    }
    if Acceptable(entries) {
      forall key | key in table ensures ValidCounts(table[key]) {
        var i :| 0 <= i < |entries| && entries[i].key == key;
      }
    }
  }

  // ---------------------------------------------------------------- a set of tables

  ghost predicate AreTableDocuments<N(!new)>(
    encoded: map<N, seq<Entry>>, tables: map<N, map<Key, Counts>>, before: KeyOrder)
  {
    && encoded.Keys == tables.Keys
    && forall n | n in tables :: IsTableDocument(encoded[n], tables[n], before)
  }

  /** Read every table; the set of names must be the expected one. */
  method ReadTables<N(
      ==, !new)>(encoded: map<N, seq<Entry>>, expected: set<N>)
    returns (r: Reading<map<N, map<Key, Counts>>>)
    ensures r.Read? <==> encoded.Keys == expected && forall n | n in encoded :: Acceptable(encoded[n])
    ensures r.Read? ==> r.value.Keys == encoded.Keys && forall n | n in encoded :: Lists(encoded[n], r.value[n])
  {
    hide Acceptable, Lists;
    if encoded.Keys != expected {
      return Refused(WrongTables);
    }
    var tables: map<N, map<Key, Counts>> := map[];
    var left := encoded.Keys;
    while left != {}
      invariant left <= encoded.Keys && tables.Keys == encoded.Keys - left
      invariant forall n | n in tables :: Acceptable(encoded[n]) && Lists(encoded[n], tables[n])
      decreases left
    {
      var n :| n in left;
      var one := ReadTable(encoded[n]);
      if one.Refused? {
        return Refused(one.problem);
      }
      tables, left := tables[n := one.value], left - {n};
    }
    r := Read(tables);
  }

  /** Reading back gives the same tables, and refuses exactly when some count is invalid. */
  lemma TablesRoundTrip<N(!new)>(
      encoded: map<N, seq<Entry>>, tables: map<N, map<Key, Counts>>, again: map<N, map<Key, Counts>>, before: KeyOrder)
    requires AreTableDocuments(encoded, tables, before)
    ensures (forall n | n in encoded :: Acceptable(encoded[n])) <==> forall n | n in tables :: ValidTable(tables[n])
    ensures again.Keys == encoded.Keys && (forall n | n in encoded :: Lists(encoded[n], again[n])) ==> again == tables
  {
    hide Acceptable, ValidTable, Lists;
    forall n | n in tables ensures Acceptable(encoded[n]) <==> ValidTable(tables[n]) {
      assert Lists(encoded[n], tables[n]) by {
        TableDocumentLists(encoded[n], tables[n], before);
      }
      AcceptableExactlyWhenValid(encoded[n], tables[n]);
    }
    if again.Keys == encoded.Keys && (forall n | n in encoded :: Lists(encoded[n], again[n])) {
      forall n | n in tables ensures again[n] == tables[n] {
        TableDocumentLists(encoded[n], tables[n], before);
        ListingDeterminesTable(encoded[n], again[n], tables[n]);
      }
    }
  }

  lemma TableDocumentLists(entries: seq<Entry>, table: map<Key, Counts>, before: KeyOrder)
    requires IsTableDocument(entries, table, before)
    ensures Lists(entries, table)
  {
  }

  lemma TablesAreCanonical<N(!new)>(
      a: map<N, seq<Entry>>, b: map<N, seq<Entry>>, tables: map<N, map<Key, Counts>>, before: KeyOrder)
    requires IsKeyOrder(before) && AreTableDocuments(a, tables, before) && AreTableDocuments(b, tables, before)
    ensures a == b
  {
    hide IsTableDocument, IsKeyOrder;
    forall n | n in a ensures a[n] == b[n] {
      TableDocumentIsCanonical(a[n], b[n], tables[n], before);
    }
  }

  // ---------------------------------------------------------------- a whole state

  /** `doc` is what the state is written as. */
  ghost predicate IsDocument(doc: Document, state: SeasonalState, before: KeyOrder) {
    && doc.base.asOf == state.base.asOf
    && doc.base.priorStrength == state.base.priorStrength
    && doc.base.trailingMonths == TRAILING_MONTHS
    && doc.base.global == state.base.global && doc.base.recentGlobal == state.base.recentGlobal
    && AreTableDocuments(doc.base.full, state.base.full, before)
    && AreTableDocuments(doc.base.recent, state.base.recent, before)
    && AreTableDocuments(doc.seasonal, state.seasonal, before)
    && doc.maxYear == state.maxYear
  }

  /** `_serialized_tables`: the items of every table, sorted. */
  method WriteTables<N(
      ==, !new)>(tables: map<N, map<Key, Counts>>, before: KeyOrder)
    returns (encoded: map<N, seq<Entry>>)
    requires IsKeyOrder(before)
    ensures AreTableDocuments(encoded, tables, before)
  {
    hide IsKeyOrder, IsTableDocument, TableDocument;
    encoded := map[];
    var left := tables.Keys;
    while left != {}
      invariant left <= tables.Keys && encoded.Keys == tables.Keys - left
      invariant forall n | n in encoded :: IsTableDocument(encoded[n], tables[n], before)
      decreases left
    {
      var n :| n in left;
      var items := DictionaryItems(tables[n]);
      TableDocumentIsTheTable(items, tables[n], before);
      encoded, left := encoded[n := TableDocument(items, before)], left - {n};
    }
  }

  /** A whole state as a value tree. */
  method WriteDocument(state: SeasonalState, before: KeyOrder) returns (doc: Document)
    requires IsKeyOrder(before)
    ensures IsDocument(doc, state, before)
  {
    hide IsKeyOrder, AreTableDocuments;
    var full := WriteTables(state.base.full, before);
    var recent := WriteTables(state.base.recent, before);
    var seasonal := WriteTables(state.seasonal, before);
    doc := Document(
      BaseDocument(
        state.base.asOf, state.base.priorStrength, TRAILING_MONTHS, state.base.global, state.base.recentGlobal, full, recent),
      seasonal, state.maxYear);
  }

  /** One state has one document, whatever order its dictionaries were filled in. */
  lemma DocumentIsCanonical(a: Document, b: Document, state: SeasonalState, before: KeyOrder)
    requires IsKeyOrder(before) && IsDocument(a, state, before) && IsDocument(b, state, before)
    ensures a == b
  {
    hide AreTableDocuments, IsKeyOrder;
    TablesAreCanonical(a.base.full, b.base.full, state.base.full, before);
    TablesAreCanonical(a.base.recent, b.base.recent, state.base.recent, before);
    TablesAreCanonical(a.seasonal, b.seasonal, state.seasonal, before);
  }

  /** What reading accepts: the fixed strength, every table, and valid counts everywhere. */
  ghost predicate Restorable(state: SeasonalState) {
    SeasonallyUsable(state) && state.base.priorStrength == PRIOR_STRENGTH
  }

  ghost predicate ReadableTables<N(!new)>(encoded: map<N, seq<Entry>>, expected: set<N>) {
    encoded.Keys == expected && forall n | n in encoded :: Acceptable(encoded[n])
  }

  ghost predicate Readable(doc: Document) {
    && doc.base.priorStrength == PRIOR_STRENGTH
    && ValidCounts(doc.base.global) && ValidCounts(doc.base.recentGlobal)
    && ReadableTables(doc.base.full, FULL_TABLES)
    && ReadableTables(doc.base.recent, RECENT_TABLES)
    && ReadableTables(doc.seasonal, SEASONAL_TABLES)
  }

  ghost predicate ListsTables<N(!new)>(encoded: map<N, seq<Entry>>, tables: map<N, map<Key, Counts>>) {
    tables.Keys == encoded.Keys && forall n | n in encoded :: Lists(encoded[n], tables[n])
  }

  /** `state` is what `doc` is read as. */
  ghost predicate IsReading(doc: Document, state: SeasonalState) {
    && state.base.asOf == doc.base.asOf && state.base.priorStrength == PRIOR_STRENGTH
    && state.base.global == doc.base.global && state.base.recentGlobal == doc.base.recentGlobal
    && ListsTables(doc.base.full, state.base.full)
    && ListsTables(doc.base.recent, state.base.recent)
    && ListsTables(doc.seasonal, state.seasonal)
    && state.maxYear == doc.maxYear
  }

  /** A state from its value tree, refused unless every part is in order. */
  method ReadDocument(doc: Document) returns (r: Reading<SeasonalState>)
    ensures r.Read? <==> Readable(doc)
    ensures r.Read? ==> IsReading(doc, r.value)
  {
    hide Acceptable, Lists;
    if doc.base.priorStrength != PRIOR_STRENGTH {
      return Refused(WrongStrength);
    }
    if !PlausibleCounts(doc.base.global) || !PlausibleCounts(doc.base.recentGlobal) {
      return Refused(InvalidCounts);
    }
    var full := ReadTables(doc.base.full, FULL_TABLES);
    if full.Refused? {
      return Refused(full.problem);
    }
    var recent := ReadTables(doc.base.recent, RECENT_TABLES);
    if recent.Refused? {
      return Refused(recent.problem);
    }
    var seasonal := ReadTables(doc.seasonal, SEASONAL_TABLES);
    if seasonal.Refused? {
      return Refused(seasonal.problem);
    }
    r := Read(SeasonalState(
      State(doc.base.asOf, doc.base.global, doc.base.recentGlobal, full.value, recent.value, PRIOR_STRENGTH),
      seasonal.value, doc.maxYear));
  }

  predicate PlausibleCounts(c: Counts) { c.count > 0 && 0 <= c.positive <= c.count }

  /** Writing and reading back restores a state exactly when it is restorable, and then restores
      it unchanged. */
  lemma RoundTrip(state: SeasonalState, doc: Document, again: SeasonalState, before: KeyOrder)
    requires IsDocument(doc, state, before)
    ensures Readable(doc) <==> Restorable(state)
    ensures Readable(doc) && IsReading(doc, again) ==> again == state
  {
    hide IsTableDocument, Acceptable, ValidTable, Lists;
    EveryTableIsListed();
    TablesRoundTrip(doc.base.full, state.base.full, again.base.full, before);
    TablesRoundTrip(doc.base.recent, state.base.recent, again.base.recent, before);
    TablesRoundTrip(doc.seasonal, state.seasonal, again.seasonal, before);
    NamesAreComplete(doc, state);
  }

  lemma NamesAreComplete(doc: Document, state: SeasonalState)
    requires doc.base.full.Keys == state.base.full.Keys
    requires doc.base.recent.Keys == state.base.recent.Keys
    requires doc.seasonal.Keys == state.seasonal.Keys
    ensures doc.base.full.Keys == FULL_TABLES <==> forall t :: t in state.base.full
    ensures doc.base.recent.Keys == RECENT_TABLES <==> forall t :: t in state.base.recent
    ensures doc.seasonal.Keys == SEASONAL_TABLES <==> forall t :: t in state.seasonal
  {
    EveryTableIsListed();
    assert (forall t :: t in state.base.full) ==> doc.base.full.Keys == FULL_TABLES;
    assert (forall t :: t in state.base.recent) ==> doc.base.recent.Keys == RECENT_TABLES;
    assert (forall t :: t in state.seasonal) ==> doc.seasonal.Keys == SEASONAL_TABLES;
    assert doc.base.full.Keys == FULL_TABLES ==> forall t :: t in state.base.full.Keys;
    assert doc.base.recent.Keys == RECENT_TABLES ==> forall t :: t in state.base.recent.Keys;
    assert doc.seasonal.Keys == SEASONAL_TABLES ==> forall t :: t in state.seasonal.Keys;
  }

  /** Two states with the same document are the same state, so a document's digest identifies it. */
  lemma DocumentDeterminesState(a: SeasonalState, b: SeasonalState, doc: Document, before: KeyOrder)
    requires IsDocument(doc, a, before) && IsDocument(doc, b, before)
    ensures a == b
  {
    hide Acceptable, ValidTable, Lists;
    TablesDetermined(doc.base.full, a.base.full, b.base.full, before);
    TablesDetermined(doc.base.recent, a.base.recent, b.base.recent, before);
    TablesDetermined(doc.seasonal, a.seasonal, b.seasonal, before);
  }

  lemma TablesDetermined<N(!new)>(
      encoded: map<N, seq<Entry>>, a: map<N, map<Key, Counts>>, b: map<N, map<Key, Counts>>, before: KeyOrder)
    requires AreTableDocuments(encoded, a, before) && AreTableDocuments(encoded, b, before)
    ensures a == b
  {
    hide Lists;
    forall n | n in a ensures a[n] == b[n] {
      TableDocumentLists(encoded[n], a[n], before);
      TableDocumentLists(encoded[n], b[n], before);
      ListingDeterminesTable(encoded[n], a[n], b[n]);
    }
  }

  /** Every state the builder returns survives the round trip. */
  lemma BuiltStatesAreRestorable(history: seq<Labelled>, cutoff: Date)
    requires BuildState(history, cutoff).Ok?
    ensures Restorable(BuildState(history, cutoff).value)
  {
    hide BuildState, SeasonallyUsable;
    BuiltStatesAreUsable(history, cutoff);
  }
}
