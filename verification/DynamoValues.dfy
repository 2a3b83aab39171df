/** The conversion of values for the event table and back
    (src/flight_delay/persistence/dynamodb.py). Numbers are exact. */
module DynamoValues {

  datatype Value =
    | Null | Flag(flag: bool) | Text(text: string) | Whole(whole: int) | Decimal(decimal: real)
    | Floating(number: real) | NotFinite
    | Moment(aware: bool, utc: string) | Day(iso: string)
    | List(items: seq<Value>) | Tuple(items: seq<Value>) | Dict(entries: seq<Entry>)
    | Unsupported

  datatype Entry = Entry(key: string, value: Value)

  datatype Conversion<+T> = Converted(value: T) | Rejected

  /** What a value is written as, or its rejection. */
  function ToTable(v: Value): Conversion<Value>
    decreases v
  {
    match v
    case Floating(r) => Converted(Decimal(r))
    case Moment(aware, utc) => if aware then Converted(Text(utc)) else Rejected
    case Day(iso) => Converted(Text(iso))
    case List(items) => Listed(AllToTable(items))
    case Tuple(items) => Listed(AllToTable(items))
    case Dict(entries) =>
      (match EntriesToTable(entries)
       case Converted(converted) => Converted(Dict(converted))
       case Rejected => Rejected)
    case NotFinite => Rejected
    case Unsupported => Rejected
    case _ => Converted(v)
  }

  function Listed(items: Conversion<seq<Value>>): Conversion<Value> {
    match items
    case Converted(converted) => Converted(List(converted))
    case Rejected => Rejected
  }

  function AllToTable(items: seq<Value>): Conversion<seq<Value>>
    decreases items
  {
    if items == [] then Converted([])
    else
      match (ToTable(items[0]), AllToTable(items[1..]))
      case (Converted(first), Converted(rest)) => Converted([first] + rest)
      case _ => Rejected
  }

  function EntriesToTable(entries: seq<Entry>): Conversion<seq<Entry>>
    decreases entries
  {
    if entries == [] then Converted([])
    else
      match (ToTable(entries[0].value), EntriesToTable(entries[1..]))
      case (Converted(first), Converted(rest)) => Converted([Entry(entries[0].key, first)] + rest)
      case _ => Rejected
  }

  predicate Integral(r: real) { r.Floor as real == r }

  /** `from_dynamodb`, on what the table returns: it gives every number back as a decimal. */
  function FromTable(v: Value): Value
    decreases v
  {
    match v
    case Whole(n) => Whole(n)
    case Decimal(r) => if Integral(r) then Whole(r.Floor) else Floating(r)
    case List(items) => List(AllFromTable(items))
    case Dict(entries) => Dict(EntriesFromTable(entries))
    case _ => v
  }

  function AllFromTable(items: seq<Value>): seq<Value>
    decreases items
  {
    if items == [] then [] else [FromTable(items[0])] + AllFromTable(items[1..])
  }

  function EntriesFromTable(entries: seq<Entry>): seq<Entry>
    decreases entries
  {
    if entries == [] then []
    else [Entry(entries[0].key, FromTable(entries[0].value))] + EntriesFromTable(entries[1..])
  }

  /** The table stores whole numbers as decimals too. */
  function Stored(v: Value): Value
    decreases v
  {
    match v
    case Whole(n) => Decimal(n as real)
    case List(items) => List(AllStored(items))
    case Dict(entries) => Dict(EntriesStored(entries))
    case _ => v
  }

  function AllStored(items: seq<Value>): seq<Value>
    decreases items
  {
    if items == [] then [] else [Stored(items[0])] + AllStored(items[1..])
  }

  function EntriesStored(entries: seq<Entry>): seq<Entry>
    decreases entries
  {
    if entries == [] then [] else [Entry(entries[0].key, Stored(entries[0].value))] + EntriesStored(entries[1..])
  }

  /** What a value reads as after it was written. */
  function ReadBack(v: Value): Value
    requires ToTable(v).Converted?
  {
    FromTable(Stored(ToTable(v).value))
  }

  /** Values that survive: no integral float, no date, no tuple, no decimal, at any depth. */
  predicate Plain(v: Value)
    decreases v
  {
    match v
    case Null => true
    case Flag(_) => true
    case Text(_) => true
    case Whole(_) => true
    case Floating(r) => !Integral(r)
    case List(items) => AllPlain(items)
    case Dict(entries) => EntriesPlain(entries)
    case _ => false
  }

  predicate AllPlain(items: seq<Value>)
    decreases items
  {
    items == [] || (Plain(items[0]) && AllPlain(items[1..]))
  }

  predicate EntriesPlain(entries: seq<Entry>)
    decreases entries
  {
    entries == [] || (Plain(entries[0].value) && EntriesPlain(entries[1..]))
  }

  lemma WholeReadsBack(n: int)
    ensures Integral(n as real) && (n as real).Floor == n
  {
  }

  /** A written value reads back unchanged exactly when it is plain; and what was read is plain, so
      writing it again changes nothing more. */
  lemma {:induction false} RoundTripExactly(v: Value)
    requires ToTable(v).Converted?
    ensures ReadBack(v) == v <==> Plain(v)
    ensures Plain(ReadBack(v))
    decreases v
  {
    hide AllToTable, AllFromTable, AllStored, AllPlain, EntriesToTable, EntriesFromTable, EntriesStored, EntriesPlain;
    match v
    case Whole(n) => WholeReadsBack(n);
    case List(items) => ItemsRoundTrip(items);
    case Tuple(items) => ItemsRoundTrip(items);
    case Dict(entries) => EntriesRoundTrip(entries);
    case _ =>
  }

  lemma {:induction false} ItemsRoundTrip(items: seq<Value>)
    requires AllToTable(items).Converted?
    ensures var back := AllFromTable(AllStored(AllToTable(items).value));
      (back == items <==> AllPlain(items)) && AllPlain(back)
    decreases items
  {
    if items != [] {
      RoundTripExactly(items[0]);
      ItemsRoundTrip(items[1..]);
      var stored := AllStored(AllToTable(items).value);
      assert stored[1..] == AllStored(AllToTable(items[1..]).value);
      var back, rest := AllFromTable(stored), AllFromTable(stored[1..]);
      assert back == [ReadBack(items[0])] + rest && back[1..] == rest;
      assert items == [items[0]] + items[1..];
    }
  }

  lemma {:induction false} EntriesRoundTrip(entries: seq<Entry>)
    requires EntriesToTable(entries).Converted?
    ensures var back := EntriesFromTable(EntriesStored(EntriesToTable(entries).value));
      (back == entries <==> EntriesPlain(entries)) && EntriesPlain(back)
    decreases entries
  {
    if entries != [] {
      RoundTripExactly(entries[0].value);
      EntriesRoundTrip(entries[1..]);
      var stored := EntriesStored(EntriesToTable(entries).value);
      assert stored[1..] == EntriesStored(EntriesToTable(entries[1..]).value);
      var back, rest := EntriesFromTable(stored), EntriesFromTable(stored[1..]);
      assert back == [Entry(entries[0].key, ReadBack(entries[0].value))] + rest && back[1..] == rest;
      assert entries == [entries[0]] + entries[1..];
    }
  }

  /** Exactly these are rejected: a value that is not finite, a moment without a time zone, or a
      type the table does not know, at any depth. */
  predicate Writable(v: Value)
    decreases v
  {
    match v
    case NotFinite => false
    case Unsupported => false
    case Moment(aware, _) => aware
    case List(items) => forall i | 0 <= i < |items| :: Writable(items[i])
    case Tuple(items) => forall i | 0 <= i < |items| :: Writable(items[i])
    case Dict(entries) => forall i | 0 <= i < |entries| :: Writable(entries[i].value)
    case _ => true
  }

  lemma {:induction false} RejectsExactly(v: Value)
    ensures ToTable(v).Converted? <==> Writable(v)
    decreases v
  {
    match v
    case List(items) => RejectsItems(items);
    case Tuple(items) => RejectsItems(items);
    case Dict(entries) => RejectsEntries(entries);
    case _ =>
  }

  lemma {:induction false} RejectsItems(items: seq<Value>)
    ensures AllToTable(items).Converted? <==> forall i | 0 <= i < |items| :: Writable(items[i])
    decreases items
  {
    if items != [] {
      RejectsExactly(items[0]);
      RejectsItems(items[1..]);
      assert forall i | 0 < i < |items| :: items[i] == items[1..][i - 1];
      assert forall i | 0 <= i < |items| - 1 :: items[1..][i] == items[i + 1];
    }
  }

  lemma {:induction false} RejectsEntries(entries: seq<Entry>)
    ensures EntriesToTable(entries).Converted? <==> forall i | 0 <= i < |entries| :: Writable(entries[i].value)
    decreases entries
  {
    if entries != [] {
      RejectsExactly(entries[0].value);
      RejectsEntries(entries[1..]);
      assert forall i | 0 < i < |entries| :: entries[i] == entries[1..][i - 1];
      assert forall i | 0 <= i < |entries| - 1 :: entries[1..][i] == entries[i + 1];
    }
  }

  // ---------------------------------------------------------------- what is read back

  /** `back` shows what `v` was: numbers by their value and as whole as they are, moments and days by
      their text, lists and tuples item by item, mappings key by key. */
  ghost predicate Shows(back: Value, v: Value)
    decreases v
  {
    match v
    case Floating(r) => if Integral(r) then back.Whole? && back.whole as real == r else back == Floating(r)
    case Decimal(r) => if Integral(r) then back.Whole? && back.whole as real == r else back == Floating(r)
    case Moment(_, utc) => back == Text(utc)
    case Day(iso) => back == Text(iso)
    case List(items) => back.List? && AllShow(back.items, items)
    case Tuple(items) => back.List? && AllShow(back.items, items)
    case Dict(entries) =>
      && back.Dict? && |back.entries| == |entries|
      && forall i | 0 <= i < |entries| ::
           back.entries[i].key == entries[i].key && Shows(back.entries[i].value, entries[i].value)
    case _ => back == v
  }

  ghost predicate AllShow(back: seq<Value>, items: seq<Value>)
    decreases items
  {
    |back| == |items| && forall i | 0 <= i < |items| :: Shows(back[i], items[i])
  }

  /** Whatever is written can be read back as what it was. */
  lemma {:induction false} ReadBackShows(v: Value)
    requires ToTable(v).Converted?
    ensures Shows(ReadBack(v), v)
    decreases v
  {
    hide AllToTable, AllFromTable, AllStored, EntriesToTable, EntriesFromTable, EntriesStored;
    match v
    case Whole(n) => WholeReadsBack(n);
    case List(items) => ItemsShow(items);
    case Tuple(items) => ItemsShow(items);
    case Dict(entries) => EntriesShow(entries);
    case _ =>
  }

  lemma {:induction false} ItemsShow(items: seq<Value>)
    requires AllToTable(items).Converted?
    ensures AllShow(AllFromTable(AllStored(AllToTable(items).value)), items)
    decreases items
  {
    if items != [] {
      ReadBackShows(items[0]);
      ItemsShow(items[1..]);
      var stored := AllStored(AllToTable(items).value);
      assert stored[1..] == AllStored(AllToTable(items[1..]).value);
      var back := AllFromTable(stored);
      assert back == [ReadBack(items[0])] + AllFromTable(stored[1..]);
      assert forall i | 0 < i < |items| :: items[i] == items[1..][i - 1];
    }
  }

  lemma {:induction false} EntriesShow(entries: seq<Entry>)
    requires EntriesToTable(entries).Converted?
    ensures var back := EntriesFromTable(EntriesStored(EntriesToTable(entries).value));
      |back| == |entries| && forall i | 0 <= i < |entries| ::
        back[i].key == entries[i].key && Shows(back[i].value, entries[i].value)
    decreases entries
  {
    if entries != [] {
      ReadBackShows(entries[0].value);
      EntriesShow(entries[1..]);
      var stored := EntriesStored(EntriesToTable(entries).value);
      assert stored[1..] == EntriesStored(EntriesToTable(entries[1..]).value);
      var back := EntriesFromTable(stored);
      assert back == [Entry(entries[0].key, ReadBack(entries[0].value))] + EntriesFromTable(stored[1..]);
      assert forall i | 0 < i < |entries| :: entries[i] == entries[1..][i - 1];
    }
  }
}
