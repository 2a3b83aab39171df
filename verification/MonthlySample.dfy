/** The bounded monthly sample (src/flight_delay/data/sampling.py), with the random generator as an
    arbitrary choice of distinct rows. A row is named by its position in the frame. */
module MonthlySample {
  import opened Counting
  import opened Options
  import opened Ordering
  import opened Sampling

  datatype Flight = Flight(month: int, stratum: int)

  /** A row as it arrives: its date may fail to parse. A missing stratum value is a stratum too. */
  datatype RawFlight = RawFlight(month: Option<int>, stratum: int)

  datatype Stratification = Unstratified | ByColumn(present: bool)

  datatype Problem = MissingDateColumn | CapNotPositive | MissingStratumColumn | InvalidDate

  datatype Sampled = Refused(problem: Problem) | Rows(rows: seq<nat>)

  function InMonth(m: int): Flight -> bool { (f: Flight) => f.month == m }
  function InStratum(m: int, v: int): Flight -> bool { (f: Flight) => f.month == m && f.stratum == v }

  function RowsWhere(frame: seq<Flight>, p: Flight -> bool): seq<nat> {
    Filter(UpTo(|frame|), At(frame, p))
  }

  /** The different values of `xs`, by first appearance. */
  function Appearances(xs: seq<int>): seq<int> {
    if xs == [] then []
    else
      var front := Appearances(xs[..|xs| - 1]);
      if xs[|xs| - 1] in front then front else front + [xs[|xs| - 1]]
  }

  function Ascending(): (int, int) -> bool { (x: int, y: int) => x < y }

  function MonthColumn(frame: seq<Flight>): (months: seq<int>)
    ensures |months| == |frame| && forall i | 0 <= i < |frame| :: months[i] == frame[i].month
  {
    seq(|frame|, i requires 0 <= i < |frame| => frame[i].month)
  }

  function StratumColumn(frame: seq<Flight>): (strata: seq<int>)
    ensures |strata| == |frame| && forall i | 0 <= i < |frame| :: strata[i] == frame[i].stratum
  {
    seq(|frame|, i requires 0 <= i < |frame| => frame[i].stratum)
  }

  function Months(frame: seq<Flight>): seq<int> {
    StableSort(Appearances(MonthColumn(frame)), Ascending())
  }

  function StrataOf(frame: seq<Flight>, m: int): seq<int> {
    Appearances(StratumColumn(Filter(frame, InMonth(m))))
  }

  function StratumCounts(frame: seq<Flight>, m: int): (counts: seq<nat>)
    ensures |counts| == |StrataOf(frame, m)|
  {
    var values := StrataOf(frame, m);
    seq(|values|, k requires 0 <= k < |values| => Count(frame, InStratum(m, values[k])))
  }

  lemma AppearancesAreTheValues(xs: seq<int>)
    ensures Distinct(Appearances(xs))
    ensures forall x :: x in Appearances(xs) <==> x in xs
  {
    if xs != [] {
      AppearancesAreTheValues(xs[..|xs| - 1]);
      assert xs == xs[..|xs| - 1] + [xs[|xs| - 1]];
    }
  }

  lemma {:induction false} AppearancesInOrder(xs: seq<int>, k: nat, l: nat, j: nat)
    requires k < l < |Appearances(xs)| && j < |xs| && xs[j] == Appearances(xs)[l]
    ensures exists i :: 0 <= i < j && xs[i] == Appearances(xs)[k]
  {
    var front := xs[..|xs| - 1];
    AppearancesAreTheValues(front);
    if j < |front| && l < |Appearances(front)| {
      AppearancesInOrder(front, k, l, j);
      var i :| 0 <= i < j && front[i] == Appearances(front)[k];
      assert xs[i] == Appearances(xs)[k];
    } else {
      var x := Appearances(xs)[k];
      AppearancesBeforeLast(xs, k, l);
      assert x in front;
      var i :| 0 <= i < |front| && front[i] == x;
      assert xs[i] == x;
    }
  }

  lemma AppearancesBeforeLast(xs: seq<int>, k: nat, l: nat)
    requires xs != [] && k < l < |Appearances(xs)|
    ensures Appearances(xs)[k] in xs[..|xs| - 1]
  {
    AppearancesAreTheValues(xs[..|xs| - 1]);
    assert Appearances(xs)[k] in Appearances(xs[..|xs| - 1]);
  }

  /** Strata are allotted in the order in which they first appear among the month's rows. */
  lemma StrataByFirstAppearance(frame: seq<Flight>, m: int, k: nat, l: nat, j: nat)
    requires k < l < |StrataOf(frame, m)| && j < |Filter(frame, InMonth(m))|
    requires Filter(frame, InMonth(m))[j].stratum == StrataOf(frame, m)[l]
    ensures exists i :: 0 <= i < j && Filter(frame, InMonth(m))[i].stratum == StrataOf(frame, m)[k]
  {
    var strata := StratumColumn(Filter(frame, InMonth(m)));
    AppearancesInOrder(strata, k, l, j);
    var i :| 0 <= i < j && strata[i] == Appearances(strata)[k];
    assert strata[i] == Filter(frame, InMonth(m))[i].stratum;
  }

  lemma MonthsAreTheMonths(frame: seq<Flight>)
    ensures Distinct(Months(frame))
    ensures forall f | f in frame :: f.month in Months(frame)
  {
    var all := MonthColumn(frame);
    AppearancesAreTheValues(all);
    SortIsPermutation(Appearances(all), Ascending());
    PermutationIsDistinct(Appearances(all), Months(frame));
    SameElements(Appearances(all), Months(frame));
    forall f | f in frame ensures f.month in Months(frame) {
      var i :| 0 <= i < |frame| && frame[i] == f;
      assert all[i] == f.month;
    }
  }

  /** The rows of a month with one of the first `k` stratum values. */
  function InFirstStrata(m: int, values: seq<int>): Flight -> bool {
    (f: Flight) => f.month == m && f.stratum in values
  }

  lemma {:induction false} StratumCountsAddUp(frame: seq<Flight>, m: int, values: seq<int>, counts: seq<nat>)
    requires Distinct(values) && |counts| == |values|
    requires forall k | 0 <= k < |values| :: counts[k] == Count(frame, InStratum(m, values[k]))
    ensures Sum(counts) == Count(frame, InFirstStrata(m, values))
  {
    if values == [] {
      CountIsBounded(frame, InFirstStrata(m, values));
    } else {
      StratumCountsAddUp(frame, m, values[1..], counts[1..]);
      assert values == [values[0]] + values[1..];
      assert values[0] !in values[1..];
      CountSplit(frame, InFirstStrata(m, values), InStratum(m, values[0]), InFirstStrata(m, values[1..]));
    }
  }

  /** A month's strata are non-empty and their sizes add up to the month. */
  lemma StrataPartitionTheMonth(frame: seq<Flight>, m: int)
    ensures Distinct(StrataOf(frame, m))
    ensures Sum(StratumCounts(frame, m)) == Count(frame, InMonth(m))
    ensures forall k | 0 <= k < |StratumCounts(frame, m)| :: StratumCounts(frame, m)[k] > 0
  {
    var rows := Filter(frame, InMonth(m));
    var strata := StratumColumn(rows);
    var values := StrataOf(frame, m);
    AppearancesAreTheValues(strata);
    FilterMembers(frame, InMonth(m));
    StratumCountsAddUp(frame, m, values, StratumCounts(frame, m));
    forall i | 0 <= i < |frame| ensures InFirstStrata(m, values)(frame[i]) == InMonth(m)(frame[i]) {
      if frame[i].month == m {
        assert frame[i] in rows;
        var j :| 0 <= j < |rows| && rows[j] == frame[i];
        assert strata[j] == frame[i].stratum;
      }
    }
    CountSame(frame, InFirstStrata(m, values), InMonth(m));
    forall k | 0 <= k < |values| ensures Count(frame, InStratum(m, values[k])) > 0 {
      assert values[k] in strata;
      var j :| 0 <= j < |strata| && strata[j] == values[k];
      assert rows[j] in rows;
      var i :| 0 <= i < |frame| && frame[i] == rows[j];
      CountIsBounded(frame, InStratum(m, values[k]));
      assert InStratum(m, values[k])(frame[i]);
    }
  }

  // ---------------------------------------------------------------- drawing rows

  ghost predicate Drawn(pool: seq<nat>, n: nat, rows: seq<nat>) {
    |rows| == n && Distinct(rows) && forall i | 0 <= i < |rows| :: rows[i] in pool
  }

  /** `sample(n=n)`: any `n` different rows of the pool, in any order. It fails unless the pool has
      that many. */
  method Draw(pool: seq<nat>, n: nat) returns (rows: seq<nat>)
    requires n <= |pool| && Distinct(pool)
    ensures Drawn(pool, n, rows)
  {
    rows := [];
    var left := pool;
    for k := 0 to n
      invariant |rows| == k && |left| == |pool| - k
      invariant Distinct(rows) && Distinct(left)
      invariant forall x | x in rows :: x in pool && x !in left
      invariant forall x | x in left :: x in pool
    {
      var j: nat :| j < |left|;
      DistinctAppend(rows, [left[j]]);
      rows, left := rows + [left[j]], left[..j] + left[j + 1..];
    }
  }

  lemma {:induction false} RowsWhereAreTheRows(frame: seq<Flight>, p: Flight -> bool)
    ensures Distinct(RowsWhere(frame, p))
    ensures forall i: nat :: i in RowsWhere(frame, p) <==> i < |frame| && p(frame[i])
    ensures |RowsWhere(frame, p)| == Count(frame, p)
  {
    FilterMembers(UpTo(|frame|), At(frame, p));
    CountByIndex(frame, p);
    FilterIsDistinct(UpTo(|frame|), At(frame, p));
    forall i: nat ensures i in RowsWhere(frame, p) <==> i < |frame| && p(frame[i]) {
      if i < |frame| {
        assert UpTo(|frame|)[i] == i;
      }
    }
  }

  lemma FilterIsDistinct<T(!new)>(xs: seq<T>, p: T -> bool)
    requires Distinct(xs)
    ensures Distinct(Filter(xs, p))
  {
    if xs != [] {
      FilterIsDistinct(xs[1..], p);
      FilterMembers(xs[1..], p);
    }
  }

  /** How rows drawn under one condition count under another. */
  lemma DrawnRowsCount(frame: seq<Flight>, p: Flight -> bool, q: Flight -> bool, n: nat, rows: seq<nat>)
    requires Drawn(RowsWhere(frame, p), n, rows)
    ensures (forall f :: p(f) ==> q(f)) ==> Count(rows, At(frame, q)) == n
    ensures (forall f :: p(f) ==> !q(f)) ==> Count(rows, At(frame, q)) == 0
  {
    RowsWhereAreTheRows(frame, p);
    CountIsBounded(rows, At(frame, q));
  }

  // ---------------------------------------------------------------- the sampler

  function Min(x: nat, y: nat): nat { if x < y then x else y }

  /** The allocation of an oversized month over its strata. */
  function Quota(frame: seq<Flight>, m: int, cap: nat): (quota: seq<nat>)
    requires cap > 0 && Count(frame, InMonth(m)) > cap
    ensures |quota| == |StrataOf(frame, m)|
  {
    StrataPartitionTheMonth(frame, m);
    AllocationIsExact(StratumCounts(frame, m), cap);
    Allocate(StratumCounts(frame, m), cap)
  }

  ghost predicate RowsOfMonth(frame: seq<Flight>, m: int, rows: seq<nat>) {
    Distinct(rows) && forall i | 0 <= i < |rows| :: rows[i] < |frame| && frame[rows[i]].month == m
  }

  ghost predicate MeetsStratumQuota(frame: seq<Flight>, m: int, cap: nat, rows: seq<nat>)
    requires cap > 0
  {
    Count(frame, InMonth(m)) > cap ==>
      forall k | 0 <= k < |StrataOf(frame, m)| ::
        Count(rows, At(frame, InStratum(m, StrataOf(frame, m)[k]))) == Quota(frame, m, cap)[k]
  }

  lemma PrefixSumStep(xs: seq<nat>, k: nat)
    requires k < |xs|
    ensures Sum(xs[..k + 1]) == Sum(xs[..k]) + xs[k]
  {
    assert xs[..k + 1] == xs[..k] + [xs[k]];
    SumAppend(xs[..k], [xs[k]]);
  }

  lemma NoRowsDrawn(frame: seq<Flight>, m: int)
    ensures RowsOfMonth(frame, m, [])
  {
  }

  /** Draw from each stratum as many rows as it was allotted. */
  method SampleStrata(frame: seq<Flight>, m: int, values: seq<int>, quota: seq<nat>) returns (rows: seq<nat>)
    requires Distinct(values) && |quota| == |values|
    requires forall k | 0 <= k < |values| :: quota[k] <= Count(frame, InStratum(m, values[k]))
    ensures RowsOfMonth(frame, m, rows) && |rows| == Sum(quota)
    ensures forall k | 0 <= k < |values| :: Count(rows, At(frame, InStratum(m, values[k]))) == quota[k]
  {
    rows := [];
    NoRowsDrawn(frame, m);
    hide At, InStratum, RowsWhere, Count, Drawn;
    for k := 0 to |values|
      invariant RowsOfMonth(frame, m, rows) && |rows| == Sum(quota[..k])
      invariant forall i | 0 <= i < |rows| :: frame[rows[i]].stratum in values[..k]
      invariant forall j | 0 <= j < k :: Count(rows, At(frame, InStratum(m, values[j]))) == quota[j]
    {
      var pool := RowsWhere(frame, InStratum(m, values[k]));
      RowsWhereAreTheRows(frame, InStratum(m, values[k]));
      var drawn := Draw(pool, quota[k]);
      AddStratum(frame, m, values, k, rows, drawn, quota[k]);
      PrefixSumStep(quota, k);
      rows := rows + drawn;
    }
    assert quota[..|values|] == quota;
  }

  /** Adding a stratum's draw leaves the earlier strata as they were. */
  lemma AddStratum(frame: seq<Flight>, m: int, values: seq<int>, k: nat, rows: seq<nat>, drawn: seq<nat>, n: nat)
    requires Distinct(values) && k < |values|
    requires RowsOfMonth(frame, m, rows)
    requires forall i | 0 <= i < |rows| :: frame[rows[i]].stratum in values[..k]
    requires Drawn(RowsWhere(frame, InStratum(m, values[k])), n, drawn)
    ensures RowsOfMonth(frame, m, rows + drawn)
    ensures forall i | 0 <= i < |rows + drawn| :: frame[(rows + drawn)[i]].stratum in values[..k + 1]
    ensures forall j | 0 <= j < k ::
      Count(rows + drawn, At(frame, InStratum(m, values[j]))) == Count(rows, At(frame, InStratum(m, values[j])))
    ensures Count(rows + drawn, At(frame, InStratum(m, values[k]))) == n
  {
    RowsWhereAreTheRows(frame, InStratum(m, values[k]));
    assert values[..k + 1] == values[..k] + [values[k]];
    assert values[k] !in values[..k];
    DistinctAppend(rows, drawn);
    forall j | 0 <= j <= k
      ensures Count(rows + drawn, At(frame, InStratum(m, values[j])))
           == Count(rows, At(frame, InStratum(m, values[j]))) + if j == k then n else 0
    {
      CountAppend(rows, drawn, At(frame, InStratum(m, values[j])));
      DrawnRowsCount(frame, InStratum(m, values[k]), InStratum(m, values[j]), n, drawn);
    }
    CountIsBounded(rows, At(frame, InStratum(m, values[k])));
  }

  lemma RowsFromTheMonth(frame: seq<Flight>, m: int, rows: seq<nat>)
    requires Distinct(rows) && forall i | 0 <= i < |rows| :: rows[i] in RowsWhere(frame, InMonth(m))
    ensures RowsOfMonth(frame, m, rows)
  {
    RowsWhereAreTheRows(frame, InMonth(m));
  }

  method SampleMonth(frame: seq<Flight>, m: int, cap: nat, stratified: bool) returns (rows: seq<nat>)
    requires cap > 0
    ensures RowsOfMonth(frame, m, rows)
    ensures |rows| == Min(Count(frame, InMonth(m)), cap)
    ensures stratified ==> MeetsStratumQuota(frame, m, cap, rows)
  {
    var month := RowsWhere(frame, InMonth(m));
    RowsWhereAreTheRows(frame, InMonth(m));
    if |month| <= cap {
      rows := month;
      RowsFromTheMonth(frame, m, rows);
    } else if !stratified {
      rows := Draw(month, cap);
      RowsFromTheMonth(frame, m, rows);
    } else {
      StrataPartitionTheMonth(frame, m);
      var counts := StratumCounts(frame, m);
      AllocationIsExact(counts, cap);
      var allotment := AllocateStrata(counts, cap);
      var quota := allotment[..];
      assert quota == Quota(frame, m, cap) && Sum(quota) == cap;
      rows := SampleStrata(frame, m, StrataOf(frame, m), quota);
    }
  }

  /** At most `cap` rows of every month, exactly `cap` of an oversized one, with its strata served
      as allocated; the rows keep the order of the frame. */
  ghost predicate IsMonthlySample(frame: seq<Flight>, cap: nat, stratified: bool, rows: seq<nat>)
    requires cap > 0
  {
    && (forall i, j | 0 <= i < j < |rows| :: rows[i] < rows[j])
    && (forall i | 0 <= i < |rows| :: rows[i] < |frame|)
    && (forall m :: Count(rows, At(frame, InMonth(m))) == Min(Count(frame, InMonth(m)), cap))
    && (stratified ==> forall m :: MeetsStratumQuota(frame, m, cap, rows))
  }

  /** What holds after the months in `done` were sampled. */
  ghost predicate SampledMonths(frame: seq<Flight>, cap: nat, done: seq<int>, rows: seq<nat>) {
    && Distinct(rows)
    && (forall i | 0 <= i < |rows| :: rows[i] < |frame| && frame[rows[i]].month in done)
    && (forall m | m in done :: Count(rows, At(frame, InMonth(m))) == Min(Count(frame, InMonth(m)), cap))
  }

  ghost predicate QuotasMet(frame: seq<Flight>, cap: nat, done: seq<int>, rows: seq<nat>)
    requires cap > 0
  {
    forall m | m in done :: MeetsStratumQuota(frame, m, cap, rows)
  }

  lemma CountIgnoresOtherRows(frame: seq<Flight>, p: Flight -> bool, rows: seq<nat>, more: seq<nat>)
    requires forall i | 0 <= i < |more| :: more[i] < |frame| && !p(frame[more[i]])
    ensures Count(rows + more, At(frame, p)) == Count(rows, At(frame, p)) == Count(more + rows, At(frame, p))
  {
    CountAppend(rows, more, At(frame, p));
    CountAppend(more, rows, At(frame, p));
    CountIsBounded(more, At(frame, p));
  }

  lemma QuotaIgnoresOtherRows(frame: seq<Flight>, m: int, cap: nat, rows: seq<nat>, more: seq<nat>)
    requires cap > 0 && (forall i | 0 <= i < |more| :: more[i] < |frame| && frame[more[i]].month != m)
    requires MeetsStratumQuota(frame, m, cap, rows)
    ensures MeetsStratumQuota(frame, m, cap, rows + more) && MeetsStratumQuota(frame, m, cap, more + rows)
  {
    forall v: int
      ensures Count(rows + more, At(frame, InStratum(m, v))) == Count(rows, At(frame, InStratum(m, v)))
      ensures Count(more + rows, At(frame, InStratum(m, v))) == Count(rows, At(frame, InStratum(m, v)))
    {
      CountIgnoresOtherRows(frame, InStratum(m, v), rows, more);
    }
  }

  lemma AddMonthCount(frame: seq<Flight>, done: seq<int>, rows: seq<nat>, m: int, more: seq<nat>, m': int)
    requires m !in done && m' in done + [m]
    requires forall i | 0 <= i < |rows| :: rows[i] < |frame| && frame[rows[i]].month in done
    requires RowsOfMonth(frame, m, more)
    ensures Count(rows + more, At(frame, InMonth(m'))) == if m' == m then |more| else Count(rows, At(frame, InMonth(m')))
  {
    if m' == m {
      CountIgnoresOtherRows(frame, InMonth(m), more, rows);
      CountIsBounded(more, At(frame, InMonth(m)));
    } else {
      CountIgnoresOtherRows(frame, InMonth(m'), rows, more);
    }
  }

  lemma AddMonth(frame: seq<Flight>, cap: nat, done: seq<int>, rows: seq<nat>, m: int, more: seq<nat>)
    requires cap > 0 && m !in done
    requires SampledMonths(frame, cap, done, rows)
    requires RowsOfMonth(frame, m, more) && |more| == Min(Count(frame, InMonth(m)), cap)
    ensures SampledMonths(frame, cap, done + [m], rows + more)
  {
    forall m' | m' in done + [m]
      ensures Count(rows + more, At(frame, InMonth(m'))) == Min(Count(frame, InMonth(m')), cap)
    {
      AddMonthCount(frame, done, rows, m, more, m');
    }
  }

  lemma AddMonthQuota(frame: seq<Flight>, cap: nat, done: seq<int>, rows: seq<nat>, m: int, more: seq<nat>)
    requires cap > 0 && m !in done
    requires SampledMonths(frame, cap, done, rows) && QuotasMet(frame, cap, done, rows)
    requires RowsOfMonth(frame, m, more) && MeetsStratumQuota(frame, m, cap, more)
    ensures QuotasMet(frame, cap, done + [m], rows + more)
  {
    forall m' | m' in done ensures MeetsStratumQuota(frame, m', cap, rows + more) {
      QuotaIgnoresOtherRows(frame, m', cap, rows, more);
    }
    QuotaIgnoresOtherRows(frame, m, cap, more, rows);
  }

  function Earlier(): (nat, nat) -> bool { (i: nat, j: nat) => i < j }

  lemma QuotaIgnoresOrder(frame: seq<Flight>, m: int, cap: nat, rows: seq<nat>, sorted: seq<nat>)
    requires cap > 0 && multiset(rows) == multiset(sorted)
    requires MeetsStratumQuota(frame, m, cap, rows)
    ensures MeetsStratumQuota(frame, m, cap, sorted)
  {
    forall v: int
      ensures Count(sorted, At(frame, InStratum(m, v))) == Count(rows, At(frame, InStratum(m, v)))
    {
      CountPermutation(rows, sorted, At(frame, InStratum(m, v)));
    }
  }

  /** Months that do not occur contribute nothing to either side. */
  lemma AbsentMonth(frame: seq<Flight>, m: int, rows: seq<nat>)
    requires m !in Months(frame)
    requires forall i | 0 <= i < |rows| :: rows[i] < |frame|
    ensures Count(rows, At(frame, InMonth(m))) == Count(frame, InMonth(m)) == 0
  {
    MonthsAreTheMonths(frame);
    CountIsBounded(frame, InMonth(m));
    CountIsBounded(rows, At(frame, InMonth(m)));
    forall i | 0 <= i < |frame| ensures frame[i].month != m {
      assert frame[i] in frame;
    }
  }

  function IndexSorted(rows: seq<nat>): seq<nat> { StableSort<nat>(rows, Earlier()) }

  lemma IndexOrder(rows: seq<nat>, n: nat)
    requires Distinct(rows) && forall i | 0 <= i < |rows| :: rows[i] < n
    ensures multiset(IndexSorted(rows)) == multiset(rows)
    ensures forall i, j | 0 <= i < j < |IndexSorted(rows)| :: IndexSorted(rows)[i] < IndexSorted(rows)[j]
    ensures forall i | 0 <= i < |IndexSorted(rows)| :: IndexSorted(rows)[i] < n
  {
    var sorted := IndexSorted(rows);
    SortIsPermutation<nat>(rows, Earlier());
    SortIsSorted<nat>(rows, Elements<nat>(rows), Earlier());
    PermutationIsDistinct<nat>(rows, sorted);
    forall i, j | 0 <= i < j < |sorted| ensures sorted[i] < sorted[j] {
      assert sorted[i] != sorted[j] && !Earlier()(sorted[j], sorted[i]);
    }
    SameElements<nat>(rows, sorted);
    forall i | 0 <= i < |sorted| ensures sorted[i] < n {
      assert sorted[i] in rows;
    }
  }

  /** Restoring the frame's order changes neither the rows nor any count. */
  lemma SortedIndexKeepsTheSample(frame: seq<Flight>, cap: nat, stratified: bool, rows: seq<nat>)
    requires cap > 0 && SampledMonths(frame, cap, Months(frame), rows)
    requires stratified ==> QuotasMet(frame, cap, Months(frame), rows)
    ensures IsMonthlySample(frame, cap, stratified, IndexSorted(rows))
  {
    var sorted := IndexSorted(rows);
    IndexOrder(rows, |frame|);
    forall m: int
      ensures Count(sorted, At(frame, InMonth(m))) == Min(Count(frame, InMonth(m)), cap)
      ensures stratified ==> MeetsStratumQuota(frame, m, cap, sorted)
    {
      if m in Months(frame) {
        CountPermutation(rows, sorted, At(frame, InMonth(m)));
        if stratified {
          QuotaIgnoresOrder(frame, m, cap, rows, sorted);
        }
      } else {
        AbsentMonth(frame, m, sorted);
      }
    }
  }

  lemma NothingSampled(frame: seq<Flight>, cap: nat)
    requires cap > 0
    ensures SampledMonths(frame, cap, [], []) && QuotasMet(frame, cap, [], [])
  {
  }

  /** Month by month: small months whole, larger ones sampled; then the frame's order again. */
  method SampleByMonth(frame: seq<Flight>, cap: nat, stratified: bool) returns (rows: seq<nat>)
    requires cap > 0
    ensures IsMonthlySample(frame, cap, stratified, rows)
  {
    var months := Months(frame);
    MonthsAreTheMonths(frame);
    var selected: seq<nat> := [];
    NothingSampled(frame, cap);
    hide SampledMonths, QuotasMet, RowsOfMonth, MeetsStratumQuota, IsMonthlySample, Count, Months;
    for k := 0 to |months|
      invariant SampledMonths(frame, cap, months[..k], selected)
      invariant stratified ==> QuotasMet(frame, cap, months[..k], selected)
    {
      var more := SampleMonth(frame, months[k], cap, stratified);
      assert months[..k + 1] == months[..k] + [months[k]];
      AddMonth(frame, cap, months[..k], selected, months[k], more);
      if stratified {
        AddMonthQuota(frame, cap, months[..k], selected, months[k], more);
      }
      selected := selected + more;
    }
    assert months[..|months|] == months;
    SortedIndexKeepsTheSample(frame, cap, stratified, selected);
    rows := IndexSorted(selected);
  }

  predicate AllDated(raw: seq<RawFlight>) { forall i | 0 <= i < |raw| :: raw[i].month.Some? }

  function Dated(raw: seq<RawFlight>): (frame: seq<Flight>)
    requires AllDated(raw)
    ensures |frame| == |raw| && forall i | 0 <= i < |raw| :: frame[i] == Flight(raw[i].month.value, raw[i].stratum)
  {
    seq(|raw|, i requires 0 <= i < |raw| => Flight(raw[i].month.value, raw[i].stratum))
  }

  /** The first thing wrong with the arguments; without a cap only the date column is looked for. */
  function ProblemOf(raw: seq<RawFlight>, hasDates: bool, maxRows: Option<int>, strata: Stratification): Option<Problem> {
    if !hasDates then Some(MissingDateColumn)
    else if maxRows.None? then None
    else if maxRows.value <= 0 then Some(CapNotPositive)
    else if strata == ByColumn(false) then Some(MissingStratumColumn)
    else if !AllDated(raw) then Some(InvalidDate)
    else None
  }

  /** `deterministic_monthly_sample`: refuse for the first problem, return everything without a cap,
      and otherwise sample month by month. */
  method DeterministicMonthlySample(raw: seq<RawFlight>, hasDates: bool, maxRows: Option<int>, strata: Stratification)
    returns (r: Sampled)
    ensures r.Refused? <==> ProblemOf(raw, hasDates, maxRows, strata).Some?
    ensures r.Refused? ==> ProblemOf(raw, hasDates, maxRows, strata) == Some(r.problem)
    ensures r.Rows? && maxRows.None? ==> r.rows == UpTo(|raw|)
    ensures r.Rows? && maxRows.Some? ==>
      maxRows.value > 0 && AllDated(raw) && IsMonthlySample(Dated(raw), maxRows.value, strata.ByColumn?, r.rows)
  {
    if !hasDates {
      return Refused(MissingDateColumn);
    }
    if maxRows.None? {
      return Rows(UpTo(|raw|));
    }
    if maxRows.value <= 0 {
      return Refused(CapNotPositive);
    }
    if strata == ByColumn(false) {
      return Refused(MissingStratumColumn);
    }
    if !AllDated(raw) {
      return Refused(InvalidDate);
    }
    var rows := SampleByMonth(Dated(raw), maxRows.value, strata.ByColumn?);
    r := Rows(rows);
  }
}
