/** Holiday anchors and the deterministic seasonal features, scalar and vectorized
    (src/flight_delay/modeling/v3/seasonal.py). Sine and cosine are functions of `turn`, the exact
    fraction of the year, and are not modelled further. */
module Seasonal {
  import opened Calendar
  import opened RealQuotients

  datatype Anchor = Thanksgiving | Christmas

  /** Ordinal of the fourth Thursday of November: the first Thursday, three weeks on. */
  function ThanksgivingOrdinal(year: int): (ordinal: int)
    requires year >= MIN_YEAR
    ensures ordinal >= 1
  {
    var novemberFirst := Ordinal(Date(year, 11, 1));
    var firstThursday := novemberFirst + ToThursday(Weekday(novemberFirst));
    firstThursday + 21
  }

  function ChristmasOrdinal(year: int): int
    requires year >= MIN_YEAR
  {
    Ordinal(Date(year, 12, 25))
  }

  function AnchorOrdinal(anchor: Anchor, year: int): int
    requires year >= MIN_YEAR
  {
    match anchor
    case Thanksgiving => ThanksgivingOrdinal(year)
    case Christmas => ChristmasOrdinal(year)
  }

  // ---------------------------------------------------------------- Thanksgiving

  /** The Thursdays among the `n` days after ordinal `start`. */
  function ThursdaysAfter(start: nat, n: nat): nat {
    if n == 0 then 0 else ThursdaysAfter(start, n - 1) + if Weekday(start + n) == THURSDAY then 1 else 0
  }

  lemma {:induction false} CountThursdays(start: nat, n: nat, first: nat)
    requires 1 <= first <= 7 && Weekday(start + first) == THURSDAY
    ensures ThursdaysAfter(start, n) == (n + 7 - first) / 7
  {
    if n > 0 {
      CountThursdays(start, n - 1, first);
      SameWeekday(start + first, start + n);
    }
  }

  /** How far the first Thursday is: `(THURSDAY - weekday) % 7`, which is never negative. */
  function ToThursday(weekday: int): (days: int)
    requires 0 <= weekday <= 6
    ensures days == (THURSDAY - weekday) % 7
  {
    if weekday <= THURSDAY then THURSDAY - weekday else THURSDAY - weekday + 7
  }

  lemma FirstThursday(ordinal: int)
    requires ordinal >= 1
    ensures 0 <= ToThursday(Weekday(ordinal)) < 7
    ensures Weekday(ordinal + ToThursday(Weekday(ordinal))) == THURSDAY
    ensures Weekday(ordinal + ToThursday(Weekday(ordinal)) + 21) == THURSDAY
  {
    hide Weekday;
    WeekdayInClosedForm(ordinal);
    WeekdayInClosedForm(ordinal + ToThursday(Weekday(ordinal)));
    WeekdayInClosedForm(ordinal + ToThursday(Weekday(ordinal)) + 21);
  }

  lemma NovemberDays(year: int, day: int)
    requires year >= MIN_YEAR && 1 <= day <= 30
    ensures ValidDate(Date(year, 11, day))
    ensures Ordinal(Date(year, 11, day)) == Ordinal(Date(year, 11, 1)) + day - 1
  {
  }

  /** Thanksgiving is the fourth Thursday of November, so it is dated 22 to 28 November. */
  lemma ThanksgivingIsTheFourthThursday(year: int) returns (day: int)
    requires year >= MIN_YEAR
    ensures 22 <= day <= 28 && Ordinal(Date(year, 11, day)) == ThanksgivingOrdinal(year)
    ensures Weekday(ThanksgivingOrdinal(year)) == THURSDAY
    ensures ThursdaysAfter(Ordinal(Date(year, 11, 1)) - 1, day) == 4
  {
    hide Ordinal, Weekday;
    var november := Ordinal(Date(year, 11, 1));
    var offset := ToThursday(Weekday(november));
    day := 22 + offset;
    FirstThursday(november);
    NovemberDays(year, day);
    CountThursdays(november - 1, day, 1 + offset);
  }

  /** Consecutive Thanksgivings are 52 or 53 weeks apart. */
  lemma ThanksgivingSpacing(year: int)
    requires year >= MIN_YEAR
    ensures var gap := ThanksgivingOrdinal(year + 1) - ThanksgivingOrdinal(year); gap == 364 || gap == 371
  {
    hide Ordinal, Weekday, ThanksgivingOrdinal;
    var day := ThanksgivingIsTheFourthThursday(year);
    var next := ThanksgivingIsTheFourthThursday(year + 1);
    NovemberDays(year, day);
    NovemberDays(year + 1, next);
    NovemberToNovember(year);
    SameWeekday(ThanksgivingOrdinal(year), ThanksgivingOrdinal(year + 1));
  }

  lemma NovemberToNovember(year: int)
    requires year >= MIN_YEAR
    ensures 365 <= Ordinal(Date(year + 1, 11, 1)) - Ordinal(Date(year, 11, 1)) <= 366
  {
    hide DaysBeforeMonth;
    NovemberStart(year);
    NovemberStart(year + 1);
  }

  lemma NovemberStart(year: int)
    requires year >= MIN_YEAR
    ensures DaysBeforeMonth(year, 11) == DaysInYear(year) - 61
    ensures DaysBeforeMonth(year, 12) == DaysInYear(year) - 31
  {
    assert DaysBeforeMonth(year, 4) == DaysInYear(year) - 275;
    assert DaysBeforeMonth(year, 7) == DaysInYear(year) - 184;
    assert DaysBeforeMonth(year, 10) == DaysInYear(year) - 92;
  }

  /** An anchor lies inside its own year. */
  lemma AnchorInItsYear(anchor: Anchor, year: int)
    requires year >= MIN_YEAR
    ensures DaysBeforeYear(year) < AnchorOrdinal(anchor, year) <= DaysBeforeYear(year) + DaysInYear(year)
  {
    hide Weekday, ThanksgivingOrdinal;
    NovemberStart(year);
    match anchor
    case Thanksgiving =>
      var day := ThanksgivingIsTheFourthThursday(year);
      NovemberDays(year, day);
    case Christmas =>
  }

  // ---------------------------------------------------------------- the nearest anchor

  function Abs(x: int): (y: int)
    ensures y >= 0 && (y == x || y == -x)
  {
    if x < 0 then -x else x
  }

  /** The signed delta of the first nearest of the anchors. */
  ghost predicate IsNearestDelta(ordinal: int, anchors: seq<int>, delta: int) {
    exists k :: 0 <= k < |anchors| && IsFirstNearest(ordinal, anchors, k) && delta == anchors[k] - ordinal
  }

  ghost predicate IsFirstNearest(ordinal: int, anchors: seq<int>, k: nat)
    requires k < |anchors|
  {
    && (forall j | 0 <= j < |anchors| :: Abs(anchors[k] - ordinal) <= Abs(anchors[j] - ordinal))
    && (forall j | 0 <= j < k :: Abs(anchors[k] - ordinal) < Abs(anchors[j] - ordinal))
  }

  /** The scalar path: keep the first delta that no later one beats. */
  method NearestSignedDelta(ordinal: int, anchors: seq<int>) returns (best: int)
    requires anchors != []
    ensures IsNearestDelta(ordinal, anchors, best)
  {
    best := anchors[0] - ordinal;
    ghost var k := 0;
    for i := 1 to |anchors|
      invariant 0 <= k < i && best == anchors[k] - ordinal
      invariant forall j | 0 <= j < i :: Abs(best) <= Abs(anchors[j] - ordinal)
      invariant forall j | 0 <= j < k :: Abs(best) < Abs(anchors[j] - ordinal)
    {
      var delta := anchors[i] - ordinal;
      if Abs(delta) < Abs(best) {
        best := delta;
        k := i;
      }
    }
  }

  /** The vector path: `argmin` of the absolute deltas, then the delta at that column. */
  function ArgMin(xs: seq<int>): nat
    requires xs != []
    ensures ArgMin(xs) < |xs|
  {
    if |xs| == 1 then 0
    else
      var k := ArgMin(xs[..|xs| - 1]);
      if xs[|xs| - 1] < xs[k] then |xs| - 1 else k
  }

  lemma {:induction false} ArgMinIsFirstMinimum(xs: seq<int>)
    requires xs != []
    ensures forall j | 0 <= j < |xs| :: xs[ArgMin(xs)] <= xs[j]
    ensures forall j | 0 <= j < ArgMin(xs) :: xs[ArgMin(xs)] < xs[j]
  {
    if |xs| > 1 {
      ArgMinIsFirstMinimum(xs[..|xs| - 1]);
    }
  }

  function Deltas(ordinal: int, anchors: seq<int>): (deltas: seq<int>)
    ensures |deltas| == |anchors| && forall k | 0 <= k < |anchors| :: deltas[k] == anchors[k] - ordinal
  {
    seq(|anchors|, k requires 0 <= k < |anchors| => anchors[k] - ordinal)
  }

  function AbsAll(xs: seq<int>): (ys: seq<int>)
    ensures |ys| == |xs| && forall k | 0 <= k < |xs| :: ys[k] == Abs(xs[k])
  {
    seq(|xs|, k requires 0 <= k < |xs| => Abs(xs[k]))
  }

  function NearestByArgMin(ordinal: int, anchors: seq<int>): int
    requires anchors != []
  {
    Deltas(ordinal, anchors)[ArgMin(AbsAll(Deltas(ordinal, anchors)))]
  }

  lemma ArgMinIsNearest(ordinal: int, anchors: seq<int>)
    requires anchors != []
    ensures IsNearestDelta(ordinal, anchors, NearestByArgMin(ordinal, anchors))
  {
    var xs := AbsAll(Deltas(ordinal, anchors));
    ArgMinIsFirstMinimum(xs);
    assert IsFirstNearest(ordinal, anchors, ArgMin(xs));
  }

  /** The first nearest anchor is unique, so both paths return the same delta. */
  lemma NearestDeltaIsUnique(ordinal: int, anchors: seq<int>, a: int, b: int)
    requires IsNearestDelta(ordinal, anchors, a) && IsNearestDelta(ordinal, anchors, b)
    ensures a == b
  {
  }

  predicate AnchorYears(year: int) { MIN_YEAR < year < MAX_YEAR }

  function ThreeAnchors(anchor: Anchor, year: int): seq<int>
    requires AnchorYears(year)
  {
    [AnchorOrdinal(anchor, year - 1), AnchorOrdinal(anchor, year), AnchorOrdinal(anchor, year + 1)]
  }

  lemma AnchorsAscend(anchor: Anchor, y: int, z: int)
    requires MIN_YEAR <= y < z
    ensures AnchorOrdinal(anchor, y) < AnchorOrdinal(anchor, z)
  {
    AnchorInItsYear(anchor, y);
    AnchorInItsYear(anchor, z);
    YearsAscend(y, z);
  }

  /** The neighbouring years' anchors enclose every date of a year. */
  lemma AnchorsEncloseTheYear(anchor: Anchor, d: Date)
    requires ValidDate(d) && AnchorYears(d.year)
    ensures AnchorOrdinal(anchor, d.year - 1) < Ordinal(d) < AnchorOrdinal(anchor, d.year + 1)
  {
    hide AnchorOrdinal;
    DayOfYearRange(d);
    AnchorInItsYear(anchor, d.year - 1);
    AnchorInItsYear(anchor, d.year + 1);
  }

  lemma NothingOutsideIsNearer(ordinal: int, anchors: seq<int>, delta: int, other: int)
    requires |anchors| == 3 && anchors[0] < ordinal < anchors[2] && anchors[0] < anchors[1] < anchors[2]
    requires IsNearestDelta(ordinal, anchors, delta)
    requires other < anchors[0] || other in anchors || other > anchors[2]
    ensures Abs(delta) <= Abs(other - ordinal)
    ensures Abs(delta) == Abs(other - ordinal) ==> ordinal + delta <= other
  {
    var k :| 0 <= k < |anchors| && IsFirstNearest(ordinal, anchors, k) && delta == anchors[k] - ordinal;
    assert Abs(delta) <= Abs(anchors[0] - ordinal) && Abs(delta) <= Abs(anchors[2] - ordinal);
    if other in anchors {
      var j :| 0 <= j < 3 && anchors[j] == other;
    }
  }

  /** Looking at three years is enough: no year's anchor is nearer, and of two equally near anchors
      the earlier one was chosen. */
  lemma NearestOfAllYears(anchor: Anchor, d: Date, delta: int, year: int)
    requires ValidDate(d) && AnchorYears(d.year) && year >= MIN_YEAR
    requires IsNearestDelta(Ordinal(d), ThreeAnchors(anchor, d.year), delta)
    ensures Abs(delta) <= Abs(AnchorOrdinal(anchor, year) - Ordinal(d))
    ensures Abs(delta) == Abs(AnchorOrdinal(anchor, year) - Ordinal(d)) ==>
      Ordinal(d) + delta <= AnchorOrdinal(anchor, year)
  {
    hide AnchorOrdinal, Ordinal, IsNearestDelta;
    var anchors := ThreeAnchors(anchor, d.year);
    AnchorsEncloseTheYear(anchor, d);
    AnchorsAscend(anchor, d.year - 1, d.year);
    AnchorsAscend(anchor, d.year, d.year + 1);
    if year < d.year - 1 {
      AnchorsAscend(anchor, year, d.year - 1);
    } else if year > d.year + 1 {
      AnchorsAscend(anchor, d.year + 1, year);
    } else {
      assert AnchorOrdinal(anchor, year) == anchors[year - (d.year - 1)];
    }
    NothingOutsideIsNearer(Ordinal(d), anchors, delta, AnchorOrdinal(anchor, year));
  }

  // ---------------------------------------------------------------- the features, scalar and vectorized

  const DAY_DISTANCE_CLIP := 30

  datatype Features = Features(
    turn: real, daysToThanksgiving: int, inThanksgivingWindow: bool, daysToChristmas: int, inChristmasWindow: bool)

  datatype Outcome<+T> = Refused | Derived(value: T)

  /** `min(max(value, lower), upper)` with the symmetric distance clip. */
  function Clip(value: int): int {
    var raised := if value < -DAY_DISTANCE_CLIP then -DAY_DISTANCE_CLIP else value;
    if raised > DAY_DISTANCE_CLIP then DAY_DISTANCE_CLIP else raised
  }

  function FeaturesFrom(d: Date, thanksgiving: int, christmas: int): Features
    requires ValidDate(d)
  {
    Features(
      (DayOfYear(d) - 1) as real / DaysInYear(d.year) as real,
      Clip(thanksgiving), -4 <= thanksgiving <= 2, Clip(christmas), -10 <= christmas <= 4)
  }

  /** What a date's features are: both deltas are those of the nearest anchors. */
  ghost predicate AreSeasonalFeatures(d: Date, f: Features)
    requires ValidDate(d) && AnchorYears(d.year)
  {
    exists t, c ::
      && IsNearestDelta(Ordinal(d), ThreeAnchors(Thanksgiving, d.year), t)
      && IsNearestDelta(Ordinal(d), ThreeAnchors(Christmas, d.year), c)
      && f == FeaturesFrom(d, t, c)
  }

  lemma SeasonalFeaturesAreUnique(d: Date, f: Features, g: Features)
    requires ValidDate(d) && AnchorYears(d.year)
    requires AreSeasonalFeatures(d, f) && AreSeasonalFeatures(d, g)
    ensures f == g
  {
    var t, c :| IsNearestDelta(Ordinal(d), ThreeAnchors(Thanksgiving, d.year), t)
      && IsNearestDelta(Ordinal(d), ThreeAnchors(Christmas, d.year), c) && f == FeaturesFrom(d, t, c);
    var t', c' :| IsNearestDelta(Ordinal(d), ThreeAnchors(Thanksgiving, d.year), t')
      && IsNearestDelta(Ordinal(d), ThreeAnchors(Christmas, d.year), c') && g == FeaturesFrom(d, t', c');
  }

  /** Clipping loses nothing the windows need: both flags can be read off the clipped distances,
      and a distance within the clip is the true one. */
  lemma WindowsShowInDistances(d: Date, f: Features, anchor: Anchor, delta: int)
    requires ValidDate(d) && AnchorYears(d.year) && AreSeasonalFeatures(d, f)
    requires IsNearestDelta(Ordinal(d), ThreeAnchors(anchor, d.year), delta)
    ensures f.inThanksgivingWindow <==> -4 <= f.daysToThanksgiving <= 2
    ensures f.inChristmasWindow <==> -10 <= f.daysToChristmas <= 4
    ensures var days := if anchor == Thanksgiving then f.daysToThanksgiving else f.daysToChristmas;
      if delta < -30 then days == -30 else if delta > 30 then days == 30 else days == delta
  {
    hide IsNearestDelta, Ordinal, AnchorOrdinal, ValidDate, DayOfYear;
    var t, c :| IsNearestDelta(Ordinal(d), ThreeAnchors(Thanksgiving, d.year), t)
      && IsNearestDelta(Ordinal(d), ThreeAnchors(Christmas, d.year), c) && f == FeaturesFrom(d, t, c);
    if anchor == Thanksgiving {
      NearestDeltaIsUnique(Ordinal(d), ThreeAnchors(anchor, d.year), t, delta);
    } else {
      NearestDeltaIsUnique(Ordinal(d), ThreeAnchors(anchor, d.year), c, delta);
    }
  }

  // ---------------------------------------------------------------- what the features say about the date

  /** A Thursday dated 22 to 28 November, which is the fourth. */
  ghost predicate IsFourthThursday(ordinal: int) {
    exists year, day | year >= 1 && 22 <= day <= 28 ::
      ordinal == Ordinal(Date(year, 11, day)) && (ordinal + 6) % 7 == 3
  }

  ghost predicate IsChristmasDay(ordinal: int) {
    exists year | year >= 1 :: ordinal == Ordinal(Date(year, 12, 25))
  }

  ghost predicate IsAnchorDay(anchor: Anchor, ordinal: int) {
    match anchor
    case Thanksgiving => IsFourthThursday(ordinal)
    case Christmas => IsChristmasDay(ordinal)
  }

  /** `delta` days after `ordinal` lies an anchor day; none is nearer, and none as near is earlier. */
  ghost predicate LeadsToNearest(anchor: Anchor, ordinal: int, delta: int) {
    && IsAnchorDay(anchor, ordinal + delta)
    && forall other | IsAnchorDay(anchor, other) ::
         var far := if other < ordinal then ordinal - other else other - ordinal;
         -far <= delta <= far && ((delta == far || delta == -far) ==> ordinal + delta <= other)
  }

  ghost predicate ClippedTo30(days: int, delta: int) {
    days == if delta < -30 then -30 else if delta > 30 then 30 else delta
  }

  lemma AnchorDaysAreAnchors(anchor: Anchor, ordinal: int) returns (year: int)
    requires IsAnchorDay(anchor, ordinal)
    ensures year >= 1 && ordinal == AnchorOrdinal(anchor, year)
  {
    hide Ordinal, ThanksgivingOrdinal;
    match anchor
    case Thanksgiving =>
      var y, day :| y >= 1 && 22 <= day <= 28 && ordinal == Ordinal(Date(y, 11, day)) && (ordinal + 6) % 7 == 3;
      year := y;
      FourthThursdayIsUnique(year, day);
    case Christmas =>
      year :| year >= 1 && ordinal == Ordinal(Date(year, 12, 25));
  }

  lemma FourthThursdayIsUnique(year: int, day: int)
    requires year >= 1 && 22 <= day <= 28 && (Ordinal(Date(year, 11, day)) + 6) % 7 == 3
    ensures Ordinal(Date(year, 11, day)) == ThanksgivingOrdinal(year)
  {
    hide Ordinal, Weekday, ThanksgivingOrdinal;
    var other := ThanksgivingIsTheFourthThursday(year);
    NovemberDays(year, day);
    NovemberDays(year, other);
    WeekdayInClosedForm(ThanksgivingOrdinal(year));
  }

  lemma AnchorsAreAnchorDays(anchor: Anchor, year: int)
    requires year >= 1
    ensures IsAnchorDay(anchor, AnchorOrdinal(anchor, year))
  {
    hide Ordinal, Weekday, ThanksgivingOrdinal;
    match anchor
    case Thanksgiving =>
      var day := ThanksgivingIsTheFourthThursday(year);
      WeekdayInClosedForm(ThanksgivingOrdinal(year));
    case Christmas =>
  }

  lemma NearestDeltaLeadsToNearest(anchor: Anchor, d: Date, delta: int)
    requires ValidDate(d) && AnchorYears(d.year)
    requires IsNearestDelta(Ordinal(d), ThreeAnchors(anchor, d.year), delta)
    ensures LeadsToNearest(anchor, Ordinal(d), delta)
  {
    hide AnchorOrdinal, Ordinal, IsAnchorDay;
    var anchors := ThreeAnchors(anchor, d.year);
    var k :| 0 <= k < |anchors| && IsFirstNearest(Ordinal(d), anchors, k) && delta == anchors[k] - Ordinal(d);
    AnchorsAreAnchorDays(anchor, d.year - 1 + k);
    forall other | IsAnchorDay(anchor, other)
      ensures Abs(delta) <= Abs(other - Ordinal(d))
      ensures Abs(delta) == Abs(other - Ordinal(d)) ==> Ordinal(d) + delta <= other
    {
      var year := AnchorDaysAreAnchors(anchor, other);
      NearestOfAllYears(anchor, d, delta, year);
    }
  }

  lemma ProperShare(a: int, n: int, turn: real)
    requires 0 <= a < n && turn == a as real / n as real
    ensures turn * n as real == a as real && 0.0 <= turn < 1.0
  {
    QuotientTimes(a as real, n as real);
    ScaledAtLeast(turn, a as real, n as real, 0.0);
    ScaledAtLeast(turn, a as real, n as real, 1.0);
  }

  lemma DaysSinceNewYear(d: Date)
    requires ValidDate(d)
    ensures DayOfYear(d) - 1 == Ordinal(d) - Ordinal(Date(d.year, 1, 1))
    ensures 0 <= DayOfYear(d) - 1 < DaysInYear(d.year)
  {
    DayOfYearRange(d);
    assert DayOfYear(Date(d.year, 1, 1)) == 1;
  }

  lemma TurnIsElapsed(d: Date, thanksgiving: int, christmas: int)
    requires ValidDate(d)
    ensures var turn := FeaturesFrom(d, thanksgiving, christmas).turn;
      && turn * DaysInYear(d.year) as real == (Ordinal(d) - Ordinal(Date(d.year, 1, 1))) as real
      && 0.0 <= turn < 1.0
  {
    hide Ordinal, DayOfYear, DaysInYear;
    DaysSinceNewYear(d);
    ProperShare(DayOfYear(d) - 1, DaysInYear(d.year), FeaturesFrom(d, thanksgiving, christmas).turn);
  }

  /** All five features, said of the date: the share of the year that has passed, the signed days to
      the nearest fourth Thursday of November and the nearest Christmas of any year, clipped, and
      whether these days are within the two windows. */
  lemma SeasonalFeaturesMean(d: Date, f: Features) returns (t: int, c: int)
    requires ValidDate(d) && AnchorYears(d.year) && AreSeasonalFeatures(d, f)
    ensures f.turn * DaysInYear(d.year) as real == (Ordinal(d) - Ordinal(Date(d.year, 1, 1))) as real
    ensures 0.0 <= f.turn < 1.0
    ensures LeadsToNearest(Thanksgiving, Ordinal(d), t) && LeadsToNearest(Christmas, Ordinal(d), c)
    ensures ClippedTo30(f.daysToThanksgiving, t) && ClippedTo30(f.daysToChristmas, c)
    ensures f.inThanksgivingWindow <==> -4 <= t <= 2
    ensures f.inChristmasWindow <==> -10 <= c <= 4
  {
    hide IsNearestDelta, LeadsToNearest, Ordinal, AnchorOrdinal, ValidDate, DayOfYear;
    t, c :| IsNearestDelta(Ordinal(d), ThreeAnchors(Thanksgiving, d.year), t)
      && IsNearestDelta(Ordinal(d), ThreeAnchors(Christmas, d.year), c) && f == FeaturesFrom(d, t, c);
    TurnIsElapsed(d, t, c);
    NearestDeltaLeadsToNearest(Thanksgiving, d, t);
    NearestDeltaLeadsToNearest(Christmas, d, c);
  }

  // ---------------------------------------------------------------- the scalar and the vector path

  /** The scalar path. The first and the last representable year have no neighbouring anchor. */
  method SeasonalFeaturesForDate(d: Date) returns (r: Outcome<Features>)
    requires ValidDate(d)
    ensures r.Refused? <==> d.year <= 1 || d.year >= 9999
    ensures r.Derived? ==> AreSeasonalFeatures(d, r.value)
  {
    if !AnchorYears(d.year) {
      return Refused;
    }
    var t := NearestSignedDelta(Ordinal(d), ThreeAnchors(Thanksgiving, d.year));
    var c := NearestSignedDelta(Ordinal(d), ThreeAnchors(Christmas, d.year));
    r := Derived(FeaturesFrom(d, t, c));
  }

  /** The anchors of every year from one before the least to one after the greatest, and the
      three columns read back from that table: no row misses a key. */
  method AnchorColumns(years: seq<int>, anchor: Anchor) returns (rows: seq<seq<int>>)
    requires years != [] && forall i | 0 <= i < |years| :: AnchorYears(years[i])
    ensures |rows| == |years|
    ensures forall i | 0 <= i < |years| :: rows[i] == ThreeAnchors(anchor, years[i])
  {
    hide AnchorOrdinal;
    var least, greatest := years[0], years[0];
    for i := 1 to |years|
      invariant AnchorYears(least) && AnchorYears(greatest)
      invariant forall k | 0 <= k < i :: least <= years[k] <= greatest
    {
      least := if years[i] < least then years[i] else least;
      greatest := if years[i] > greatest then years[i] else greatest;
    }
    var lookup: map<int, int> := map[];
    for year := least - 1 to greatest + 2
      invariant forall y :: y in lookup <==> least - 1 <= y < year
      invariant forall y | y in lookup :: MIN_YEAR <= y && lookup[y] == AnchorOrdinal(anchor, y)
    {
      lookup := lookup[year := AnchorOrdinal(anchor, year)];
    }
    rows := [];
    for i := 0 to |years|
      invariant |rows| == i
      invariant forall k | 0 <= k < i :: rows[k] == ThreeAnchors(anchor, years[k])
    {
      rows := rows + [[lookup[years[i] - 1], lookup[years[i]], lookup[years[i] + 1]]];
    }
  }

  predicate DerivableBatch(dates: seq<Date>) {
    dates != [] && forall i | 0 <= i < |dates| :: ValidDate(dates[i]) && InTimestampRange(dates[i])
  }

  /** The vectorized path equals the scalar path row for row. */
  method DeriveSeasonalFeatures(dates: seq<Date>) returns (r: Outcome<seq<Features>>)
    ensures r.Derived?
       <==> dates != [] && forall i | 0 <= i < |dates| ::
              ValidDate(dates[i]) && 16770922 <= Numeral(dates[i]) <= 22620411
    ensures r.Derived? ==>
      && |r.value| == |dates|
      && forall i | 0 <= i < |dates| :: AreSeasonalFeatures(dates[i], r.value[i])
  {
    hide AnchorOrdinal, Ordinal, IsNearestDelta, NearestByArgMin;
    forall i | 0 <= i < |dates| && ValidDate(dates[i])
      ensures InTimestampRange(dates[i]) <==> 16770922 <= Numeral(dates[i]) <= 22620411
    {
      TimestampRangeExactly(dates[i]);
    }
    if !DerivableBatch(dates) {
      return Refused;
    }
    var years := seq(|dates|, i requires 0 <= i < |dates| => dates[i].year);
    var thanksgivings := AnchorColumns(years, Thanksgiving);
    var christmases := AnchorColumns(years, Christmas);
    var rows: seq<Features> := [];
    for i := 0 to |dates|
      invariant |rows| == i
      invariant forall k | 0 <= k < i :: AreSeasonalFeatures(dates[k], rows[k])
    {
      var d := dates[i];
      var t := NearestByArgMin(Ordinal(d), thanksgivings[i]);
      var c := NearestByArgMin(Ordinal(d), christmases[i]);
      ArgMinIsNearest(Ordinal(d), thanksgivings[i]);
      ArgMinIsNearest(Ordinal(d), christmases[i]);
      rows := rows + [FeaturesFrom(d, t, c)];
    }
    r := Derived(rows);
  }
}
