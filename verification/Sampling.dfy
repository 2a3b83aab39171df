/** Stratified allocation of a monthly sample (src/flight_delay/data/sampling.py).

    Shares are exact rationals: a stratum of `c` rows out of `total` has the ideal share
    `c * cap / total`, kept as a quotient and a remainder over `total`. */
module Sampling {
  import opened Arithmetic
  import opened Counting
  import opened Ordering

  // ---------------------------------------------------------------- the steps of the allocation

  /** The ideal share of `c` rows, as a whole part and a remainder over `total`: every row adds `cap`
      to the remainder, which carries into the whole part when it reaches `total`. */
  function Share(c: nat, cap: nat, total: nat): (nat, nat)
    requires cap < total
  {
    if c == 0 then (0, 0)
    else
      var (whole, rest) := Share(c - 1, cap, total);
      if rest + cap >= total then (whole + 1, rest + cap - total) else (whole, rest + cap)
  }

  lemma {:induction false} ShareIsDivision(c: nat, cap: nat, total: nat)
    requires cap < total
    ensures Share(c, cap, total) == (c * cap / total, c * cap % total)
    ensures Share(c, cap, total).1 < total
    ensures total * Share(c, cap, total).0 + Share(c, cap, total).1 == c * cap
  {
    if c > 0 {
      ShareIsDivision(c - 1, cap, total);
      var (whole, rest) := Share(c - 1, cap, total);
      assert c * cap == (c - 1) * cap + cap;
      assert total * (whole + 1) == total * whole + total;
    }
    var (whole, rest) := Share(c, cap, total);
    DivisionIsUnique(c * cap, total, whole, rest);
  }

  /** The ideal shares, rounded down. */
  function FloorShares(counts: seq<nat>, cap: nat, total: nat): (shares: seq<nat>)
    requires cap < total
    ensures |shares| == |counts|
    ensures forall i | 0 <= i < |counts| :: shares[i] == Share(counts[i], cap, total).0
  {
    seq(|counts|, i requires 0 <= i < |counts| => Share(counts[i], cap, total).0)
  }

  /** `ideal - ideal.astype(int)`, as numerators over `total`. */
  function Fractions(counts: seq<nat>, cap: nat, total: nat): (fractions: seq<nat>)
    requires cap < total
    ensures |fractions| == |counts|
    ensures forall i | 0 <= i < |counts| :: fractions[i] == Share(counts[i], cap, total).1
  {
    seq(|counts|, i requires 0 <= i < |counts| => Share(counts[i], cap, total).1)
  }

  /** The bump-to-one, done only when every stratum can have a row. */
  function Bump(shares: seq<nat>, cap: nat): (bumped: seq<nat>)
    ensures |bumped| == |shares|
    ensures forall i | 0 <= i < |shares| ::
      bumped[i] == if cap >= |shares| && shares[i] == 0 then 1 else shares[i]
  {
    seq(|shares|, i requires 0 <= i < |shares| => if cap >= |shares| && shares[i] == 0 then 1 else shares[i])
  }

  ghost predicate SomeAboveOne(allotment: seq<nat>) {
    exists i :: 0 <= i < |allotment| && allotment[i] > 1
  }

  /** `k` is the head of the strata above one, sorted by descending allocation, ties in order. */
  ghost predicate IsFirstLargest(allotment: seq<nat>, k: nat) {
    && k < |allotment|
    && allotment[k] > 1
    && (forall j | 0 <= j < |allotment| :: allotment[j] <= allotment[k])
    && (forall j | 0 <= j < k :: allotment[j] < allotment[k])
  }

  function FirstLargest(allotment: seq<nat>): (k: nat)
    requires SomeAboveOne(allotment)
    ensures IsFirstLargest(allotment, k)
  {
    var front := allotment[..|allotment| - 1];
    var last := allotment[|allotment| - 1];
    if exists i :: 0 <= i < |front| && front[i] > 1 then
      var k := FirstLargest(front);
      if last > front[k] then |front| else k
    else
      assert forall j | 0 <= j < |front| :: allotment[j] == front[j] <= 1;
      |front|
  }

  /** What the shrink loop may rely on: a surplus only arises after the bump. */
  ghost predicate Shrinkable(allotment: seq<nat>, cap: nat) {
    Sum(allotment) > cap ==> cap >= |allotment| && forall i | 0 <= i < |allotment| :: allotment[i] >= 1
  }

  lemma SurplusHasAStratumAboveOne(allotment: seq<nat>)
    requires Sum(allotment) > |allotment|
    ensures SomeAboveOne(allotment)
  {
    if !SomeAboveOne(allotment) {
      var ones: seq<nat> := seq(|allotment|, _ => 1);
    }
  }

  function ShrinkOne(allotment: seq<nat>): seq<nat>
    requires SomeAboveOne(allotment)
  {
    var k := FirstLargest(allotment);
    allotment[k := allotment[k] - 1]
  }

  lemma ShrinkOneFacts(allotment: seq<nat>, cap: nat)
    requires Sum(allotment) > cap && Shrinkable(allotment, cap)
    ensures SomeAboveOne(allotment)
    ensures |ShrinkOne(allotment)| == |allotment|
    ensures Sum(ShrinkOne(allotment)) == Sum(allotment) - 1
    ensures Shrinkable(ShrinkOne(allotment), cap)
    ensures forall i | 0 <= i < |allotment| :: ShrinkOne(allotment)[i] <= allotment[i]
    ensures forall i | 0 <= i < |allotment| && allotment[i] >= 1 :: ShrinkOne(allotment)[i] >= 1
  {
    SurplusHasAStratumAboveOne(allotment);
    var k := FirstLargest(allotment);
    SumUpdate(allotment, k, allotment[k] - 1);
  }

  /** The shrink loop: take one row from the first largest stratum until the cap holds. */
  function Shrink(allotment: seq<nat>, cap: nat): seq<nat>
    requires Shrinkable(allotment, cap)
    decreases Sum(allotment) - cap
  {
    if Sum(allotment) <= cap then allotment
    else
      ShrinkOneFacts(allotment, cap);
      Shrink(ShrinkOne(allotment), cap)
  }

  ghost predicate Indices(keys: seq<nat>, n: nat) {
    forall i | 0 <= i < |keys| :: keys[i] < n
  }

  /** The refill loop over `keys`: the allocation and the remainder it leaves. */
  function Refill(allotment: seq<nat>, counts: seq<nat>, keys: seq<nat>, remainder: nat): (r: (seq<nat>, nat))
    requires |allotment| == |counts| && Indices(keys, |counts|)
    ensures |r.0| == |counts|
    decreases |keys|
  {
    if keys == [] || remainder == 0 then (allotment, remainder)
    else if allotment[keys[0]] < counts[keys[0]] then
      Refill(allotment[keys[0] := allotment[keys[0]] + 1], counts, keys[1..], remainder - 1)
    else
      Refill(allotment, counts, keys[1..], remainder)
  }

  function LargerFraction(fractions: seq<nat>): (nat, nat) -> bool {
    (i: nat, j: nat) => i < |fractions| && j < |fractions| && fractions[i] > fractions[j]
  }

  /** Strata by descending fractional part; ties keep their order. */
  function FractionOrder(fractions: seq<nat>): seq<nat> {
    StableSort(UpTo(|fractions|), LargerFraction(fractions))
  }

  function Repeat(keys: seq<nat>, times: nat): seq<nat> {
    if times == 0 then [] else keys + Repeat(keys, times - 1)
  }

  /** A caller passes non-empty strata whose rows exceed a positive cap. */
  ghost predicate Oversized(counts: seq<nat>, cap: nat) {
    && cap > 0
    && Sum(counts) > cap
    && forall i | 0 <= i < |counts| :: counts[i] > 0
  }

  function Order(counts: seq<nat>, cap: nat): seq<nat>
    requires Sum(counts) > cap
  {
    FractionOrder(Fractions(counts, cap, Sum(counts)))
  }

  function Bumped(counts: seq<nat>, cap: nat): (bumped: seq<nat>)
    requires Sum(counts) > cap
    ensures |bumped| == |counts|
  {
    Bump(FloorShares(counts, cap, Sum(counts)), cap)
  }

  function Allocate(counts: seq<nat>, cap: nat): (allotment: seq<nat>)
    requires Oversized(counts, cap)
    ensures |allotment| == |counts|
  {
    BumpIsShrinkable(counts, cap);
    var shrunk := Shrink(Bumped(counts, cap), cap);
    ShrinkKeepsBounds(Bumped(counts, cap), cap);
    var remainder := cap - Sum(shrunk);
    OrderListsEveryStratumOnce(counts, cap);
    RepeatStaysInRange(Order(counts, cap), remainder + 1, |counts|);
    Refill(shrunk, counts, Repeat(Order(counts, cap), remainder + 1), remainder).0
  }

  // ---------------------------------------------------------------- arithmetic of the shares

  lemma AddShare(total: int, cap: int, floor: int, fraction: int, count: int, floors: int, fractions: int, counts: int)
    requires total * floor + fraction == count * cap
    requires total * floors + fractions == cap * counts
    ensures total * (floor + floors) + (fraction + fractions) == cap * (count + counts)
  {
  }

  lemma {:induction false} SharesAddUp(counts: seq<nat>, cap: nat, total: nat)
    requires cap < total
    ensures total * Sum(FloorShares(counts, cap, total)) + Sum(Fractions(counts, cap, total)) == cap * Sum(counts)
  {
    if counts == [] {
    } else {
      var floors, fractions := FloorShares(counts, cap, total), Fractions(counts, cap, total);
      assert floors[1..] == FloorShares(counts[1..], cap, total);
      assert fractions[1..] == Fractions(counts[1..], cap, total);
      SharesAddUp(counts[1..], cap, total);
      ShareIsDivision(counts[0], cap, total);
      AddShare(total, cap, floors[0], fractions[0], counts[0], Sum(floors[1..]), Sum(fractions[1..]), Sum(counts[1..]));
    }
  }

  /** A share that the cap cuts down stays below the stratum's size, and never vanishes. */
  lemma {:induction false} ShareIsBelowCount(c: nat, cap: nat, total: nat)
    requires 0 < c && 0 < cap < total
    ensures Share(c, cap, total).0 < c
    ensures Share(c, cap, total).0 > 0 || Share(c, cap, total).1 > 0
  {
    if c > 1 {
      ShareIsBelowCount(c - 1, cap, total);
      ShareRemainder(c - 1, cap, total);
    }
  }

  lemma {:induction false} ShareRemainder(c: nat, cap: nat, total: nat)
    requires cap < total
    ensures Share(c, cap, total).1 < total
  {
    if c > 0 {
      ShareRemainder(c - 1, cap, total);
    }
  }

  lemma SumNonNegative(xs: seq<nat>)
    ensures Sum(xs) >= 0
  {
  }

  lemma FloorSharesFit(counts: seq<nat>, cap: nat)
    requires Oversized(counts, cap)
    ensures Sum(FloorShares(counts, cap, Sum(counts))) <= cap
  {
    var total := Sum(counts);
    var s := Sum(FloorShares(counts, cap, total));
    SharesAddUp(counts, cap, total);
    SumNonNegative(Fractions(counts, cap, total));
    assert total * s < total * (cap + 1);
    CancelFactor(total, s, cap + 1);
  }

  lemma BumpIsShrinkable(counts: seq<nat>, cap: nat)
    requires Oversized(counts, cap)
    ensures Shrinkable(Bump(FloorShares(counts, cap, Sum(counts)), cap), cap)
  {
    var floors := FloorShares(counts, cap, Sum(counts));
    FloorSharesFit(counts, cap);
    if cap < |counts| {
      assert Bump(floors, cap) == floors;
    }
  }

  /** Shrinking stops exactly at the cap, keeps every stratum's guaranteed row and only lowers
      strata that had more than one. */
  lemma {:induction false} ShrinkKeepsBounds(allotment: seq<nat>, cap: nat)
    requires Shrinkable(allotment, cap)
    ensures |Shrink(allotment, cap)| == |allotment|
    ensures Sum(Shrink(allotment, cap)) == if Sum(allotment) > cap then cap else Sum(allotment)
    ensures forall i | 0 <= i < |allotment| :: Shrink(allotment, cap)[i] <= allotment[i]
    ensures forall i | 0 <= i < |allotment| && allotment[i] >= 1 :: Shrink(allotment, cap)[i] >= 1
    decreases Sum(allotment) - cap
  {
    if Sum(allotment) > cap {
      ShrinkOneFacts(allotment, cap);
      ShrinkKeepsBounds(ShrinkOne(allotment), cap);
    }
  }

  lemma FractionOrderIsPermutation(fractions: seq<nat>)
    ensures multiset(FractionOrder(fractions)) == multiset(UpTo(|fractions|))
    ensures |FractionOrder(fractions)| == |fractions|
    ensures Indices(FractionOrder(fractions), |fractions|)
  {
    SortIsPermutation(UpTo(|fractions|), LargerFraction(fractions));
    SameElements(FractionOrder(fractions), UpTo(|fractions|));
    forall i | 0 <= i < |FractionOrder(fractions)| ensures FractionOrder(fractions)[i] < |fractions| {
      assert FractionOrder(fractions)[i] in UpTo(|fractions|);
    }
  }

  lemma RepeatStaysInRange(keys: seq<nat>, times: nat, n: nat)
    requires Indices(keys, n)
    ensures Indices(Repeat(keys, times), n)
  {
  }

  // ---------------------------------------------------------------- the refill loop

  /** A stratum that still has an unallotted row. */
  function Open(allotment: seq<nat>, counts: seq<nat>): nat -> bool {
    (k: nat) => k < |allotment| && k < |counts| && allotment[k] < counts[k]
  }

  /** The strata to which one pass over `keys` gives a row. */
  function Receivers(allotment: seq<nat>, counts: seq<nat>, keys: seq<nat>, remainder: nat): set<nat> {
    if keys == [] || remainder == 0 then {}
    else if Open(allotment, counts)(keys[0]) then
      {keys[0]} + Receivers(allotment, counts, keys[1..], remainder - 1)
    else
      Receivers(allotment, counts, keys[1..], remainder)
  }

  lemma ReceiversIgnoreOtherStrata(
      allotment: seq<nat>, counts: seq<nat>, keys: seq<nat>, remainder: nat, k: nat, v: nat)
    requires k < |allotment| && k !in keys
    ensures Receivers(allotment[k := v], counts, keys, remainder) == Receivers(allotment, counts, keys, remainder)
    decreases |keys|
  {
    if keys != [] && remainder > 0 {
      assert keys[0] in keys;
      assert Open(allotment[k := v], counts)(keys[0]) == Open(allotment, counts)(keys[0]);
      ReceiversIgnoreOtherStrata(allotment, counts, keys[1..], remainder - 1, k, v);
      ReceiversIgnoreOtherStrata(allotment, counts, keys[1..], remainder, k, v);
    }
  }

  lemma {:induction false} ReceiversAreOpenKeys(allotment: seq<nat>, counts: seq<nat>, keys: seq<nat>, remainder: nat)
    ensures forall k | k in Receivers(allotment, counts, keys, remainder) :: k in keys && Open(allotment, counts)(k)
  {
    if keys == [] || remainder == 0 {
    } else if Open(allotment, counts)(keys[0]) {
      ReceiversAreOpenKeys(allotment, counts, keys[1..], remainder - 1);
    } else {
      ReceiversAreOpenKeys(allotment, counts, keys[1..], remainder);
    }
  }

  /** One pass gives exactly one row to each receiver. */
  lemma {:induction false} PassGivesOneRowEach(allotment: seq<nat>, counts: seq<nat>, keys: seq<nat>, remainder: nat)
    requires |allotment| == |counts| && Indices(keys, |counts|) && Distinct(keys)
    ensures forall i | 0 <= i < |counts| ::
      Refill(allotment, counts, keys, remainder).0[i]
        == allotment[i] + if i in Receivers(allotment, counts, keys, remainder) then 1 else 0
    decreases |keys|
  {
    if keys == [] || remainder == 0 {
    } else {
      var k, rest := keys[0], keys[1..];
      assert k !in rest;
      if allotment[k] < counts[k] {
        var raised := allotment[k := allotment[k] + 1];
        PassGivesOneRowEach(raised, counts, rest, remainder - 1);
        ReceiversIgnoreOtherStrata(allotment, counts, rest, remainder - 1, k, allotment[k] + 1);
        ReceiversAreOpenKeys(allotment, counts, rest, remainder - 1);
      } else {
        PassGivesOneRowEach(allotment, counts, rest, remainder);
      }
    }
  }

  lemma OpenIgnoresOtherStrata(allotment: seq<nat>, counts: seq<nat>, keys: seq<nat>, k: nat, v: nat)
    requires k < |allotment| && k !in keys
    ensures Count(keys, Open(allotment[k := v], counts)) == Count(keys, Open(allotment, counts))
  {
    CountSame(keys, Open(allotment[k := v], counts), Open(allotment, counts));
  }

  /** A pass over enough open strata uses up the whole remainder. */
  lemma {:induction false} PassExhaustsRemainder(allotment: seq<nat>, counts: seq<nat>, keys: seq<nat>, remainder: nat)
    requires |allotment| == |counts| && Indices(keys, |counts|) && Distinct(keys)
    requires remainder <= Count(keys, Open(allotment, counts))
    ensures Refill(allotment, counts, keys, remainder).1 == 0
    decreases |keys|
  {
    if keys == [] || remainder == 0 {
    } else {
      var k, rest := keys[0], keys[1..];
      assert k !in rest;
      if allotment[k] < counts[k] {
        OpenIgnoresOtherStrata(allotment, counts, rest, k, allotment[k] + 1);
        PassExhaustsRemainder(allotment[k := allotment[k] + 1], counts, rest, remainder - 1);
      } else {
        PassExhaustsRemainder(allotment, counts, rest, remainder);
      }
    }
  }

  /** Rows are only moved from the remainder to strata, and never beyond a stratum's size. */
  lemma {:induction false} RefillConserves(allotment: seq<nat>, counts: seq<nat>, keys: seq<nat>, remainder: nat)
    requires |allotment| == |counts| && Indices(keys, |counts|)
    ensures Sum(Refill(allotment, counts, keys, remainder).0) + Refill(allotment, counts, keys, remainder).1
         == Sum(allotment) + remainder
    ensures forall i | 0 <= i < |counts| :: allotment[i] <= Refill(allotment, counts, keys, remainder).0[i]
    ensures forall i | 0 <= i < |counts| && allotment[i] <= counts[i] ::
      Refill(allotment, counts, keys, remainder).0[i] <= counts[i]
    decreases |keys|
  {
    if keys == [] || remainder == 0 {
    } else {
      var k, rest := keys[0], keys[1..];
      if allotment[k] < counts[k] {
        SumUpdate(allotment, k, allotment[k] + 1);
        RefillConserves(allotment[k := allotment[k] + 1], counts, rest, remainder - 1);
      } else {
        RefillConserves(allotment, counts, rest, remainder);
      }
    }
  }

  /** Once the remainder is gone the rest of the keys change nothing. */
  lemma {:induction false} RefillStopsEarly(
      allotment: seq<nat>, counts: seq<nat>, keys: seq<nat>, more: seq<nat>, remainder: nat)
    requires |allotment| == |counts| && Indices(keys, |counts|) && Indices(keys + more, |counts|)
    requires Refill(allotment, counts, keys, remainder).1 == 0
    ensures Refill(allotment, counts, keys + more, remainder) == Refill(allotment, counts, keys, remainder)
    decreases |keys|
  {
    if remainder == 0 {
    } else if keys == [] {
    } else {
      var k := keys[0];
      assert (keys + more)[1..] == keys[1..] + more;
      if allotment[k] < counts[k] {
        RefillStopsEarly(allotment[k := allotment[k] + 1], counts, keys[1..], more, remainder - 1);
      } else {
        RefillStopsEarly(allotment, counts, keys[1..], more, remainder);
      }
    }
  }

  // ---------------------------------------------------------------- the allocation as a whole

  function IsZero(): nat -> bool { (x: nat) => x == 0 }
  function IsPositive(): nat -> bool { (x: nat) => x > 0 }

  /** The number of strata that the bump raises. */
  function Raised(counts: seq<nat>, cap: nat): nat
    requires Sum(counts) > cap
  {
    if cap >= |counts| then Count(FloorShares(counts, cap, Sum(counts)), IsZero()) else 0
  }

  lemma {:induction false} RaisingZerosAddsTheirNumber(shares: seq<nat>, raised: seq<nat>)
    requires |raised| == |shares|
    requires forall i | 0 <= i < |shares| :: raised[i] == if shares[i] == 0 then 1 else shares[i]
    ensures Sum(raised) == Sum(shares) + Count(shares, IsZero())
  {
    if shares != [] {
      RaisingZerosAddsTheirNumber(shares[1..], raised[1..]);
    }
  }

  lemma BumpedSum(counts: seq<nat>, cap: nat)
    requires Oversized(counts, cap)
    ensures var floors := FloorShares(counts, cap, Sum(counts));
      Sum(Bump(floors, cap)) == Sum(floors) + Raised(counts, cap)
  {
    var floors := FloorShares(counts, cap, Sum(counts));
    if cap >= |counts| {
      RaisingZerosAddsTheirNumber(floors, Bump(floors, cap));
    } else {
      assert Bump(floors, cap) == floors;
    }
  }

  lemma {:induction false} FractionsAreBelowOneEach(fractions: seq<nat>, total: nat)
    requires forall i | 0 <= i < |fractions| :: fractions[i] < total
    ensures Sum(fractions) <= total * Count(fractions, IsPositive())
    ensures Count(fractions, IsPositive()) > 0 ==> Sum(fractions) < total * Count(fractions, IsPositive())
  {
    if fractions != [] {
      FractionsAreBelowOneEach(fractions[1..], total);
      var c := Count(fractions[1..], IsPositive());
      assert total * (1 + c) == total + total * c;
    }
  }

  lemma LostRowsAreFractional(total: nat, cap: nat, floors: nat, fractional: nat, sum: nat)
    requires total > 0 && total * floors + sum == cap * total
    requires sum <= total * fractional
    requires fractional > 0 ==> sum < total * fractional
    ensures 0 <= cap - floors
    ensures cap - floors < fractional || cap - floors == fractional == 0
  {
    var lost := cap - floors;
    assert total * lost == sum;
    CancelFactor(total, -1, lost);
    if fractional > 0 {
      CancelFactor(total, lost, fractional);
    } else {
      CancelFactor(total, lost, 1);
    }
  }

  function RoundedAway(counts: seq<nat>, cap: nat): int
    requires Sum(counts) > cap
  {
    cap - Sum(FloorShares(counts, cap, Sum(counts)))
  }

  function Fractional(counts: seq<nat>, cap: nat): nat
    requires Sum(counts) > cap
  {
    Count(Fractions(counts, cap, Sum(counts)), IsPositive())
  }

  /** The rows lost by rounding down are fewer than the strata with a fractional share. */
  lemma RoundingLoss(counts: seq<nat>, cap: nat)
    requires Oversized(counts, cap)
    ensures 0 <= RoundedAway(counts, cap)
    ensures RoundedAway(counts, cap) < Fractional(counts, cap) || RoundedAway(counts, cap) == Fractional(counts, cap) == 0
    ensures Fractional(counts, cap) <= |counts|
  {
    hide Share, FloorShares, Fractions;
    var total := Sum(counts);
    var floors, fractions := FloorShares(counts, cap, total), Fractions(counts, cap, total);
    CountIsBounded<nat>(fractions, IsPositive());
    SharesAddUp(counts, cap, total);
    forall i | 0 <= i < |fractions| ensures fractions[i] < total {
      ShareRemainder(counts[i], cap, total);
    }
    SumNonNegative(fractions);
    SumNonNegative(floors);
    FractionsAreBelowOneEach(fractions, total);
    LostRowsAreFractional(total, cap, Sum(floors), Fractional(counts, cap), Sum(fractions));
  }

  lemma OrderListsEveryStratumOnce(counts: seq<nat>, cap: nat)
    requires Sum(counts) > cap
    ensures multiset(Order(counts, cap)) == multiset(UpTo(|counts|))
    ensures |Order(counts, cap)| == |counts| && Indices(Order(counts, cap), |counts|)
    ensures Distinct(Order(counts, cap))
  {
    FractionOrderIsPermutation(Fractions(counts, cap, Sum(counts)));
    PermutationIsDistinct(UpTo(|counts|), Order(counts, cap));
  }

  function Closed(allotment: seq<nat>, counts: seq<nat>): nat -> bool {
    (k: nat) => !Open(allotment, counts)(k)
  }

  lemma FloorIsBelowCount(counts: seq<nat>, cap: nat, k: nat)
    requires Oversized(counts, cap) && k < |counts|
    ensures FloorShares(counts, cap, Sum(counts))[k] < counts[k]
  {
    assert counts[k] > 0;
    ShareIsBelowCount(counts[k], cap, Sum(counts));
  }

  /** Rounding down never fills a stratum, so only a raised stratum can be full. */
  lemma FullStrataWereRaised(counts: seq<nat>, cap: nat, k: nat)
    requires Oversized(counts, cap) && k < |counts|
    ensures Closed(Bumped(counts, cap), counts)(k) ==>
      cap >= |counts| && FloorShares(counts, cap, Sum(counts))[k] == 0
    ensures Bumped(counts, cap)[k] <= counts[k]
  {
    var floors := FloorShares(counts, cap, Sum(counts));
    FloorIsBelowCount(counts, cap, k);
    var bumped := Bumped(counts, cap);
    assert bumped[k] == if cap >= |counts| && floors[k] == 0 then 1 else floors[k];
    if cap < |counts| || floors[k] > 0 {
      assert Open(bumped, counts)(k);
    }
  }

  lemma FewStrataAreFull(counts: seq<nat>, cap: nat, keys: seq<nat>)
    requires Oversized(counts, cap) && Indices(keys, |counts|)
    requires multiset(keys) == multiset(UpTo(|counts|))
    ensures Count(keys, Closed(Bumped(counts, cap), counts)) <= Raised(counts, cap)
  {
    var closed := Closed(Bumped(counts, cap), counts);
    var floors := FloorShares(counts, cap, Sum(counts));
    forall i | 0 <= i < |keys| ensures closed(keys[i]) ==> cap >= |counts| && At(floors, IsZero())(keys[i]) {
      FullStrataWereRaised(counts, cap, keys[i]);
    }
    if cap >= |counts| {
      CountMonotone(keys, closed, At(floors, IsZero()));
      CountPermutation(keys, UpTo(|counts|), At(floors, IsZero()));
      CountByIndex(floors, IsZero());
    } else {
      CountIsBounded(keys, closed);
    }
  }

  lemma EnoughStrataAreOpen(counts: seq<nat>, cap: nat)
    requires Oversized(counts, cap)
    ensures RoundedAway(counts, cap) - Raised(counts, cap) <= Count(Order(counts, cap), Open(Bumped(counts, cap), counts))
  {
    var order := Order(counts, cap);
    OrderListsEveryStratumOnce(counts, cap);
    RoundingLoss(counts, cap);
    PrefixIsOpenOrRaised(counts, cap, |order|);
    assert order[..|order|] == order;
  }

  /** Repeating the keys adds nothing: the first pass of the refill exhausts the remainder. */
  lemma OnePassIsEnough(counts: seq<nat>, cap: nat, remainder: nat)
    requires Oversized(counts, cap) && remainder == RoundedAway(counts, cap) - Raised(counts, cap)
    ensures Indices(Order(counts, cap), |counts|) && Indices(Repeat(Order(counts, cap), remainder + 1), |counts|)
    ensures Refill(Bumped(counts, cap), counts, Repeat(Order(counts, cap), remainder + 1), remainder)
         == Refill(Bumped(counts, cap), counts, Order(counts, cap), remainder)
    ensures Refill(Bumped(counts, cap), counts, Order(counts, cap), remainder).1 == 0
  {
    var bumped, order := Bumped(counts, cap), Order(counts, cap);
    OrderListsEveryStratumOnce(counts, cap);
    RepeatStaysInRange(order, remainder + 1, |counts|);
    RepeatStaysInRange(order, remainder, |counts|);
    EnoughStrataAreOpen(counts, cap);
    PassExhaustsRemainder(bumped, counts, order, remainder);
    RefillStopsEarly(bumped, counts, order, Repeat(order, remainder), remainder);
  }

  ghost predicate BumpOvershoots(counts: seq<nat>, cap: nat)
    requires Sum(counts) > cap
  {
    RoundedAway(counts, cap) < Raised(counts, cap)
  }

  /** The strata served by the refill, when the bump does not overshoot. */
  function Served(counts: seq<nat>, cap: nat): set<nat>
    requires Sum(counts) > cap && RoundedAway(counts, cap) >= Raised(counts, cap)
  {
    Receivers(Bumped(counts, cap), counts, Order(counts, cap), RoundedAway(counts, cap) - Raised(counts, cap))
  }

  lemma AllocationIsRefill(counts: seq<nat>, cap: nat)
    requires Oversized(counts, cap) && !BumpOvershoots(counts, cap)
    ensures Indices(Order(counts, cap), |counts|)
    ensures Allocate(counts, cap)
         == Refill(Bumped(counts, cap), counts, Order(counts, cap), RoundedAway(counts, cap) - Raised(counts, cap)).0
  {
    var bumped, remainder := Bumped(counts, cap), RoundedAway(counts, cap) - Raised(counts, cap);
    BumpIsShrinkable(counts, cap);
    BumpedSum(counts, cap);
    assert Shrink(bumped, cap) == bumped;
    assert cap - Sum(bumped) == remainder;
    OnePassIsEnough(counts, cap, remainder);
  }

  lemma AllocationIsShrink(counts: seq<nat>, cap: nat)
    requires Oversized(counts, cap) && BumpOvershoots(counts, cap)
    ensures Shrinkable(Bumped(counts, cap), cap)
    ensures Allocate(counts, cap) == Shrink(Bumped(counts, cap), cap)
  {
    BumpIsShrinkable(counts, cap);
    ShrinkKeepsBounds(Bumped(counts, cap), cap);
    BumpedSum(counts, cap);
    OrderListsEveryStratumOnce(counts, cap);
    RepeatStaysInRange(Order(counts, cap), 1, |counts|);
  }

  /** The whole allocation in closed form: either the bump overshoots and shrinking ends it, or
      the first pass of the refill ends it with one extra row for each served stratum. */
  lemma AllocationInClosedForm(counts: seq<nat>, cap: nat)
    requires Oversized(counts, cap)
    ensures BumpOvershoots(counts, cap) ==>
      Shrinkable(Bumped(counts, cap), cap) && Allocate(counts, cap) == Shrink(Bumped(counts, cap), cap)
    ensures !BumpOvershoots(counts, cap) ==>
      forall i | 0 <= i < |counts| ::
        Allocate(counts, cap)[i] == Bumped(counts, cap)[i] + if i in Served(counts, cap) then 1 else 0
  {
    if BumpOvershoots(counts, cap) {
      AllocationIsShrink(counts, cap);
      ShrinkKeepsBounds(Bumped(counts, cap), cap);
    } else {
      AllocationIsRefill(counts, cap);
      OrderListsEveryStratumOnce(counts, cap);
      PassGivesOneRowEach(Bumped(counts, cap), counts, Order(counts, cap), RoundedAway(counts, cap) - Raised(counts, cap));
    }
  }

  // ---------------------------------------------------------------- what the allocation guarantees

  lemma BumpedFits(counts: seq<nat>, cap: nat)
    requires Oversized(counts, cap)
    ensures forall i | 0 <= i < |counts| :: Bumped(counts, cap)[i] <= counts[i]
    ensures cap >= |counts| ==> forall i | 0 <= i < |counts| :: Bumped(counts, cap)[i] >= 1
  {
    forall i | 0 <= i < |counts| ensures Bumped(counts, cap)[i] <= counts[i] {
      FullStrataWereRaised(counts, cap, i);
    }
  }

  /** The allocation spends the cap exactly, never asks a stratum for more rows than it has, and
      represents every stratum whenever the cap has room for all of them. */
  lemma AllocationIsExact(counts: seq<nat>, cap: nat)
    requires Oversized(counts, cap)
    ensures Sum(Allocate(counts, cap)) == cap
    ensures forall i | 0 <= i < |counts| :: Allocate(counts, cap)[i] <= counts[i]
    ensures cap >= |counts| ==> forall i | 0 <= i < |counts| :: Allocate(counts, cap)[i] >= 1
  {
    BumpedSum(counts, cap);
    BumpedFits(counts, cap);
    if BumpOvershoots(counts, cap) {
      AllocationIsShrink(counts, cap);
      ShrinkKeepsBounds(Bumped(counts, cap), cap);
    } else {
      RefilledIsExact(counts, cap);
    }
  }

  lemma RefilledIsExact(counts: seq<nat>, cap: nat)
    requires Oversized(counts, cap) && !BumpOvershoots(counts, cap)
    ensures Sum(Allocate(counts, cap)) == cap
    ensures forall i | 0 <= i < |counts| :: Bumped(counts, cap)[i] <= Allocate(counts, cap)[i] <= counts[i]
  {
    var bumped, order := Bumped(counts, cap), Order(counts, cap);
    var remainder := RoundedAway(counts, cap) - Raised(counts, cap);
    BumpedSum(counts, cap);
    BumpedFits(counts, cap);
    AllocationIsRefill(counts, cap);
    OnePassIsEnough(counts, cap, remainder);
    RefillConserves(bumped, counts, order, remainder);
  }

  /** Every allotment is the floor or the ceiling of its ideal share. */
  ghost predicate MeetsQuota(counts: seq<nat>, cap: nat, allotment: seq<nat>)
    requires |allotment| == |counts| && Sum(counts) > cap
  {
    forall i | 0 <= i < |counts| :: WithinOneRow(counts[i], cap, Sum(counts), allotment[i])
  }

  ghost predicate WithinOneRow(c: nat, cap: nat, total: nat, rows: nat)
    requires cap < total
  {
    var (whole, rest) := Share(c, cap, total);
    rows == whole || (rows == whole + 1 && rest > 0)
  }

  /** The open strata that the fractions rank before stratum `k`. */
  function RankedAhead(counts: seq<nat>, cap: nat, k: nat): nat -> bool
    requires Sum(counts) > cap && k < |counts|
  {
    var fractions := Fractions(counts, cap, Sum(counts));
    (j: nat) => Open(Bumped(counts, cap), counts)(j) && j < |fractions|
      && (fractions[j] > fractions[k] || (fractions[j] == fractions[k] && j < k))
  }

  /** Checkable from the counts and the cap before allocating: either the cap is below the number of
      strata, so nothing is raised, or the raised rows fit into the rows lost by rounding and every
      raised stratum with a second row has at least as many open strata ranked ahead of it as rows
      are then left over. */
  ghost predicate BumpIsHarmless(counts: seq<nat>, cap: nat)
    requires Sum(counts) > cap
  {
    cap < |counts| ||
    (&& !BumpOvershoots(counts, cap)
     && forall k | 0 <= k < |counts| && FloorShares(counts, cap, Sum(counts))[k] == 0 && counts[k] > 1 ::
          Count(UpTo(|counts|), RankedAhead(counts, cap, k)) >= RoundedAway(counts, cap) - Raised(counts, cap))
  }

  /** A receiver was reached while fewer than `remainder` open strata came before it. */
  lemma {:induction false} ReceiverPosition(
      allotment: seq<nat>, counts: seq<nat>, keys: seq<nat>, remainder: nat, k: nat)
    returns (p: nat)
    requires k in Receivers(allotment, counts, keys, remainder)
    ensures p < |keys| && keys[p] == k && Count(keys[..p], Open(allotment, counts)) < remainder
    decreases |keys|
  {
    var open := Open(allotment, counts);
    if open(keys[0]) && keys[0] == k {
      p := 0;
    } else {
      var q := ReceiverPosition(allotment, counts, keys[1..], if open(keys[0]) then remainder - 1 else remainder, k);
      p := q + 1;
      assert keys[..p] == [keys[0]] + keys[1..][..q];
    }
  }

  lemma OrderIsByFraction(counts: seq<nat>, cap: nat)
    requires Sum(counts) > cap
    ensures StablySorted(Order(counts, cap), LargerFraction(Fractions(counts, cap, Sum(counts))), (i: nat, j: nat) => i < j)
  {
    var fractions := Fractions(counts, cap, Sum(counts));
    SortIsStable(UpTo(|fractions|), Elements(UpTo(|fractions|)), LargerFraction(fractions), (i: nat, j: nat) => i < j);
  }

  lemma CountOfPrefixes(keys: seq<nat>, p: nat, q: nat, f: nat -> bool)
    requires p <= q <= |keys|
    ensures Count(keys[..p], f) <= Count(keys[..q], f)
  {
    assert keys[..q] == keys[..p] + keys[p..q];
    CountAppend(keys[..p], keys[p..q], f);
  }

  lemma CountEndsBefore(keys: seq<nat>, p: nat, f: nat -> bool)
    requires p <= |keys| && forall i | p <= i < |keys| :: !f(keys[i])
    ensures Count(keys, f) <= p
  {
    assert keys == keys[..p] + keys[p..];
    CountAppend(keys[..p], keys[p..], f);
    CountIsBounded(keys[..p], f);
    CountIsBounded(keys[p..], f);
  }

  lemma CountAlongOrder(counts: seq<nat>, cap: nat)
    requires Sum(counts) > cap
    ensures Count(Order(counts, cap), At(Fractions(counts, cap, Sum(counts)), IsPositive())) == Fractional(counts, cap)
  {
    var fractions := Fractions(counts, cap, Sum(counts));
    OrderListsEveryStratumOnce(counts, cap);
    CountPermutation(Order(counts, cap), UpTo(|counts|), At(fractions, IsPositive()));
    CountByIndex(fractions, IsPositive());
  }

  /** If a stratum without a fractional share is served, all fractional strata came before it. */
  lemma FractionalStrataComeFirst(counts: seq<nat>, cap: nat, p: nat)
    requires Sum(counts) > cap && p < |counts|
    requires |Order(counts, cap)| == |counts| && Indices(Order(counts, cap), |counts|)
    requires Fractions(counts, cap, Sum(counts))[Order(counts, cap)[p]] == 0
    ensures Fractional(counts, cap) <= p
  {
    var fractions, order := Fractions(counts, cap, Sum(counts)), Order(counts, cap);
    OrderIsByFraction(counts, cap);
    CountAlongOrder(counts, cap);
    forall i | p <= i < |order| ensures !At(fractions, IsPositive())(order[i]) {
      assert i > p ==> !LargerFraction(fractions)(order[i], order[p]);
    }
    CountEndsBefore(order, p, At(fractions, IsPositive()));
  }

  /** Every prefix of the order is made of open strata and at most the raised ones. */
  lemma PrefixIsOpenOrRaised(counts: seq<nat>, cap: nat, p: nat)
    requires Oversized(counts, cap) && p <= |Order(counts, cap)|
    ensures p <= Count(Order(counts, cap)[..p], Open(Bumped(counts, cap), counts)) + Raised(counts, cap)
  {
    var order := Order(counts, cap);
    var open, closed := Open(Bumped(counts, cap), counts), Closed(Bumped(counts, cap), counts);
    var all := (i: nat) => true;
    OrderListsEveryStratumOnce(counts, cap);
    CountIsBounded(order[..p], all);
    CountSplit(order[..p], all, open, closed);
    assert order[..|order|] == order;
    CountOfPrefixes(order, p, |order|, closed);
    FewStrataAreFull(counts, cap, order);
  }

  /** Every receiver has a fractional share, so its extra row is its ceiling. */
  lemma ReceiversHaveFractions(counts: seq<nat>, cap: nat, k: nat)
    requires Oversized(counts, cap) && !BumpOvershoots(counts, cap)
    requires k in Served(counts, cap)
    ensures k < |counts| && Fractions(counts, cap, Sum(counts))[k] > 0
  {
    hide Bumped, Order, Raised, RoundedAway, Fractional, Fractions;
    var bumped, order := Bumped(counts, cap), Order(counts, cap);
    var spare := RoundedAway(counts, cap) - Raised(counts, cap);
    OrderListsEveryStratumOnce(counts, cap);
    var p := ReceiverPosition(bumped, counts, order, spare, k);
    if Fractions(counts, cap, Sum(counts))[k] == 0 {
      FractionalStrataComeFirst(counts, cap, p);
      RoundingLoss(counts, cap);
      PrefixIsOpenOrRaised(counts, cap, p);
    }
  }

  lemma SurplusCostsAStratumItsFloor(counts: seq<nat>, cap: nat) returns (k: nat)
    requires Oversized(counts, cap) && BumpOvershoots(counts, cap)
    ensures k < |counts| && Allocate(counts, cap)[k] < FloorShares(counts, cap, Sum(counts))[k]
  {
    var bumped := Bumped(counts, cap);
    AllocationInClosedForm(counts, cap);
    BumpedSum(counts, cap);
    ShrinkOneFacts(bumped, cap);
    k := FirstLargest(bumped);
    ShrinkKeepsBounds(ShrinkOne(bumped), cap);
  }

  lemma ZeroFloorHasAFraction(counts: seq<nat>, cap: nat, k: nat)
    requires Oversized(counts, cap) && k < |counts|
    requires FloorShares(counts, cap, Sum(counts))[k] == 0
    ensures Fractions(counts, cap, Sum(counts))[k] > 0
  {
    assert counts[k] > 0;
    ShareIsBelowCount(counts[k], cap, Sum(counts));
  }

  /** The open strata before a place in the order are those the fractions rank ahead. */
  lemma AheadIsBefore(counts: seq<nat>, cap: nat, p: nat)
    requires Sum(counts) > cap && p < |Order(counts, cap)| && |Order(counts, cap)| == |counts|
    requires Order(counts, cap)[p] < |counts|
    ensures Count(UpTo(|counts|), RankedAhead(counts, cap, Order(counts, cap)[p]))
         == Count(Order(counts, cap)[..p], Open(Bumped(counts, cap), counts))
  {
    hide Fractions, Bumped, Order;
    var order, fractions := Order(counts, cap), Fractions(counts, cap, Sum(counts));
    var ahead, open := RankedAhead(counts, cap, order[p]), Open(Bumped(counts, cap), counts);
    OrderListsEveryStratumOnce(counts, cap);
    OrderIsByFraction(counts, cap);
    CountPermutation(order, UpTo(|counts|), ahead);
    assert order == order[..p] + order[p..];
    CountAppend(order[..p], order[p..], ahead);
    forall i | 0 <= i < p ensures ahead(order[..p][i]) == open(order[..p][i]) {
      assert LargerFraction(fractions)(order[i], order[p])
          || (!LargerFraction(fractions)(order[p], order[i]) && order[i] < order[p]);
    }
    CountSame(order[..p], ahead, open);
    forall i | 0 <= i < |order[p..]| ensures !ahead(order[p..][i]) {
      if i > 0 {
        assert LargerFraction(fractions)(order[p], order[p + i])
            || (!LargerFraction(fractions)(order[p + i], order[p]) && order[p] < order[p + i]);
      }
    }
    CountIsBounded(order[p..], ahead);
  }

  lemma {:induction false} ReceiversAreOpen(allotment: seq<nat>, counts: seq<nat>, keys: seq<nat>, remainder: nat, k: nat)
    requires k in Receivers(allotment, counts, keys, remainder)
    ensures Open(allotment, counts)(k)
    decreases |keys|
  {
    var open := Open(allotment, counts);
    if !(open(keys[0]) && keys[0] == k) {
      ReceiversAreOpen(allotment, counts, keys[1..], if open(keys[0]) then remainder - 1 else remainder, k);
    }
  }

  /** The refill serves a stratum exactly when it is open and fewer open strata rank ahead of it
      than rows are left over. */
  lemma ServedExactly(counts: seq<nat>, cap: nat, k: nat)
    requires Oversized(counts, cap) && !BumpOvershoots(counts, cap) && k < |counts|
    ensures k in Served(counts, cap) <==>
      && Open(Bumped(counts, cap), counts)(k)
      && Count(UpTo(|counts|), RankedAhead(counts, cap, k)) < RoundedAway(counts, cap) - Raised(counts, cap)
  {
    hide Fractions, Bumped, Order, Receivers, RankedAhead, RoundedAway, Raised;
    var bumped, order := Bumped(counts, cap), Order(counts, cap);
    var spare := RoundedAway(counts, cap) - Raised(counts, cap);
    OrderListsEveryStratumOnce(counts, cap);
    if k in Served(counts, cap) {
      var p := ReceiverPosition(bumped, counts, order, spare, k);
      AheadIsBefore(counts, cap, p);
      ReceiversAreOpen(bumped, counts, order, spare, k);
    }
    var q := PositionInOrder(counts, cap, k);
    AheadIsBefore(counts, cap, q);
    if Open(bumped, counts)(k) && Count(UpTo(|counts|), RankedAhead(counts, cap, k)) < spare {
      ReachedInTimeIsServed(bumped, counts, order, spare, q);
    }
  }

  // ---------------------------------------------------------------- the allocation from counts and cap alone

  /** The whole parts of the ideal shares; those below one are raised when the cap has room for all. */
  function RaisedShares(counts: seq<nat>, cap: nat): (base: seq<nat>)
    requires Sum(counts) > cap
    ensures |base| == |counts|
  {
    seq(|counts|, i requires 0 <= i < |counts| =>
      var whole := counts[i] * cap / Sum(counts);
      if cap >= |counts| && whole == 0 then 1 else whole)
  }

  /** The fractional part of a stratum's ideal share, in parts of the total. */
  function Part(counts: seq<nat>, cap: nat, i: nat): nat
    requires Sum(counts) > cap && i < |counts|
  {
    counts[i] * cap % Sum(counts)
  }

  /** Strata with a row to give that come before stratum `i`, by larger fraction, then by place. */
  function NextInLine(counts: seq<nat>, cap: nat, i: nat): nat -> bool
    requires Sum(counts) > cap && i < |counts|
  {
    (j: nat) => j < |counts| && counts[j] > RaisedShares(counts, cap)[j]
      && (Part(counts, cap, j) > Part(counts, cap, i) || (Part(counts, cap, j) == Part(counts, cap, i) && j < i))
  }

  /** `now` is `before` cut down to `level`, the strata before `first` to one row less. */
  ghost predicate CutDown(before: seq<nat>, now: seq<nat>, level: nat, first: nat) {
    && |now| == |before| && level >= 1
    && forall i | 0 <= i < |before| ::
         now[i] == if before[i] < level then before[i] else if i < first then level - 1 else level
  }

  /** One more row is taken from the first stratum at the level; when there is none, the level falls. */
  lemma CutOneMore(before: seq<nat>, now: seq<nat>, level: nat, first: nat) returns (level': nat, first': nat)
    requires CutDown(before, now, level, first) && SomeAboveOne(now)
    ensures CutDown(before, ShrinkOne(now), level', first')
  {
    var k := FirstLargest(now);
    if now[k] == level {
      level', first' := level, k + 1;
    } else {
      assert forall i | 0 <= i < |now| :: now[i] < level;
      level', first' := now[k], k + 1;
      assert forall i | 0 <= i < |now| && before[i] >= level :: now[i] == level - 1 <= now[k];
    }
  }

  lemma {:induction false} ShrinkCutsDown(before: seq<nat>, now: seq<nat>, cap: nat, level: nat, first: nat)
    returns (level': nat, first': nat)
    requires CutDown(before, now, level, first) && Shrinkable(now, cap)
    ensures CutDown(before, Shrink(now, cap), level', first')
    decreases Sum(now) - cap
  {
    hide ShrinkOne;
    if Sum(now) <= cap {
      level', first' := level, first;
    } else {
      ShrinkOneFacts(now, cap);
      var l, f := CutOneMore(before, now, level, first);
      level', first' := ShrinkCutsDown(before, ShrinkOne(now), cap, l, f);
    }
  }

  lemma {:induction false} NothingAbove(xs: seq<nat>) returns (level: nat)
    ensures level >= 1 && forall i | 0 <= i < |xs| :: xs[i] < level
  {
    if xs == [] {
      level := 1;
    } else {
      level := NothingAbove(xs[1..]);
      assert forall i | 0 < i < |xs| :: xs[i] == xs[1..][i - 1];
      if xs[0] >= level {
        level := xs[0] + 1;
      }
    }
  }

  lemma SharesInElementaryForm(counts: seq<nat>, cap: nat)
    requires Sum(counts) > cap
    ensures RaisedShares(counts, cap) == Bumped(counts, cap)
    ensures forall i: nat | i < |counts| :: Fractions(counts, cap, Sum(counts))[i] == Part(counts, cap, i)
  {
    forall i | 0 <= i < |counts|
      ensures Share(counts[i], cap, Sum(counts)) == (counts[i] * cap / Sum(counts), counts[i] * cap % Sum(counts))
    {
      ShareIsDivision(counts[i], cap, Sum(counts));
    }
  }

  lemma LineIsRanking(counts: seq<nat>, cap: nat, i: nat)
    requires Sum(counts) > cap && i < |counts|
    ensures Count(UpTo(|counts|), NextInLine(counts, cap, i)) == Count(UpTo(|counts|), RankedAhead(counts, cap, i))
  {
    forall j: nat | j < |counts| ensures NextInLine(counts, cap, i)(j) == RankedAhead(counts, cap, i)(j) {
      SamePlaceInLine(counts, cap, i, j);
    }
    hide *;
    CountSame(UpTo(|counts|), NextInLine(counts, cap, i), RankedAhead(counts, cap, i));
  }

  lemma SamePlaceInLine(counts: seq<nat>, cap: nat, i: nat, j: nat)
    requires Sum(counts) > cap && i < |counts| && j < |counts|
    ensures NextInLine(counts, cap, i)(j) == RankedAhead(counts, cap, i)(j)
  {
    SharesInElementaryForm(counts, cap);
    hide Share, FloorShares, Fractions, Bump, Bumped, RaisedShares, Part, Sum;
    var fractions, base := Fractions(counts, cap, Sum(counts)), RaisedShares(counts, cap);
    assert fractions[i] == Part(counts, cap, i) && fractions[j] == Part(counts, cap, j);
    assert Open(base, counts)(j) <==> counts[j] > base[j];
  }

  /** The whole allocation, of counts and cap alone. Raised shares beyond the cap are cut down from
      the top to one level. Otherwise the rows left over go one each to the strata first in line. */
  lemma AllocationExplained(counts: seq<nat>, cap: nat) returns (level: nat, first: nat)
    requires Oversized(counts, cap)
    ensures var base := RaisedShares(counts, cap);
      if Sum(base) > cap then CutDown(base, Allocate(counts, cap), level, first)
      else forall i | 0 <= i < |counts| ::
        Allocate(counts, cap)[i] == base[i]
          + if counts[i] > base[i] && Count(UpTo(|counts|), NextInLine(counts, cap, i)) < cap - Sum(base) then 1 else 0
  {
    level, first := 1, 0;
    AllocationInClosedForm(counts, cap);
    SharesInElementaryForm(counts, cap);
    SpareRows(counts, cap);
    var base := RaisedShares(counts, cap);
    hide Allocate, Bumped, Fractions, RaisedShares, Shrink, Served, RankedAhead, NextInLine, RoundedAway, Raised;
    if Sum(base) > cap {
      level := NothingAbove(base);
      level, first := ShrinkCutsDown(base, base, cap, level, 0);
    } else {
      forall i: nat | i < |counts|
        ensures i in Served(counts, cap)
           <==> counts[i] > base[i] && Count(UpTo(|counts|), NextInLine(counts, cap, i)) < cap - Sum(base)
      {
        ServedExactly(counts, cap, i);
        LineIsRanking(counts, cap, i);
      }
    }
  }

  /** The rows left over are what the cap has beyond the raised shares. */
  lemma SpareRows(counts: seq<nat>, cap: nat)
    requires Oversized(counts, cap)
    ensures BumpOvershoots(counts, cap) <==> Sum(Bumped(counts, cap)) > cap
    ensures RoundedAway(counts, cap) - Raised(counts, cap) == cap - Sum(Bumped(counts, cap))
  {
    BumpedSum(counts, cap);
  }

  /** One stratum's quota, when the refill alone fixes the allocation. */
  lemma QuotaOfOneStratum(counts: seq<nat>, cap: nat, k: nat)
    requires Oversized(counts, cap) && !BumpOvershoots(counts, cap) && k < |counts|
    ensures WithinOneRow(counts[k], cap, Sum(counts), Allocate(counts, cap)[k]) <==>
      !(cap >= |counts| && FloorShares(counts, cap, Sum(counts))[k] == 0
        && k in Served(counts, cap))
  {
    var floor := FloorShares(counts, cap, Sum(counts))[k];
    var fraction := Fractions(counts, cap, Sum(counts))[k];
    var share := Allocate(counts, cap)[k];
    AllocationInClosedForm(counts, cap);
    assert share == Bumped(counts, cap)[k] + if k in Served(counts, cap) then 1 else 0;
    assert WithinOneRow(counts[k], cap, Sum(counts), share) <==> share == floor || (share == floor + 1 && fraction > 0);
    if floor == 0 {
      ZeroFloorHasAFraction(counts, cap, k);
    }
    if k in Served(counts, cap) {
      ReceiversHaveFractions(counts, cap, k);
    }
  }

  /** The quota rule holds exactly when the bump is harmless. */
  lemma QuotaRuleExactly(counts: seq<nat>, cap: nat)
    requires Oversized(counts, cap)
    ensures MeetsQuota(counts, cap, Allocate(counts, cap)) <==> BumpIsHarmless(counts, cap)
  {
    AllocationInClosedForm(counts, cap);
    if BumpOvershoots(counts, cap) {
      RoundingLoss(counts, cap);
      var k := SurplusCostsAStratumItsFloor(counts, cap);
      assert !WithinOneRow(counts[k], cap, Sum(counts), Allocate(counts, cap)[k]);
    } else {
      QuotaWithoutOvershoot(counts, cap);
    }
  }

  lemma QuotaWithoutOvershoot(counts: seq<nat>, cap: nat)
    requires Oversized(counts, cap) && !BumpOvershoots(counts, cap)
    ensures MeetsQuota(counts, cap, Allocate(counts, cap)) <==> BumpIsHarmless(counts, cap)
  {
    AllocationInClosedForm(counts, cap);
    forall k | 0 <= k < |counts|
      ensures WithinOneRow(counts[k], cap, Sum(counts), Allocate(counts, cap)[k]) <==>
        !(cap >= |counts| && FloorShares(counts, cap, Sum(counts))[k] == 0 && k in Served(counts, cap))
    {
      QuotaOfOneStratum(counts, cap, k);
    }
    forall k | 0 <= k < |counts| && FloorShares(counts, cap, Sum(counts))[k] == 0 && cap >= |counts|
      ensures k in Served(counts, cap) <==>
        counts[k] > 1
        && Count(UpTo(|counts|), RankedAhead(counts, cap, k)) < RoundedAway(counts, cap) - Raised(counts, cap)
    {
      ServedExactly(counts, cap, k);
      assert Bumped(counts, cap)[k] == 1;
    }
  }

  /** An open stratum that the pass reaches in time is served. */
  lemma {:induction false} ReachedInTimeIsServed(
      allotment: seq<nat>, counts: seq<nat>, keys: seq<nat>, remainder: nat, p: nat)
    requires p < |keys| && Open(allotment, counts)(keys[p])
    requires Count(keys[..p], Open(allotment, counts)) < remainder
    ensures keys[p] in Receivers(allotment, counts, keys, remainder)
    decreases |keys|
  {
    var open := Open(allotment, counts);
    if p > 0 {
      assert keys[..p] == [keys[0]] + keys[1..][..p - 1];
      ReachedInTimeIsServed(allotment, counts, keys[1..], if open(keys[0]) then remainder - 1 else remainder, p - 1);
    }
  }

  /** Of two open strata, a served one comes before an unserved one. */
  lemma ServedComeFirst(allotment: seq<nat>, counts: seq<nat>, keys: seq<nat>, remainder: nat, i: nat, q: nat)
    returns (p: nat)
    requires i in Receivers(allotment, counts, keys, remainder)
    requires q < |keys| && Open(allotment, counts)(keys[q])
    requires keys[q] !in Receivers(allotment, counts, keys, remainder)
    ensures p < q && keys[p] == i
  {
    p := ReceiverPosition(allotment, counts, keys, remainder, i);
    if q < p {
      CountOfPrefixes(keys, q, p, Open(allotment, counts));
      ReachedInTimeIsServed(allotment, counts, keys, remainder, q);
    }
  }

  lemma PositionInOrder(counts: seq<nat>, cap: nat, j: nat) returns (q: nat)
    requires Sum(counts) > cap && j < |counts|
    ensures q < |Order(counts, cap)| && Order(counts, cap)[q] == j
  {
    OrderListsEveryStratumOnce(counts, cap);
    SameElements(Order(counts, cap), UpTo(|counts|));
    assert UpTo(|counts|)[j] == j;
    assert j in Order(counts, cap);
    q :| 0 <= q < |Order(counts, cap)| && Order(counts, cap)[q] == j;
  }

  lemma NothingRaised(counts: seq<nat>, cap: nat)
    requires Oversized(counts, cap) && Raised(counts, cap) == 0
    ensures Bumped(counts, cap) == FloorShares(counts, cap, Sum(counts))
  {
    var floors := FloorShares(counts, cap, Sum(counts));
    if cap >= |counts| {
      CountIsBounded(floors, IsZero());
      assert forall i | 0 <= i < |floors| :: !IsZero()(floors[i]);
    }
  }

  /** When the bump changes nothing the code computes the largest-remainder apportionment: a
      served stratum has a larger fraction than an unserved one, or an equal fraction and an
      earlier place. */
  lemma LargestRemainders(counts: seq<nat>, cap: nat, i: nat, j: nat)
    requires Oversized(counts, cap) && Raised(counts, cap) == 0
    requires i < |counts| && j < |counts|
    requires Allocate(counts, cap)[i] > FloorShares(counts, cap, Sum(counts))[i]
    requires Allocate(counts, cap)[j] == FloorShares(counts, cap, Sum(counts))[j]
    ensures var fractions := Fractions(counts, cap, Sum(counts));
      fractions[i] > fractions[j] || (fractions[i] == fractions[j] && i < j)
  {
    var bumped, order := Bumped(counts, cap), Order(counts, cap);
    RoundingLoss(counts, cap);
    AllocationInClosedForm(counts, cap);
    NothingRaised(counts, cap);
    FloorIsBelowCount(counts, cap, j);
    var q := PositionInOrder(counts, cap, j);
    var p := ServedComeFirst(bumped, counts, order, RoundedAway(counts, cap), i, q);
    OrderIsByFraction(counts, cap);
  }

  lemma LargestFractionIsFirst(counts: seq<nat>, cap: nat, k: nat)
    requires Sum(counts) > cap && k < |counts|
    requires forall j | 0 <= j < |counts| && j != k ::
      Fractions(counts, cap, Sum(counts))[j] < Fractions(counts, cap, Sum(counts))[k]
    ensures |Order(counts, cap)| > 0 && Order(counts, cap)[0] == k
  {
    var order := Order(counts, cap);
    OrderIsByFraction(counts, cap);
    OrderListsEveryStratumOnce(counts, cap);
    var q := PositionInOrder(counts, cap, k);
    forall p | 0 < p < |order| ensures order[p] != k {
      assert order[0] != order[p];
    }
  }

  const UNEVEN_COUNTS: seq<nat> := [9, 17, 17, 17]

  lemma UnevenShares()
    ensures Oversized(UNEVEN_COUNTS, 6) && Sum(UNEVEN_COUNTS) == 60
    ensures FloorShares(UNEVEN_COUNTS, 6, 60) == [0, 1, 1, 1]
    ensures Fractions(UNEVEN_COUNTS, 6, 60) == [54, 42, 42, 42]
  {
    hide Share;
    ShareIsDivision(9, 6, 60);
    ShareIsDivision(17, 6, 60);
  }

  lemma UnevenIsServedTwice()
    requires Oversized(UNEVEN_COUNTS, 6) && Sum(UNEVEN_COUNTS) == 60
    requires FloorShares(UNEVEN_COUNTS, 6, 60) == [0, 1, 1, 1]
    requires Fractions(UNEVEN_COUNTS, 6, 60) == [54, 42, 42, 42]
    ensures !BumpOvershoots(UNEVEN_COUNTS, 6) && 0 in Served(UNEVEN_COUNTS, 6)
  {
    hide FloorShares, Fractions, Share, Order;
    LargestFractionIsFirst(UNEVEN_COUNTS, 6, 0);
    ReachedInTimeIsServed(Bumped(UNEVEN_COUNTS, 6), UNEVEN_COUNTS, Order(UNEVEN_COUNTS, 6), 2, 0);
  }

  /** The quota rule is not unconditional: here the bump gives a stratum of ideal share 0.9 a row
      and the refill gives it a second one. */
  lemma QuotaRuleCanFail()
    ensures Oversized(UNEVEN_COUNTS, 6)
    ensures !MeetsQuota(UNEVEN_COUNTS, 6, Allocate(UNEVEN_COUNTS, 6))
  {
    hide Allocate, MeetsQuota, Served, Share;
    UnevenShares();
    UnevenIsServedTwice();
    ServedExactly(UNEVEN_COUNTS, 6, 0);
    QuotaRuleExactly(UNEVEN_COUNTS, 6);
  }

  // ---------------------------------------------------------------- the code, in place

  method RoundDownAndBump(counts: seq<nat>, cap: nat) returns (allotment: array<nat>)
    requires Sum(counts) > cap
    ensures fresh(allotment) && allotment[..] == Bumped(counts, cap)
  {
    var total := Sum(counts);
    ghost var floors := FloorShares(counts, cap, total);
    allotment := new nat[|counts|];
    for i := 0 to |counts|
      invariant forall k | 0 <= k < i :: allotment[k] == floors[k]
    {
      ShareIsDivision(counts[i], cap, total);
      allotment[i] := counts[i] * cap / total;
    }
    if cap >= |counts| {
      for i := 0 to |counts|
        invariant forall k | 0 <= k < i :: allotment[k] == if floors[k] == 0 then 1 else floors[k]
        invariant forall k | i <= k < |counts| :: allotment[k] == floors[k]
      {
        if allotment[i] == 0 {
          allotment[i] := 1;
        }
      }
    }
  }

  method ShrinkInPlace(allotment: array<nat>, cap: nat)
    requires Shrinkable(allotment[..], cap)
    modifies allotment
    ensures allotment[..] == Shrink(old(allotment[..]), cap)
  {
    while Sum(allotment[..]) > cap
      invariant Shrinkable(allotment[..], cap)
      invariant Shrink(allotment[..], cap) == old(Shrink(allotment[..], cap))
      decreases Sum(allotment[..]) - cap
    {
      ghost var before := allotment[..];
      ShrinkOneFacts(before, cap);
      var key := FirstLargest(allotment[..]);
      allotment[key] := allotment[key] - 1;
      assert allotment[..] == ShrinkOne(before);
    }
  }

  method RefillInPlace(allotment: array<nat>, counts: seq<nat>, keys: seq<nat>, remainder0: nat)
    requires allotment.Length == |counts| && Indices(keys, |counts|)
    modifies allotment
    ensures allotment[..] == Refill(old(allotment[..]), counts, keys, remainder0).0
  {
    var remainder := remainder0;
    for step := 0 to |keys|
      invariant Refill(allotment[..], counts, keys[step..], remainder) == old(Refill(allotment[..], counts, keys, remainder0))
    {
      if remainder == 0 {
        break;
      }
      var key := keys[step];
      ghost var before := allotment[..];
      assert keys[step..][0] == key && keys[step..][1..] == keys[step + 1..];
      if allotment[key] < counts[key] {
        allotment[key] := allotment[key] + 1;
        remainder := remainder - 1;
        assert allotment[..] == before[key := before[key] + 1];
      }
    }
  }

  /** The allocation as the source runs it: one array, shrunk and refilled in place. */
  method AllocateStrata(counts: seq<nat>, cap: nat) returns (allotment: array<nat>)
    requires Oversized(counts, cap)
    ensures fresh(allotment) && allotment[..] == Allocate(counts, cap)
  {
    allotment := RoundDownAndBump(counts, cap);
    BumpIsShrinkable(counts, cap);
    ShrinkInPlace(allotment, cap);
    ShrinkKeepsBounds(Bumped(counts, cap), cap);
    var remainder := cap - Sum(allotment[..]);
    var order := Order(counts, cap);
    OrderListsEveryStratumOnce(counts, cap);
    RepeatStaysInRange(order, remainder + 1, |counts|);
    RefillInPlace(allotment, counts, Repeat(order, remainder + 1), remainder);
  }
}
