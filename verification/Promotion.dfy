/** Policy gates, the ranking comparator and the choice of a promotion candidate
    (src/flight_delay/promotion/selector.py). */
module Promotion {
  import opened Lexicographic
  import opened Options
  import opened Ordering

  const BUNDLE_SIZE := "bundle_size_bytes"

  datatype Rule = Rule(field: string, maximize: bool)

  datatype Candidate = Candidate(
    id: string, identity: string, registryPath: string, datasetArtifact: string, datasetDigest: string,
    featureSchema: string, protocol: string, gates: map<string, bool>, bundleSize: int, metrics: map<string, real>)

  datatype Policy = Policy(
    registryCollection: string, datasetArtifact: string, datasetDigests: set<string>, featureSchema: string,
    protocols: set<string>, requiredGates: seq<(string, bool)>, maxBundleSize: int, ranking: seq<Rule>,
    preferIncumbent: bool)

  /** A raw candidate either parses or fails with its id and a message. */
  datatype Raw = Parsed(candidate: Candidate) | Invalid(id: string, message: string)

  datatype Reason =
    | WrongCollection | WrongDataset | WrongDigest | WrongSchema | WrongProtocol
    | FailedGate(name: string) | TooLarge | MissingMetrics(fields: set<string>)

  // ---------------------------------------------------------------- gates

  function MetricNames(p: Policy): set<string> {
    set r | r in p.ranking && r.field != BUNDLE_SIZE :: r.field
  }

  /** The `i`-th required gate is named `name` and does not have the required value. */
  predicate FailsAt(c: Candidate, p: Policy, i: int, name: string)
    requires 0 <= i < |p.requiredGates|
  {
    p.requiredGates[i].0 == name && !(name in c.gates && c.gates[name] == p.requiredGates[i].1)
  }

  /** What each reason says about a candidate. */
  predicate Violates(c: Candidate, p: Policy, r: Reason) {
    match r
    case WrongCollection => c.registryPath != p.registryCollection
    case WrongDataset => c.datasetArtifact != p.datasetArtifact
    case WrongDigest => c.datasetDigest !in p.datasetDigests
    case WrongSchema => c.featureSchema != p.featureSchema
    case WrongProtocol => c.protocol !in p.protocols
    case FailedGate(name) => exists i | 0 <= i < |p.requiredGates| :: FailsAt(c, p, i, name)
    case TooLarge => c.bundleSize > p.maxBundleSize
    case MissingMetrics(fields) => fields == MetricNames(p) - c.metrics.Keys && fields != {}
  }

  /** The loop over the required gates. */
  method FailedGates(c: Candidate, p: Policy) returns (reasons: seq<Reason>)
    ensures forall r :: r in reasons <==> r.FailedGate? && Violates(c, p, r)
  {
    reasons := [];
    for i := 0 to |p.requiredGates|
      invariant forall r :: r in reasons <==> r.FailedGate? && exists k :: 0 <= k < i && FailsAt(c, p, k, r.name)
    {
      var gate := p.requiredGates[i];
      if !(gate.0 in c.gates && c.gates[gate.0] == gate.1) {
        assert FailsAt(c, p, i, gate.0);
        reasons := reasons + [FailedGate(gate.0)];
      }
      assert forall name :: FailsAt(c, p, i, name) ==> name == gate.0;
    }
  }

  /** A violation of what a candidate was built with or built for. */
  predicate IsOrigin(r: Reason) {
    r.WrongCollection? || r.WrongDataset? || r.WrongDigest? || r.WrongSchema? || r.WrongProtocol?
  }

  method OriginReasons(c: Candidate, p: Policy) returns (reasons: seq<Reason>)
    ensures forall r :: r in reasons <==> IsOrigin(r) && Violates(c, p, r)
  {
    reasons := [];
    if c.registryPath != p.registryCollection {
      reasons := reasons + [WrongCollection];
    }
    if c.datasetArtifact != p.datasetArtifact {
      reasons := reasons + [WrongDataset];
    }
    if c.datasetDigest !in p.datasetDigests {
      reasons := reasons + [WrongDigest];
    }
    if c.featureSchema != p.featureSchema {
      reasons := reasons + [WrongSchema];
    }
    if c.protocol !in p.protocols {
      reasons := reasons + [WrongProtocol];
    }
  }

  /** `_gate_reasons`: exactly the violated gates. */
  method GateReasons(c: Candidate, p: Policy) returns (reasons: seq<Reason>)
    ensures forall r :: r in reasons <==> Violates(c, p, r)
  {
    hide FailsAt, MetricNames;
    var origin := OriginReasons(c, p);
    var failed := FailedGates(c, p);
    reasons := origin + failed;
    if c.bundleSize > p.maxBundleSize {
      reasons := reasons + [TooLarge];
    }
    var missing := MetricNames(p) - c.metrics.Keys;
    if missing != {} {
      reasons := reasons + [MissingMetrics(missing)];
    }
  }

  ghost predicate Passes(c: Candidate, p: Policy) {
    forall r :: !Violates(c, p, r)
  }

  /** A candidate that passes has a value for every ranking rule. */
  predicate Rankable(c: Candidate, rules: seq<Rule>) {
    forall r | r in rules :: r.field == BUNDLE_SIZE || r.field in c.metrics
  }

  lemma PassingIsRankable(c: Candidate, p: Policy)
    requires Passes(c, p)
    ensures Rankable(c, p.ranking)
  {
    var missing := MetricNames(p) - c.metrics.Keys;
    assert !Violates(c, p, MissingMetrics(missing));
    forall r | r in p.ranking && r.field != BUNDLE_SIZE ensures r.field in c.metrics {
      assert r.field in MetricNames(p);
      assert r.field !in missing;
    }
  }

  // ---------------------------------------------------------------- the comparator

  function RankValue(c: Candidate, field: string): real
    requires field == BUNDLE_SIZE || field in c.metrics
  {
    if field == BUNDLE_SIZE then c.bundleSize as real else c.metrics[field]
  }

  /** The loop of `_compare` over the ranking rules; zero when no rule tells the two apart. */
  function CompareRules(l: Candidate, r: Candidate, rules: seq<Rule>): int
    requires Rankable(l, rules) && Rankable(r, rules)
  {
    if rules == [] then 0
    else
      var x, y := RankValue(l, rules[0].field), RankValue(r, rules[0].field);
      if x == y then CompareRules(l, r, rules[1..])
      else if rules[0].maximize then (if x > y then -1 else 1)
      else if x < y then -1 else 1
  }

  predicate SameRankValues(l: Candidate, r: Candidate, rules: seq<Rule>)
    requires Rankable(l, rules) && Rankable(r, rules)
  {
    forall i | 0 <= i < |rules| :: RankValue(l, rules[i].field) == RankValue(r, rules[i].field)
  }

  predicate IsIncumbent(c: Candidate, incumbent: Option<string>) { incumbent == Some(c.identity) }

  function Compare(l: Candidate, r: Candidate, p: Policy, incumbent: Option<string>): int
    requires Rankable(l, p.ranking) && Rankable(r, p.ranking)
  {
    var byRules := CompareRules(l, r, p.ranking);
    if byRules != 0 then byRules
    else if p.preferIncumbent && SameRankValues(l, r, p.ranking) && IsIncumbent(l, incumbent) then -1
    else if p.preferIncumbent && SameRankValues(l, r, p.ranking) && IsIncumbent(r, incumbent) then 1
    else if l.id == r.id then 0
    else if LexLess(CodePoints(l.id), CodePoints(r.id)) then -1 else 1
  }

  /** The comparator puts an incumbent before itself; sorting never asks that of different elements. */
  lemma IncumbentPrecedesItself(c: Candidate, p: Policy, incumbent: Option<string>)
    requires Rankable(c, p.ranking)
    ensures Compare(c, c, p, incumbent) == if p.preferIncumbent && IsIncumbent(c, incumbent) then -1 else 0
  {
    RulesAreValues(c, c, p.ranking);
    LexIrreflexive(Values(c, p.ranking));
  }

  function Comes(p: Policy, incumbent: Option<string>): (Candidate, Candidate) -> bool {
    (l: Candidate, r: Candidate) =>
      l != r && Rankable(l, p.ranking) && Rankable(r, p.ranking) && Compare(l, r, p, incumbent) < 0
  }

  // ---------------------------------------------------------------- the comparator as a key

  /** Ranking values, oriented so that less is better. */
  function Values(c: Candidate, rules: seq<Rule>): (values: seq<real>)
    requires Rankable(c, rules)
    ensures |values| == |rules|
  {
    if rules == [] then []
    else
      var v := RankValue(c, rules[0].field);
      [if rules[0].maximize then -v else v] + Values(c, rules[1..])
  }

  lemma {:induction false} RulesAreValues(l: Candidate, r: Candidate, rules: seq<Rule>)
    requires Rankable(l, rules) && Rankable(r, rules)
    ensures CompareRules(l, r, rules) < 0 <==> LexLess(Values(l, rules), Values(r, rules))
    ensures CompareRules(l, r, rules) > 0 <==> LexLess(Values(r, rules), Values(l, rules))
    ensures CompareRules(l, r, rules) == 0 <==> Values(l, rules) == Values(r, rules)
    ensures SameRankValues(l, r, rules) <==> Values(l, rules) == Values(r, rules)
  {
    if rules != [] {
      RulesAreValues(l, r, rules[1..]);
      var a, b := Values(l, rules), Values(r, rules);
      assert a[1..] == Values(l, rules[1..]) && b[1..] == Values(r, rules[1..]);
      assert a == [a[0]] + a[1..] && b == [b[0]] + b[1..];
      assert forall i | 0 < i < |rules| :: rules[i] == rules[1..][i - 1];
      assert forall i | 0 <= i < |rules| - 1 :: rules[1..][i] == rules[i + 1];
    }
  }

  /** The sort key of a candidate: its values, its incumbency where that is preferred, its id. */
  function SortKey(c: Candidate, p: Policy, incumbent: Option<string>): seq<real>
    requires Rankable(c, p.ranking)
  {
    Values(c, p.ranking)
    + ([if p.preferIncumbent && IsIncumbent(c, incumbent) then 0.0 else 1.0] + CodePoints(c.id))
  }

  lemma {:induction false} LexAfterPrefix(a: seq<real>, b: seq<real>, c: seq<real>, d: seq<real>)
    requires |a| == |b|
    ensures LexLess(a + c, b + d) <==> LexLess(a, b) || (a == b && LexLess(c, d))
  {
    if a == [] {
      assert a + c == c && b + d == d;
    } else {
      LexAfterPrefix(a[1..], b[1..], c, d);
      assert (a + c)[1..] == a[1..] + c && (b + d)[1..] == b[1..] + d;
      assert a == [a[0]] + a[1..] && b == [b[0]] + b[1..];
    }
  }

  /** Two different candidates that no comparison tells apart consistently: equal on every rule, and
      both incumbents, or with one id and neither preferred as the incumbent. */
  predicate Clash(l: Candidate, r: Candidate, p: Policy, incumbent: Option<string>)
    requires Rankable(l, p.ranking) && Rankable(r, p.ranking)
  {
    && SameRankValues(l, r, p.ranking)
    && if p.preferIncumbent && (IsIncumbent(l, incumbent) || IsIncumbent(r, incumbent))
       then IsIncumbent(l, incumbent) && IsIncumbent(r, incumbent)
       else l.id == r.id
  }

  /** Candidates that do not clash compare as their keys do. */
  lemma ComparesAsKeys(l: Candidate, r: Candidate, p: Policy, incumbent: Option<string>)
    requires Rankable(l, p.ranking) && Rankable(r, p.ranking) && !Clash(l, r, p, incumbent)
    ensures Compare(l, r, p, incumbent) < 0 <==> LexLess(SortKey(l, p, incumbent), SortKey(r, p, incumbent))
    ensures SortKey(l, p, incumbent) != SortKey(r, p, incumbent)
  {
    hide CompareRules, Values, SameRankValues;
    var a, b := Values(l, p.ranking), Values(r, p.ranking);
    var m := if p.preferIncumbent && IsIncumbent(l, incumbent) then 0.0 else 1.0;
    var n := if p.preferIncumbent && IsIncumbent(r, incumbent) then 0.0 else 1.0;
    var x, y := CodePoints(l.id), CodePoints(r.id);
    RulesAreValues(l, r, p.ranking);
    LexAfterPrefix(a, b, [m] + x, [n] + y);
    LexIrreflexive(x);
    if x == y {
      CodePointsInjective(l.id, r.id);
    }
    assert SortKey(l, p, incumbent) == SortKey(r, p, incumbent) ==> a == b && [m] + x == [n] + y by {
      assert (a + ([m] + x))[..|a|] == a && (b + ([n] + y))[..|b|] == b;
      assert (a + ([m] + x))[|a|..] == [m] + x && (b + ([n] + y))[|b|..] == [n] + y;
    }
  }

  ghost predicate AllRankable(domain: set<Candidate>, p: Policy) {
    forall c | c in domain :: Rankable(c, p.ranking)
  }

  ghost predicate Distinguishable(domain: set<Candidate>, p: Policy, incumbent: Option<string>)
    requires AllRankable(domain, p)
  {
    forall x, y | x in domain && y in domain && x != y :: !Clash(x, y, p, incumbent)
  }

  lemma ClashBreaksOrder(l: Candidate, r: Candidate, p: Policy, incumbent: Option<string>)
    requires Rankable(l, p.ranking) && Rankable(r, p.ranking) && l != r && Clash(l, r, p, incumbent)
    ensures Comes(p, incumbent)(l, r) == Comes(p, incumbent)(r, l)
  {
    hide CompareRules, Values, SameRankValues;
    RulesAreValues(l, r, p.ranking);
    RulesAreValues(r, l, p.ranking);
    LexIrreflexive(Values(l, p.ranking));
  }

  /** The comparator is a strict total order exactly when no two different candidates clash. */
  lemma TotalOrderExactly(domain: set<Candidate>, p: Policy, incumbent: Option<string>)
    requires AllRankable(domain, p)
    ensures StrictTotalOrder(domain, Comes(p, incumbent)) <==> Distinguishable(domain, p, incumbent)
  {
    hide Compare, Clash, SortKey;
    if Distinguishable(domain, p, incumbent) {
      forall x, y | x in domain && y in domain && x != y
        ensures Comes(p, incumbent)(x, y) <==> LexLess(SortKey(x, p, incumbent), SortKey(y, p, incumbent))
        ensures SortKey(x, p, incumbent) != SortKey(y, p, incumbent)
      {
        ComparesAsKeys(x, y, p, incumbent);
      }
      KeysOrder(domain, p, incumbent);
    } else {
      var x, y :| x in domain && y in domain && x != y && Clash(x, y, p, incumbent);
      ClashBreaksOrder(x, y, p, incumbent);
    }
  }

  lemma KeysOrder(domain: set<Candidate>, p: Policy, incumbent: Option<string>)
    requires AllRankable(domain, p)
    requires forall x, y | x in domain && y in domain && x != y ::
      && (Comes(p, incumbent)(x, y) <==> LexLess(SortKey(x, p, incumbent), SortKey(y, p, incumbent)))
      && SortKey(x, p, incumbent) != SortKey(y, p, incumbent)
    ensures StrictTotalOrder(domain, Comes(p, incumbent))
  {
    hide Compare, SortKey, LexLess;
    var comes := Comes(p, incumbent);
    forall x, y | x in domain && y in domain && x != y
      ensures comes(x, y) || comes(y, x)
      ensures comes(x, y) ==> !comes(y, x)
    {
      LexTotal(SortKey(x, p, incumbent), SortKey(y, p, incumbent));
      if comes(x, y) {
        LexAsymmetric(SortKey(x, p, incumbent), SortKey(y, p, incumbent));
      }
    }
    forall x, y, z | x in domain && y in domain && z in domain && comes(x, z)
      ensures comes(x, y) || comes(y, z)
    {
      if x != y && y != z {
        LexNegativelyTransitive(SortKey(x, p, incumbent), SortKey(y, p, incumbent), SortKey(z, p, incumbent));
      }
    }
  }

  /** Distinct ids and at most one incumbent are enough. */
  lemma DistinctIdsAreDistinguishable(domain: set<Candidate>, p: Policy, incumbent: Option<string>)
    requires AllRankable(domain, p)
    requires forall x, y | x in domain && y in domain && x != y :: x.id != y.id
    requires forall x, y | x in domain && y in domain && x != y :: !(IsIncumbent(x, incumbent) && IsIncumbent(y, incumbent))
    ensures Distinguishable(domain, p, incumbent)
  {
    hide SameRankValues;
  }

  const RELEASE_GATES := map[
    "release_eligible" := true, "lineage_verified" := true,
    "serialization_integrity" := true, "inference_compatible" := true]

  const RELEASE_POLICY := Policy(
    "models/arrival-delay", "flights:v0", {"2ecdb5a6"}, "e319f9ff", {"development-selection-v1"},
    [("release_eligible", true), ("lineage_verified", true),
     ("serialization_integrity", true), ("inference_compatible", true)],
    10_000_000, [Rule("average_precision", true), Rule(BUNDLE_SIZE, false)], true)

  /** The incumbent registry version under some candidate id. */
  function IncumbentAs(id: string): Candidate {
    Candidate(
      id, "models/arrival-delay:v3@9f0c", "models/arrival-delay", "flights:v0", "2ecdb5a6", "e319f9ff",
      "development-selection-v1", RELEASE_GATES, 812_000, map["average_precision" := 0.41])
  }

  lemma IncumbentPasses(id: string)
    ensures Passes(IncumbentAs(id), RELEASE_POLICY)
  {
    var c := IncumbentAs(id);
    assert MetricNames(RELEASE_POLICY) <= {"average_precision"};
    forall i, name | 0 <= i < 4 ensures !FailsAt(c, RELEASE_POLICY, i, name) {
      assert RELEASE_POLICY.requiredGates[i].0 in RELEASE_GATES;
    }
  }

  /** Listed under two ids, one incumbent version passes every gate twice, and each listing comes
      before the other. */
  lemma TwoIncumbentsClash()
    ensures var incumbent := Some("models/arrival-delay:v3@9f0c");
      && Passes(IncumbentAs("a"), RELEASE_POLICY) && Passes(IncumbentAs("b"), RELEASE_POLICY)
      && Comes(RELEASE_POLICY, incumbent)(IncumbentAs("a"), IncumbentAs("b"))
      && Comes(RELEASE_POLICY, incumbent)(IncumbentAs("b"), IncumbentAs("a"))
  {
    var x, y, rules := IncumbentAs("a"), IncumbentAs("b"), RELEASE_POLICY.ranking;
    IncumbentPasses("a");
    IncumbentPasses("b");
    RulesAreValues(x, y, rules);
    RulesAreValues(y, x, rules);
    SameMetricsSameValues(x, y, rules);
    LexIrreflexive(Values(x, rules));
  }

  lemma {:induction false} SameMetricsSameValues(x: Candidate, y: Candidate, rules: seq<Rule>)
    requires x.metrics == y.metrics && x.bundleSize == y.bundleSize && Rankable(x, rules) && Rankable(y, rules)
    ensures Values(x, rules) == Values(y, rules)
  {
    if rules != [] {
      SameMetricsSameValues(x, y, rules[1..]);
    }
  }

  // ---------------------------------------------------------------- selection

  datatype Category = InvalidMetadata | PolicyGate

  datatype Rejection = Rejection(id: string, category: Category)

  datatype Verdict = Blocked | NoEligible | RetainCurrent | Promote

  datatype Selection = Selection(
    verdict: Verdict, winner: Option<Candidate>, eligible: seq<Candidate>, rejected: seq<Rejection>, moveAlias: bool)

  /** The parsed candidates that pass, in input order. */
  ghost function Passing(raws: seq<Raw>, p: Policy): seq<Candidate> {
    if raws == [] then []
    else
      var front, last := Passing(raws[..|raws| - 1], p), raws[|raws| - 1];
      if last.Parsed? && Passes(last.candidate, p) then front + [last.candidate] else front
  }

  /** The rejections, in input order. */
  ghost function Rejected(raws: seq<Raw>, p: Policy): seq<Rejection> {
    if raws == [] then []
    else
      var front, last := Rejected(raws[..|raws| - 1], p), raws[|raws| - 1];
      match last
      case Invalid(id, _) => front + [Rejection(id, InvalidMetadata)]
      case Parsed(c) => if Passes(c, p) then front else front + [Rejection(c.id, PolicyGate)]
  }

  /** Every input lands in exactly one of the two. */
  lemma {:induction false} InputsArePartitioned(raws: seq<Raw>, p: Policy)
    ensures |Passing(raws, p)| + |Rejected(raws, p)| == |raws|
    ensures forall c :: c in Passing(raws, p) <==> Parsed(c) in raws && Passes(c, p)
    ensures (exists r | r in Rejected(raws, p) :: r.category == InvalidMetadata) <==> exists raw | raw in raws :: raw.Invalid?
  {
    hide Passes;
    if raws != [] {
      var n := |raws| - 1;
      InputsArePartitioned(raws[..n], p);
      assert raws == raws[..n] + [raws[n]];
      if raws[n].Invalid? {
        assert Rejection(raws[n].id, InvalidMetadata) in Rejected(raws, p);
      }
      forall r | r in Rejected(raws[..n], p) ensures r in Rejected(raws, p) {
      }
    }
  }

  ghost predicate IsSelection(raws: seq<Raw>, p: Policy, incumbent: Option<string>, s: Selection) {
    && s.eligible == StableSort(Passing(raws, p), Comes(p, incumbent))
    && s.rejected == Rejected(raws, p)
    && (s.eligible == [] ==>
         && s.winner == None && !s.moveAlias
         && s.verdict == if exists raw | raw in raws :: raw.Invalid? then Blocked else NoEligible)
    && (s.eligible != [] ==>
         && s.winner == Some(s.eligible[0])
         && s.verdict == (if IsIncumbent(s.eligible[0], incumbent) then RetainCurrent else Promote)
         && s.moveAlias == !IsIncumbent(s.eligible[0], incumbent))
  }

  /** Parse and gate every candidate, rank those that pass, and compare the first with the incumbent. */
  method SelectCandidates(raws: seq<Raw>, p: Policy, incumbent: Option<string>) returns (s: Selection)
    ensures IsSelection(raws, p, incumbent, s)
  {
    hide Violates, StableSort;
    var parsed: seq<Candidate> := [];
    var rejected: seq<Rejection> := [];
    for i := 0 to |raws|
      invariant parsed == Passing(raws[..i], p) && rejected == Rejected(raws[..i], p)
    {
      assert raws[..i + 1][..i] == raws[..i];
      match raws[i]
      case Invalid(id, _) => rejected := rejected + [Rejection(id, InvalidMetadata)];
      case Parsed(c) =>
        var reasons := GateReasons(c, p);
        if reasons != [] {
          assert reasons[0] in reasons;
          rejected := rejected + [Rejection(c.id, PolicyGate)];
        } else {
          parsed := parsed + [c];
        }
    }
    assert raws[..|raws|] == raws;
    InputsArePartitioned(raws, p);
    var ranked := StableSort(parsed, Comes(p, incumbent));
    if ranked == [] {
      var verdict := if exists r | r in rejected :: r.category == InvalidMetadata then Blocked else NoEligible;
      return Selection(verdict, None, [], rejected, false);
    }
    var retained := IsIncumbent(ranked[0], incumbent);
    s := Selection(if retained then RetainCurrent else Promote, Some(ranked[0]), ranked, rejected, !retained);
  }

  lemma PassingAreRankable(raws: seq<Raw>, p: Policy)
    ensures AllRankable(Elements(Passing(raws, p)), p)
    ensures AllIn(Passing(raws, p), Elements(Passing(raws, p)))
  {
    hide Passes;
    InputsArePartitioned(raws, p);
    forall c | c in Elements(Passing(raws, p)) ensures Rankable(c, p.ranking) {
      PassingIsRankable(c, p);
    }
  }

  ghost predicate Unambiguous(raws: seq<Raw>, p: Policy, incumbent: Option<string>) {
    && AllRankable(Elements(Passing(raws, p)), p)
    && Distinguishable(Elements(Passing(raws, p)), p, incumbent)
  }

  lemma {:induction false} PassingPermutation(raws: seq<Raw>, c: Candidate, p: Policy)
    ensures multiset(Passing(raws, p))[c] == if Passes(c, p) then multiset(raws)[Parsed(c)] else 0
  {
    hide Passes;
    if raws != [] {
      var n := |raws| - 1;
      PassingPermutation(raws[..n], c, p);
      assert raws == raws[..n] + [raws[n]];
    }
  }

  /** The ranking does not depend on the order in which candidates are listed. */
  lemma RankingIgnoresInputOrder(
      raws: seq<Raw>, others: seq<Raw>, p: Policy, incumbent: Option<string>, s: Selection, t: Selection)
    requires multiset(raws) == multiset(others) && Unambiguous(raws, p, incumbent)
    requires IsSelection(raws, p, incumbent, s) && IsSelection(others, p, incumbent, t)
    ensures s.eligible == t.eligible && s.winner == t.winner && s.verdict == t.verdict && s.moveAlias == t.moveAlias
  {
    hide Passes, StableSort, Distinguishable, Comes;
    var a, b := Passing(raws, p), Passing(others, p);
    forall c: Candidate ensures multiset(a)[c] == multiset(b)[c] {
      PassingPermutation(raws, c, p);
      PassingPermutation(others, c, p);
    }
    assert multiset(a) == multiset(b);
    PassingAreRankable(raws, p);
    TotalOrderExactly(Elements(a), p, incumbent);
    SortIgnoresInputOrder(a, b, Elements(a), Comes(p, incumbent));
    SameElements(raws, others);
  }

  /** The winner comes before every other eligible candidate. */
  lemma WinnerIsFirst(raws: seq<Raw>, p: Policy, incumbent: Option<string>, s: Selection, c: Candidate)
    requires Unambiguous(raws, p, incumbent) && IsSelection(raws, p, incumbent, s)
    requires c in Passing(raws, p)
    ensures s.winner.Some? && s.winner.value in Passing(raws, p)
    ensures s.winner.value == c || Comes(p, incumbent)(s.winner.value, c)
  {
    hide Passing, StableSort, Distinguishable, Comes;
    var a := Passing(raws, p);
    PassingAreRankable(raws, p);
    TotalOrderExactly(Elements(a), p, incumbent);
    SortIsPermutation(a, Comes(p, incumbent));
    SameElements(a, s.eligible);
    SortIsSorted(a, Elements(a), Comes(p, incumbent));
    assert s.eligible[0] in a;
    var i :| 0 <= i < |s.eligible| && s.eligible[i] == c;
    if i > 0 && s.eligible[0] != c {
      assert !Comes(p, incumbent)(s.eligible[i], s.eligible[0]);
    }
  }

  // ---------------------------------------------------------------- the ranking in its own words

  /** What a rule looks at. */
  function Shown(c: Candidate, rule: Rule): real
    requires rule.field == "bundle_size_bytes" || rule.field in c.metrics
  {
    if rule.field == "bundle_size_bytes" then c.bundleSize as real else c.metrics[rule.field]
  }

  ghost predicate Showing(c: Candidate, rules: seq<Rule>) {
    forall i | 0 <= i < |rules| :: rules[i].field == "bundle_size_bytes" || rules[i].field in c.metrics
  }

  ghost predicate AlikeBefore(w: Candidate, c: Candidate, rules: seq<Rule>, j: nat)
    requires Showing(w, rules) && Showing(c, rules) && j <= |rules|
  {
    forall i | 0 <= i < j :: Shown(w, rules[i]) == Shown(c, rules[i])
  }

  /** Rule `j` is the first to tell the two apart, and it prefers `w`. */
  ghost predicate WinsAt(w: Candidate, c: Candidate, rules: seq<Rule>, j: nat)
    requires Showing(w, rules) && Showing(c, rules) && j < |rules|
  {
    && AlikeBefore(w, c, rules, j)
    && if rules[j].maximize then Shown(w, rules[j]) > Shown(c, rules[j]) else Shown(w, rules[j]) < Shown(c, rules[j])
  }

  /** `w` ranks before `c`: by the first rule that tells them apart; among candidates no rule tells
      apart, the incumbent first where it is preferred, and otherwise by id. */
  ghost predicate Outranks(w: Candidate, c: Candidate, p: Policy, incumbent: Option<string>)
    requires Showing(w, p.ranking) && Showing(c, p.ranking)
  {
    || (exists j: nat :: j < |p.ranking| && WinsAt(w, c, p.ranking, j))
    || (&& AlikeBefore(w, c, p.ranking, |p.ranking|)
        && if p.preferIncumbent && (incumbent == Some(w.identity) || incumbent == Some(c.identity))
           then incumbent == Some(w.identity) else NotAfter(w.id, c.id) && w.id != c.id)
  }

  lemma {:induction false} FirstRuleDecides(w: Candidate, c: Candidate, rules: seq<Rule>)
    requires Rankable(w, rules) && Rankable(c, rules) && Showing(w, rules) && Showing(c, rules)
    ensures CompareRules(w, c, rules) < 0 ==> exists j: nat :: j < |rules| && WinsAt(w, c, rules, j)
    ensures CompareRules(w, c, rules) == 0 ==> AlikeBefore(w, c, rules, |rules|)
  {
    if rules != [] {
      var tail := rules[1..];
      assert forall i | 0 <= i < |tail| :: tail[i] == rules[i + 1];
      FirstRuleDecides(w, c, tail);
      if Shown(w, rules[0]) == Shown(c, rules[0]) {
        if CompareRules(w, c, rules) < 0 {
          var j: nat :| j < |tail| && WinsAt(w, c, tail, j);
          LaterRuleDecides(w, c, rules, j);
        } else if CompareRules(w, c, rules) == 0 {
          assert forall i | 0 < i < |rules| :: rules[i] == tail[i - 1];
        }
      } else if CompareRules(w, c, rules) < 0 {
        assert WinsAt(w, c, rules, 0);
      }
    }
  }

  lemma LaterRuleDecides(w: Candidate, c: Candidate, rules: seq<Rule>, j: nat)
    requires Showing(w, rules) && Showing(c, rules) && rules != [] && Shown(w, rules[0]) == Shown(c, rules[0])
    requires Showing(w, rules[1..]) && Showing(c, rules[1..]) && j < |rules[1..]| && WinsAt(w, c, rules[1..], j)
    ensures WinsAt(w, c, rules, j + 1)
  {
    var tail := rules[1..];
    assert tail[j] == rules[j + 1];
    forall i | 0 <= i < j + 1 ensures Shown(w, rules[i]) == Shown(c, rules[i]) {
      if i > 0 {
        assert tail[i - 1] == rules[i];
      }
    }
  }

  lemma EarlierOutranks(w: Candidate, c: Candidate, p: Policy, incumbent: Option<string>)
    requires Rankable(w, p.ranking) && Rankable(c, p.ranking) && Compare(w, c, p, incumbent) < 0
    ensures Showing(w, p.ranking) && Showing(c, p.ranking) && Outranks(w, c, p, incumbent)
  {
    hide CompareRules, WinsAt, LexLess, CodePoints, NotAfter, RankValue;
    FirstRuleDecides(w, c, p.ranking);
    RulesAreValues(w, c, p.ranking);
    if CompareRules(w, c, p.ranking) == 0 && LexLess(CodePoints(w.id), CodePoints(c.id)) {
      LexAsymmetric(CodePoints(w.id), CodePoints(c.id));
      CodePointsFollowTheDictionary(w.id, c.id);
    }
  }

  /** The list of eligible candidates is ranked: each outranks all that follow it. */
  lemma EligibleAreRanked(raws: seq<Raw>, p: Policy, incumbent: Option<string>, s: Selection, i: nat, j: nat)
    requires Unambiguous(raws, p, incumbent) && IsSelection(raws, p, incumbent, s)
    requires i < j < |s.eligible| && s.eligible[i] != s.eligible[j]
    ensures Showing(s.eligible[i], p.ranking) && Showing(s.eligible[j], p.ranking)
    ensures Outranks(s.eligible[i], s.eligible[j], p, incumbent)
  {
    hide Passing, StableSort, Distinguishable, Outranks, Compare, Showing;
    var a := Passing(raws, p);
    PassingAreRankable(raws, p);
    TotalOrderExactly(Elements(a), p, incumbent);
    SortIsPermutation(a, Comes(p, incumbent));
    SameElements(a, s.eligible);
    SortIsSorted(a, Elements(a), Comes(p, incumbent));
    var x, y := s.eligible[i], s.eligible[j];
    assert x in Elements(a) && y in Elements(a);
    assert !Comes(p, incumbent)(y, x);
    assert Comes(p, incumbent)(x, y);
    EarlierOutranks(x, y, p, incumbent);
  }

  /** With incumbent preference, an eligible incumbent loses only to a candidate that is strictly
      better under the ranking rules. */
  lemma IncumbentYieldsOnlyToBetter(raws: seq<Raw>, p: Policy, incumbent: Option<string>, s: Selection, c: Candidate)
    requires p.preferIncumbent && Unambiguous(raws, p, incumbent) && IsSelection(raws, p, incumbent, s)
    requires c in Passing(raws, p) && IsIncumbent(c, incumbent)
    ensures s.winner.Some? && Rankable(s.winner.value, p.ranking) && Rankable(c, p.ranking)
    ensures Showing(s.winner.value, p.ranking) && Showing(c, p.ranking)
    ensures s.verdict == RetainCurrent || exists j: nat :: j < |p.ranking| && WinsAt(s.winner.value, c, p.ranking, j)
  {
    hide Passing, StableSort, Values, CompareRules, Distinguishable, WinsAt;
    WinnerIsFirst(raws, p, incumbent, s, c);
    PassingAreRankable(raws, p);
    var w := s.winner.value;
    assert w in Elements(Passing(raws, p)) && c in Elements(Passing(raws, p));
    RulesAreValues(w, c, p.ranking);
    FirstRuleDecides(w, c, p.ranking);
  }
}
