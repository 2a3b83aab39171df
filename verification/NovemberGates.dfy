/** The November acceptance gates that rest on the selected threshold and on the Brier score, the
    winner among the finalists and the advancement of candidates
    (src/flight_delay/modeling/v1_selection.py, v1_protocol.py, v2/selection.py, v3/selection.py). */
module NovemberGates {
  import opened Counting
  import opened Lexicographic
  import opened Observations
  import opened Options
  import opened Ordering
  import opened RealQuotients
  import opened ThresholdChoice
  import opened ThresholdSweep

  // ---------------------------------------------------------------- Brier score and prior

  /** The squared errors of forecasting every observation with `p`. */
  function ConstantErrors(obs: seq<Observation>, p: real): real {
    if obs == [] then 0.0
    else (p - obs[0].target as real) * (p - obs[0].target as real) + ConstantErrors(obs[1..], p)
  }

  /** The squared errors of the scores. */
  function ScoreErrors(obs: seq<Observation>): real {
    if obs == [] then 0.0
    else (obs[0].score - obs[0].target as real) * (obs[0].score - obs[0].target as real) + ScoreErrors(obs[1..])
  }

  datatype ProbabilityMetrics = ProbabilityMetrics(prevalence: real, brier: real, priorBrier: real, brierSkill: real)

  function Prevalence(obs: seq<Observation>): real
    requires obs != []
  {
    Ratio(Count(obs, Positive()), |obs|)
  }

  /** The Brier score, the contemporaneous prior's Brier score and the skill against it. */
  function BrierMetrics(obs: seq<Observation>): ProbabilityMetrics
    requires BothClasses(obs)
  {
    var prior := ConstantErrors(obs, Prevalence(obs)) / |obs| as real;
    var brier := ScoreErrors(obs) / |obs| as real;
    PriorBrierIsVariance(obs);
    ProbabilityMetrics(Prevalence(obs), brier, prior, 1.0 - brier / prior)
  }

  /** The squared errors against `p`, from `c` positives among `n`. */
  function ErrorsByClass(c: real, n: real, p: real): real { c * (p - 1.0) * (p - 1.0) + (n - c) * p * p }

  lemma {:induction false} ConstantErrorsByClass(obs: seq<Observation>, p: real)
    requires forall i | 0 <= i < |obs| :: obs[i].target == 0 || obs[i].target == 1
    ensures ConstantErrors(obs, p) == ErrorsByClass(Count(obs, Positive()) as real, |obs| as real, p)
  {
    if obs != [] {
      ConstantErrorsByClass(obs[1..], p);
      var c := Count(obs[1..], Positive()) as real;
      var m := (|obs| - 1) as real;
      if obs[0].target == 1 {
        assert (c + 1.0) * (p - 1.0) * (p - 1.0) == c * (p - 1.0) * (p - 1.0) + (p - 1.0) * (p - 1.0);
      } else {
        assert (m - c + 1.0) * p * p == (m - c) * p * p + p * p;
      }
    }
  }

  lemma VarianceFromCounts(c: real, n: real, p: real, errors: real)
    requires n > 0.0 && p * n == c
    requires errors == ErrorsByClass(c, n, p)
    ensures errors / n == p * (1.0 - p)
  {
    calc {
      errors;
      p * n * (p - 1.0) * (p - 1.0) + (n - p * n) * p * p;
      n * (p * (1.0 - p) * ((1.0 - p) + p));
      p * (1.0 - p) * n;
    }
    QuotientIs(p * (1.0 - p), errors, n);
  }

  /** The prior's Brier score is prevalence times its complement, and positive. */
  lemma PriorBrierIsVariance(obs: seq<Observation>)
    requires BothClasses(obs)
    ensures ConstantErrors(obs, Prevalence(obs)) / |obs| as real == Prevalence(obs) * (1.0 - Prevalence(obs))
    ensures Prevalence(obs) * (1.0 - Prevalence(obs)) > 0.0
  {
    var c, n, p := Count(obs, Positive()) as real, |obs| as real, Prevalence(obs);
    assert p == c / n;
    hide *;
    QuotientTimes(c, n);
    ConstantErrorsByClass(obs, p);
    VarianceFromCounts(c, n, p, ConstantErrors(obs, p));
    InsideUnit(c, n, p);
  }

  lemma InsideUnit(c: real, n: real, p: real)
    requires 0.0 < c < n && p * n == c
    ensures 0.0 < p < 1.0 && p * (1.0 - p) > 0.0
  {
    if p <= 0.0 {
      ScaleOrder(p, 0.0, n);
    }
    if p >= 1.0 {
      ScaleOrder(1.0, p, n);
    }
  }

  /** The skill gate and the below-prior gate always decide alike. */
  lemma BrierGatesAgree(obs: seq<Observation>)
    requires BothClasses(obs)
    ensures BrierMetrics(obs).brierSkill > 0.0 <==> BrierMetrics(obs).brier < BrierMetrics(obs).priorBrier
  {
    var m := BrierMetrics(obs);
    PriorBrierIsVariance(obs);
    QuotientAtLeast(m.brier, m.priorBrier, 1.0);
  }

  function SquaredScores(obs: seq<Observation>): real {
    if obs == [] then 0.0 else obs[0].score * obs[0].score + SquaredScores(obs[1..])
  }

  /** The scores of the positives, summed up. */
  function PositiveScores(obs: seq<Observation>): real {
    if obs == [] then 0.0
    else (if obs[0].target == 1 then obs[0].score else 0.0) + PositiveScores(obs[1..])
  }

  lemma {:induction false} ErrorsFromMoments(obs: seq<Observation>)
    requires forall i | 0 <= i < |obs| :: obs[i].target == 0 || obs[i].target == 1
    ensures ScoreErrors(obs) == SquaredScores(obs) - 2.0 * PositiveScores(obs) + Count(obs, Positive()) as real
  {
    if obs != [] {
      ErrorsFromMoments(obs[1..]);
      var s := obs[0].score;
      assert (s - 1.0) * (s - 1.0) == s * s - 2.0 * s + 1.0;
    }
  }

  /** All four metrics, each without its own formula: the Brier score from the second moment of the
      scores, the scores of the positives and their number; the prior from the prevalence; the skill
      as the share of the prior's error that is missing. */
  lemma BrierMetricsMean(obs: seq<Observation>)
    requires BothClasses(obs)
    ensures var m, n, positives := BrierMetrics(obs), |obs| as real, Count(obs, Positive()) as real;
      && m.prevalence * n == positives
      && m.brier * n == SquaredScores(obs) - 2.0 * PositiveScores(obs) + positives
      && m.priorBrier == m.prevalence * (1.0 - m.prevalence)
      && (1.0 - m.brierSkill) * m.priorBrier == m.brier
  {
    hide ScoreErrors, SquaredScores, PositiveScores, ConstantErrors, Count;
    ErrorsFromMoments(obs);
    PriorBrierIsVariance(obs);
    MetricsAreQuotients(BrierMetrics(obs), Count(obs, Positive()) as real, ScoreErrors(obs), |obs| as real);
    hide BrierMetrics, Prevalence;
  }

  lemma MetricsAreQuotients(m: ProbabilityMetrics, positives: real, errors: real, n: real)
    requires n > 0.0 && m.priorBrier > 0.0
    requires m.prevalence == positives / n && m.brier == errors / n && m.brierSkill == 1.0 - m.brier / m.priorBrier
    ensures m.prevalence * n == positives && m.brier * n == errors
    ensures (1.0 - m.brierSkill) * m.priorBrier == m.brier
  {
    QuotientTimes(positives, n);
    QuotientTimes(errors, n);
    QuotientTimes(m.brier, m.priorBrier);
  }

  // ---------------------------------------------------------------- operating-point gates

  datatype Gate = Gate(name: string, passed: bool)

  datatype OperatingLimits = OperatingLimits(recallMin: real, precisionMin: real, f1Min: real, rateMax: real)

  const LOCKED_OPERATING_LIMITS := OperatingLimits(0.60, 0.30, 0.38, 0.50)

  ghost predicate AllGatesPass(evidence: seq<Gate>) {
    evidence != [] && forall i | 0 <= i < |evidence| :: evidence[i].passed
  }

  /** The four operating-point gates, appended one by one with their own comparison. */
  method OperatingPointGates(row: ThresholdRow, limits: OperatingLimits) returns (evidence: seq<Gate>)
    ensures AllGatesPass(evidence) <==>
      && row.recall >= limits.recallMin && row.precision >= limits.precisionMin
      && row.f1 >= limits.f1Min && row.rate <= limits.rateMax
    ensures evidence == [
      Gate("recall", row.recall >= limits.recallMin), Gate("precision", row.precision >= limits.precisionMin),
      Gate("f1", row.f1 >= limits.f1Min), Gate("predicted_positive_rate", row.rate <= limits.rateMax)]
  {
    var checks := [
      ("recall", true, row.recall, limits.recallMin),
      ("precision", true, row.precision, limits.precisionMin),
      ("f1", true, row.f1, limits.f1Min),
      ("predicted_positive_rate", false, row.rate, limits.rateMax)];
    evidence := [];
    for i := 0 to |checks|
      invariant |evidence| == i
      invariant forall k | 0 <= k < i ::
        evidence[k] == Gate(checks[k].0, if checks[k].1 then checks[k].2 >= checks[k].3 else checks[k].2 <= checks[k].3)
    {
      var (name, isMinimum, observed, limit) := checks[i];
      evidence := evidence + [Gate(name, if isMinimum then observed >= limit else observed <= limit)];
    }
    assert evidence[0].passed == (row.recall >= limits.recallMin);
    assert evidence[1].passed == (row.precision >= limits.precisionMin);
    assert evidence[2].passed == (row.f1 >= limits.f1Min);
    assert evidence[3].passed == (row.rate <= limits.rateMax);
  }

  /** F1 grows with precision and with recall. */
  lemma FMeasureMonotone(p: real, r: real, p': real, r': real)
    requires 0.0 <= p <= p' && 0.0 <= r <= r'
    ensures FMeasure(p, r) <= FMeasure(p', r')
  {
    if p + r == 0.0 || p' + r' == 0.0 {
      FMeasureIsNonNegative(p', r');
    } else {
      var f := FMeasure(p, r);
      var s, s' := p + r, p' + r';
      QuotientTimes(2.0 * p * r, s);
      CrossProducts(p, r, p', r');
      QuotientAtLeast(2.0 * p' * r', s', f);
      HarmonicCross(f, p, r, p', r');
    }
  }

  lemma CrossProducts(p: real, r: real, p': real, r': real)
    requires 0.0 <= p <= p' && 0.0 <= r <= r'
    ensures p * r * (p' + r') <= p' * r' * (p + r)
  {
    var d, e := p' * r', p * r;
    assert p' * r' * (p + r) - p * r * (p' + r') == p * p' * (r' - r) + r * r' * (p' - p);
    ProductSign(p, p');
    ProductSign(p * p', r' - r);
    ProductSign(r, r');
    ProductSign(r * r', p' - p);
  }

  lemma HarmonicCross(f: real, p: real, r: real, p': real, r': real)
    requires p + r > 0.0 && p' + r' > 0.0
    requires f * (p + r) == 2.0 * p * r
    requires p * r * (p' + r') <= p' * r' * (p + r)
    ensures 2.0 * p' * r' >= f * (p' + r')
  {
    var s, s' := p + r, p' + r';
    calc {
      f * s' * s;
      f * s * s';
      2.0 * p * r * s';
    <=
      2.0 * p' * r' * s;
    }
    ScaledAtLeast(2.0 * p' * r', 2.0 * p' * r' * s, s, f * s');
  }

  /** Every threshold the selector calls eligible under the locked limits passes all four gates:
      the precision and recall floors alone force F1 to at least 0.40, above its gate. */
  lemma EligiblePassesOperatingGates(obs: seq<Observation>, t: real)
    requires BothClasses(obs)
    requires RowAt(obs, t, Limits(0.60, 0.30, 0.50)).eligible
    ensures var row, limits := RowAt(obs, t, Limits(0.60, 0.30, 0.50)), LOCKED_OPERATING_LIMITS;
      && row.recall >= 0.60 == limits.recallMin
      && row.precision >= 0.30 == limits.precisionMin
      && row.f1 >= 0.40 && limits.f1Min == 0.38
      && row.rate <= 0.50 == limits.rateMax
  {
    var row := RowAt(obs, t, Limits(0.60, 0.30, 0.50));
    QuotientIs(0.40, 2.0 * 0.30 * 0.60, 0.30 + 0.60);
    FMeasureMonotone(0.30, 0.60, row.precision, row.recall);
  }

  // ---------------------------------------------------------------- finalists and candidates

  /** A finalist with the metrics that rank it, in the order of the locked key. */
  datatype Finalist = Finalist(
    id: string, precision: real, averagePrecision: real, rocAuc: real, logLoss: real, brier: real,
    f1: real, rate: real, passed: bool)

  function WinnerKey(): Finalist -> seq<real> {
    (f: Finalist) =>
      [-f.precision, -f.averagePrecision, -f.rocAuc, f.logLoss, f.brier, -f.f1, f.rate] + CodePoints(f.id)
  }

  /** The order of preference among finalists; the id decides last. */
  predicate WinnerPreferred(w: Finalist, f: Finalist) {
    Higher(w.precision, f.precision, Higher(w.averagePrecision, f.averagePrecision, Higher(w.rocAuc, f.rocAuc,
      Lower(w.logLoss, f.logLoss, Lower(w.brier, f.brier,
        Higher(w.f1, f.f1, Lower(w.rate, f.rate, NotAfter(w.id, f.id))))))))
  }

  lemma WinnerKeysFollowThePreference(w: Finalist, f: Finalist)
    ensures !LexLess(WinnerKey()(f), WinnerKey()(w)) <==> WinnerPreferred(w, f)
  {
    hide LexLess, NotAfter, CodePoints;
    var a, b := WinnerKey()(w), WinnerKey()(f);
    assert a[0..] == a && b[0..] == b;
    LexPosition(a, b, 0);
    LexPosition(a, b, 1);
    LexPosition(a, b, 2);
    LexPosition(a, b, 3);
    LexPosition(a, b, 4);
    LexPosition(a, b, 5);
    LexPosition(a, b, 6);
    assert a[7..] == CodePoints(w.id) && b[7..] == CodePoints(f.id);
    CodePointsFollowTheDictionary(w.id, f.id);
  }

  function Passing(): Finalist -> bool { (f: Finalist) => f.passed }

  function ChooseNovemberWinner(finalists: seq<Finalist>): Option<Finalist> {
    var passing := Filter(finalists, Passing());
    if passing == [] then None else Some(MinBy(passing, WinnerKey()))
  }

  ghost predicate DistinctIds(finalists: seq<Finalist>) {
    forall f, g | f in finalists && g in finalists && f.id == g.id :: f == g
  }

  lemma SameWinnerKey(f: Finalist, g: Finalist)
    requires WinnerKey()(f) == WinnerKey()(g)
    ensures f.id == g.id
  {
    assert WinnerKey()(f)[7..] == CodePoints(f.id) && WinnerKey()(g)[7..] == CodePoints(g.id);
    CodePointsInjective(f.id, g.id);
  }

  lemma WinnerIsLeastPassing(finalists: seq<Finalist>)
    ensures ChooseNovemberWinner(finalists).None? <==> forall f | f in finalists :: !f.passed
    ensures ChooseNovemberWinner(finalists).Some? ==>
      var w := ChooseNovemberWinner(finalists).value;
      && w in finalists && w.passed
      && forall f | f in finalists && f.passed :: WinnerPreferred(w, f)
  {
    hide WinnerPreferred, LexLess;
    var passing := Filter(finalists, Passing());
    FilterMembers(finalists, Passing());
    assert passing != [] ==> passing[0] in passing;
    if passing != [] {
      MinByIsLeast(passing, WinnerKey());
      var w := MinBy(passing, WinnerKey());
      forall f | f in finalists && f.passed ensures WinnerPreferred(w, f) {
        WinnerKeysFollowThePreference(w, f);
      }
    }
  }

  /** With distinct ids the winner does not depend on the order of the finalists, and a governed
      stop means that no finalist passed every gate. */
  lemma WinnerIgnoresOrder(finalists: seq<Finalist>, others: seq<Finalist>)
    requires multiset(finalists) == multiset(others) && DistinctIds(finalists)
    ensures ChooseNovemberWinner(finalists) == ChooseNovemberWinner(others)
    ensures ChooseNovemberWinner(finalists).None? <==> forall f | f in finalists :: !f.passed
  {
    SameElements(finalists, others);
    WinnerIsLeastPassing(finalists);
    WinnerIsLeastPassing(others);
    hide ChooseNovemberWinner, WinnerPreferred, LexLess;
    if ChooseNovemberWinner(finalists).Some? {
      var w, v := ChooseNovemberWinner(finalists).value, ChooseNovemberWinner(others).value;
      WinnerKeysFollowThePreference(w, v);
      WinnerKeysFollowThePreference(v, w);
      if WinnerKey()(w) != WinnerKey()(v) {
        LexTotal(WinnerKey()(w), WinnerKey()(v));
      }
      SameWinnerKey(w, v);
    }
  }

  /** What a candidate's folds are summarized to, in either generation of the search. */
  datatype Statistics =
    | V2Statistics(
        meanPrecision: real, worstPrecision: real, meanAveragePrecision: real, meanRocAuc: real,
        meanLogLoss: real, meanBrier: real, stdPrecision: real)
    | V3Statistics(
        worstPrecision: real, novemberPrecision: real, laterFoldsPrecision: real, meanPrecision: real,
        meanAveragePrecision: real, meanRocAuc: real, meanLogLoss: real, meanBrier: real)

  datatype Candidate = Candidate(id: string, family: string, completed: bool, statistics: Statistics)

  /** The locked order of the statistics, each oriented so that less is better. */
  function Oriented(s: Statistics): seq<real> {
    match s
    case V2Statistics(mean, worst, ap, auc, logLoss, brier, std) => [-mean, -worst, -ap, -auc, logLoss, brier, std]
    case V3Statistics(worst, november, later, mean, ap, auc, logLoss, brier) =>
      [-worst, -november, -later, -mean, -ap, -auc, logLoss, brier]
  }

  function CandidateKey(c: Candidate): seq<real> { Oriented(c.statistics) + CodePoints(c.id) }

  /** The order of preference of either search; the id decides last. */
  predicate CandidatePreferred(a: Candidate, b: Candidate) {
    var last := NotAfter(a.id, b.id);
    match (a.statistics, b.statistics)
    case (V2Statistics(_, _, _, _, _, _, _), V2Statistics(_, _, _, _, _, _, _)) =>
      var s, t := a.statistics, b.statistics;
      Higher(s.meanPrecision, t.meanPrecision, Higher(s.worstPrecision, t.worstPrecision,
        Higher(s.meanAveragePrecision, t.meanAveragePrecision, Higher(s.meanRocAuc, t.meanRocAuc,
          Lower(s.meanLogLoss, t.meanLogLoss, Lower(s.meanBrier, t.meanBrier,
            Lower(s.stdPrecision, t.stdPrecision, last)))))))
    case (V3Statistics(_, _, _, _, _, _, _, _), V3Statistics(_, _, _, _, _, _, _, _)) =>
      var s, t := a.statistics, b.statistics;
      Higher(s.worstPrecision, t.worstPrecision, Higher(s.novemberPrecision, t.novemberPrecision,
        Higher(s.laterFoldsPrecision, t.laterFoldsPrecision, Higher(s.meanPrecision, t.meanPrecision,
          Higher(s.meanAveragePrecision, t.meanAveragePrecision, Higher(s.meanRocAuc, t.meanRocAuc,
            Lower(s.meanLogLoss, t.meanLogLoss, Lower(s.meanBrier, t.meanBrier, last))))))))
    case _ => false
  }

  lemma CandidateKeysFollowThePreference(a: Candidate, b: Candidate)
    requires a.statistics.V2Statistics? == b.statistics.V2Statistics?
    ensures !LexLess(CandidateKey(b), CandidateKey(a)) <==> CandidatePreferred(a, b)
  {
    hide LexLess, NotAfter, CodePoints;
    var x, y := CandidateKey(a), CandidateKey(b);
    var n := |Oriented(a.statistics)|;
    assert x[0..] == x && y[0..] == y && |Oriented(b.statistics)| == n;
    LexPosition(x, y, 0);
    LexPosition(x, y, 1);
    LexPosition(x, y, 2);
    LexPosition(x, y, 3);
    LexPosition(x, y, 4);
    LexPosition(x, y, 5);
    LexPosition(x, y, 6);
    if a.statistics.V3Statistics? {
      LexPosition(x, y, 7);
    }
    assert x[n..] == CodePoints(a.id) && y[n..] == CodePoints(b.id);
    CodePointsFollowTheDictionary(a.id, b.id);
  }

  /** The rows come from one search. */
  ghost predicate OneGeneration(rows: seq<Candidate>) {
    forall c, d | c in rows && d in rows :: c.statistics.V2Statistics? == d.statistics.V2Statistics?
  }

  function RanksBefore(): (Candidate, Candidate) -> bool {
    (a: Candidate, b: Candidate) => LexLess(CandidateKey(a), CandidateKey(b))
  }

  function Completed(): Candidate -> bool { (c: Candidate) => c.completed }
  function InFamily(family: string): Candidate -> bool { (c: Candidate) => c.family == family }

  function RankCandidates(rows: seq<Candidate>): seq<Candidate> {
    StableSort(Filter(rows, Completed()), RanksBefore())
  }

  ghost predicate UniqueIds(rows: seq<Candidate>) {
    forall i, j | 0 <= i < j < |rows| :: rows[i].id != rows[j].id
  }

  datatype Advancement = Refused | Advanced(rows: seq<Candidate>)

  /** The top of one family, refused unless it has exactly `expected` completed unique candidates. */
  ghost function AdvanceFamily(rows: seq<Candidate>, family: string, expected: nat, advance: nat): Advancement
    requires advance <= expected
  {
    var members := Filter(rows, InFamily(family));
    if |members| != expected || !UniqueIds(members) then Refused
    else
      var ranked := RankCandidates(members);
      if |ranked| != expected then Refused else Advanced(ranked[..advance])
  }

  lemma CandidateOrderIsTotal(rows: seq<Candidate>)
    requires OneGeneration(rows)
    requires forall c, d | c in rows && d in rows && c.id == d.id :: c == d
    ensures StrictTotalOrder(Elements(rows), RanksBefore())
  {
    var before := RanksBefore();
    forall x | x in rows ensures !before(x, x) {
      LexIrreflexive(CandidateKey(x));
    }
    forall x, y | x in rows && y in rows && before(x, y) ensures !before(y, x) {
      LexAsymmetric(CandidateKey(x), CandidateKey(y));
    }
    forall x, y, z | x in rows && y in rows && z in rows && before(x, z) ensures before(x, y) || before(y, z) {
      LexNegativelyTransitive(CandidateKey(x), CandidateKey(y), CandidateKey(z));
    }
    forall x, y | x in rows && y in rows && x != y ensures before(x, y) || before(y, x) {
      KeysTellCandidatesApart(x, y);
      LexTotal(CandidateKey(x), CandidateKey(y));
    }
  }

  lemma KeysTellCandidatesApart(c: Candidate, d: Candidate)
    requires c.statistics.V2Statistics? == d.statistics.V2Statistics? && c.id != d.id
    ensures CandidateKey(c) != CandidateKey(d)
  {
    var n := |Oriented(c.statistics)|;
    assert |Oriented(d.statistics)| == n;
    assert CandidateKey(c)[n..] == CodePoints(c.id) && CandidateKey(d)[n..] == CodePoints(d.id);
    if CandidateKey(c) == CandidateKey(d) {
      CodePointsInjective(c.id, d.id);
    }
  }

  lemma RankingIsSorted(completed: seq<Candidate>)
    requires OneGeneration(completed)
    requires forall c, d | c in completed && d in completed && c.id == d.id :: c == d
    ensures SortedBy(StableSort(completed, RanksBefore()), RanksBefore())
    ensures StrictTotalOrder(Elements(StableSort(completed, RanksBefore())), RanksBefore())
  {
    CandidateOrderIsTotal(completed);
    SortIsSorted(completed, Elements(completed), RanksBefore());
    SortIsPermutation(completed, RanksBefore());
    SameElements(StableSort(completed, RanksBefore()), completed);
    assert Elements(StableSort(completed, RanksBefore())) == Elements(completed);
  }

  /** What an advancement ranks: the whole family, all of it completed. */
  lemma RankedFamily(rows: seq<Candidate>, family: string, expected: nat, advance: nat)
    requires advance <= expected
    requires AdvanceFamily(rows, family, expected, advance).Advanced?
    ensures var members := Filter(rows, InFamily(family));
      var ranked := RankCandidates(members);
      && UniqueIds(members)
      && |ranked| == expected
      && (forall c :: c in ranked <==> c in rows && c.family == family)
      && (forall c | c in ranked :: c.completed)
  {
    var members := Filter(rows, InFamily(family));
    var completed := Filter(members, Completed());
    FilterMembers(rows, InFamily(family));
    FilterMembers(members, Completed());
    SortIsPermutation(completed, RanksBefore());
    SameElements(RankCandidates(members), completed);
    FilterKeptAll(members, Completed());
    assert forall c | c in members :: Completed()(c);
  }

  /** An advancement is the best of the family: everyone in it completed, and nobody left behind
      ranks before anybody advanced. */
  lemma AdvancedAreTheBest(
      rows: seq<Candidate>, family: string, expected: nat, advance: nat, a: Candidate, b: Candidate)
    requires advance <= expected
    requires OneGeneration(rows)
    requires AdvanceFamily(rows, family, expected, advance).Advanced?
    requires a in AdvanceFamily(rows, family, expected, advance).rows
    requires b in rows && b.family == family && b !in AdvanceFamily(rows, family, expected, advance).rows
    ensures a in rows && a.family == family && a.completed && b.completed
    ensures CandidatePreferred(a, b) && a.id != b.id
  {
    hide CandidatePreferred, LexLess, CandidateKey;
    var members := Filter(rows, InFamily(family));
    var ranked := RankCandidates(members);
    RankedFamily(rows, family, expected, advance);
    FilterMembers(rows, InFamily(family));
    FilterMembers(members, Completed());
    RankingIsSorted(Filter(members, Completed()));
    assert RanksBefore()(a, b);
    LexAsymmetric(CandidateKey(a), CandidateKey(b));
    CandidateKeysFollowThePreference(a, b);
  }

  /** The advanced candidates are listed best first, and as many as asked for. */
  lemma AdvancedAreRanked(rows: seq<Candidate>, family: string, expected: nat, advance: nat, i: nat, j: nat)
    requires advance <= expected && OneGeneration(rows)
    requires AdvanceFamily(rows, family, expected, advance).Advanced?
    requires i < j < advance
    ensures var best := AdvanceFamily(rows, family, expected, advance).rows;
      |best| == advance && CandidatePreferred(best[i], best[j])
  {
    hide CandidatePreferred, LexLess, CandidateKey;
    var members := Filter(rows, InFamily(family));
    var ranked := RankCandidates(members);
    RankedFamily(rows, family, expected, advance);
    FilterMembers(rows, InFamily(family));
    FilterMembers(members, Completed());
    RankingIsSorted(Filter(members, Completed()));
    assert ranked[i] in ranked && ranked[j] in ranked;
    assert !RanksBefore()(ranked[j], ranked[i]);
    CandidateKeysFollowThePreference(ranked[i], ranked[j]);
  }
}
