/** Scored observations, as the threshold selectors and the calibration evidence read them. */
module Observations {
  import opened Counting

  datatype Observation = Observation(target: int, score: real)

  predicate ValidInputs(targets: seq<int>, scores: seq<real>) {
    && |targets| == |scores| > 0
    && (forall i | 0 <= i < |targets| :: targets[i] == 0 || targets[i] == 1)
    && 0 in targets && 1 in targets
    && (forall i | 0 <= i < |scores| :: 0.0 <= scores[i] <= 1.0)
  }

  /** The vectors are not aligned, the labels are not the two classes, or a score is no probability. */
  ghost predicate Malformed(targets: seq<int>, scores: seq<real>) {
    || |targets| != |scores|
    || (set t | t in targets) != {0, 1}
    || exists x | x in scores :: x < 0.0 || x > 1.0
  }

  lemma MalformedExactly(targets: seq<int>, scores: seq<real>)
    ensures Malformed(targets, scores) <==> !ValidInputs(targets, scores)
  {
    var labels := set t | t in targets;
    assert forall i | 0 <= i < |targets| :: targets[i] in labels;
    assert forall i | 0 <= i < |scores| :: scores[i] in scores;
    assert 0 in targets <==> 0 in labels;
    assert 1 in targets <==> 1 in labels;
    if ValidInputs(targets, scores) {
      assert labels == {0, 1};
    }
  }

  function Zip(targets: seq<int>, scores: seq<real>): (obs: seq<Observation>)
    requires |targets| == |scores|
    ensures |obs| == |targets|
    ensures forall i | 0 <= i < |obs| :: obs[i] == Observation(targets[i], scores[i])
  {
    seq(|targets|, i requires 0 <= i < |targets| => Observation(targets[i], scores[i]))
  }

  function Positive(): Observation -> bool { (o: Observation) => o.target == 1 }

  /** Observations with binary targets of both classes. */
  ghost predicate BothClasses(obs: seq<Observation>) {
    && (forall i | 0 <= i < |obs| :: obs[i].target == 0 || obs[i].target == 1)
    && 0 < Count(obs, Positive()) < |obs|
  }

  lemma ValidInputsHaveBothClasses(targets: seq<int>, scores: seq<real>)
    requires ValidInputs(targets, scores)
    ensures BothClasses(Zip(targets, scores))
  {
    var obs := Zip(targets, scores);
    CountIsBounded(obs, Positive());
    var i :| 0 <= i < |targets| && targets[i] == 0;
    var j :| 0 <= j < |targets| && targets[j] == 1;
    assert !Positive()(obs[i]) && Positive()(obs[j]);
  }

  function Ratio(n: int, d: int): real
    requires d > 0
  {
    n as real / d as real
  }

  function Abs(x: real): (y: real)
    ensures y >= 0.0 && (y == x || y == -x)
  {
    if x < 0.0 then -x else x
  }
}
