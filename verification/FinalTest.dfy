/** The one-time final test (scripts/release_model.py, src/flight_delay/modeling/release.py). */
module FinalTest {
  import opened Options

  /** Any number of processes run at once. Only the creation of the marker is exclusive; every other
      write empties a file before it fills it, and a process may stop between any two steps. */
  datatype Written<+T> = Absent | Partial | Full(value: T)

  datatype ResultRecord = ResultRecord(owner: nat, gates: seq<bool>)

  datatype MarkerRecord = Begun(owner: nat) | Finished(owner: nat, resultDigest: ResultRecord)

  datatype Alias = Staging | Production

  datatype DecisionRecord = DecisionRecord(alias: Alias, passed: bool, resultDigest: ResultRecord)

  /** What the processes share: three files, the one directory all of them download the bundle to,
      the registry alias, who opened the test split, and who evaluated which bundle. */
  datatype Shared = Shared(
    marker: Written<MarkerRecord>, result: Written<ResultRecord>, decision: Written<DecisionRecord>,
    download: Written<nat>, production: Option<nat>, openings: seq<nat>, evaluations: seq<(nat, nat)>)

  /** The bundle the selection lock names, the bundle each process finds behind the staging alias,
      and the gates its evaluation yields. */
  datatype Setting = Setting(locked: nat, staging: nat -> nat, gates: nat -> seq<bool>)

  datatype Stage =
    | Guarding | DirectoryEmptied | Downloading | Downloaded | BundleVerified
    | MarkerCreated | MarkerBegun | TestOpened | Evaluated | ResultEmptied | ResultFilled
    | MarkerEmptied | MarkerFinished | Linked | Verified | DecisionEmptied | DecisionFilled

  datatype Process = Process(stage: Stage, stopped: bool)

  datatype World = World(shared: Shared, processes: map<nat, Process>)

  datatype Move = Advance | Stop

  type Schedule = seq<(nat, Move)>

  predicate AllPassed(gates: seq<bool>) { forall g | g in gates :: g }

  function StageOf(w: World, p: nat): Process {
    if p in w.processes then w.processes[p] else Process(Guarding, false)
  }

  /** The guards before the marker: empty the download directory, fill it from the staging alias,
      and require the locked bundle in it; then the exclusive creation. */
  function Guard(s: Shared, p: nat, stage: Stage, g: Setting): Option<(Shared, Stage)> {
    match stage
    case Guarding => Some((s.(download := Absent), DirectoryEmptied))
    case DirectoryEmptied => Some((s.(download := Partial), Downloading))
    case Downloading => Some((s.(download := Full(g.staging(p))), Downloaded))
    case Downloaded => if s.download == Full(g.locked) then Some((s, BundleVerified)) else None
    case BundleVerified => if s.marker.Absent? then Some((s.(marker := Partial), MarkerCreated)) else None
    case _ => None
  }

  /** One step of `evaluate_once` by process `p`; `None` refuses or raises. */
  function Act(s: Shared, p: nat, stage: Stage, g: Setting): Option<(Shared, Stage)> {
    var record, passed := ResultRecord(p, g.gates(p)), AllPassed(g.gates(p));
    match stage
    case MarkerCreated => Some((s.(marker := Full(Begun(p))), MarkerBegun))
    case MarkerBegun => Some((s.(openings := s.openings + [p]), TestOpened))
    case TestOpened =>
      if s.download.Full? then Some((s.(evaluations := s.evaluations + [(p, s.download.value)]), Evaluated)) else None
    case Evaluated => Some((s.(result := Partial), ResultEmptied))
    case ResultEmptied => Some((s.(result := Full(record)), ResultFilled))
    case ResultFilled => Some((s.(marker := Partial), MarkerEmptied))
    case MarkerEmptied =>
      if s.result.Full? then Some((s.(marker := Full(Finished(p, s.result.value))), MarkerFinished)) else None
    case MarkerFinished =>
      if passed then Some((s.(production := Some(p)), Linked)) else Some((s.(decision := Partial), DecisionEmptied))
    case Linked => if g.staging(p) == g.locked then Some((s, Verified)) else None
    case Verified => Some((s.(decision := Partial), DecisionEmptied))
    case DecisionEmptied =>
      if s.result.Full? then
        var alias := if passed then Production else Staging;
        Some((s.(decision := Full(DecisionRecord(alias, passed, s.result.value))), DecisionFilled))
      else None
    case DecisionFilled => None
    case _ => Guard(s, p, stage, g)
  }

  function Step(w: World, p: nat, m: Move, g: Setting): World {
    var process := StageOf(w, p);
    if process.stopped then w
    else if m == Stop then w.(processes := w.processes[p := Process(process.stage, true)])
    else
      match Act(w.shared, p, process.stage, g)
      case Some((shared, stage)) => World(shared, w.processes[p := Process(stage, false)])
      case None => w.(processes := w.processes[p := Process(process.stage, true)])
  }

  const SEALED := World(Shared(Absent, Absent, Absent, Absent, None, [], []), map[])

  /** The world after any interleaving of steps and stops. */
  function Run(schedule: Schedule, g: Setting): World {
    if schedule == [] then SEALED
    else
      var last := schedule[|schedule| - 1];
      Step(Run(schedule[..|schedule| - 1], g), last.0, last.1, g)
  }

  // ---------------------------------------------------------------- the shared state is one process's doing

  /** How far behind the marker a stage is; zero for everything before it. */
  function Rank(stage: Stage): nat {
    match stage
    case MarkerCreated => 1
    case MarkerBegun => 2
    case TestOpened => 3
    case Evaluated => 4
    case ResultEmptied => 5
    case ResultFilled => 6
    case MarkerEmptied => 7
    case MarkerFinished => 8
    case Linked => 9
    case Verified => 10
    case DecisionEmptied => 11
    case DecisionFilled => 12
    case _ => 0
  }

  /** The shared state, the download directory aside, when its one owner has come as far as `stage`. */
  ghost predicate IsWorkOf(s: Shared, owner: nat, stage: Stage, g: Setting) {
    var r, record, passed := Rank(stage), ResultRecord(owner, g.gates(owner)), AllPassed(g.gates(owner));
    && (s.marker == if r == 0 then Absent else if r == 1 || r == 7 then Partial
        else if r < 7 then Full(Begun(owner)) else Full(Finished(owner, record)))
    && s.openings == (if r >= 3 then [owner] else [])
    && |s.evaluations| == (if r >= 4 then 1 else 0)
    && (r >= 4 ==> s.evaluations[0].0 == owner)
    && (s.result == if r < 5 then Absent else if r == 5 then Partial else Full(record))
    && s.production == (if r >= 9 && passed then Some(owner) else None)
    && (s.decision == if r < 11 then Absent else if r == 11 then Partial
        else Full(DecisionRecord(if passed then Production else Staging, passed, record)))
    && (9 <= r <= 10 ==> passed)
    && (r >= 10 && passed ==> g.staging(owner) == g.locked)
  }

  /** Only `owner` has come past the marker, and the shared state is its work alone. */
  ghost predicate OwnedBy(w: World, owner: nat, g: Setting) {
    && IsWorkOf(w.shared, owner, StageOf(w, owner).stage, g)
    && forall p: nat :: p != owner ==> Rank(StageOf(w, p).stage) == 0
  }

  lemma ActContinues(s: Shared, p: nat, stage: Stage, g: Setting)
    requires IsWorkOf(s, p, stage, g) && Act(s, p, stage, g).Some?
    ensures IsWorkOf(Act(s, p, stage, g).value.0, p, Act(s, p, stage, g).value.1, g)
  {
    hide IsWorkOf, Guard;
    GuardsActAlone(s, p, stage, g);
    if Rank(stage) == 0 {
      GuardContinues(s, p, stage, g);
    } else if Rank(stage) <= 6 {
      EvaluationContinues(s, p, stage, g);
    } else {
      DecisionContinues(s, p, stage, g);
    }
  }

  lemma EvaluationContinues(s: Shared, p: nat, stage: Stage, g: Setting)
    requires 1 <= Rank(stage) <= 6 && IsWorkOf(s, p, stage, g) && Act(s, p, stage, g).Some?
    ensures IsWorkOf(Act(s, p, stage, g).value.0, p, Act(s, p, stage, g).value.1, g)
  {
    hide AllPassed, Guard;
    assert stage.MarkerBegun? ==> s.openings + [p] == [p];
  }

  lemma DecisionContinues(s: Shared, p: nat, stage: Stage, g: Setting)
    requires Rank(stage) >= 7 && IsWorkOf(s, p, stage, g) && Act(s, p, stage, g).Some?
    ensures IsWorkOf(Act(s, p, stage, g).value.0, p, Act(s, p, stage, g).value.1, g)
  {
    hide AllPassed, Guard;
  }

  lemma GuardsActAlone(s: Shared, p: nat, stage: Stage, g: Setting)
    ensures Rank(stage) == 0 ==> Act(s, p, stage, g) == Guard(s, p, stage, g)
  {
    hide Guard;
  }

  lemma GuardContinues(s: Shared, p: nat, stage: Stage, g: Setting)
    requires Rank(stage) == 0 && IsWorkOf(s, p, stage, g) && Guard(s, p, stage, g).Some?
    ensures IsWorkOf(Guard(s, p, stage, g).value.0, p, Guard(s, p, stage, g).value.1, g)
  {
    hide AllPassed;
  }

  /** A process other than the owner never comes past the marker and only touches the download. */
  lemma OthersStayBefore(s: Shared, owner: nat, stage: Stage, p: nat, other: Stage, g: Setting)
    requires IsWorkOf(s, owner, stage, g) && Rank(stage) > 0 && Rank(other) == 0
    requires Act(s, p, other, g).Some?
    ensures Rank(Act(s, p, other, g).value.1) == 0
    ensures IsWorkOf(Act(s, p, other, g).value.0, owner, stage, g)
  {
  }

  /** Before the marker exists, the shared state is anybody's. */
  lemma SealedForAnyone(s: Shared, owner: nat, stage: Stage, p: nat, other: Stage, g: Setting)
    requires IsWorkOf(s, owner, stage, g) && Rank(stage) == Rank(other) == 0
    ensures IsWorkOf(s, p, other, g)
  {
  }

  lemma StepKeepsOwnership(w: World, p: nat, m: Move, g: Setting, owner: nat) returns (next: nat)
    requires OwnedBy(w, owner, g)
    ensures OwnedBy(Step(w, p, m, g), next, g)
    ensures Rank(StageOf(w, owner).stage) > 0 ==> next == owner
  {
    hide Act, IsWorkOf, Rank;
    var after := Step(w, p, m, g);
    forall q: nat ensures q != p ==> StageOf(after, q) == StageOf(w, q) {
    }
    var stage, own := StageOf(w, owner).stage, StageOf(w, p).stage;
    next := owner;
    if p != owner && Rank(stage) > 0 {
      if Act(w.shared, p, own, g).Some? {
        OthersStayBefore(w.shared, owner, stage, p, own, g);
      }
    } else {
      if p != owner {
        SealedForAnyone(w.shared, owner, stage, p, own, g);
        next := p;
      }
      if Act(w.shared, p, own, g).Some? {
        ActContinues(w.shared, p, own, g);
      }
    }
  }

  /** At every moment of every interleaving, one process owns all that is shared. */
  lemma {:induction false} OneOwner(schedule: Schedule, g: Setting) returns (owner: nat)
    ensures OwnedBy(Run(schedule, g), owner, g)
  {
    if schedule == [] {
      owner := 0;
    } else {
      var last := schedule[|schedule| - 1];
      var before := OneOwner(schedule[..|schedule| - 1], g);
      owner := StepKeepsOwnership(Run(schedule[..|schedule| - 1], g), last.0, last.1, g, before);
    }
  }

  // ---------------------------------------------------------------- what follows

  /** At most one process ever opens the test split and evaluates, and only it writes the result,
      finishes the marker and decides. */
  lemma OnlyOneOpens(schedule: Schedule, g: Setting)
    ensures var s := Run(schedule, g).shared;
      && |s.openings| <= 1 && |s.evaluations| <= 1
      && (s.evaluations != [] ==> s.openings == [s.evaluations[0].0])
      && (s.result.Full? ==> s.openings == [s.result.value.owner] && s.result.value.gates == g.gates(s.result.value.owner))
      && (!s.result.Absent? ==> |s.evaluations| == 1)
      && (s.marker.Full? && s.marker.value.Finished? ==>
           s.openings == [s.marker.value.owner] && s.result == Full(s.marker.value.resultDigest))
      && (!s.decision.Absent? ==> s.marker.Full? && s.marker.value.Finished?)
  {
    var owner := OneOwner(schedule, g);
  }

  /** `production` is linked only by a process whose gates all passed, and only once the marker is
      finished over its result; a decision reports what was linked, and reports production only of
      the locked bundle. */
  lemma ProductionOnlyAfterPassing(schedule: Schedule, g: Setting)
    ensures var s := Run(schedule, g).shared;
      && (s.production.Some? ==>
           && s.marker.Full? && s.marker.value.Finished? && s.marker.value.owner == s.production.value
           && s.result == Full(s.marker.value.resultDigest) && AllPassed(s.result.value.gates))
      && (s.decision.Full? ==>
           && s.result == Full(s.decision.value.resultDigest)
           && (s.decision.value.passed <==> AllPassed(s.result.value.gates))
           && (s.decision.value.alias == Production <==> s.decision.value.passed)
           && (s.production.Some? <==> s.decision.value.passed)
           && (s.production.Some? ==> g.staging(s.production.value) == g.locked))
  {
    var owner := OneOwner(schedule, g);
  }

  lemma RunAppend(schedule: Schedule, p: nat, m: Move, g: Setting)
    ensures Run(schedule + [(p, m)], g) == Step(Run(schedule, g), p, m, g)
  {
    assert (schedule + [(p, m)])[..|schedule|] == schedule;
  }

  lemma {:induction false} MarkerStays(schedule: Schedule, more: Schedule, g: Setting, owner: nat)
    requires OwnedBy(Run(schedule, g), owner, g) && Rank(StageOf(Run(schedule, g), owner).stage) > 0
    ensures OwnedBy(Run(schedule + more, g), owner, g)
    ensures Rank(StageOf(Run(schedule + more, g), owner).stage) >= Rank(StageOf(Run(schedule, g), owner).stage)
    decreases |more|
  {
    hide OwnedBy, Rank, Step;
    if more == [] {
      assert schedule + more == schedule;
    } else {
      var front, last := more[..|more| - 1], more[|more| - 1];
      MarkerStays(schedule, front, g, owner);
      assert schedule + more == (schedule + front) + [last];
      RunAppend(schedule + front, last.0, last.1, g);
      var next := StepKeepsOwnership(Run(schedule + front, g), last.0, last.1, g, owner);
      StepAdvances(Run(schedule + front, g), last.0, last.1, g, owner);
    }
  }

  lemma StepAdvances(w: World, p: nat, m: Move, g: Setting, owner: nat)
    ensures Rank(StageOf(Step(w, p, m, g), owner).stage) >= Rank(StageOf(w, owner).stage)
  {
  }

  /** Once somebody created the marker, nobody else ever opens the test, whatever stops where: every
      other process stays before the marker for ever, and what the creator has written stays. */
  lemma FirstOwnerForever(schedule: Schedule, more: Schedule, g: Setting) returns (owner: nat)
    requires !Run(schedule, g).shared.marker.Absent?
    ensures OwnedBy(Run(schedule, g), owner, g) && OwnedBy(Run(schedule + more, g), owner, g)
    ensures var s, later := Run(schedule, g).shared, Run(schedule + more, g).shared;
      && !later.marker.Absent?
      && s.openings <= later.openings <= [owner]
      && (forall e | e in later.evaluations :: e.0 == owner)
      && (s.result.Full? ==> later.result == s.result)
      && (s.decision.Full? ==> later.decision == s.decision)
      && (s.production.Some? ==> later.production == s.production)
    ensures forall p: nat :: p != owner ==> Rank(StageOf(Run(schedule + more, g), p).stage) == 0
  {
    owner := OneOwner(schedule, g);
    MarkerStays(schedule, more, g, owner);
  }

  /** A process that was refused or stopped is out: whatever it is asked to do, nothing changes. */
  lemma {:induction false} RefusedIsFinal(schedule: Schedule, p: nat, more: Schedule, g: Setting)
    requires StageOf(Run(schedule, g), p).stopped
          || Act(Run(schedule, g).shared, p, StageOf(Run(schedule, g), p).stage, g).None?
    requires forall i | 0 <= i < |more| :: more[i].0 == p
    ensures Run(schedule + more, g).shared == Run(schedule, g).shared
    ensures more != [] ==> StageOf(Run(schedule + more, g), p).stopped
    ensures StageOf(Run(schedule + more, g), p).stage == StageOf(Run(schedule, g), p).stage
    decreases |more|
  {
    hide Act;
    if more == [] {
      assert schedule + more == schedule;
    } else {
      var front, last := more[..|more| - 1], more[|more| - 1];
      RefusedIsFinal(schedule, p, front, g);
      assert schedule + more == (schedule + front) + [last];
      RunAppend(schedule + front, last.0, last.1, g);
      if front == [] {
        assert schedule + front == schedule;
      }
    }
  }

  // ---------------------------------------------------------------- is the evaluated bundle the locked one

  /** Everything that reached the directory, or an evaluation, satisfies `good`. */
  ghost predicate Delivers(s: Shared, good: nat -> bool) {
    && (s.download.Full? ==> good(s.download.value))
    && (forall e | e in s.evaluations :: good(e.1))
  }

  lemma {:induction false} DeliveriesComeFromStaging(schedule: Schedule, g: Setting, good: nat -> bool)
    requires forall p: nat :: good(g.staging(p))
    ensures Delivers(Run(schedule, g).shared, good)
  {
    if schedule != [] {
      DeliveriesComeFromStaging(schedule[..|schedule| - 1], g, good);
    }
  }

  /** Where staging never holds the locked bundle, nobody comes past the guards. */
  lemma {:induction false} NobodyVerifies(schedule: Schedule, g: Setting)
    requires forall p: nat :: g.staging(p) != g.locked
    ensures forall p: nat :: Rank(StageOf(Run(schedule, g), p).stage) == 0
    ensures forall p: nat :: StageOf(Run(schedule, g), p).stage != BundleVerified
    ensures Run(schedule, g).shared.evaluations == []
  {
    if schedule != [] {
      var before, last := schedule[..|schedule| - 1], schedule[|schedule| - 1];
      NobodyVerifies(before, g);
      DeliveriesComeFromStaging(before, g, b => b != g.locked);
      var w, after := Run(before, g), Run(schedule, g);
      forall q: nat ensures q != last.0 ==> StageOf(after, q) == StageOf(w, q) {
      }
    }
  }

  /** Several steps of one process. */
  function Steps(p: nat, n: nat): (schedule: Schedule)
    ensures |schedule| == n && forall i | 0 <= i < n :: schedule[i] == (p, Advance)
  {
    seq(n, i requires 0 <= i < n => (p, Advance))
  }

  /** Only `p` has moved, and stands at `stage`. */
  function Alone(s: Shared, p: nat, stage: Stage): World { World(s, map[p := Process(stage, false)]) }

  lemma AloneSteps(s: Shared, p: nat, stage: Stage, g: Setting)
    requires Act(s, p, stage, g).Some?
    ensures Step(Alone(s, p, stage), p, Advance, g)
         == Alone(Act(s, p, stage, g).value.0, p, Act(s, p, stage, g).value.1)
  {
  }

  lemma StepsAppend(p: nat, n: nat, g: Setting)
    ensures Run(Steps(p, n + 1), g) == Step(Run(Steps(p, n), g), p, Advance, g)
  {
    assert Steps(p, n + 1) == Steps(p, n) + [(p, Advance)];
    RunAppend(Steps(p, n), p, Advance, g);
  }

  lemma PassesGuards(p: nat, g: Setting)
    requires g.staging(p) == g.locked
    ensures Run(Steps(p, 4), g) == Alone(SEALED.shared.(download := Full(g.locked)), p, BundleVerified)
  {
    var s := SEALED.shared;
    assert Run(Steps(p, 1), g) == Alone(s, p, DirectoryEmptied) by {
      StepsAppend(p, 0, g);
      assert Run(Steps(p, 0), g) == SEALED;
    }
    hide Run, Step, Steps;
    StepsAppend(p, 1, g);
    AloneSteps(s, p, DirectoryEmptied, g);
    StepsAppend(p, 2, g);
    AloneSteps(s.(download := Partial), p, Downloading, g);
    StepsAppend(p, 3, g);
    AloneSteps(s.(download := Full(g.locked)), p, Downloaded, g);
  }

  /** One process brings itself through the guards and opens the test. */
  lemma Opens(p: nat, g: Setting)
    requires g.staging(p) == g.locked
    ensures var w := Run(Steps(p, 7), g);
      StageOf(w, p) == Process(TestOpened, false) && w.shared.evaluations == [] && w.processes.Keys == {p}
  {
    hide Run, Step, Steps;
    var s := SEALED.shared.(download := Full(g.locked));
    PassesGuards(p, g);
    StepsAppend(p, 4, g);
    AloneSteps(s, p, BundleVerified, g);
    StepsAppend(p, 5, g);
    AloneSteps(s.(marker := Partial), p, MarkerCreated, g);
    StepsAppend(p, 6, g);
    AloneSteps(s.(marker := Full(Begun(p))), p, MarkerBegun, g);
  }

  /** Another process, later refused by the marker, has refilled the directory in between. */
  lemma OtherRefills(p: nat, q: nat, g: Setting)
    requires g.staging(p) == g.locked && q != p
    ensures (p, g.staging(q)) in Run(Steps(p, 7) + [(q, Advance), (q, Advance), (q, Advance), (p, Advance)], g).shared.evaluations
  {
    var start := Steps(p, 7);
    Opens(p, g);
    hide Steps;
    var w := Run(start, g);
    assert StageOf(w, q) == Process(Guarding, false);
    RunAppend(start, q, Advance, g);
    RunAppend(start + [(q, Advance)], q, Advance, g);
    RunAppend(start + [(q, Advance)] + [(q, Advance)], q, Advance, g);
    RunAppend(start + [(q, Advance)] + [(q, Advance)] + [(q, Advance)], p, Advance, g);
    assert start + [(q, Advance)] + [(q, Advance)] + [(q, Advance)] + [(p, Advance)]
        == start + [(q, Advance), (q, Advance), (q, Advance), (p, Advance)];
    var e := (p, g.staging(q));
    assert w.shared.evaluations + [e] == [e];
  }

  /** Whatever the interleaving, the evaluated bundle is the one the lock names, if and only if the
      staging alias resolves to it for every process or for none. A verified bundle alone does not
      ensure it, because all processes share the directory it is loaded from. */
  lemma EvaluatesTheLockedExactly(g: Setting)
    ensures (forall schedule: Schedule, e | e in Run(schedule, g).shared.evaluations :: e.1 == g.locked)
       <==> ((forall p: nat :: g.staging(p) == g.locked) || (forall p: nat :: g.staging(p) != g.locked))
  {
    if forall p: nat :: g.staging(p) == g.locked {
      forall schedule: Schedule, e | e in Run(schedule, g).shared.evaluations ensures e.1 == g.locked {
        DeliveriesComeFromStaging(schedule, g, b => b == g.locked);
      }
    } else if forall p: nat :: g.staging(p) != g.locked {
      forall schedule: Schedule ensures Run(schedule, g).shared.evaluations == [] {
        NobodyVerifies(schedule, g);
      }
    } else {
      var p: nat :| g.staging(p) == g.locked;
      var q: nat :| g.staging(q) != g.locked;
      OtherRefills(p, q, g);
    }
  }
}
