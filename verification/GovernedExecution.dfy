/** The governed one-time development run and the December qualification that may follow it
    (src/flight_delay/modeling/v3/execution.py, src/flight_delay/data/prepare_v3.py): a workspace of
    files changed step by step by attempts that may raise or crash at every step. */
module GovernedExecution {
  import opened Options

  datatype File =
    | DevelopmentMarker | DecisionFile | StateFile | WinnerModel | WinnerLock
    | QualificationMarker | QualificationResult | DecemberRows | DecemberManifest

  datatype Status = Started | Complete | Failed

  datatype Decision = Winner | GovernedStop | Qualified | QualificationFailed

  /** A content digest; equal digests have equal contents. */
  datatype Digest = Digest(content: Content)

  /** What a run's historical state is; `frozen` says that it is as of October 31. */
  datatype StateValue = StateValue(id: nat, frozen: bool)

  datatype Content =
    | Marker(run: nat, status: Status, decision: Option<Decision>)
    | DecisionRecord(decided: Decision)
    | StateBytes(state: StateValue)
    | ModelBytes(model: nat)
    | Lock(codeSha: nat, threshold: real, modelDigest: Digest, stateDigest: Digest, stateFrozen: bool, decemberEvaluated: bool)
    | Rows(origin: nat)
    | Manifest(rows: Digest)
    | Result(passed: bool)

  /** Everything an attempt does that can be seen afterwards, with the run that did it. */
  datatype Event =
    | Wrote(run: nat, file: File, content: Content)
    | Decoded(run: nat)
    | Scored(run: nat, model: Content, state: StateValue, threshold: real)

  type Log = seq<Event>

  // ---------------------------------------------------------------- what the files hold

  predicate Writes(e: Event, f: File) { e.Wrote? && e.file == f }

  /** The content of `f` after `log`: that of its last write. */
  function Latest(log: Log, f: File): Option<Content> {
    if log == [] then None
    else if Writes(log[|log| - 1], f) then Some(log[|log| - 1].content)
    else Latest(log[..|log| - 1], f)
  }

  predicate Exists(log: Log, f: File) { Latest(log, f).Some? }

  lemma {:induction false} LatestIs(log: Log, f: File, i: nat)
    requires i < |log| && Writes(log[i], f)
    requires forall j | i < j < |log| :: !Writes(log[j], f)
    ensures Latest(log, f) == Some(log[i].content)
    decreases |log|
  {
    if i < |log| - 1 {
      LatestIs(log[..|log| - 1], f, i);
    }
  }

  lemma {:induction false} LatestMissing(log: Log, f: File)
    requires forall j | 0 <= j < |log| :: !Writes(log[j], f)
    ensures Latest(log, f) == None
  {
    if log != [] {
      LatestMissing(log[..|log| - 1], f);
    }
  }

  lemma {:induction false} LatestWasWritten(log: Log, f: File) returns (i: nat)
    requires Exists(log, f)
    ensures i < |log| && Writes(log[i], f) && Latest(log, f) == Some(log[i].content)
    ensures forall j | i < j < |log| :: !Writes(log[j], f)
  {
    if Writes(log[|log| - 1], f) {
      i := |log| - 1;
    } else {
      i := LatestWasWritten(log[..|log| - 1], f);
    }
  }

  lemma LatestStays(log: Log, e: Event, f: File)
    ensures Latest(log + [e], f) == if Writes(e, f) then Some(e.content) else Latest(log, f)
  {
    assert (log + [e])[..|log|] == log;
  }

  // ---------------------------------------------------------------- one write

  datatype Phase = Checking | WritingTemporary | Rechecking | Replacing | CleaningUp

  /** Where, if anywhere, a step goes wrong. Trouble in the computation before a write counts as
      trouble in its first phase. */
  datatype Fault = NoFault | Fault(phase: Phase, crash: bool)

  datatype Outcome = Done | Raised | Crashed

  function Stopped(fault: Fault): Outcome { if fault.Fault? && fault.crash then Crashed else Raised }

  predicate StrikesAt(fault: Fault, phase: Phase) { fault.Fault? && fault.phase == phase }

  /** `_atomic_bytes`: nothing before the replacement shows, and everything after it does. */
  function Written(log: Log, run: nat, f: File, content: Content, refuseExisting: bool, fault: Fault): (Log, Outcome) {
    if StrikesAt(fault, Checking) then (log, Stopped(fault))
    else if refuseExisting && Exists(log, f) then (log, Raised)
    else if fault.NoFault? then (log + [Wrote(run, f, content)], Done)
    else if fault.phase == CleaningUp then (log + [Wrote(run, f, content)], Stopped(fault))
    else (log, Stopped(fault))
  }

  /** `update_marker`: read, change, and replace without asking whether the file exists. */
  function Updated(
      log: Log, run: nat, f: File, status: Status, decision: Option<Decision>, fault: Fault): (Log, Outcome) {
    match Latest(log, f)
    case Some(Marker(owner, _, before)) =>
      Written(log, run, f, Marker(owner, status, if decision.Some? then decision else before), false, fault)
    case _ => (log, Raised)
  }

  // ---------------------------------------------------------------- the development run

  datatype NovemberWinner = NovemberWinner(model: nat, threshold: real)

  /** What the computations of a development run come to. */
  datatype DevelopmentPlan = DevelopmentPlan(codeSha: nat, state: StateValue, winner: Option<NovemberWinner>)

  datatype DevelopmentFaults = DevelopmentFaults(
    marker: Fault, state: Fault, decision: Fault, model: Fault, lock: Fault, complete: Fault, failing: Fault)

  const DEVELOPMENT_OUTPUTS: set<File> := {DevelopmentMarker, DecisionFile, StateFile, WinnerLock, WinnerModel}

  function DecisionOf(plan: DevelopmentPlan): Decision { if plan.winner.Some? then Winner else GovernedStop }

  function LockOf(plan: DevelopmentPlan, w: NovemberWinner, model: Content): Content {
    Lock(plan.codeSha, w.threshold, Digest(model), Digest(StateBytes(plan.state)), plan.state.frozen, false)
  }

  /** The winner's model and its lock; the model's digest is read back from the file. */
  function LockedIn(
      log: Log, run: nat, plan: DevelopmentPlan, w: NovemberWinner, faults: DevelopmentFaults): (Log, Outcome) {
    var m := Written(log, run, WinnerModel, ModelBytes(w.model), true, faults.model);
    if m.1 != Done then m
    else
      match Latest(m.0, WinnerModel)
      case Some(model) => Written(m.0, run, WinnerLock, LockOf(plan, w, model), true, faults.lock)
      case None => (m.0, Raised)
  }

  /** What follows the decision: lock in a winner, if any, and complete the marker. */
  function Closed(log: Log, run: nat, plan: DevelopmentPlan, faults: DevelopmentFaults): (Log, Outcome) {
    var l := if plan.winner.Some? then LockedIn(log, run, plan, plan.winner.value, faults) else (log, Done);
    if l.1 != Done then l
    else Updated(l.0, run, DevelopmentMarker, Complete, Some(DecisionOf(plan)), faults.complete)
  }

  /** The guarded part of the run. */
  function DevelopmentBody(log: Log, run: nat, plan: DevelopmentPlan, faults: DevelopmentFaults): (Log, Outcome) {
    var s := Written(log, run, StateFile, StateBytes(plan.state), true, faults.state);
    if s.1 != Done then s
    else
      var d := Written(s.0, run, DecisionFile, DecisionRecord(DecisionOf(plan)), true, faults.decision);
      if d.1 != Done then d
      else
        Closed(d.0, run, plan, faults)
  }

  /** What follows an exception in a guarded part: the marker is rewritten as failed. */
  function Guarded(body: (Log, Outcome), run: nat, marker: File, failing: Fault): (Log, Outcome) {
    if body.1 != Raised then body
    else
      var f := Updated(body.0, run, marker, Failed, None, failing);
      (f.0, if f.1 == Crashed then Crashed else Raised)
  }

  predicate AnyExists(log: Log, files: set<File>) { exists f | f in files :: Exists(log, f) }

  /** A whole development attempt: refuse existing outputs, claim the marker, then run guarded. */
  function Developed(log: Log, run: nat, plan: DevelopmentPlan, faults: DevelopmentFaults): (Log, Outcome) {
    if AnyExists(log, DEVELOPMENT_OUTPUTS) then (log, Raised)
    else
      var m := Written(log, run, DevelopmentMarker, Marker(run, Started, None), true, faults.marker);
      if m.1 != Done then m
      else Guarded(DevelopmentBody(m.0, run, plan, faults), run, DevelopmentMarker, faults.failing)
  }

  // ---------------------------------------------------------------- the December qualification

  datatype Frozen = Frozen(lock: Content, state: StateValue)

  /** `validate_december_handoff`, without the recovery branch. */
  function Handoff(log: Log): Option<Frozen> {
    match (Latest(log, DevelopmentMarker), Latest(log, WinnerLock), Latest(log, WinnerModel), Latest(log, StateFile))
    case (Some(Marker(_, Complete, Some(Winner))), Some(Lock(sha, threshold, model, state, true, false)),
          Some(onDisk), Some(StateBytes(value))) =>
      if Digest(onDisk) == model && Digest(StateBytes(value)) == state
      then Some(Frozen(Lock(sha, threshold, model, state, true, false), value))
      else None
    case _ => None
  }

  /** On any workspace whatever, a handoff succeeds exactly when the marker is completed with a
      winner, the lock is unevaluated and of the October state, and model and state on the disk are
      those the lock names. */
  lemma HandoffMatchesFiles(log: Log, lock: Content, state: StateValue)
    ensures Handoff(log) == Some(Frozen(lock, state))
       <==> && Latest(log, DevelopmentMarker).Some?
            && var marker := Latest(log, DevelopmentMarker).value;
            && marker.Marker? && marker.status == Complete && marker.decision == Some(Winner)
            && Latest(log, WinnerLock) == Some(lock)
            && lock.Lock? && lock.stateFrozen && !lock.decemberEvaluated
            && Exists(log, WinnerModel) && Digest(Latest(log, WinnerModel).value) == lock.modelDigest
            && Latest(log, StateFile) == Some(StateBytes(state)) && Digest(StateBytes(state)) == lock.stateDigest
  {
    hide Latest;
  }

  datatype DecemberFaults = DecemberFaults(
    marker: Fault, decoding: Fault, rows: Fault, manifest: Fault, scoring: Fault, result: Fault, complete: Fault, failing: Fault)

  function Verdict(passed: bool): Decision { if passed then Qualified else QualificationFailed }

  /** Load the frozen model, score December once, write the result and complete the marker. */
  function Evaluated(log: Log, run: nat, frozen: Frozen, passed: bool, faults: DecemberFaults): (Log, Outcome)
    requires frozen.lock.Lock?
  {
    match Latest(log, WinnerModel)
    case None => (log, Raised)
    case Some(model) =>
      if faults.scoring.Fault? then (log, Stopped(faults.scoring))
      else
        var scored := log + [Scored(run, model, frozen.state, frozen.lock.threshold)];
        var r := Written(scored, run, QualificationResult, Result(passed), true, faults.result);
        if r.1 != Done then r
        else Updated(r.0, run, QualificationMarker, Complete, Some(Verdict(passed)), faults.complete)
  }

  /** The guarded part: materialize December, then evaluate on it. */
  function DecemberBody(log: Log, run: nat, frozen: Frozen, passed: bool, faults: DecemberFaults): (Log, Outcome)
    requires frozen.lock.Lock?
  {
    if AnyExists(log, {DecemberRows, DecemberManifest}) then (log, Raised)
    else if faults.decoding.Fault? then (log, Stopped(faults.decoding))
    else
      var rows := Written(log + [Decoded(run)], run, DecemberRows, Rows(run), false, faults.rows);
      if rows.1 != Done then rows
      else
        var m := Written(rows.0, run, DecemberManifest, Manifest(Digest(Rows(run))), false, faults.manifest);
        if m.1 != Done then m else Evaluated(m.0, run, frozen, passed, faults)
  }

  /** A whole December attempt: handoff, lineage, unclaimed marker, then run guarded. */
  function Decembered(log: Log, run: nat, codeSha: nat, passed: bool, faults: DecemberFaults): (Log, Outcome) {
    var handoff := Handoff(log);
    if handoff.None? then (log, Raised)
    else if handoff.value.lock.codeSha != codeSha then (log, Raised)
    else if AnyExists(log, {QualificationMarker, QualificationResult}) then (log, Raised)
    else
      var m := Written(log, run, QualificationMarker, Marker(run, Started, None), true, faults.marker);
      if m.1 != Done then m
      else Guarded(DecemberBody(m.0, run, handoff.value, passed, faults), run, QualificationMarker, faults.failing)
  }

  // ---------------------------------------------------------------- the workspace

  ghost predicate Holds(files: map<File, Content>, log: Log) {
    forall f :: (f in files <==> Exists(log, f)) && (f in files ==> Latest(log, f) == Some(files[f]))
  }

  lemma HoldsAfterWrite(files: map<File, Content>, log: Log, run: nat, f: File, content: Content)
    requires Holds(files, log)
    ensures Holds(files[f := content], log + [Wrote(run, f, content)])
  {
    forall g ensures Latest(log + [Wrote(run, f, content)], g) == if g == f then Some(content) else Latest(log, g) {
      LatestStays(log, Wrote(run, f, content), g);
    }
  }

  /** The file tree. Its ghost log records every replacement, decoding and scoring in order. */
  class Workspace {
    var files: map<File, Content>
    var temporaries: set<File>
    ghost var log: Log

    ghost predicate Valid()
      reads this
    {
      Holds(files, log)
    }

    constructor ()
      ensures Valid() && log == []
    {
      files, temporaries, log := map[], {}, [];
    }

    /** Only a crash between the temporary file and the replacement leaves one behind: the replacement
        itself uses it up, and an exception removes it. */
    method AtomicWrite(
        run: nat, f: File, content: Content, refuseExisting: bool, fault: Fault)
      returns (outcome: Outcome)
      requires Valid()
      modifies this
      ensures Valid() && (log, outcome) == Written(old(log), run, f, content, refuseExisting, fault)
      ensures outcome != Crashed ==> temporaries <= old(temporaries)
      ensures outcome == Crashed ==>
        temporaries == if StrikesAt(fault, Checking) then old(temporaries)
          else if StrikesAt(fault, CleaningUp) then old(temporaries) - {f} else old(temporaries) + {f}
      ensures log != old(log) ==> temporaries == old(temporaries) - {f}
    {
      if StrikesAt(fault, Checking) {
        return Stopped(fault);
      }
      if refuseExisting && f in files {
        return Raised;
      }
      temporaries := temporaries + {f};
      outcome := Done;
      if StrikesAt(fault, WritingTemporary) || StrikesAt(fault, Rechecking) || StrikesAt(fault, Replacing) {
        outcome := Stopped(fault);
      } else {
        files, temporaries := files[f := content], temporaries - {f};
        HoldsAfterWrite(old(files), log, run, f, content);
        log := log + [Wrote(run, f, content)];
      }
      if StrikesAt(fault, CleaningUp) {
        return Stopped(fault);
      }
      if outcome != Crashed {
        temporaries := temporaries - {f};
      }
    }

    method UpdateMarker(
        run: nat, f: File, status: Status, decision: Option<Decision>, fault: Fault)
      returns (outcome: Outcome)
      requires Valid()
      modifies this
      ensures Valid() && (log, outcome) == Updated(old(log), run, f, status, decision, fault)
    {
      if f !in files || !files[f].Marker? {
        return Raised;
      }
      var marker := files[f];
      var updated := Marker(marker.run, status, if decision.Some? then decision else marker.decision);
      outcome := AtomicWrite(run, f, updated, false, fault);
    }

    ghost method Record(e: Event)
      requires Valid() && !e.Wrote?
      modifies this`log
      ensures Valid() && log == old(log) + [e]
    {
      forall g ensures Latest(log + [e], g) == Latest(log, g) {
        LatestStays(log, e, g);
      }
      log := log + [e];
    }

    method WriteWinner(
        run: nat, plan: DevelopmentPlan, w: NovemberWinner, faults: DevelopmentFaults)
      returns (outcome: Outcome)
      requires Valid()
      modifies this
      ensures Valid() && (log, outcome) == LockedIn(old(log), run, plan, w, faults)
    {
      outcome := AtomicWrite(run, WinnerModel, ModelBytes(w.model), true, faults.model);
      if outcome != Done {
        return;
      }
      if WinnerModel !in files {
        return Raised;
      }
      outcome := AtomicWrite(run, WinnerLock, LockOf(plan, w, files[WinnerModel]), true, faults.lock);
    }

    method DevelopGuarded(run: nat, plan: DevelopmentPlan, faults: DevelopmentFaults) returns (outcome: Outcome)
      requires Valid()
      modifies this
      ensures Valid() && (log, outcome) == DevelopmentBody(old(log), run, plan, faults)
    {
      hide Written, Updated, LockedIn, Holds;
      outcome := AtomicWrite(run, StateFile, StateBytes(plan.state), true, faults.state);
      if outcome != Done {
        return;
      }
      outcome := AtomicWrite(run, DecisionFile, DecisionRecord(DecisionOf(plan)), true, faults.decision);
      if outcome != Done {
        return;
      }
      if plan.winner.Some? {
        outcome := WriteWinner(run, plan, plan.winner.value, faults);
        if outcome != Done {
          return;
        }
      }
      outcome := UpdateMarker(run, DevelopmentMarker, Complete, Some(DecisionOf(plan)), faults.complete);
    }

    method AnyPresent(outputs: set<File>) returns (present: bool)
      requires Valid()
      ensures present <==> AnyExists(log, outputs)
    {
      present := exists f | f in outputs :: f in files;
    }

    /** The development attempt over the file tree. */
    method RunDevelopment(run: nat, plan: DevelopmentPlan, faults: DevelopmentFaults) returns (outcome: Outcome)
      requires Valid()
      modifies this
      ensures Valid() && (log, outcome) == Developed(old(log), run, plan, faults)
    {
      hide Written, Updated, DevelopmentBody, Holds, AnyExists;
      var present := AnyPresent(DEVELOPMENT_OUTPUTS);
      if present {
        return Raised;
      }
      outcome := AtomicWrite(run, DevelopmentMarker, Marker(run, Started, None), true, faults.marker);
      if outcome != Done {
        return;
      }
      outcome := DevelopGuarded(run, plan, faults);
      if outcome == Raised {
        var updated := UpdateMarker(run, DevelopmentMarker, Failed, None, faults.failing);
        outcome := if updated == Crashed then Crashed else Raised;
      }
    }

    /** The handoff checks over the file tree. */
    method ValidateHandoff() returns (r: Option<Frozen>)
      requires Valid()
      ensures r == Handoff(log)
    {
      if DevelopmentMarker !in files || !files[DevelopmentMarker].Marker? {
        return None;
      }
      var marker := files[DevelopmentMarker];
      if marker.status != Complete || marker.decision != Some(Winner) {
        return None;
      }
      if WinnerLock !in files || !files[WinnerLock].Lock? {
        return None;
      }
      var lock := files[WinnerLock];
      if lock.decemberEvaluated || !lock.stateFrozen {
        return None;
      }
      if WinnerModel !in files || Digest(files[WinnerModel]) != lock.modelDigest {
        return None;
      }
      if StateFile !in files || !files[StateFile].StateBytes? || Digest(files[StateFile]) != lock.stateDigest {
        return None;
      }
      return Some(Frozen(lock, files[StateFile].state));
    }

    method Evaluate(run: nat, frozen: Frozen, passed: bool, faults: DecemberFaults) returns (outcome: Outcome)
      requires Valid() && frozen.lock.Lock?
      modifies this
      ensures Valid() && (log, outcome) == Evaluated(old(log), run, frozen, passed, faults)
    {
      if WinnerModel !in files {
        return Raised;
      }
      if faults.scoring.Fault? {
        return Stopped(faults.scoring);
      }
      var model := files[WinnerModel];
      Record(Scored(run, model, frozen.state, frozen.lock.threshold));
      outcome := AtomicWrite(run, QualificationResult, Result(passed), true, faults.result);
      if outcome == Done {
        outcome := UpdateMarker(run, QualificationMarker, Complete, Some(Verdict(passed)), faults.complete);
      }
    }

    method DecemberGuarded(run: nat, frozen: Frozen, passed: bool, faults: DecemberFaults) returns (outcome: Outcome)
      requires Valid() && frozen.lock.Lock?
      modifies this
      ensures Valid() && (log, outcome) == DecemberBody(old(log), run, frozen, passed, faults)
    {
      hide Written, Evaluated, Holds, AnyExists;
      var present := AnyPresent({DecemberRows, DecemberManifest});
      if present {
        return Raised;
      }
      if faults.decoding.Fault? {
        return Stopped(faults.decoding);
      }
      Record(Decoded(run));
      outcome := AtomicWrite(run, DecemberRows, Rows(run), false, faults.rows);
      if outcome != Done {
        return;
      }
      outcome := AtomicWrite(run, DecemberManifest, Manifest(Digest(Rows(run))), false, faults.manifest);
      if outcome == Done {
        outcome := Evaluate(run, frozen, passed, faults);
      }
    }

    /** The December attempt over the file tree. */
    method RunDecember(run: nat, codeSha: nat, passed: bool, faults: DecemberFaults) returns (outcome: Outcome)
      requires Valid()
      modifies this
      ensures Valid() && (log, outcome) == Decembered(old(log), run, codeSha, passed, faults)
    {
      var handoff := ValidateHandoff();
      if handoff.None? || handoff.value.lock.codeSha != codeSha {
        return Raised;
      }
      hide Written, Updated, DecemberBody, Holds, AnyExists, Handoff;
      var present := AnyPresent({QualificationMarker, QualificationResult});
      if present {
        return Raised;
      }
      outcome := AtomicWrite(run, QualificationMarker, Marker(run, Started, None), true, faults.marker);
      if outcome != Done {
        return;
      }
      outcome := DecemberGuarded(run, handoff.value, passed, faults);
      if outcome == Raised {
        var updated := UpdateMarker(run, QualificationMarker, Failed, None, faults.failing);
        outcome := if updated == Crashed then Crashed else Raised;
      }
    }
  }
}
