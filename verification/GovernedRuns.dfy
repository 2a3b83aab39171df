/** What holds over every sequence of development and December attempts, each with any faults
    (src/flight_delay/modeling/v3/execution.py). An attempt that crashes stops where it is, so what
    holds of every log holds of the workspace at every interruption. */
module GovernedRuns {
  import opened GovernedExecution
  import opened Options

  // ---------------------------------------------------------------- attempts

  datatype Attempt =
    | Development(plan: DevelopmentPlan, developing: DevelopmentFaults)
    | December(codeSha: nat, passed: bool, qualifying: DecemberFaults)

  function Attempted(log: Log, run: nat, a: Attempt): (Log, Outcome) {
    match a
    case Development(plan, faults) => Developed(log, run, plan, faults)
    case December(codeSha, passed, faults) => Decembered(log, run, codeSha, passed, faults)
  }

  /** The log after any sequence of attempts on an empty workspace, one process at a time. */
  function LogAfter(attempts: seq<Attempt>): Log {
    if attempts == [] then []
    else Attempted(LogAfter(attempts[..|attempts| - 1]), |attempts| - 1, attempts[|attempts| - 1]).0
  }

  // ---------------------------------------------------------------- scripts

  function Begin(run: nat, marker: File): Event { Wrote(run, marker, Marker(run, Started, None)) }

  function End(run: nat, marker: File, d: Decision): Event { Wrote(run, marker, Marker(run, Complete, Some(d))) }

  function Failure(run: nat, marker: File, d: Option<Decision>): Event { Wrote(run, marker, Marker(run, Failed, d)) }

  /** Everything an undisturbed development run does. */
  function DevelopmentScript(run: nat, plan: DevelopmentPlan): (script: seq<Event>)
    ensures |script| == if plan.winner.Some? then 6 else 4
  {
    match plan.winner
    case Some(w) =>
      [Begin(run, DevelopmentMarker), Wrote(run, StateFile, StateBytes(plan.state)),
       Wrote(run, DecisionFile, DecisionRecord(Winner)), Wrote(run, WinnerModel, ModelBytes(w.model)),
       Wrote(run, WinnerLock, LockOf(plan, w, ModelBytes(w.model))), End(run, DevelopmentMarker, Winner)]
    case None =>
      [Begin(run, DevelopmentMarker), Wrote(run, StateFile, StateBytes(plan.state)),
       Wrote(run, DecisionFile, DecisionRecord(GovernedStop)), End(run, DevelopmentMarker, GovernedStop)]
  }

  /** Everything an undisturbed December run does with the frozen winner. */
  function DecemberScript(run: nat, frozen: Frozen, model: Content, passed: bool): (script: seq<Event>)
    requires frozen.lock.Lock?
    ensures |script| == 7
  {
    [Begin(run, QualificationMarker), Decoded(run), Wrote(run, DecemberRows, Rows(run)),
     Wrote(run, DecemberManifest, Manifest(Digest(Rows(run)))),
     Scored(run, model, frozen.state, frozen.lock.threshold),
     Wrote(run, QualificationResult, Result(passed)), End(run, QualificationMarker, Verdict(passed))]
  }

  /** The first `steps` events of a script and, if the run failed, the failure mark behind them. */
  function Traced(script: seq<Event>, steps: nat, failed: bool, run: nat, marker: File, d: Decision): seq<Event>
    requires steps <= |script|
  {
    script[..steps]
    + if failed then [Failure(run, marker, if steps == |script| then Some(d) else None)] else []
  }

  // ---------------------------------------------------------------- an attempt leaves a prefix of its script

  lemma WrittenFresh(log: Log, run: nat, f: File, content: Content, refuse: bool, fault: Fault)
    requires refuse ==> !Exists(log, f)
    ensures var w := Written(log, run, f, content, refuse, fault);
      && (w.0 == log || w.0 == log + [Wrote(run, f, content)])
      && w.1 == (if fault.NoFault? then Done else Stopped(fault))
      && (w.0 != log <==> fault.NoFault? || fault.phase == CleaningUp)
      && (w.0 != log ==> Latest(w.0, f) == Some(content))
      && forall g | g != f :: Latest(w.0, g) == Latest(log, g)
  {
    forall g ensures Latest(log + [Wrote(run, f, content)], g) == if g == f then Some(content) else Latest(log, g) {
      LatestStays(log, Wrote(run, f, content), g);
    }
  }

  lemma SliceExtends(log: Log, script: seq<Event>, i: nat, j: nat)
    requires i <= j < |script|
    ensures log + script[i..j] + [script[j]] == log + script[i..j + 1]
  {
  }

  lemma UpdatedIsWritten(log: Log, run: nat, f: File, status: Status, d: Option<Decision>, fault: Fault)
    requires Exists(log, f) && Latest(log, f).value.Marker?
    ensures var m := Latest(log, f).value;
      Updated(log, run, f, status, d, fault)
      == Written(log, run, f, Marker(m.run, status, if d.Some? then d else m.decision), false, fault)
  {
  }

  // ---------------------------------------------------------------- how far an attempt comes

  /** The steps taken when step `k` goes wrong: the step itself counts if only its cleaning up failed. */
  function Landed(k: nat, fault: Fault): nat
    requires fault.Fault?
  {
    if fault.phase == CleaningUp then k + 1 else k
  }

  /** The first fault that a development attempt meets. */
  function FirstFault(plan: DevelopmentPlan, f: DevelopmentFaults): Fault {
    if f.marker.Fault? then f.marker
    else if f.state.Fault? then f.state
    else if f.decision.Fault? then f.decision
    else if plan.winner.Some? && f.model.Fault? then f.model
    else if plan.winner.Some? && f.lock.Fault? then f.lock
    else f.complete
  }

  /** The steps it takes: everything before its first fault. */
  function DevelopmentSteps(plan: DevelopmentPlan, f: DevelopmentFaults): nat {
    if f.marker.Fault? then Landed(0, f.marker)
    else if f.state.Fault? then Landed(1, f.state)
    else if f.decision.Fault? then Landed(2, f.decision)
    else if plan.winner.Some? && f.model.Fault? then Landed(3, f.model)
    else if plan.winner.Some? && f.lock.Fault? then Landed(4, f.lock)
    else
      var last := if plan.winner.Some? then 5 else 3;
      if f.complete.Fault? then Landed(last, f.complete) else last + 1
  }

  function FirstDecemberFault(f: DecemberFaults): Fault {
    if f.marker.Fault? then f.marker
    else if f.decoding.Fault? then f.decoding
    else if f.rows.Fault? then f.rows
    else if f.manifest.Fault? then f.manifest
    else if f.scoring.Fault? then f.scoring
    else if f.result.Fault? then f.result
    else f.complete
  }

  /** Decoding and scoring leave nothing behind when they fail. */
  function DecemberSteps(f: DecemberFaults): nat {
    if f.marker.Fault? then Landed(0, f.marker)
    else if f.decoding.Fault? then 1
    else if f.rows.Fault? then Landed(2, f.rows)
    else if f.manifest.Fault? then Landed(3, f.manifest)
    else if f.scoring.Fault? then 4
    else if f.result.Fault? then Landed(5, f.result)
    else if f.complete.Fault? then Landed(6, f.complete)
    else 7
  }

  function EndOf(fault: Fault): Outcome { if fault.NoFault? then Done else Stopped(fault) }

  /** An attempt whose marker was claimed raises what it meets, unless marking the failure crashes. */
  function Ending(marker: Fault, first: Fault, failing: Fault): Outcome {
    if marker.Fault? || EndOf(first) != Raised then EndOf(first)
    else if failing.Fault? && failing.crash then Crashed else Raised
  }

  /** What the guarded part of a development run adds to the log. */
  ghost predicate BodyAdds(log: Log, run: nat, plan: DevelopmentPlan, body: (Log, Outcome), steps: nat) {
    var script := DevelopmentScript(run, plan);
    && 1 <= steps <= |script|
    && body.0 == log + script[1..steps]
    && (body.1 == Done ==> steps == |script|)
    && Latest(body.0, DevelopmentMarker)
       == Some(if steps == |script| then Marker(run, Complete, Some(DecisionOf(plan))) else Marker(run, Started, None))
  }

  predicate Undisturbed(plan: DevelopmentPlan, f: DevelopmentFaults) {
    && f.state.NoFault? && f.decision.NoFault?
    && (plan.winner.Some? ==> f.model.NoFault? && f.lock.NoFault?)
  }

  ghost predicate NoOutputs(log: Log) {
    forall f | f in DEVELOPMENT_OUTPUTS :: !Exists(log, f)
  }

  lemma LockAdds(log: Log, run: nat, plan: DevelopmentPlan, w: NovemberWinner, faults: DevelopmentFaults)
    requires !Exists(log, WinnerModel) && !Exists(log, WinnerLock)
    ensures var l := LockedIn(log, run, plan, w, faults);
      var events := [Wrote(run, WinnerModel, ModelBytes(w.model)), Wrote(run, WinnerLock, LockOf(plan, w, ModelBytes(w.model)))];
      && (l.0 == log || l.0 == log + events[..1] || l.0 == log + events)
      && (l.1 == Done <==> faults.model.NoFault? && faults.lock.NoFault?)
      && (l.1 == Done ==> l.0 == log + events)
      && (faults.model.Fault? ==> l == (log + events[..Landed(0, faults.model)], Stopped(faults.model)))
      && (faults.model.NoFault? && faults.lock.Fault? ==>
           l == (log + events[..Landed(1, faults.lock)], Stopped(faults.lock)))
      && Latest(l.0, DevelopmentMarker) == Latest(log, DevelopmentMarker)
  {
    hide Written;
    var m := Written(log, run, WinnerModel, ModelBytes(w.model), true, faults.model);
    WrittenFresh(log, run, WinnerModel, ModelBytes(w.model), true, faults.model);
    if m.1 == Done {
      var lock := LockOf(plan, w, ModelBytes(w.model));
      WrittenFresh(m.0, run, WinnerLock, lock, true, faults.lock);
      assert log + [Wrote(run, WinnerModel, ModelBytes(w.model))] + [Wrote(run, WinnerLock, lock)]
          == log + [Wrote(run, WinnerModel, ModelBytes(w.model)), Wrote(run, WinnerLock, lock)];
    }
    var events := [Wrote(run, WinnerModel, ModelBytes(w.model)), Wrote(run, WinnerLock, LockOf(plan, w, ModelBytes(w.model)))];
    assert log + events[..0] == log && events[..1] == [events[0]] && events[..2] == events;
  }

  lemma BodyAppends(log: Log, run: nat, plan: DevelopmentPlan, faults: DevelopmentFaults) returns (steps: nat)
    requires Latest(log, DevelopmentMarker) == Some(Marker(run, Started, None))
    requires forall f | f in DEVELOPMENT_OUTPUTS && f != DevelopmentMarker :: !Exists(log, f)
    ensures BodyAdds(log, run, plan, DevelopmentBody(log, run, plan, faults), steps)
    ensures faults.marker.NoFault? ==>
      && steps == DevelopmentSteps(plan, faults)
      && DevelopmentBody(log, run, plan, faults).1 == EndOf(FirstFault(plan, faults))
    ensures steps == |DevelopmentScript(run, plan)| <==> Undisturbed(plan, faults) && Replaces(faults.complete)
    ensures steps == |DevelopmentScript(run, plan)| ==>
      (DevelopmentBody(log, run, plan, faults).1 == Raised <==> faults.complete.Fault? && !faults.complete.crash)
  {
    hide Written, Closed, Latest;
    var script := DevelopmentScript(run, plan);
    var s := Written(log, run, StateFile, StateBytes(plan.state), true, faults.state);
    WrittenFresh(log, run, StateFile, StateBytes(plan.state), true, faults.state);
    SliceExtends(log, script, 1, 1);
    assert log + script[1..1] == log;
    if s.1 != Done {
      return if s.0 == log then 1 else 2;
    }
    var d := Written(s.0, run, DecisionFile, DecisionRecord(DecisionOf(plan)), true, faults.decision);
    WrittenFresh(s.0, run, DecisionFile, DecisionRecord(DecisionOf(plan)), true, faults.decision);
    SliceExtends(log, script, 1, 2);
    if d.1 != Done {
      return if d.0 == s.0 then 2 else 3;
    }
    steps := ClosingAppends(log, d.0, run, plan, faults);
  }

  lemma ClosingAppends(log: Log, decided: Log, run: nat, plan: DevelopmentPlan, faults: DevelopmentFaults)
    returns (steps: nat)
    requires decided == log + DevelopmentScript(run, plan)[1..3]
    requires Latest(decided, DevelopmentMarker) == Some(Marker(run, Started, None))
    requires !Exists(decided, WinnerModel) && !Exists(decided, WinnerLock)
    ensures steps >= 3 && BodyAdds(log, run, plan, Closed(decided, run, plan, faults), steps)
    ensures faults.marker.NoFault? && faults.state.NoFault? && faults.decision.NoFault? ==>
      && steps == DevelopmentSteps(plan, faults)
      && Closed(decided, run, plan, faults).1 == EndOf(FirstFault(plan, faults))
    ensures steps == |DevelopmentScript(run, plan)|
       <==> (plan.winner.Some? ==> faults.model.NoFault? && faults.lock.NoFault?) && Replaces(faults.complete)
    ensures steps == |DevelopmentScript(run, plan)| ==>
      (Closed(decided, run, plan, faults).1 == Raised <==> faults.complete.Fault? && !faults.complete.crash)
  {
    hide LockedIn, Updated, Latest;
    var script := DevelopmentScript(run, plan);
    var n, l := |script| - 1, (decided, Done);
    if plan.winner.Some? {
      l := LockedIn(decided, run, plan, plan.winner.value, faults);
      LockAdds(decided, run, plan, plan.winner.value, faults);
      assert script[3..5][..1] == script[3..4];
      assert log + script[1..3] + script[3..4] == log + script[1..4];
      assert log + script[1..3] + script[3..5] == log + script[1..5];
      if l.1 != Done {
        assert decided + [] == decided && |decided| < |log + script[1..4]| < |log + script[1..5]|;
        return if l.0 == decided then 3 else if l.0 == log + script[1..4] then 4 else 5;
      }
    }
    CompletionAppends(log, l.0, run, plan, faults.complete);
    var u := Updated(l.0, run, DevelopmentMarker, Complete, Some(DecisionOf(plan)), faults.complete);
    steps := if u.0 == l.0 then n else n + 1;
  }

  lemma CompletionAppends(log: Log, written: Log, run: nat, plan: DevelopmentPlan, fault: Fault)
    requires var script := DevelopmentScript(run, plan); written == log + script[1..|script| - 1]
    requires Latest(written, DevelopmentMarker) == Some(Marker(run, Started, None))
    ensures var u := Updated(written, run, DevelopmentMarker, Complete, Some(DecisionOf(plan)), fault);
      && (u.0 == written || u.0 == log + DevelopmentScript(run, plan)[1..])
      && (u.0 != written <==> fault.NoFault? || fault.phase == CleaningUp)
      && (u.1 == Done <==> fault.NoFault?)
      && (u.1 == Raised <==> fault.Fault? && !fault.crash)
      && u.1 == EndOf(fault)
      && Latest(u.0, DevelopmentMarker)
         == Some(if u.0 == written then Marker(run, Started, None) else Marker(run, Complete, Some(DecisionOf(plan))))
  {
    var script := DevelopmentScript(run, plan);
    UpdatedIsWritten(written, run, DevelopmentMarker, Complete, Some(DecisionOf(plan)), fault);
    WrittenFresh(written, run, DevelopmentMarker, Marker(run, Complete, Some(DecisionOf(plan))), false, fault);
    var n := |script| - 1;
    assert script[n] == End(run, DevelopmentMarker, DecisionOf(plan));
    assert script[1..] == script[1..n] + [script[n]];
    assert written + [script[n]] == log + script[1..];
  }

  /** The marker write of the failure branch reached the disk. */
  predicate Replaces(fault: Fault) { fault.NoFault? || fault.phase == CleaningUp }

  /** The guard around a body turns an exception into a failure mark, if that mark gets written. */
  lemma GuardedAppends(
      log: Log, script: seq<Event>, steps: nat, run: nat, marker: File, d: Decision, body: (Log, Outcome), failing: Fault)
    requires steps <= |script| && body.0 == log + script[..steps]
    requires Latest(body.0, marker)
          == Some(if steps == |script| then Marker(run, Complete, Some(d)) else Marker(run, Started, None))
    ensures var failed := body.1 == Raised && Replaces(failing);
      Guarded(body, run, marker, failing).0 == log + Traced(script, steps, failed, run, marker, d)
    ensures Guarded(body, run, marker, failing).1 == Done <==> body.1 == Done
    ensures Guarded(body, run, marker, failing).1
         == if body.1 == Raised && failing.Fault? && failing.crash then Crashed else body.1
  {
    hide Written, Updated;
    if body.1 == Raised {
      var mark := Marker(run, Failed, if steps == |script| then Some(d) else None);
      UpdatedIsWritten(body.0, run, marker, Failed, None, failing);
      WrittenFresh(body.0, run, marker, mark, false, failing);
      assert body.0 + [Wrote(run, marker, mark)] == log + (script[..steps] + [Wrote(run, marker, mark)]);
    }
    assert log + (script[..steps] + []) == log + script[..steps];
  }

  /** A development attempt on a workspace without outputs leaves a prefix of its script, followed
      by a failure mark at most. The marker turns from complete to failed in exactly one way: an
      undisturbed run raises while it removes the temporary file of its last marker write. */
  lemma DevelopmentAppendsAPrefix(log: Log, run: nat, plan: DevelopmentPlan, faults: DevelopmentFaults)
    returns (steps: nat, failed: bool)
    requires NoOutputs(log)
    ensures steps <= |DevelopmentScript(run, plan)| && (failed ==> steps > 0)
    ensures Developed(log, run, plan, faults).0
         == log + Traced(DevelopmentScript(run, plan), steps, failed, run, DevelopmentMarker, DecisionOf(plan))
    ensures Developed(log, run, plan, faults).1 == Done ==> steps == |DevelopmentScript(run, plan)| && !failed
    ensures steps == DevelopmentSteps(plan, faults)
    ensures failed <==> faults.marker.NoFault? && EndOf(FirstFault(plan, faults)) == Raised && Replaces(faults.failing)
    ensures Developed(log, run, plan, faults).1 == Ending(faults.marker, FirstFault(plan, faults), faults.failing)
    ensures steps == |DevelopmentScript(run, plan)|
       <==> faults.marker.NoFault? && Undisturbed(plan, faults) && Replaces(faults.complete)
    ensures steps == |DevelopmentScript(run, plan)| && failed
       <==> && faults.marker.NoFault? && Undisturbed(plan, faults)
            && StrikesAt(faults.complete, CleaningUp) && !faults.complete.crash && Replaces(faults.failing)
  {
    hide Written, DevelopmentBody, Updated, Guarded, Latest;
    var script := DevelopmentScript(run, plan);
    var m := Written(log, run, DevelopmentMarker, Marker(run, Started, None), true, faults.marker);
    WrittenFresh(log, run, DevelopmentMarker, Marker(run, Started, None), true, faults.marker);
    assert !AnyExists(log, DEVELOPMENT_OUTPUTS);
    if m.1 != Done {
      steps, failed := if m.0 == log then 0 else 1, false;
      assert log + (script[..0] + []) == log && log + (script[..1] + []) == log + [Begin(run, DevelopmentMarker)];
    } else {
      steps := BodyAppends(m.0, run, plan, faults);
      var body := DevelopmentBody(m.0, run, plan, faults);
      assert body.0 == log + script[..steps] by {
        assert log + [script[0]] + script[1..steps] == log + script[..steps];
      }
      failed := body.1 == Raised && Replaces(faults.failing);
      GuardedAppends(log, script, steps, run, DevelopmentMarker, DecisionOf(plan), body, faults.failing);
    }
  }

  // ---------------------------------------------------------------- the same for December

  ghost predicate NothingQualified(log: Log) {
    forall f | f in {QualificationMarker, QualificationResult, DecemberRows, DecemberManifest} :: !Exists(log, f)
  }

  /** What the guarded part of a December run adds to the log. */
  ghost predicate DecemberAdds(
    log: Log, run: nat, frozen: Frozen, model: Content, passed: bool, body: (Log, Outcome), steps: nat)
    requires frozen.lock.Lock?
  {
    var script := DecemberScript(run, frozen, model, passed);
    && 1 <= steps <= |script|
    && body.0 == log + script[1..steps]
    && (body.1 == Done ==> steps == |script|)
    && Latest(body.0, QualificationMarker)
       == Some(if steps == |script| then Marker(run, Complete, Some(Verdict(passed))) else Marker(run, Started, None))
  }

  predicate UndisturbedDecember(f: DecemberFaults) {
    f.decoding.NoFault? && f.rows.NoFault? && f.manifest.NoFault? && f.scoring.NoFault? && f.result.NoFault?
  }

  lemma NonWriteKeepsFiles(log: Log, e: Event)
    requires !e.Wrote?
    ensures forall f :: Latest(log + [e], f) == Latest(log, f)
  {
    forall f ensures Latest(log + [e], f) == Latest(log, f) {
      LatestStays(log, e, f);
    }
  }

  lemma EvaluationAppends(
      start: Log, log: Log, run: nat, frozen: Frozen, model: Content, passed: bool, faults: DecemberFaults)
    returns (steps: nat)
    requires frozen.lock.Lock? && Latest(log, WinnerModel) == Some(model)
    requires log == start + DecemberScript(run, frozen, model, passed)[1..4]
    requires Latest(log, QualificationMarker) == Some(Marker(run, Started, None)) && !Exists(log, QualificationResult)
    ensures steps >= 4 && DecemberAdds(start, run, frozen, model, passed, Evaluated(log, run, frozen, passed, faults), steps)
    ensures faults.marker.NoFault? && faults.decoding.NoFault? && faults.rows.NoFault? && faults.manifest.NoFault? ==>
      && steps == DecemberSteps(faults)
      && Evaluated(log, run, frozen, passed, faults).1 == EndOf(FirstDecemberFault(faults))
    ensures steps == 7 <==> faults.scoring.NoFault? && faults.result.NoFault? && Replaces(faults.complete)
    ensures steps == 7 ==>
      (Evaluated(log, run, frozen, passed, faults).1 == Raised <==> faults.complete.Fault? && !faults.complete.crash)
  {
    hide Written, Updated;
    var script := DecemberScript(run, frozen, model, passed);
    if faults.scoring.Fault? {
      return 4;
    }
    var scored := log + [script[4]];
    NonWriteKeepsFiles(log, script[4]);
    SliceExtends(start, script, 1, 4);
    SliceExtends(start, script, 1, 5);
    SliceExtends(start, script, 1, 6);
    var r := Written(scored, run, QualificationResult, Result(passed), true, faults.result);
    WrittenFresh(scored, run, QualificationResult, Result(passed), true, faults.result);
    if r.1 != Done {
      return if r.0 == scored then 5 else 6;
    }
    UpdatedIsWritten(r.0, run, QualificationMarker, Complete, Some(Verdict(passed)), faults.complete);
    WrittenFresh(r.0, run, QualificationMarker, Marker(run, Complete, Some(Verdict(passed))), false, faults.complete);
    steps := if Replaces(faults.complete) then 7 else 6;
  }

  lemma DecemberBodyAppends(
      log: Log, run: nat, frozen: Frozen, model: Content, passed: bool, faults: DecemberFaults)
    returns (steps: nat)
    requires frozen.lock.Lock? && Latest(log, WinnerModel) == Some(model)
    requires Latest(log, QualificationMarker) == Some(Marker(run, Started, None))
    requires !Exists(log, QualificationResult) && !Exists(log, DecemberRows) && !Exists(log, DecemberManifest)
    ensures DecemberAdds(log, run, frozen, model, passed, DecemberBody(log, run, frozen, passed, faults), steps)
    ensures faults.marker.NoFault? ==>
      && steps == DecemberSteps(faults)
      && DecemberBody(log, run, frozen, passed, faults).1 == EndOf(FirstDecemberFault(faults))
    ensures steps == 7 <==> UndisturbedDecember(faults) && Replaces(faults.complete)
    ensures steps == 7 ==>
      (DecemberBody(log, run, frozen, passed, faults).1 == Raised <==> faults.complete.Fault? && !faults.complete.crash)
  {
    hide Written, Evaluated;
    var script := DecemberScript(run, frozen, model, passed);
    assert !AnyExists(log, {DecemberRows, DecemberManifest});
    if faults.decoding.Fault? {
      return 1;
    }
    var decoded := log + [script[1]];
    NonWriteKeepsFiles(log, script[1]);
    var rows := Written(decoded, run, DecemberRows, Rows(run), false, faults.rows);
    WrittenFresh(decoded, run, DecemberRows, Rows(run), false, faults.rows);
    assert log + script[1..1] == log;
    SliceExtends(log, script, 1, 1);
    SliceExtends(log, script, 1, 2);
    SliceExtends(log, script, 1, 3);
    if rows.1 != Done {
      return if rows.0 == decoded then 2 else 3;
    }
    var m := Written(rows.0, run, DecemberManifest, Manifest(Digest(Rows(run))), false, faults.manifest);
    WrittenFresh(rows.0, run, DecemberManifest, Manifest(Digest(Rows(run))), false, faults.manifest);
    if m.1 != Done {
      return if m.0 == rows.0 then 3 else 4;
    }
    steps := EvaluationAppends(log, m.0, run, frozen, model, passed, faults);
  }

  /** What follows the first marker write of a December attempt, failure handling included. */
  lemma StartedDecemberAppends(
      log: Log, run: nat, frozen: Frozen, model: Content, passed: bool, faults: DecemberFaults)
    returns (steps: nat, failed: bool)
    requires frozen.lock.Lock?
    requires var start := log + [Begin(run, QualificationMarker)];
      && Latest(start, WinnerModel) == Some(model)
      && Latest(start, QualificationMarker) == Some(Marker(run, Started, None))
      && !Exists(start, QualificationResult) && !Exists(start, DecemberRows) && !Exists(start, DecemberManifest)
    ensures steps <= 7 && (failed ==> steps > 0)
    ensures var start := log + [Begin(run, QualificationMarker)];
      var r := Guarded(DecemberBody(start, run, frozen, passed, faults), run, QualificationMarker, faults.failing);
      && r.0 == log + Traced(
           DecemberScript(run, frozen, model, passed), steps, failed, run, QualificationMarker, Verdict(passed))
      && (r.1 == Done ==> steps == 7 && !failed)
      && (faults.marker.NoFault? ==>
           && steps == DecemberSteps(faults)
           && (failed <==> EndOf(FirstDecemberFault(faults)) == Raised && Replaces(faults.failing))
           && r.1 == Ending(NoFault, FirstDecemberFault(faults), faults.failing))
    ensures steps == 7 <==> UndisturbedDecember(faults) && Replaces(faults.complete)
    ensures steps == 7 && failed
       <==> && UndisturbedDecember(faults)
            && StrikesAt(faults.complete, CleaningUp) && !faults.complete.crash && Replaces(faults.failing)
  {
    hide DecemberBody, Guarded, Latest, UndisturbedDecember;
    var start := log + [Begin(run, QualificationMarker)];
    var script := DecemberScript(run, frozen, model, passed);
    steps := DecemberBodyAppends(start, run, frozen, model, passed, faults);
    var body := DecemberBody(start, run, frozen, passed, faults);
    assert body.0 == log + script[..steps] by {
      assert log + [script[0]] + script[1..steps] == log + script[..steps];
    }
    failed := body.1 == Raised && Replaces(faults.failing);
    GuardedAppends(log, script, steps, run, QualificationMarker, Verdict(passed), body, faults.failing);
  }

  /** A December attempt after a valid handoff and on an unqualified workspace leaves a prefix of
      its script, followed by a failure mark at most. Its marker, too, turns from complete to failed
      in exactly one way: the run is undisturbed up to the last marker write and raises while it
      removes that write's temporary file. */
  lemma DecemberAppendsAPrefix(log: Log, run: nat, codeSha: nat, passed: bool, faults: DecemberFaults)
    returns (model: Content, steps: nat, failed: bool)
    requires Handoff(log).Some? && Handoff(log).value.lock.codeSha == codeSha && NothingQualified(log)
    ensures Latest(log, WinnerModel) == Some(model)
    ensures steps <= 7 && (failed ==> steps > 0)
    ensures var frozen := Handoff(log).value;
      Decembered(log, run, codeSha, passed, faults).0
      == log + Traced(
        DecemberScript(run, frozen, model, passed), steps, failed, run, QualificationMarker, Verdict(passed))
    ensures Decembered(log, run, codeSha, passed, faults).1 == Done ==> steps == 7 && !failed
    ensures steps == DecemberSteps(faults)
    ensures failed <==> faults.marker.NoFault? && EndOf(FirstDecemberFault(faults)) == Raised && Replaces(faults.failing)
    ensures Decembered(log, run, codeSha, passed, faults).1
         == Ending(faults.marker, FirstDecemberFault(faults), faults.failing)
    ensures steps == 7 <==> faults.marker.NoFault? && UndisturbedDecember(faults) && Replaces(faults.complete)
    ensures steps == 7 && failed
       <==> && faults.marker.NoFault? && UndisturbedDecember(faults)
            && StrikesAt(faults.complete, CleaningUp) && !faults.complete.crash && Replaces(faults.failing)
  {
    model := Latest(log, WinnerModel).value;
    var frozen := Handoff(log).value;
    var script := DecemberScript(run, frozen, model, passed);
    hide Written, DecemberBody, Updated, Handoff, Guarded, Latest, UndisturbedDecember;
    assert !Exists(log, QualificationMarker) && !Exists(log, QualificationResult);
    assert !Exists(log, DecemberRows) && !Exists(log, DecemberManifest);
    var m := Written(log, run, QualificationMarker, Marker(run, Started, None), true, faults.marker);
    WrittenFresh(log, run, QualificationMarker, Marker(run, Started, None), true, faults.marker);
    assert !AnyExists(log, {QualificationMarker, QualificationResult});
    if m.1 != Done {
      steps, failed := if m.0 == log then 0 else 1, false;
      assert log + (script[..0] + []) == log && log + (script[..1] + []) == log + [Begin(run, QualificationMarker)];
    } else {
      steps, failed := StartedDecemberAppends(log, run, frozen, model, passed, faults);
    }
  }
}
