/** Safety of the governed execution over all sequences of attempts: every log is at most one
    development trace followed by at most one December trace, and the guarantees follow. */
module GovernedSafety {
  import opened GovernedExecution
  import opened GovernedRuns
  import opened Options

  // ---------------------------------------------------------------- the shape of every log

  datatype DevelopmentPart = DevelopmentPart(run: nat, plan: DevelopmentPlan, steps: nat, failed: bool)

  datatype DecemberPart = DecemberPart(run: nat, frozen: Frozen, model: Content, passed: bool, steps: nat, failed: bool)

  datatype History = History(development: Option<DevelopmentPart>, december: Option<DecemberPart>)

  predicate ValidDevelopment(p: DevelopmentPart) { 1 <= p.steps <= |DevelopmentScript(p.run, p.plan)| }

  predicate ValidDecember(q: DecemberPart) { q.frozen.lock.Lock? && 1 <= q.steps <= 7 }

  function DevelopmentEvents(p: DevelopmentPart): Log
    requires ValidDevelopment(p)
  {
    Traced(DevelopmentScript(p.run, p.plan), p.steps, p.failed, p.run, DevelopmentMarker, DecisionOf(p.plan))
  }

  function DecemberEvents(q: DecemberPart): Log
    requires ValidDecember(q)
  {
    Traced(
      DecemberScript(q.run, q.frozen, q.model, q.passed), q.steps, q.failed, q.run, QualificationMarker, Verdict(q.passed))
  }

  /** The development run came through with a winner on the October state. */
  predicate HandsOver(p: DevelopmentPart) {
    p.plan.winner.Some? && p.plan.state.frozen && p.steps == 6 && !p.failed
  }

  function FrozenBy(plan: DevelopmentPlan): Frozen
    requires plan.winner.Some?
  {
    Frozen(LockOf(plan, plan.winner.value, ModelBytes(plan.winner.value.model)), plan.state)
  }

  predicate ValidHistory(h: History) {
    && (h.development.Some? ==> ValidDevelopment(h.development.value))
    && (h.december.Some? ==>
         && ValidDecember(h.december.value)
         && h.development.Some? && HandsOver(h.development.value)
         && h.december.value.frozen == FrozenBy(h.development.value.plan)
         && h.december.value.model == ModelBytes(h.development.value.plan.winner.value.model))
  }

  function LogOf(h: History): Log
    requires ValidHistory(h)
  {
    (if h.development.Some? then DevelopmentEvents(h.development.value) else [])
    + (if h.december.Some? then DecemberEvents(h.december.value) else [])
  }

  // ---------------------------------------------------------------- where the files are written

  /** Each file of a development script has its place; only the marker has two. */
  lemma DevelopmentPlaces(run: nat, plan: DevelopmentPlan, i: nat)
    requires i < |DevelopmentScript(run, plan)|
    ensures var script := DevelopmentScript(run, plan);
      && script[i].Wrote? && script[i].run == run && script[i].file in DEVELOPMENT_OUTPUTS
      && (script[i].file == DevelopmentMarker <==> i == 0 || i == |script| - 1)
      && (script[i].file == StateFile <==> i == 1)
      && (script[i].file == DecisionFile <==> i == 2)
      && (script[i].file == WinnerModel <==> i == 3 && plan.winner.Some?)
      && (script[i].file == WinnerLock <==> i == 4 && plan.winner.Some?)
  {
    if i == 0 || i == 1 || i == 2 {
    } else if i == 3 || i == 4 {
    } else {
      assert i == 5;
    }
  }

  lemma DecemberPlaces(run: nat, frozen: Frozen, model: Content, passed: bool, i: nat)
    requires frozen.lock.Lock? && i < 7
    ensures var e := DecemberScript(run, frozen, model, passed)[i];
      && (e.Wrote? ==> e.run == run && e.file !in DEVELOPMENT_OUTPUTS)
      && (e.Decoded? <==> i == 1) && (e.Scored? <==> i == 4)
      && (e.Wrote? ==>
           && (e.file == QualificationMarker <==> i == 0 || i == 6)
           && (e.file == DecemberRows <==> i == 2) && (e.file == DecemberManifest <==> i == 3)
           && (e.file == QualificationResult <==> i == 5))
  {
    if i == 0 || i == 1 || i == 2 {
    } else if i == 3 || i == 4 {
    } else {
      assert i == 5 || i == 6;
    }
  }

  lemma {:induction false} LatestOfOthers(log: Log, more: Log, f: File)
    requires forall i | 0 <= i < |more| :: !Writes(more[i], f)
    ensures Latest(log + more, f) == Latest(log, f)
    decreases |more|
  {
    if more == [] {
      assert log + more == log;
    } else {
      var front := more[..|more| - 1];
      LatestOfOthers(log, front, f);
      assert log + more == (log + front) + [more[|more| - 1]];
      LatestStays(log + front, more[|more| - 1], f);
    }
  }

  /** December never writes a development file. */
  lemma DecemberLeavesDevelopment(log: Log, q: DecemberPart, f: File)
    requires ValidDecember(q) && f in DEVELOPMENT_OUTPUTS
    ensures Latest(log + DecemberEvents(q), f) == Latest(log, f)
  {
    forall i | 0 <= i < |DecemberEvents(q)| ensures !Writes(DecemberEvents(q)[i], f) {
      if i < q.steps {
        DecemberPlaces(q.run, q.frozen, q.model, q.passed, i);
      }
    }
    LatestOfOthers(log, DecemberEvents(q), f);
  }

  /** The development marker after a development trace. */
  lemma MarkerAfterDevelopment(p: DevelopmentPart)
    requires ValidDevelopment(p)
    ensures var n := |DevelopmentScript(p.run, p.plan)|;
      var d := if p.steps == n then Some(DecisionOf(p.plan)) else None;
      Latest(DevelopmentEvents(p), DevelopmentMarker)
      == Some(Marker(p.run, if p.failed then Failed else if p.steps == n then Complete else Started, d))
  {
    var events, script := DevelopmentEvents(p), DevelopmentScript(p.run, p.plan);
    forall i | 0 <= i < p.steps ensures Writes(events[i], DevelopmentMarker) <==> i == 0 || i == |script| - 1 {
      DevelopmentPlaces(p.run, p.plan, i);
    }
    LatestIs(events, DevelopmentMarker, if p.failed || p.steps == |script| then |events| - 1 else 0);
  }

  lemma NothingFromDecember(p: DevelopmentPart, f: File)
    requires ValidDevelopment(p) && f !in DEVELOPMENT_OUTPUTS
    ensures !Exists(DevelopmentEvents(p), f)
  {
    var events := DevelopmentEvents(p);
    forall i | 0 <= i < |events| ensures !Writes(events[i], f) {
      if i < p.steps {
        DevelopmentPlaces(p.run, p.plan, i);
      }
    }
    LatestMissing(events, f);
  }

  lemma WinnerFiles(p: DevelopmentPart)
    requires HandsOver(p)
    ensures Latest(DevelopmentEvents(p), StateFile) == Some(StateBytes(p.plan.state))
    ensures Latest(DevelopmentEvents(p), DecisionFile) == Some(DecisionRecord(Winner))
    ensures Latest(DevelopmentEvents(p), WinnerModel) == Some(ModelBytes(p.plan.winner.value.model))
    ensures Latest(DevelopmentEvents(p), WinnerLock) == Some(FrozenBy(p.plan).lock)
  {
    var events := DevelopmentEvents(p);
    forall i | 0 <= i < 6
      ensures Writes(events[i], StateFile) <==> i == 1
      ensures Writes(events[i], DecisionFile) <==> i == 2
      ensures Writes(events[i], WinnerModel) <==> i == 3
      ensures Writes(events[i], WinnerLock) <==> i == 4
    {
      DevelopmentPlaces(p.run, p.plan, i);
    }
    LatestIs(events, StateFile, 1);
    LatestIs(events, DecisionFile, 2);
    LatestIs(events, WinnerModel, 3);
    LatestIs(events, WinnerLock, 4);
  }

  /** Without the frozen October state the lock says so, and the handoff refuses. */
  lemma UnfrozenLock(p: DevelopmentPart)
    requires ValidDevelopment(p) && p.plan.winner.Some? && p.steps == 6 && !p.plan.state.frozen
    ensures Latest(DevelopmentEvents(p), WinnerLock) == Some(FrozenBy(p.plan).lock)
  {
    var events := DevelopmentEvents(p);
    forall i | 0 <= i < 6 ensures Writes(events[i], WinnerLock) <==> i == 4 {
      DevelopmentPlaces(p.run, p.plan, i);
    }
    LatestIs(events, WinnerLock, 4);
  }

  /** A development trace hands over exactly when it came through with a winner on the October
      state, and then hands over that run's own lock and state. */
  lemma HandoffExactly(p: DevelopmentPart)
    requires ValidDevelopment(p)
    ensures Handoff(DevelopmentEvents(p)) == if HandsOver(p) then Some(FrozenBy(p.plan)) else None
  {
    hide Latest, DevelopmentEvents;
    MarkerAfterDevelopment(p);
    if HandsOver(p) {
      WinnerFiles(p);
    } else if p.plan.winner.Some? && p.steps == 6 && !p.failed {
      UnfrozenLock(p);
    }
  }

  lemma HandoffAfterDecember(log: Log, q: DecemberPart)
    requires ValidDecember(q)
    ensures Handoff(log + DecemberEvents(q)) == Handoff(log)
  {
    hide Latest, DecemberEvents;
    forall f | f in DEVELOPMENT_OUTPUTS ensures Latest(log + DecemberEvents(q), f) == Latest(log, f) {
      DecemberLeavesDevelopment(log, q, f);
    }
  }

  lemma QualificationStarted(log: Log, q: DecemberPart)
    requires ValidDecember(q)
    ensures Exists(log + DecemberEvents(q), QualificationMarker)
  {
    var all := log + DecemberEvents(q);
    assert Writes(all[|log|], QualificationMarker);
    if !Exists(all, QualificationMarker) {
      StillThere(all, QualificationMarker, |log|);
    }
  }

  lemma {:induction false} StillThere(log: Log, f: File, i: nat)
    requires i < |log| && Writes(log[i], f)
    ensures Exists(log, f)
    decreases |log|
  {
    if i < |log| - 1 {
      StillThere(log[..|log| - 1], f, i);
    }
  }

  // ---------------------------------------------------------------- every run has such a shape

  lemma NextDevelopment(h: History, run: nat, plan: DevelopmentPlan, faults: DevelopmentFaults) returns (next: History)
    requires ValidHistory(h)
    ensures ValidHistory(next) && Developed(LogOf(h), run, plan, faults).0 == LogOf(next)
    ensures next == h
         || (h == History(None, None) && next.development.Some? && next.december.None?
             && next.development.value.run == run && next.development.value.plan == plan)
  {
    hide DevelopmentEvents, DecemberEvents;
    var log := LogOf(h);
    if h.development.Some? {
      assert Exists(log, DevelopmentMarker) by {
        MarkerAfterDevelopment(h.development.value);
        var start := DevelopmentEvents(h.development.value);
        if h.december.Some? {
          DecemberLeavesDevelopment(start, h.december.value, DevelopmentMarker);
        } else {
          assert log == start;
        }
      }
      return h;
    }
    assert log == [];
    var steps, failed := DevelopmentAppendsAPrefix(log, run, plan, faults);
    FirstDevelopment(run, plan, faults, steps, failed);
    next := if steps == 0 then h else History(Some(DevelopmentPart(run, plan, steps, failed)), None);
  }

  lemma FirstDevelopment(run: nat, plan: DevelopmentPlan, faults: DevelopmentFaults, steps: nat, failed: bool)
    requires steps <= |DevelopmentScript(run, plan)| && (failed ==> steps > 0)
    ensures var events := Traced(DevelopmentScript(run, plan), steps, failed, run, DevelopmentMarker, DecisionOf(plan));
      && [] + events == events
      && (steps == 0 ==> events == [])
      && (steps > 0 ==> LogOf(History(Some(DevelopmentPart(run, plan, steps, failed)), None)) == events)
  {
  }

  lemma NextDecember(h: History, run: nat, codeSha: nat, passed: bool, faults: DecemberFaults) returns (next: History)
    requires ValidHistory(h)
    ensures ValidHistory(next) && Decembered(LogOf(h), run, codeSha, passed, faults).0 == LogOf(next)
    ensures next.development == h.development
    ensures next.december == h.december
         || (next.december.Some? && next.december.value.run == run && next.december.value.passed == passed
             && h.development.value.plan.codeSha == codeSha)
  {
    hide DevelopmentEvents, DecemberEvents, DecemberBody, Written;
    var log := LogOf(h);
    if h.development.None? {
      assert log == [] && Handoff(log).None?;
      return h;
    }
    var p := h.development.value;
    var start := DevelopmentEvents(p);
    HandoffExactly(p);
    if h.december.Some? {
      HandoffAfterDecember(start, h.december.value);
      QualificationStarted(start, h.december.value);
      return h;
    }
    assert log == start;
    if !HandsOver(p) || FrozenBy(p.plan).lock.codeSha != codeSha {
      return h;
    }
    next := StartDecember(p, run, codeSha, passed, faults);
  }

  lemma StartDecember(
      p: DevelopmentPart, run: nat, codeSha: nat, passed: bool, faults: DecemberFaults)
    returns (next: History)
    requires ValidDevelopment(p) && HandsOver(p) && FrozenBy(p.plan).lock.codeSha == codeSha
    ensures ValidHistory(next) && Decembered(DevelopmentEvents(p), run, codeSha, passed, faults).0 == LogOf(next)
    ensures next.development == Some(p)
    ensures next.december.Some? ==> next.december.value.run == run && next.december.value.passed == passed
    ensures next.december.Some? && next.december.value.steps == 7 && next.december.value.failed
       <==> && faults.marker.NoFault? && UndisturbedDecember(faults)
            && StrikesAt(faults.complete, CleaningUp) && !faults.complete.crash && Replaces(faults.failing)
  {
    hide DevelopmentEvents, Decembered, Handoff, Latest, UndisturbedDecember;
    var start := DevelopmentEvents(p);
    HandoffExactly(p);
    WinnerFiles(p);
    forall f | f in {QualificationMarker, QualificationResult, DecemberRows, DecemberManifest} ensures !Exists(start, f) {
      NothingFromDecember(p, f);
    }
    var model, steps, failed := DecemberAppendsAPrefix(start, run, codeSha, passed, faults);
    if steps == 0 {
      next := History(Some(p), None);
    } else {
      next := History(Some(p), Some(DecemberPart(run, FrozenBy(p.plan), model, passed, steps, failed)));
    }
  }

  /** The parts of a history are attempts that were made, December after development and from the
      same code. */
  ghost predicate StemsFrom(h: History, attempts: seq<Attempt>) {
    && (h.development.Some? ==>
         var p := h.development.value;
         p.run < |attempts| && attempts[p.run].Development? && attempts[p.run].plan == p.plan)
    && (h.december.Some? ==>
         var q := h.december.value;
         && h.development.Some? && h.development.value.run < q.run < |attempts|
         && attempts[q.run].December? && attempts[q.run].passed == q.passed
         && attempts[q.run].codeSha == h.development.value.plan.codeSha)
  }

  /** Every reachable log is one development trace, if any, followed by one December trace, if any,
      and the second only after a run that hands over. */
  lemma {:induction false} EveryLogHasAHistory(attempts: seq<Attempt>) returns (h: History)
    ensures ValidHistory(h) && LogAfter(attempts) == LogOf(h)
    ensures StemsFrom(h, attempts)
  {
    hide Developed, Decembered, LogOf, ValidHistory;
    if attempts == [] {
      h := History(None, None);
      EmptyHistory();
    } else {
      var n := |attempts| - 1;
      var before := EveryLogHasAHistory(attempts[..n]);
      assert forall k | 0 <= k < n :: attempts[..n][k] == attempts[k];
      match attempts[n]
      case Development(plan, faults) => h := NextDevelopment(before, n, plan, faults);
      case December(codeSha, passed, faults) =>
        h := NextDecember(before, n, codeSha, passed, faults);
        HistoryNeedsDevelopment(h);
    }
  }

  lemma HistoryNeedsDevelopment(h: History)
    requires ValidHistory(h)
    ensures h.december.Some? ==> h.development.Some?
  {
  }

  lemma EmptyHistory()
    ensures ValidHistory(History(None, None)) && LogOf(History(None, None)) == []
  {
  }

  // ---------------------------------------------------------------- outputs never change

  const MARKERS: set<File> := {DevelopmentMarker, QualificationMarker}

  ghost predicate WrittenOnce(log: Log, f: File) {
    forall i, j | 0 <= i < j < |log| :: !(Writes(log[i], f) && Writes(log[j], f))
  }

  /** Where the event at index `i` of a history comes from. */
  lemma EventOf(h: History, i: nat)
    requires ValidHistory(h) && i < |LogOf(h)|
    ensures var n := if h.development.Some? then |DevelopmentEvents(h.development.value)| else 0;
      && (i < n ==> h.development.Some? && LogOf(h)[i] == DevelopmentEvents(h.development.value)[i])
      && (i >= n ==>
           && h.december.Some? && i - n < |DecemberEvents(h.december.value)|
           && LogOf(h)[i] == DecemberEvents(h.december.value)[i - n])
  {
  }

  /** Refusing to replace is enough on its own: whoever writes a file this way, and whatever goes
      wrong, it is still written at most once. */
  lemma RefusingWritesOnce(log: Log, run: nat, f: File, content: Content, fault: Fault)
    requires WrittenOnce(log, f)
    ensures WrittenOnce(Written(log, run, f, content, true, fault).0, f)
    ensures Exists(log, f) ==> Written(log, run, f, content, true, fault).0 == log
  {
    var after := Written(log, run, f, content, true, fault).0;
    if !Exists(log, f) {
      forall i | 0 <= i < |log| ensures !Writes(log[i], f) {
        if Writes(log[i], f) {
          StillThere(log, f, i);
        }
      }
      assert forall i | 0 <= i < |log| :: after[i] == log[i];
    }
  }

  lemma DevelopmentWritesOnce(p: DevelopmentPart, f: File)
    requires ValidDevelopment(p) && f !in MARKERS
    ensures WrittenOnce(DevelopmentEvents(p), f)
    ensures forall e | e in DevelopmentEvents(p) :: e.Wrote? && e.run == p.run && e.file in DEVELOPMENT_OUTPUTS
  {
    var events := DevelopmentEvents(p);
    forall i | 0 <= i < |events| ensures events[i].Wrote? && events[i].run == p.run && events[i].file in DEVELOPMENT_OUTPUTS {
      if i < p.steps {
        DevelopmentPlaces(p.run, p.plan, i);
      }
    }
    forall i, j | 0 <= i < j < |events| ensures !(Writes(events[i], f) && Writes(events[j], f)) {
      DevelopmentPlaces(p.run, p.plan, i);
      if j < p.steps {
        DevelopmentPlaces(p.run, p.plan, j);
      }
    }
  }

  lemma DecemberWritesOnce(q: DecemberPart, f: File)
    requires ValidDecember(q) && f !in MARKERS
    ensures WrittenOnce(DecemberEvents(q), f)
    ensures forall e | e in DecemberEvents(q) && e.Wrote? :: e.file !in DEVELOPMENT_OUTPUTS
  {
    var events := DecemberEvents(q);
    forall i | 0 <= i < |events| && events[i].Wrote? ensures events[i].file !in DEVELOPMENT_OUTPUTS {
      if i < q.steps {
        DecemberPlaces(q.run, q.frozen, q.model, q.passed, i);
      }
    }
    forall i, j | 0 <= i < j < |events| ensures !(Writes(events[i], f) && Writes(events[j], f)) {
      DecemberPlaces(q.run, q.frozen, q.model, q.passed, i);
      if j < q.steps {
        DecemberPlaces(q.run, q.frozen, q.model, q.passed, j);
      }
    }
  }

  lemma HistoryWritesOnce(h: History, f: File)
    requires ValidHistory(h) && f !in MARKERS
    ensures WrittenOnce(LogOf(h), f)
  {
    hide DevelopmentEvents, DecemberEvents, ValidDecember, ValidDevelopment, HandsOver, LogOf;
    if h.development.Some? {
      DevelopmentWritesOnce(h.development.value, f);
    }
    if h.december.Some? {
      DecemberWritesOnce(h.december.value, f);
    }
    forall i, j | 0 <= i < j < |LogOf(h)| ensures !(Writes(LogOf(h)[i], f) && Writes(LogOf(h)[j], f)) {
      EventOf(h, i);
      EventOf(h, j);
    }
  }

  /** Over any sequence of attempts, no output other than a marker is ever written twice. */
  lemma OutputsAreWrittenOnce(attempts: seq<Attempt>, f: File)
    requires f !in MARKERS
    ensures WrittenOnce(LogAfter(attempts), f)
  {
    hide LogAfter, LogOf;
    var h := EveryLogHasAHistory(attempts);
    HistoryWritesOnce(h, f);
  }

  /** So from the moment it exists, at any interruption point, such an output keeps its content. */
  lemma OutputsNeverChange(attempts: seq<Attempt>, f: File, i: nat, j: nat)
    requires f !in MARKERS && i <= j <= |LogAfter(attempts)| && Exists(LogAfter(attempts)[..i], f)
    ensures Latest(LogAfter(attempts)[..j], f) == Latest(LogAfter(attempts)[..i], f)
  {
    hide LogAfter;
    var log := LogAfter(attempts);
    OutputsAreWrittenOnce(attempts, f);
    var k := LatestWasWritten(log[..i], f);
    forall m | k < m < j ensures !Writes(log[..j][m], f) {
      assert Writes(log[k], f);
    }
    LatestIs(log[..j], f, k);
  }

  // ---------------------------------------------------------------- logs only grow

  predicate Extends(before: Log, after: Log) { before <= after }

  lemma DevelopedExtends(log: Log, run: nat, plan: DevelopmentPlan, faults: DevelopmentFaults)
    ensures Extends(log, Developed(log, run, plan, faults).0)
  {
    if NoOutputs(log) {
      hide Developed, Traced;
      var steps, failed := DevelopmentAppendsAPrefix(log, run, plan, faults);
    } else {
      assert AnyExists(log, DEVELOPMENT_OUTPUTS);
    }
  }

  lemma AttemptsExtend(attempts: seq<Attempt>, a: Attempt)
    ensures Extends(LogAfter(attempts), LogAfter(attempts + [a]))
  {
    hide Developed, Decembered, DevelopmentEvents, DecemberEvents, Handoff, Latest;
    var all := attempts + [a];
    assert all[..|attempts|] == attempts && all[|attempts|] == a;
    match a
    case Development(plan, faults) => DevelopedExtends(LogAfter(attempts), |attempts|, plan, faults);
    case December(codeSha, passed, faults) =>
      var h := EveryLogHasAHistory(attempts);
      DecemberedExtends(h, |attempts|, codeSha, passed, faults);
  }

  lemma DecemberedExtends(h: History, run: nat, codeSha: nat, passed: bool, faults: DecemberFaults)
    requires ValidHistory(h)
    ensures Extends(LogOf(h), Decembered(LogOf(h), run, codeSha, passed, faults).0)
  {
    var log := LogOf(h);
    hide LogOf, DevelopmentEvents, DecemberEvents, Latest, Written, DecemberBody, Guarded, Handoff;
    if Handoff(log).Some? && Handoff(log).value.lock.codeSha == codeSha && NothingQualified(log) {
      var model, steps, failed := DecemberAppendsAPrefix(log, run, codeSha, passed, faults);
    } else if Handoff(log).Some? && !AnyExists(log, {QualificationMarker, QualificationResult}) {
      QualifiedFilesComeTogether(h);
    }
  }

  /** Without a qualification marker there is nothing else of a qualification. */
  lemma QualifiedFilesComeTogether(h: History)
    requires ValidHistory(h) && !Exists(LogOf(h), QualificationMarker)
    ensures NothingQualified(LogOf(h))
  {
    hide DevelopmentEvents, DecemberEvents, Latest;
    if h.december.Some? {
      QualificationStarted(DevelopmentEvents(h.development.value), h.december.value);
    } else if h.development.Some? {
      assert LogOf(h) == DevelopmentEvents(h.development.value);
      forall f | f in {QualificationMarker, QualificationResult, DecemberRows, DecemberManifest}
        ensures !Exists(LogOf(h), f)
      {
        NothingFromDecember(h.development.value, f);
      }
    } else {
      assert LogOf(h) == [];
      forall f ensures !Exists(LogOf(h), f) {
        LatestMissing(LogOf(h), f);
      }
    }
  }

  // ---------------------------------------------------------------- marker transitions

  /** `marker` is written at `i` and next at `j`, turning from one status to another. */
  ghost predicate Turns(log: Log, marker: File, i: nat, j: nat, from: Status, to: Status) {
    && i < j < |log|
    && Writes(log[i], marker) && Writes(log[j], marker)
    && (forall k | i < k < j :: !Writes(log[k], marker))
    && log[i].content.Marker? && log[i].content.status == from
    && log[j].content.Marker? && log[j].content.status == to
  }

  /** The turns a marker can take; the third happens only right behind the completion. */
  predicate AllowedTurn(i: nat, j: nat, from: Status, to: Status) {
    || (from == Started && (to == Complete || to == Failed))
    || (from == Complete && to == Failed && j == i + 1)
  }

  lemma DevelopmentTurns(p: DevelopmentPart, i: nat, j: nat, from: Status, to: Status)
    requires ValidDevelopment(p) && Turns(DevelopmentEvents(p), DevelopmentMarker, i, j, from, to)
    ensures AllowedTurn(i, j, from, to)
  {
    DevelopmentPlaces(p.run, p.plan, i);
    if j < p.steps {
      DevelopmentPlaces(p.run, p.plan, j);
    }
  }

  lemma DecemberTurns(q: DecemberPart, i: nat, j: nat, from: Status, to: Status)
    requires ValidDecember(q) && Turns(DecemberEvents(q), QualificationMarker, i, j, from, to)
    ensures AllowedTurn(i, j, from, to)
  {
    DecemberPlaces(q.run, q.frozen, q.model, q.passed, i);
    if j < q.steps {
      DecemberPlaces(q.run, q.frozen, q.model, q.passed, j);
    }
  }

  lemma TurnsStayTogether(h: History, marker: File, i: nat, j: nat, from: Status, to: Status)
    requires ValidHistory(h) && marker in MARKERS && Turns(LogOf(h), marker, i, j, from, to)
    ensures AllowedTurn(i, j, from, to)
  {
    hide DevelopmentEvents, DecemberEvents, ValidDecember, ValidDevelopment, HandsOver, LogOf;
    var n := if h.development.Some? then |DevelopmentEvents(h.development.value)| else 0;
    if h.development.Some? {
      DevelopmentWritesOnce(h.development.value, StateFile);
    }
    if h.december.Some? {
      DecemberWritesOnce(h.december.value, StateFile);
    }
    EventOf(h, i);
    EventOf(h, j);
    if j < n {
      forall k: nat | i < k < j ensures LogOf(h)[k] == DevelopmentEvents(h.development.value)[k] {
        EventOf(h, k);
      }
      DevelopmentTurns(h.development.value, i, j, from, to);
    } else {
      var events := DecemberEvents(h.december.value);
      assert events[j - n] in events && events[j - n].file == marker;
      assert i >= n;
      assert marker == QualificationMarker;
      forall k: nat | i - n < k < j - n ensures !Writes(events[k], marker) {
        EventOf(h, k + n);
        assert !Writes(LogOf(h)[k + n], marker);
      }
      DecemberTurns(h.december.value, i - n, j - n, from, to);
    }
  }

  /** Over any sequence of attempts a marker turns only from started to complete or failed, or
      from complete to failed by the very next event. */
  lemma MarkersTurnOnlyForward(attempts: seq<Attempt>, marker: File, i: nat, j: nat, from: Status, to: Status)
    requires marker in MARKERS && Turns(LogAfter(attempts), marker, i, j, from, to)
    ensures AllowedTurn(i, j, from, to)
  {
    hide LogAfter, LogOf, Turns;
    var h := EveryLogHasAHistory(attempts);
    TurnsStayTogether(h, marker, i, j, from, to);
  }

  const QUIET := DevelopmentFaults(NoFault, NoFault, NoFault, NoFault, NoFault, NoFault, NoFault)

  /** A completed marker that a failure mark follows: nothing is handed over. */
  lemma FailedCompletionTurns(p: DevelopmentPart)
    requires ValidDevelopment(p) && p.failed && p.steps == |DevelopmentScript(p.run, p.plan)|
    ensures Turns(DevelopmentEvents(p), DevelopmentMarker, p.steps - 1, p.steps, Complete, Failed)
    ensures Handoff(DevelopmentEvents(p)).None?
  {
    hide Handoff;
    HandoffExactly(p);
    DevelopmentPlaces(p.run, p.plan, p.steps - 1);
  }

  /** The third turn does happen: a run that removes its temporary file in vain after completing
      its marker rewrites the marker as failed, and the winner it decided is not handed over. */
  lemma CompletedMarkerCanFail()
    ensures var plan := DevelopmentPlan(1, StateValue(2, true), Some(NovemberWinner(3, 0.5)));
      var attempts := [Development(plan, QUIET.(complete := Fault(CleaningUp, false)))];
      Turns(LogAfter(attempts), DevelopmentMarker, 5, 6, Complete, Failed) && Handoff(LogAfter(attempts)).None?
  {
    var plan := DevelopmentPlan(1, StateValue(2, true), Some(NovemberWinner(3, 0.5)));
    var faults := QUIET.(complete := Fault(CleaningUp, false));
    var attempts := [Development(plan, faults)];
    hide Developed, Written, Handoff, LogAfter, Traced, Turns, Latest;
    var steps, failed := DevelopmentAppendsAPrefix([], 0, plan, faults);
    var p := DevelopmentPart(0, plan, steps, failed);
    assert LogAfter(attempts) == DevelopmentEvents(p);
    FailedCompletionTurns(p);
  }

  const QUIET_DECEMBER :=
    DecemberFaults(NoFault, NoFault, NoFault, NoFault, NoFault, NoFault, NoFault, NoFault)

  /** A completed qualification marker that a failure mark follows. */
  lemma FailedQualificationTurns(h: History)
    requires ValidHistory(h) && h.december.Some? && h.december.value.steps == 7 && h.december.value.failed
    ensures var n := |DevelopmentEvents(h.development.value)|;
      Turns(LogOf(h), QualificationMarker, n + 6, n + 7, Complete, Failed)
  {
    var q, n := h.december.value, |DevelopmentEvents(h.development.value)|;
    EventOf(h, n + 6);
    EventOf(h, n + 7);
    DecemberPlaces(q.run, q.frozen, q.model, q.passed, 6);
  }

  /** An undisturbed development run leaves its whole script. */
  lemma QuietDevelopment(run: nat, plan: DevelopmentPlan)
    ensures Developed([], run, plan, QUIET).0
         == DevelopmentEvents(DevelopmentPart(run, plan, |DevelopmentScript(run, plan)|, false))
  {
    hide Developed, Traced;
    NothingYet();
    var steps, failed := DevelopmentAppendsAPrefix([], run, plan, QUIET);
    var p := DevelopmentPart(run, plan, steps, failed);
    assert [] + DevelopmentEvents(p) == DevelopmentEvents(p);
  }

  lemma NothingYet()
    ensures NoOutputs([])
  {
  }

  /** The log after an undisturbed development run and one December attempt. */
  lemma QuietThenDecember(plan: DevelopmentPlan, passed: bool, faults: DecemberFaults)
    ensures LogAfter([Development(plan, QUIET), December(plan.codeSha, passed, faults)])
         == Decembered(DevelopmentEvents(DevelopmentPart(0, plan, |DevelopmentScript(0, plan)|, false)), 1,
              plan.codeSha, passed, faults).0
  {
    hide Developed, Decembered, DevelopmentEvents, DevelopmentScript;
    var attempts := [Development(plan, QUIET), December(plan.codeSha, passed, faults)];
    assert attempts[..1] == [attempts[0]] && attempts[..1][..0] == [];
    assert LogAfter(attempts[..1]) == Developed(LogAfter([]), 0, plan, QUIET).0;
    QuietDevelopment(0, plan);
  }

  /** The qualification marker can do the same: whatever winner is handed over and whatever the
      verdict, a December run that removes its last temporary file in vain ends as failed although
      it had completed. */
  lemma CompletedQualificationCanFail(plan: DevelopmentPlan, passed: bool)
    requires plan.winner.Some? && plan.state.frozen
    ensures var attempts :=
        [Development(plan, QUIET),
         December(plan.codeSha, passed, QUIET_DECEMBER.(complete := Fault(CleaningUp, false)))];
      Turns(LogAfter(attempts), QualificationMarker, 12, 13, Complete, Failed)
  {
    var faults := QUIET_DECEMBER.(complete := Fault(CleaningUp, false));
    var p := DevelopmentPart(0, plan, 6, false);
    assert |DevelopmentScript(0, plan)| == |DevelopmentEvents(p)| == 6;
    QuietThenDecember(plan, passed, faults);
    hide LogAfter, Developed, Decembered, Traced, Turns, LogOf, DevelopmentEvents, DevelopmentScript;
    var h := StartDecember(p, 1, plan.codeSha, passed, faults);
    FailedQualificationTurns(h);
  }

  // ---------------------------------------------------------------- the handoff has one source

  /** A handoff that succeeds: one run decided on a winner and itself wrote the marker, the state,
      the decision, the model and the lock that are on the disk; the lock names exactly that model
      and that state. */
  lemma HandoffHasOneSource(attempts: seq<Attempt>) returns (run: nat, plan: DevelopmentPlan)
    requires Handoff(LogAfter(attempts)).Some?
    ensures run < |attempts| && attempts[run].Development? && attempts[run].plan == plan
    ensures plan.winner.Some? && plan.state.frozen
    ensures var model := ModelBytes(plan.winner.value.model);
      var lock := Lock(
        plan.codeSha, plan.winner.value.threshold, Digest(model), Digest(StateBytes(plan.state)), true, false);
      && Handoff(LogAfter(attempts)) == Some(Frozen(lock, plan.state))
      && Latest(LogAfter(attempts), WinnerLock) == Some(lock)
      && Latest(LogAfter(attempts), WinnerModel) == Some(model)
      && Latest(LogAfter(attempts), StateFile) == Some(StateBytes(plan.state))
      && Latest(LogAfter(attempts), DecisionFile) == Some(DecisionRecord(Winner))
    ensures DevelopmentScript(run, plan) <= LogAfter(attempts)
    ensures forall f, i | f in DEVELOPMENT_OUTPUTS && 6 <= i < |LogAfter(attempts)| :: !Writes(LogAfter(attempts)[i], f)
  {
    hide LogAfter, Handoff, Latest;
    var h := EveryLogHasAHistory(attempts);
    SourceOf(h);
    HandedOverFiles(h);
    run, plan := h.development.value.run, h.development.value.plan;
    if h.december.Some? {
      DecemberWritesOnce(h.december.value, StateFile);
    }
    forall f, i | f in DEVELOPMENT_OUTPUTS && 6 <= i < |LogAfter(attempts)| ensures !Writes(LogAfter(attempts)[i], f) {
      EventOf(h, i);
    }
  }

  /** A history hands over exactly when its development part does. */
  lemma SourceOf(h: History)
    requires ValidHistory(h)
    ensures Handoff(LogOf(h)).Some? <==> h.development.Some? && HandsOver(h.development.value)
    ensures Handoff(LogOf(h)).Some? ==> Handoff(LogOf(h)) == Some(FrozenBy(h.development.value.plan))
  {
    hide DevelopmentEvents, DecemberEvents, Handoff;
    if h.development.None? {
      NoHandoffFromNothing();
      assert LogOf(h) == [];
    } else {
      HandoffExactly(h.development.value);
      if h.december.Some? {
        HandoffAfterDecember(DevelopmentEvents(h.development.value), h.december.value);
      } else {
        assert LogOf(h) == DevelopmentEvents(h.development.value);
      }
    }
  }

  lemma HandedOverFiles(h: History)
    requires ValidHistory(h) && h.development.Some? && HandsOver(h.development.value)
    ensures var plan := h.development.value.plan;
      && Latest(LogOf(h), WinnerLock) == Some(FrozenBy(plan).lock)
      && Latest(LogOf(h), WinnerModel) == Some(ModelBytes(plan.winner.value.model))
      && Latest(LogOf(h), StateFile) == Some(StateBytes(plan.state))
      && Latest(LogOf(h), DecisionFile) == Some(DecisionRecord(Winner))
  {
    hide DevelopmentEvents, DecemberEvents, Latest;
    var start := DevelopmentEvents(h.development.value);
    WinnerFiles(h.development.value);
    if h.december.Some? {
      forall f | f in DEVELOPMENT_OUTPUTS ensures Latest(LogOf(h), f) == Latest(start, f) {
        DecemberLeavesDevelopment(start, h.december.value, f);
      }
    } else {
      assert LogOf(h) == start;
    }
  }

  lemma NoHandoffFromNothing()
    ensures Handoff([]).None?
  {
  }

  // ---------------------------------------------------------------- what tampering the handoff notices

  /** As long as nobody rewrites the lock, a handed-over workspace hands over the same winner or
      nothing, whatever else is written to it; and it hands over exactly while model and state are
      the old ones and the marker still says completed with a winner. */
  lemma TamperingNeedsTheLock(log: Log, more: Log)
    requires Handoff(log).Some?
    requires forall i | 0 <= i < |more| :: !Writes(more[i], WinnerLock)
    ensures Handoff(log + more) == None || Handoff(log + more) == Handoff(log)
    ensures Handoff(log + more).Some?
       <==> && Latest(log + more, WinnerModel) == Latest(log, WinnerModel)
            && Latest(log + more, StateFile) == Latest(log, StateFile)
            && Latest(log + more, DevelopmentMarker).Some?
            && var marker := Latest(log + more, DevelopmentMarker).value;
            && marker.Marker? && marker.status == Complete && marker.decision == Some(Winner)
  {
    LatestOfOthers(log, more, WinnerLock);
    hide Latest, Handoff;
    var before := Handoff(log).value;
    HandoffMatchesFiles(log, before.lock, before.state);
    HandoffMatchesFiles(log + more, before.lock, before.state);
    if Handoff(log + more).Some? {
      var after := Handoff(log + more).value;
      HandoffMatchesFiles(log + more, after.lock, after.state);
    }
  }

  lemma RewrittenFile(log: Log, run: nat, f: File, content: Content)
    ensures forall g :: Latest(log + [Wrote(run, f, content)], g) == if g == f then Some(content) else Latest(log, g)
    ensures forall g :: Exists(log + [Wrote(run, f, content)], g) <==> g == f || Exists(log, g)
  {
    forall g ensures Latest(log + [Wrote(run, f, content)], g) == if g == f then Some(content) else Latest(log, g) {
      LatestStays(log, Wrote(run, f, content), g);
    }
  }

  /** A rewritten lock passes exactly when it still names the model and the state on the disk. Its
      threshold can be anything: if it passes, a quiet December run of that lineage scores with it. */
  lemma LockTamperingExactly(log: Log, run: nat, lock: Content, next: nat, passed: bool)
    requires Handoff(log).Some?
    ensures var frozen, after := Handoff(log).value, Handoff(log + [Wrote(run, WinnerLock, lock)]);
      && (after.Some? <==>
           && lock.Lock? && lock.stateFrozen && !lock.decemberEvaluated
           && lock.modelDigest == frozen.lock.modelDigest && lock.stateDigest == frozen.lock.stateDigest)
      && (after.Some? ==> after == Some(Frozen(lock, frozen.state)))
      && (after.Some? && NothingQualified(log) ==>
           exists model ::
             && Latest(log, WinnerModel) == Some(model)
             && Scored(next, model, frozen.state, lock.threshold)
                in Decembered(log + [Wrote(run, WinnerLock, lock)], next, lock.codeSha, passed, QUIET_DECEMBER).0)
  {
    RewrittenFile(log, run, WinnerLock, lock);
    var rewritten := log + [Wrote(run, WinnerLock, lock)];
    assert Handoff(rewritten).Some? ==> Handoff(rewritten) == Some(Frozen(lock, Handoff(log).value.state));
    hide Latest, Exists, Decembered;
    if Handoff(rewritten).Some? && NothingQualified(log) {
      var frozen := Handoff(rewritten).value;
      hide Handoff;
      var model, steps, failed := DecemberAppendsAPrefix(rewritten, next, lock.codeSha, passed, QUIET_DECEMBER);
      var script := DecemberScript(next, frozen, model, passed);
      assert Scored(next, model, frozen.state, lock.threshold) == script[4];
      assert script[..steps][4] in script[..steps];
    }
  }

  /** Model and lock rewritten together pass with any model. */
  lemma ConsistentReplacementPasses(log: Log, run: nat, model: nat)
    requires Handoff(log).Some?
    ensures var lock := Handoff(log).value.lock.(modelDigest := Digest(ModelBytes(model)));
      Handoff(log + [Wrote(run, WinnerModel, ModelBytes(model)), Wrote(run, WinnerLock, lock)])
      == Some(Frozen(lock, Handoff(log).value.state))
  {
    var lock := Handoff(log).value.lock.(modelDigest := Digest(ModelBytes(model)));
    var first, second := Wrote(run, WinnerModel, ModelBytes(model)), Wrote(run, WinnerLock, lock);
    assert log + [first] + [second] == log + [first, second];
    RewrittenFile(log, run, WinnerModel, ModelBytes(model));
    RewrittenFile(log + [first], run, WinnerLock, lock);
    hide Latest;
  }

  // ---------------------------------------------------------------- where every content comes from

  /** A write says no more and no less than what the attempt that made it came to. */
  ghost predicate Explained(e: Event, attempts: seq<Attempt>) {
    && e.Wrote? && e.run < |attempts|
    && match attempts[e.run]
       case Development(plan, _) => ExplainedByDevelopment(e, plan)
       case December(_, passed, _) => ExplainedByDecember(e, passed)
  }

  ghost predicate MarkedBy(run: nat, content: Content, decision: Decision) {
    && content.Marker? && content.run == run
    && (content.status == Started ==> content.decision == None)
    && (content.status == Complete ==> content.decision == Some(decision))
    && (content.decision.Some? ==> content.decision == Some(decision))
  }

  ghost predicate ExplainedByDevelopment(e: Event, plan: DevelopmentPlan)
    requires e.Wrote?
  {
    match e.file
    case DevelopmentMarker => MarkedBy(e.run, e.content, if plan.winner.Some? then Winner else GovernedStop)
    case StateFile => e.content == StateBytes(plan.state)
    case DecisionFile => e.content == DecisionRecord(if plan.winner.Some? then Winner else GovernedStop)
    case WinnerModel => plan.winner.Some? && e.content == ModelBytes(plan.winner.value.model)
    case WinnerLock =>
      plan.winner.Some? && e.content == Lock(
        plan.codeSha, plan.winner.value.threshold, Digest(ModelBytes(plan.winner.value.model)),
        Digest(StateBytes(plan.state)), plan.state.frozen, false)
    case _ => false
  }

  ghost predicate ExplainedByDecember(e: Event, passed: bool)
    requires e.Wrote?
  {
    match e.file
    case QualificationMarker => MarkedBy(e.run, e.content, if passed then Qualified else QualificationFailed)
    case QualificationResult => e.content == Result(passed)
    case DecemberRows => e.content == Rows(e.run)
    case DecemberManifest => e.content == Manifest(Digest(Rows(e.run)))
    case _ => false
  }

  lemma DevelopmentIsExplained(p: DevelopmentPart, i: nat)
    requires ValidDevelopment(p) && i < |DevelopmentEvents(p)|
    ensures var e := DevelopmentEvents(p)[i]; e.Wrote? && e.run == p.run && ExplainedByDevelopment(e, p.plan)
  {
    if i < p.steps {
      DevelopmentPlaces(p.run, p.plan, i);
    }
  }

  lemma DecemberIsExplained(q: DecemberPart, i: nat)
    requires ValidDecember(q) && i < |DecemberEvents(q)| && DecemberEvents(q)[i].Wrote?
    ensures var e := DecemberEvents(q)[i]; e.run == q.run && ExplainedByDecember(e, q.passed)
  {
    if i < q.steps {
      DecemberPlaces(q.run, q.frozen, q.model, q.passed, i);
    }
  }

  /** Over any sequence of attempts, every write holds exactly what its own attempt came to: state,
      decision, model and lock those of its plan, rows and manifest its own, result and completed
      marker its own verdict. */
  lemma EveryWriteIsExplained(attempts: seq<Attempt>, i: nat)
    requires i < |LogAfter(attempts)| && LogAfter(attempts)[i].Wrote?
    ensures Explained(LogAfter(attempts)[i], attempts)
  {
    hide LogAfter, LogOf, DevelopmentEvents, DecemberEvents, ExplainedByDevelopment, ExplainedByDecember;
    var h := EveryLogHasAHistory(attempts);
    EventOf(h, i);
    var n := if h.development.Some? then |DevelopmentEvents(h.development.value)| else 0;
    if i < n {
      DevelopmentIsExplained(h.development.value, i);
    } else {
      DecemberIsExplained(h.december.value, i - n);
    }
  }

  /** Over any sequence of attempts, a scoring in December used exactly the model, the state and the
      threshold that an earlier development attempt from the same code came to. */
  lemma DecemberScoresTheNovemberWinner(attempts: seq<Attempt>, i: nat) returns (k: nat)
    requires i < |LogAfter(attempts)| && LogAfter(attempts)[i].Scored?
    ensures var e := LogAfter(attempts)[i];
      && k < e.run < |attempts|
      && attempts[k].Development? && attempts[e.run].December?
      && attempts[e.run].codeSha == attempts[k].plan.codeSha
      && attempts[k].plan.winner.Some? && attempts[k].plan.state.frozen
      && e.model == ModelBytes(attempts[k].plan.winner.value.model)
      && e.state == attempts[k].plan.state
      && e.threshold == attempts[k].plan.winner.value.threshold
  {
    hide LogAfter, LogOf, DevelopmentEvents, DecemberEvents;
    var h := EveryLogHasAHistory(attempts);
    DecemberPlacesInLog(h, i);
    k := h.development.value.run;
  }

  // ---------------------------------------------------------------- December at most once

  lemma DecemberPlacesInLog(h: History, i: nat)
    requires ValidHistory(h) && i < |LogOf(h)| && !LogOf(h)[i].Wrote?
    ensures h.development.Some? && h.december.Some?
    ensures var n := |DevelopmentEvents(h.development.value)|;
      var q := h.december.value;
      && (LogOf(h)[i].Decoded? <==> i == n + 1)
      && (LogOf(h)[i].Scored? <==> i == n + 4)
      && (i == n + 4 ==> LogOf(h)[i] == Scored(q.run, q.model, q.frozen.state, q.frozen.lock.threshold))
  {
    hide DevelopmentEvents;
    EventOf(h, i);
    if h.development.Some? {
      DevelopmentWritesOnce(h.development.value, StateFile);
    }
    var n := |DevelopmentEvents(h.development.value)|;
    DecemberPlaces(h.december.value.run, h.december.value.frozen, h.december.value.model, h.december.value.passed, i - n);
  }

  /** Over any sequence of attempts, December is decoded at most once and scored at most once. */
  lemma DecemberAtMostOnce(attempts: seq<Attempt>, i: nat, j: nat)
    requires i < j < |LogAfter(attempts)|
    ensures !(LogAfter(attempts)[i].Decoded? && LogAfter(attempts)[j].Decoded?)
    ensures !(LogAfter(attempts)[i].Scored? && LogAfter(attempts)[j].Scored?)
  {
    hide LogAfter, LogOf, DevelopmentEvents;
    var h := EveryLogHasAHistory(attempts);
    if !LogAfter(attempts)[i].Wrote? && !LogAfter(attempts)[j].Wrote? {
      DecemberPlacesInLog(h, i);
      DecemberPlacesInLog(h, j);
    }
  }

  /** Whenever December is decoded or scored, a valid handoff stands at that moment, and the
      scoring used the model, the state and the threshold that the handed-over lock freezes. */
  lemma DecemberUsesTheFrozenWinner(attempts: seq<Attempt>, i: nat)
    requires i < |LogAfter(attempts)| && !LogAfter(attempts)[i].Wrote?
    ensures var log := LogAfter(attempts);
      && Handoff(log[..i]).Some?
      && var frozen := Handoff(log[..i]).value;
         log[i].Scored? ==>
           && Digest(log[i].model) == frozen.lock.modelDigest
           && Digest(StateBytes(log[i].state)) == frozen.lock.stateDigest
           && log[i].threshold == frozen.lock.threshold
  {
    hide LogAfter, Latest, DevelopmentEvents, Handoff;
    var log := LogAfter(attempts);
    var h := EveryLogHasAHistory(attempts);
    DecemberPlacesInLog(h, i);
    var p, q := h.development.value, h.december.value;
    var start := DevelopmentEvents(p);
    HandoffExactly(p);
    HandoffDuringDecember(start, q, i - |start|);
    assert log[..i] == start + DecemberEvents(q)[..i - |start|];
  }

  lemma HandoffDuringDecember(log: Log, q: DecemberPart, k: nat)
    requires ValidDecember(q) && k <= |DecemberEvents(q)|
    ensures Handoff(log + DecemberEvents(q)[..k]) == Handoff(log)
  {
    hide Latest;
    var more := DecemberEvents(q)[..k];
    forall f | f in DEVELOPMENT_OUTPUTS ensures Latest(log + more, f) == Latest(log, f) {
      forall i | 0 <= i < |more| ensures !Writes(more[i], f) {
        if i < q.steps {
          DecemberPlaces(q.run, q.frozen, q.model, q.passed, i);
        }
      }
      LatestOfOthers(log, more, f);
    }
  }

  /** A qualification result exists only behind the one scoring of the run that wrote it. */
  lemma ResultFollowsItsScoring(attempts: seq<Attempt>, i: nat)
    requires i < |LogAfter(attempts)| && Writes(LogAfter(attempts)[i], QualificationResult)
    ensures i >= 1 && LogAfter(attempts)[i - 1].Scored? && LogAfter(attempts)[i - 1].run == LogAfter(attempts)[i].run
  {
    hide LogAfter, DevelopmentEvents;
    var h := EveryLogHasAHistory(attempts);
    EventOf(h, i);
    if h.development.Some? {
      DevelopmentWritesOnce(h.development.value, StateFile);
    }
    var q, n := h.december.value, |DevelopmentEvents(h.development.value)|;
    DecemberPlaces(q.run, q.frozen, q.model, q.passed, i - n);
    EventOf(h, i - 1);
  }
}
