/** Predictions and their feedback in a table with conditional writes, used by any number of
    clients at once (src/flight_delay/persistence/dynamodb.py, services/api/app/main.py). */
module EventStore {
  import opened Options

  datatype Feedback = Feedback(client: nat, actual: bool, correct: bool, revision: nat)

  /** A stored prediction; `payload` stands for the attributes no feedback touches. */
  datatype Item = Item(predicted: bool, payload: nat, revision: Option<nat>, feedback: Option<Feedback>)

  type Table = map<nat, Item>

  /** A record without feedback is at revision zero. */
  function RevisionOf(item: Item): nat { if item.revision.Some? then item.revision.value else 0 }

  /** `put_item` under `attribute_not_exists(pk)`. */
  function PutIfAbsent(table: Table, id: nat, item: Item): Option<Table> {
    if id in table then None else Some(table[id := item])
  }

  /** `update_item` under "the record exists, and has no revision or the expected one". */
  function UpdateIfExpected(table: Table, id: nat, expected: nat, f: Feedback): Option<Table> {
    if id in table && (table[id].revision.None? || table[id].revision.value == expected)
    then Some(table[id := table[id].(revision := Some(f.revision), feedback := Some(f))])
    else None
  }

  // ---------------------------------------------------------------- clients

  /** Where a client is inside `submit_feedback`. */
  datatype Client =
    | Idle
    | Judged(id: nat, actual: bool, correct: bool)
    | Ready(id: nat, actual: bool, correct: bool, expected: nat)

  datatype Move =
    | Predict(id: nat, predicted: bool, payload: nat)
    | Submit(id: nat, actual: bool)
    | ReadRevision
    | Write
    | GiveUp

  datatype Accepted = Accepted(id: nat, feedback: Feedback)

  /** `accepted` records every feedback write the table applied, whether or not its client heard. */
  datatype World = World(table: Table, clients: map<nat, Client>, accepted: seq<Accepted>)

  function ClientOf(w: World, c: nat): Client { if c in w.clients then w.clients[c] else Idle }

  function To(w: World, c: nat, client: Client): World { w.(clients := w.clients[c := client]) }

  function FeedbackOf(c: nat, r: Client): Feedback
    requires r.Ready?
  {
    Feedback(c, r.actual, r.correct, r.expected + 1)
  }

  /** One step of one client: each read and each conditional write is a step of its own. */
  function Step(w: World, c: nat, m: Move): World {
    var client := ClientOf(w, c);
    match m
    case Predict(id, predicted, payload) =>
      (match PutIfAbsent(w.table, id, Item(predicted, payload, None, None))
       case Some(table) => w.(table := table)
       case None => w)
    case Submit(id, actual) =>
      if client.Idle? && id in w.table then To(w, c, Judged(id, actual, actual == w.table[id].predicted)) else w
    case ReadRevision =>
      if client.Judged? && client.id in w.table
      then To(w, c, Ready(client.id, client.actual, client.correct, RevisionOf(w.table[client.id])))
      else w
    case Write =>
      if client.Ready? then
        var f := FeedbackOf(c, client);
        match UpdateIfExpected(w.table, client.id, client.expected, f)
        case Some(table) => World(table, w.clients[c := Idle], w.accepted + [Accepted(client.id, f)])
        case None => To(w, c, Idle)
      else w
    case GiveUp => To(w, c, Idle)
  }

  function Run(start: Table, schedule: seq<(nat, Move)>): World {
    if schedule == [] then World(start, map[], [])
    else
      var last := schedule[|schedule| - 1];
      Step(Run(start, schedule[..|schedule| - 1]), last.0, last.1)
  }

  // ---------------------------------------------------------------- the accepted history of one record

  /** The feedback accepted for record `id`, oldest first. */
  function Revisions(accepted: seq<Accepted>, id: nat): seq<Feedback> {
    if accepted == [] then []
    else
      var front, last := Revisions(accepted[..|accepted| - 1], id), accepted[|accepted| - 1];
      if last.id == id then front + [last.feedback] else front
  }

  lemma RevisionsGrow(accepted: seq<Accepted>, a: Accepted, id: nat)
    ensures Revisions(accepted + [a], id)
         == if a.id == id then Revisions(accepted, id) + [a.feedback] else Revisions(accepted, id)
  {
    assert (accepted + [a])[..|accepted|] == accepted;
  }

  /** The revision record `id` starts from. */
  function Base(start: Table, id: nat): nat { if id in start then RevisionOf(start[id]) else 0 }

  /** What holds of one record after any run: its prediction is the first one put, its revision counts
      the accepted writes, and its feedback is the last of them. */
  ghost predicate RecordHolds(start: Table, w: World, id: nat) {
    var revisions := Revisions(w.accepted, id);
    && (id in start ==> id in w.table && w.table[id].predicted == start[id].predicted && w.table[id].payload == start[id].payload)
    && (revisions != [] ==> id in w.table)
    && (id in w.table ==>
         && RevisionOf(w.table[id]) == Base(start, id) + |revisions|
         && (revisions != [] ==> w.table[id].feedback == Some(revisions[|revisions| - 1]))
         && forall k | 0 <= k < |revisions| ::
              && revisions[k].revision == Base(start, id) + k + 1
              && (revisions[k].correct <==> revisions[k].actual == w.table[id].predicted))
  }

  ghost predicate ClientHolds(w: World, client: Client) {
    !client.Idle? ==>
      && client.id in w.table
      && (client.correct <==> client.actual == w.table[client.id].predicted)
      && (client.Ready? ==> client.expected <= RevisionOf(w.table[client.id]))
  }

  ghost predicate Invariant(start: Table, w: World) {
    && (forall id: nat :: RecordHolds(start, w, id))
    && (forall c: nat :: ClientHolds(w, ClientOf(w, c)))
  }

  /** Records only ever gain: no step removes a record, alters a prediction or lowers a revision. */
  ghost predicate Grows(before: World, after: World) {
    && (forall id | id in before.table ::
          && id in after.table
          && after.table[id].predicted == before.table[id].predicted
          && after.table[id].payload == before.table[id].payload
          && RevisionOf(before.table[id]) <= RevisionOf(after.table[id]))
    && before.accepted <= after.accepted
  }

  lemma StepGrows(start: Table, w: World, c: nat, m: Move)
    requires Invariant(start, w)
    ensures Grows(w, Step(w, c, m))
  {
    assert ClientHolds(w, ClientOf(w, c));
  }

  /** The world after an applied write. */
  function Applied(w: World, c: nat, client: Client, table: Table): World
    requires client.Ready?
  {
    World(table, w.clients[c := Idle], w.accepted + [Accepted(client.id, FeedbackOf(c, client))])
  }

  lemma AppliedKeepsRecord(start: Table, w: World, c: nat, client: Client, table: Table, id: nat)
    requires client.Ready? && ClientHolds(w, client) && RecordHolds(start, w, id)
    requires UpdateIfExpected(w.table, client.id, client.expected, FeedbackOf(c, client)) == Some(table)
    ensures RecordHolds(start, Applied(w, c, client, table), id)
  {
    hide Revisions;
    var f := FeedbackOf(c, client);
    RevisionsGrow(w.accepted, Accepted(client.id, f), id);
    if id == client.id {
      var after := Revisions(w.accepted, id) + [f];
      assert after[|after| - 1] == f;
    }
  }

  lemma StepKeepsRecord(start: Table, w: World, c: nat, m: Move, id: nat)
    requires Invariant(start, w)
    ensures RecordHolds(start, Step(w, c, m), id)
  {
    var client := ClientOf(w, c);
    assert RecordHolds(start, w, id) && ClientHolds(w, client);
    match m
    case Write =>
      if client.Ready? {
        var written := UpdateIfExpected(w.table, client.id, client.expected, FeedbackOf(c, client));
        if written.Some? {
          AppliedKeepsRecord(start, w, c, client, written.value, id);
        }
      }
    case _ =>
  }

  lemma StepKeepsClient(start: Table, w: World, c: nat, m: Move, d: nat)
    requires Invariant(start, w)
    ensures ClientHolds(Step(w, c, m), ClientOf(Step(w, c, m), d))
  {
    StepGrows(start, w, c, m);
    assert ClientHolds(w, ClientOf(w, d)) && ClientHolds(w, ClientOf(w, c));
  }

  lemma StepKeepsInvariant(start: Table, w: World, c: nat, m: Move)
    requires Invariant(start, w)
    ensures Invariant(start, Step(w, c, m))
  {
    forall id: nat ensures RecordHolds(start, Step(w, c, m), id) {
      StepKeepsRecord(start, w, c, m, id);
    }
    forall d: nat ensures ClientHolds(Step(w, c, m), ClientOf(Step(w, c, m), d)) {
      StepKeepsClient(start, w, c, m, d);
    }
  }

  /** Over every interleaving, each record's revision is its initial one plus the accepted writes,
      those are numbered consecutively, the last one is what is stored, and each judges its outcome
      against the one prediction the record ever had. */
  lemma {:induction false} FeedbackIsLinear(start: Table, schedule: seq<(nat, Move)>)
    ensures Invariant(start, Run(start, schedule))
  {
    if schedule != [] {
      var last := schedule[|schedule| - 1];
      FeedbackIsLinear(start, schedule[..|schedule| - 1]);
      StepKeepsInvariant(start, Run(start, schedule[..|schedule| - 1]), last.0, last.1);
    }
  }

  lemma RunAppend(start: Table, schedule: seq<(nat, Move)>, c: nat, m: Move)
    ensures Run(start, schedule + [(c, m)]) == Step(Run(start, schedule), c, m)
  {
    assert (schedule + [(c, m)])[..|schedule|] == schedule;
  }

  lemma {:induction false} RunGrows(start: Table, schedule: seq<(nat, Move)>, more: seq<(nat, Move)>)
    ensures Grows(Run(start, schedule), Run(start, schedule + more))
    decreases |more|
  {
    if more == [] {
      assert schedule + more == schedule;
    } else {
      var front, last := more[..|more| - 1], more[|more| - 1];
      RunGrows(start, schedule, front);
      assert schedule + more == (schedule + front) + [last];
      RunAppend(start, schedule + front, last.0, last.1);
      FeedbackIsLinear(start, schedule + front);
      StepGrows(start, Run(start, schedule + front), last.0, last.1);
    }
  }

  lemma StepLeavesOthers(w: World, d: nat, m: Move, c: nat)
    requires d != c
    ensures ClientOf(Step(w, d, m), c) == ClientOf(w, c)
  {
  }

  lemma {:induction false} OthersLeaveClient(start: Table, schedule: seq<(nat, Move)>, more: seq<(nat, Move)>, c: nat)
    requires forall i | 0 <= i < |more| :: more[i].0 != c
    ensures ClientOf(Run(start, schedule + more), c) == ClientOf(Run(start, schedule), c)
    decreases |more|
  {
    hide Step, ClientOf;
    if more == [] {
      assert schedule + more == schedule;
    } else {
      var front, last := more[..|more| - 1], more[|more| - 1];
      OthersLeaveClient(start, schedule, front, c);
      assert schedule + more == (schedule + front) + [last];
      RunAppend(start, schedule + front, last.0, last.1);
      StepLeavesOthers(Run(start, schedule + front), last.0, last.1, c);
    }
  }

  lemma {:induction false} RevisionsOfPrefix(accepted: seq<Accepted>, more: seq<Accepted>, id: nat)
    requires accepted <= more
    ensures Revisions(accepted, id) <= Revisions(more, id)
    decreases |more|
  {
    if |accepted| < |more| {
      RevisionsOfPrefix(accepted, more[..|more| - 1], id);
    } else {
      assert accepted == more;
    }
  }

  /** No lost update: a client's write is applied exactly when no other feedback on the record was
      accepted between its read of the revision and its write. */
  lemma NoLostUpdate(start: Table, before: seq<(nat, Move)>, between: seq<(nat, Move)>, c: nat)
    requires ClientOf(Run(start, before), c).Judged?
    requires forall i | 0 <= i < |between| :: between[i].0 != c
    ensures var id := ClientOf(Run(start, before), c).id;
      var later := before + [(c, ReadRevision)] + between;
      Run(start, later + [(c, Write)]).accepted != Run(start, later).accepted
      <==> Revisions(Run(start, later).accepted, id) == Revisions(Run(start, before).accepted, id)
  {
    hide Invariant, Grows;
    var w := Run(start, before);
    var id, read := ClientOf(w, c).id, before + [(c, ReadRevision)];
    var now := Run(start, read + between);
    RunAppend(start, before, c, ReadRevision);
    OthersLeaveClient(start, read, between, c);
    RunAppend(start, read + between, c, Write);
    HoldsAfter(start, before, c, id);
    HoldsAfter(start, read + between, c, id);
    assert before + ([(c, ReadRevision)] + between) == read + between;
    RunGrows(start, before, [(c, ReadRevision)] + between);
    RevisionsOfPrefix(w.accepted, now.accepted, id);
    assert now.accepted + [Accepted(id, FeedbackOf(c, ClientOf(now, c)))] != now.accepted;
  }

  lemma HoldsAfter(start: Table, schedule: seq<(nat, Move)>, c: nat, id: nat)
    ensures RecordHolds(start, Run(start, schedule), id)
    ensures ClientHolds(Run(start, schedule), ClientOf(Run(start, schedule), c))
  {
    FeedbackIsLinear(start, schedule);
  }

  // ---------------------------------------------------------------- the repository

  /** A record with its next revision. */
  function Revised(item: Item, client: nat, actual: bool, correct: bool): Item {
    var revision := RevisionOf(item) + 1;
    item.(revision := Some(revision), feedback := Some(Feedback(client, actual, correct, revision)))
  }

  datatype Reply = Updated(item: Item) | Conflict | NotFound

  /** The table object; its methods run to completion, each a sequence of the steps above. */
  class Repository {
    var table: Table

    constructor ()
      ensures table == map[]
    {
      table := map[];
    }

    /** Create a prediction; never overwrite one. */
    method PutPrediction(id: nat, predicted: bool, payload: nat) returns (created: bool)
      modifies this
      ensures created <==> id !in old(table)
      ensures table == if created then old(table)[id := Item(predicted, payload, None, None)] else old(table)
    {
      var put := PutIfAbsent(table, id, Item(predicted, payload, None, None));
      created := put.Some?;
      if created {
        table := put.value;
      }
    }

    method GetPrediction(id: nat) returns (item: Option<Item>)
      ensures item == if id in table then Some(table[id]) else None
    {
      item := if id in table then Some(table[id]) else None;
    }

    method UpdateFeedback(id: nat, client: nat, actual: bool, correct: bool) returns (r: Reply)
      modifies this
      ensures r.NotFound? <==> id !in old(table)
      ensures !r.Conflict?
      ensures r.NotFound? ==> table == old(table)
      ensures r.Updated? ==>
        && r.item == Revised(old(table)[id], client, actual, correct)
        && table == old(table)[id := r.item]
    {
      var current := GetPrediction(id);
      if current.None? {
        return NotFound;
      }
      var expected := RevisionOf(current.value);
      var written := UpdateIfExpected(table, id, expected, Feedback(client, actual, correct, expected + 1));
      if written.None? {
        return Conflict;
      }
      table := written.value;
      r := Updated(table[id]);
    }

    /** `submit_feedback` with nobody in between: the three steps of one client in a row. */
    method SubmitFeedback(id: nat, client: nat, actual: bool) returns (r: Reply)
      modifies this
      ensures table == Run(old(table), [(client, Submit(id, actual)), (client, ReadRevision), (client, Write)]).table
      ensures r.NotFound? <==> id !in old(table)
      ensures r.Updated? ==>
        && id in table && r.item == table[id]
        && r.item == Revised(old(table)[id], client, actual, actual == old(table)[id].predicted)
    {
      var current := GetPrediction(id);
      ThreeSteps(table, client, Submit(id, actual), ReadRevision, Write);
      if current.None? {
        return NotFound;
      }
      r := UpdateFeedback(id, client, actual, actual == current.value.predicted);
    }
  }

  lemma ThreeSteps(start: Table, c: nat, l: Move, m: Move, n: Move)
    ensures Run(start, [(c, l), (c, m), (c, n)]) == Step(Step(Step(World(start, map[], []), c, l), c, m), c, n)
  {
    hide Step;
    RunAppend(start, [], c, l);
    RunAppend(start, [(c, l)], c, m);
    RunAppend(start, [(c, l), (c, m)], c, n);
    assert [] + [(c, l)] == [(c, l)] && [(c, l)] + [(c, m)] == [(c, l), (c, m)];
    assert [(c, l), (c, m)] + [(c, n)] == [(c, l), (c, m), (c, n)];
  }

  // ---------------------------------------------------------------- active-model metadata

  datatype Identity = Identity(version: nat, digest: nat, bundle: nat)

  datatype Metadata = Metadata(identity: Identity, firstLoaded: nat, lastLoaded: nat)

  datatype Load = Load(identity: Identity, now: nat)

  /** `put_model_metadata`: refused when the stored identity is another one. */
  function PutMetadata(stored: Option<Metadata>, l: Load): Option<Metadata> {
    match stored
    case None => Some(Metadata(l.identity, l.now, l.now))
    case Some(m) => if m.identity == l.identity then Some(m.(lastLoaded := l.now)) else None
  }

  function AfterLoads(loads: seq<Load>): Option<Metadata> {
    if loads == [] then None
    else
      var before := AfterLoads(loads[..|loads| - 1]);
      var put := PutMetadata(before, loads[|loads| - 1]);
      if put.Some? then put else before
  }

  /** `k` is the last load with the identity of the first. */
  ghost predicate LastMatch(loads: seq<Load>, k: nat) {
    && k < |loads| && loads[k].identity == loads[0].identity
    && forall j | k < j < |loads| :: loads[j].identity != loads[0].identity
  }

  /** The first load fixes the identity and the first-loaded time for ever; later loads are accepted
      exactly when they have that identity, and the last accepted one sets the last-loaded time. */
  lemma {:induction false} FirstLoadFixesIdentity(loads: seq<Load>)
    requires loads != []
    ensures AfterLoads(loads).Some?
    ensures AfterLoads(loads).value.identity == loads[0].identity && AfterLoads(loads).value.firstLoaded == loads[0].now
    ensures exists k: nat :: LastMatch(loads, k) && AfterLoads(loads).value.lastLoaded == loads[k].now
  {
    var n := |loads| - 1;
    if n == 0 {
      assert loads[..0] == [] && LastMatch(loads, 0);
    } else {
      var front := loads[..n];
      FirstLoadFixesIdentity(front);
      if loads[n].identity == loads[0].identity {
        assert LastMatch(loads, n);
      } else {
        var k: nat :| LastMatch(front, k) && AfterLoads(front).value.lastLoaded == front[k].now;
        forall j | k < j < |loads| ensures loads[j].identity != loads[0].identity {
          assert j < n ==> loads[j] == front[j];
        }
        assert LastMatch(loads, k);
      }
    }
  }
}
