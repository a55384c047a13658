/** What holds over every run of the protocol, from an empty outbox and an empty server. */
module OutboxSafety {
  import opened Sequences
  import opened Backoff
  import opened OutboxTypes
  import opened OutboxQueue
  import opened OutboxDrain
  import opened OutboxProtocol
  import OutboxEngine

  /** Whatever interleaves with whatever, and whenever sends throw: a row that was ever appended is
      still queued with its content untouched, or the server holds exactly that content. */
  lemma NothingIsLost(start: Instant, steps: seq<Step>, policy: OutboxPolicy, id: RowId)
    requires Possible(Init(start), steps, policy)
    requires id in Final(Init(start), steps, policy).appended
    ensures var s := Final(Init(start), steps, policy);
      || (exists row :: row in s.queue && row.id == id && row.Content() == s.appended[id].Content())
      || s.appended[id].Content() in s.server
  {
    RunKeepsInv(Init(start), steps, policy);
    var s := Final(Init(start), steps, policy);
    if HasId(s.queue, id) {
      var i :| 0 <= i < |s.queue| && s.queue[i].id == id;
      assert Genuine(s, s.queue[i]);
    }
  }

  // ----------------------------------------------------------------------------------------
  // Rows and records are the events that were enqueued
  // ----------------------------------------------------------------------------------------

  /** The record says of an event what the driver said. */
  predicate RecordsEvent(record: EventContent, command: EnqueueCommand) {
    && record.clientEventId == command.clientEventId && record.kind == command.kind
    && record.capturedAt == command.capturedAt && record.payload == command.payload
    && record.attachments == (if command.attachments.Some? then command.attachments.value else [])
  }

  /** The row was enqueued with this id in this run, and is that event, untried, as it was appended. */
  ghost predicate Enqueued(row: OutboxItem, id: RowId, steps: seq<Step>) {
    exists i :: 0 <= i < |steps| && steps[i].Enqueue? && steps[i].newId == id
      && OutboxEngine.CarriesCommand(row, steps[i].command) && row.attempts == 0 && row.state == PENDING
  }

  lemma {:induction false} EnqueuedLater(row: OutboxItem, id: RowId, steps: seq<Step>)
    requires steps != [] && Enqueued(row, id, steps[1..])
    ensures Enqueued(row, id, steps)
  {
    var i :| 0 <= i < |steps| - 1 && steps[1..][i].Enqueue? && steps[1..][i].newId == id
      && OutboxEngine.CarriesCommand(row, steps[1..][i].command) && row.attempts == 0 && row.state == PENDING;
    assert steps[i + 1] == steps[1..][i];
  }

  /** Whatever was appended in a run was enqueued in it, and is exactly what the driver said: the same
      key, kind, capture instant, payload and attachments. */
  lemma {:induction false} RowsAreEnqueuedEvents(s: State, steps: seq<Step>, policy: OutboxPolicy, id: RowId)
    requires Possible(s, steps, policy) && id in Final(s, steps, policy).appended && id !in s.appended
    ensures Enqueued(Final(s, steps, policy).appended[id], id, steps)
    decreases |steps|
  {
    var next := After(s, steps[0], policy);
    if id in next.appended {
      StaysAppended(next, steps[1..], policy, id);
      assert OutboxEngine.CarriesCommand(next.appended[id], steps[0].command);
    } else {
      RowsAreEnqueuedEvents(next, steps[1..], policy, id);
      EnqueuedLater(Final(s, steps, policy).appended[id], id, steps);
    }
  }

  lemma {:induction false} StaysAppended(s: State, steps: seq<Step>, policy: OutboxPolicy, id: RowId)
    requires Possible(s, steps, policy) && id in s.appended
    ensures id in Final(s, steps, policy).appended && Final(s, steps, policy).appended[id] == s.appended[id]
    decreases |steps|
  {
    if steps != [] { StaysAppended(After(s, steps[0], policy), steps[1..], policy, id); }
  }

  /** Every event ever enqueued has a row under its key, the first one enqueued if there are several:
      with `NothingIsLost`, it is still queued or on the server. */
  lemma {:induction false} EveryEventHasARow(s: State, steps: seq<Step>, policy: OutboxPolicy, i: nat)
    requires Inv(s) && Possible(s, steps, policy) && i < |steps| && steps[i].Enqueue?
    ensures var t := Final(s, steps, policy);
      exists id :: id in t.appended && t.appended[id].clientEventId == steps[i].command.clientEventId
    decreases |steps|
  {
    var next := After(s, steps[0], policy);
    StepKeepsInv(s, steps[0], policy);
    if i == 0 {
      var id := RowUnderKey(s, steps[0], policy);
      StaysAppended(next, steps[1..], policy, id);
      assert id in Final(s, steps, policy).appended;
    } else {
      assert steps[1..][i - 1] == steps[i];
      EveryEventHasARow(next, steps[1..], policy, i - 1);
      var t := Final(next, steps[1..], policy);
      var id :| id in t.appended && t.appended[id].clientEventId == steps[i].command.clientEventId;
      assert t == Final(s, steps, policy);
    }
  }

  lemma RowUnderKey(s: State, step: Step, policy: OutboxPolicy) returns (id: RowId)
    requires Inv(s) && Enabled(s, step) && step.Enqueue?
    ensures var t := After(s, step, policy);
      id in t.appended && t.appended[id].clientEventId == step.command.clientEventId
  {
    if HasKey(s.queue, step.command.clientEventId) {
      var k :| 0 <= k < |s.queue| && s.queue[k].clientEventId == step.command.clientEventId;
      assert Genuine(s, s.queue[k]);
      id := s.queue[k].id;
    } else {
      id := step.newId;
    }
  }

  /** The run enqueued an event of which the record says just what the driver said. */
  ghost predicate RecordsOneOf(record: EventContent, steps: seq<Step>) {
    exists k :: 0 <= k < |steps| && steps[k].Enqueue? && RecordsEvent(record, steps[k].command)
  }

  lemma RowRecordsItsEvent(row: OutboxItem, id: RowId, steps: seq<Step>)
    requires Enqueued(row, id, steps)
    ensures RecordsOneOf(row.Content(), steps)
  {
    var k :| 0 <= k < |steps| && steps[k].Enqueue? && steps[k].newId == id
      && OutboxEngine.CarriesCommand(row, steps[k].command) && row.attempts == 0 && row.state == PENDING;
    assert RecordsEvent(row.Content(), steps[k].command);
  }

  /** The server never holds two records for one event key, and every record is, word for word, an
      event the driver enqueued in this run. */
  lemma OneRecordPerEvent(start: Instant, steps: seq<Step>, policy: OutboxPolicy)
    requires Possible(Init(start), steps, policy)
    ensures var server := Final(Init(start), steps, policy).server;
      forall i, j :: 0 <= i < j < |server| ==> server[i].clientEventId != server[j].clientEventId
    ensures var server := Final(Init(start), steps, policy).server;
      forall i :: 0 <= i < |server| ==> RecordsOneOf(server[i], steps)
  {
    RunKeepsInv(Init(start), steps, policy);
    var s := Final(Init(start), steps, policy);
    assert ServerSound(s);
    forall i | 0 <= i < |s.server| ensures RecordsOneOf(s.server[i], steps) {
      assert FromAppended(s, s.server[i]);
      var id :| id in s.appended && s.appended[id].Content() == s.server[i];
      RowsAreEnqueuedEvents(Init(start), steps, policy, id);
      RowRecordsItsEvent(s.appended[id], id, steps);
    }
  }

  /** So no event is lost: for every one ever enqueued, a row with its key is queued or a record with its
      key is on the server. */
  lemma NoEventIsLost(start: Instant, steps: seq<Step>, policy: OutboxPolicy, i: nat)
    requires Possible(Init(start), steps, policy) && i < |steps| && steps[i].Enqueue?
    ensures var s := Final(Init(start), steps, policy);
      || (exists row :: row in s.queue && row.clientEventId == steps[i].command.clientEventId)
      || (exists record :: record in s.server && record.clientEventId == steps[i].command.clientEventId)
  {
    EveryEventHasARow(Init(start), steps, policy, i);
    var s := Final(Init(start), steps, policy);
    var id :| id in s.appended && s.appended[id].clientEventId == steps[i].command.clientEventId;
    NothingIsLost(start, steps, policy, id);
    if row :| row in s.queue && row.id == id && row.Content() == s.appended[id].Content() {
      assert row.clientEventId == row.Content().clientEventId;
    } else {
      assert s.appended[id].Content() in s.server;
    }
  }

  /** What is assumed of network and server: a sent item may arrive at any time, any number of times; a
      key the server does not hold is recorded with what arrived, a key it holds changes nothing. And a
      claim puts every item of its batch on the wire. */
  lemma ServerContract(s: State, m: Message, policy: OutboxPolicy)
    ensures Enabled(s, Deliver(m)) <==> m in s.network
    ensures m in s.network && (exists record :: record in s.server && record.clientEventId == m.content.clientEventId)
        ==> After(s, Deliver(m), policy) == s
    ensures m in s.network && (forall record :: record in s.server ==> record.clientEventId != m.content.clientEventId)
        ==> After(s, Deliver(m), policy) == s.(server := s.server + [m.content])
  {
  }

  lemma ClaimsAreSent(s: State, flight: nat, kind: OutboxItemKind, policy: OutboxPolicy, row: OutboxItem)
    requires Enabled(s, Claim(flight, kind)) && row in Claimed(s.queue, kind, policy.maxBatchSize, s.now)
    ensures var t := After(s, Claim(flight, kind), policy);
      && t.flights == s.flights[flight := Flight(Claimed(s.queue, kind, policy.maxBatchSize, s.now), s.now, Sending)]
      && exists m :: m in t.network && m.from == row.id
           && m.content.clientEventId == row.clientEventId && m.content.kind == row.kind
           && m.content.capturedAt == row.capturedAt && m.content.payload == row.payload
           && m.content.attachments == row.attachments
  {
    var m := Message(row.id, row.Content());
    assert m in MessagesOf(Claimed(s.queue, kind, policy.maxBatchSize, s.now));
  }

  /** A delivery the server must refuse (its key is on record with other content) needs two rows that
      were appended under the same key with different content; a resend of a row after a lost
      acknowledgement never clashes with that row's own earlier delivery. */
  lemma RefusalsNeedTwoEvents(start: Instant, steps: seq<Step>, policy: OutboxPolicy, m: Message, i: nat)
    requires Possible(Init(start), steps, policy)
    requires m in Final(Init(start), steps, policy).network
    requires i < |Final(Init(start), steps, policy).server|
    requires Final(Init(start), steps, policy).server[i].clientEventId == m.content.clientEventId
    requires Final(Init(start), steps, policy).server[i] != m.content
    ensures var s := Final(Init(start), steps, policy);
      exists other ::
        && other in s.appended && other != m.from && m.from in s.appended
        && s.appended[other].clientEventId == s.appended[m.from].clientEventId
        && s.appended[other].Content() == s.server[i]
        && s.appended[m.from].Content() == m.content
  {
    RunKeepsInv(Init(start), steps, policy);
    var s := Final(Init(start), steps, policy);
    assert FromAppended(s, s.server[i]);
    var other :| other in s.appended && s.appended[other].Content() == s.server[i];
  }

  // ----------------------------------------------------------------------------------------
  // How rows may change
  // ----------------------------------------------------------------------------------------

  /** The same row later on: same content, no fewer attempts, and blocked stays blocked. */
  ghost predicate SameRowLater(row: OutboxItem, later: OutboxItem) {
    && later.Content() == row.Content()
    && row.attempts <= later.attempts
    && (row.state == BLOCKED ==> later.state == BLOCKED)
  }

  /** Rows present at both ends are the same rows later on; rows that left do not come back. */
  ghost predicate Evolves(s: State, t: State) {
    && (forall row, later :: row in s.queue && later in t.queue && row.id == later.id ==> SameRowLater(row, later))
    && (forall id :: id in s.appended && HasId(t.queue, id) ==> HasId(s.queue, id))
  }

  lemma SameIdSameRow(q: Queue, a: OutboxItem, b: OutboxItem)
    requires DistinctIds(q) && a in q && b in q && a.id == b.id
    ensures a == b
  {
    var i :| 0 <= i < |q| && q[i] == a;
    var j :| 0 <= j < |q| && q[j] == b;
  }

  lemma UnchangedQueueEvolves(s: State, t: State)
    requires Inv(s) && t.queue == s.queue
    ensures Evolves(s, t)
  {
    forall row, row' | row in s.queue && row' in t.queue && row.id == row'.id ensures row == row' {
      SameIdSameRow(s.queue, row, row');
    }
  }

  lemma EnqueueEvolves(s: State, step: Step, policy: OutboxPolicy)
    requires Inv(s) && Enabled(s, step) && step.Enqueue?
    ensures Evolves(s, After(s, step, policy))
  {
    var t := After(s, step, policy);
    if t.queue == s.queue {
      UnchangedQueueEvolves(s, t);
    } else {
      var item := t.queue[|s.queue|];
      assert t.queue == s.queue + [item];
      forall row | row in s.queue ensures row.id != item.id {
        var i :| 0 <= i < |s.queue| && s.queue[i] == row;
        assert Genuine(s, s.queue[i]);
      }
      forall row, row' | row in s.queue && row' in t.queue && row.id == row'.id ensures row == row' {
        SameIdSameRow(s.queue, row, row');
      }
    }
  }

  lemma SettleEvolves(s: State, step: Step, policy: OutboxPolicy)
    requires Inv(s) && Enabled(s, step) && step.Settle?
    ensures Evolves(s, After(s, step, policy))
  {
    var t := After(s, step, policy);
    var f := s.flights[step.flight];
    SettleKeepsRows(s.queue, f.batch[f.phase.next], Verdict(f.phase.result, f.phase.next), s.now, policy);
    forall i, j | 0 <= i < |s.queue| && 0 <= j < |t.queue| && s.queue[i].id == t.queue[j].id
      ensures SameRowLater(s.queue[i], t.queue[j])
    {
      assert s.queue[j].id == s.queue[i].id;
    }
    forall id | HasId(t.queue, id) ensures HasId(s.queue, id) {
      var j :| 0 <= j < |t.queue| && t.queue[j].id == id;
      assert s.queue[j].id == id;
    }
  }

  lemma FinishEvolves(s: State, step: Step, policy: OutboxPolicy)
    requires Inv(s) && Enabled(s, step) && step.Finish?
    ensures Evolves(s, After(s, step, policy))
  {
    var t := After(s, step, policy);
    forall row, row' | row in s.queue && row' in t.queue && row.id == row'.id ensures row == row' {
      SameIdSameRow(s.queue, row, row');
    }
    forall id | HasId(t.queue, id) ensures HasId(s.queue, id) {
      var j :| 0 <= j < |t.queue| && t.queue[j].id == id;
      assert t.queue[j] in s.queue;
      var i :| 0 <= i < |s.queue| && s.queue[i] == t.queue[j];
    }
  }

  lemma StepEvolves(s: State, step: Step, policy: OutboxPolicy)
    requires Inv(s) && Enabled(s, step)
    ensures Evolves(s, After(s, step, policy))
  {
    if step.Enqueue? { EnqueueEvolves(s, step, policy); }
    else if step.Settle? { SettleEvolves(s, step, policy); }
    else if step.Finish? { FinishEvolves(s, step, policy); }
    else { UnchangedQueueEvolves(s, After(s, step, policy)); }
  }

  lemma EvolvesTransitive(s: State, t: State, u: State)
    requires Evolves(s, t) && Evolves(t, u) && QueueGenuine(s) && Grows(s, t)
    ensures Evolves(s, u)
  {
    forall id | id in s.appended && HasId(u.queue, id) ensures HasId(s.queue, id) && HasId(t.queue, id) {
      assert id in t.appended;
    }
    forall row, later | row in s.queue && later in u.queue && row.id == later.id
      ensures SameRowLater(row, later)
    {
      PresentBetween(s, t, u, row, later);
      var between :| between in t.queue && between.id == row.id;
      assert SameRowLater(row, between) && SameRowLater(between, later);
    }
  }

  lemma PresentBetween(s: State, t: State, u: State, row: OutboxItem, later: OutboxItem)
    requires Evolves(t, u) && QueueGenuine(s) && Grows(s, t)
    requires row in s.queue && later in u.queue && later.id == row.id
    ensures exists between :: between in t.queue && between.id == row.id
  {
    var i :| 0 <= i < |s.queue| && s.queue[i] == row;
    assert Genuine(s, s.queue[i]);
    var k :| 0 <= k < |u.queue| && u.queue[k] == later;
    assert HasId(u.queue, row.id);
    var j :| 0 <= j < |t.queue| && t.queue[j].id == row.id;
    assert t.queue[j] in t.queue;
  }

  /** Between any two states of any run: identity, key, kind, capture instant, payload and
      attachments are frozen, attempts never go down, BLOCKED never turns back into PENDING, and a
      row that left never returns. */
  lemma {:induction false} RowsAreFrozen(s: State, steps: seq<Step>, policy: OutboxPolicy)
    requires Inv(s) && Possible(s, steps, policy)
    ensures Evolves(s, Final(s, steps, policy))
    decreases |steps|
  {
    if steps == [] {
      UnchangedQueueEvolves(s, s);
    } else {
      var next := After(s, steps[0], policy);
      StepKeepsInv(s, steps[0], policy);
      StepEvolves(s, steps[0], policy);
      StepGrows(s, steps[0], policy);
      RowsAreFrozen(next, steps[1..], policy);
      EvolvesTransitive(s, next, Final(next, steps[1..], policy));
    }
  }
}
