/** The outbox against a server, with every await taken apart: enqueues, any number of overlapping
    drains, a network that delivers any sent item at any time, as often as it likes and even after
    the sender gave up, and a server that keeps the contract of
    packages/driver-outbox/src/outbox.types.ts: the same key with the same content is idempotent,
    the same key with different content is refused, and only what is stored is acknowledged. */
module OutboxProtocol {
  import opened Sequences
  import opened Backoff
  import opened OutboxTypes
  import opened OutboxQueue
  import opened OutboxDrain
  import OutboxEngine

  /** A sent item on the wire; the server sees the content, never the row id. */
  datatype Message = Message(from: RowId, content: EventContent)

  /** Where a drain waits: for `sendBatch`, or between two store calls of its settling loop. */
  datatype Phase =
    | Sending
    | Settling(result: SendResult, next: nat, accepted: seq<RowId>)

  datatype Flight = Flight(batch: Queue, startedAt: Instant, phase: Phase)

  datatype State = State(
    now: Instant,
    queue: Queue,
    /** Every row ever appended, as it was appended. */
    appended: map<RowId, OutboxItem>,
    network: set<Message>,
    server: seq<EventContent>,
    flights: map<nat, Flight>)

  datatype Step =
    | Tick(to: Instant)
    | Enqueue(command: EnqueueCommand, newId: RowId)
    | Claim(flight: nat, kind: OutboxItemKind)
    | Deliver(message: Message)
    | Answer(flight: nat, result: SendResult)
    | Settle(flight: nat)
    | Finish(flight: nat)

  function Init(now: Instant): State {
    State(now, [], map[], {}, [], map[])
  }

  function MessagesOf(batch: Queue): set<Message> {
    set item | item in batch :: Message(item.id, item.Content())
  }

  predicate ServerHasKey(server: seq<EventContent>, key: EventKey) {
    exists i :: 0 <= i < |server| && server[i].clientEventId == key
  }

  /** The server acknowledges only what it holds. What it leaves out of its answer it promises nothing
      about. */
  ghost predicate Honest(result: SendResult, batch: Queue, server: seq<EventContent>) {
    result.Returned? ==> forall i :: 0 <= i < |batch| && i < |result.outcomes| && result.outcomes[i].ACCEPTED? ==>
      batch[i].Content() in server
  }

  ghost predicate Enabled(s: State, step: Step) {
    match step
    case Tick(to) => s.now <= to
    case Enqueue(_, newId) => newId !in s.appended
    case Claim(flight, _) => flight !in s.flights
    case Deliver(message) => message in s.network
    case Answer(flight, result) =>
      flight in s.flights && s.flights[flight].phase.Sending? && Honest(result, s.flights[flight].batch, s.server)
    case Settle(flight) =>
      flight in s.flights && var f := s.flights[flight]; f.phase.Settling? && f.phase.next < |f.batch|
    case Finish(flight) =>
      flight in s.flights && var f := s.flights[flight]; f.phase.Settling? && f.phase.next == |f.batch|
  }

  ghost function After(s: State, step: Step, policy: OutboxPolicy): State
    requires Enabled(s, step)
  {
    match step
    case Tick(to) => s.(now := to)
    case Enqueue(command, newId) =>
      var item := OutboxEngine.NewItem(command, newId, s.now);
      if HasKey(s.queue, item.clientEventId) then s
      else s.(queue := s.queue + [item], appended := s.appended[newId := item])
    case Claim(flight, kind) =>
      var batch := Claimed(s.queue, kind, policy.maxBatchSize, s.now);
      if batch == [] then s
      else s.(flights := s.flights[flight := Flight(batch, s.now, Sending)], network := s.network + MessagesOf(batch))
    case Deliver(message) =>
      if ServerHasKey(s.server, message.content.clientEventId) then s
      else s.(server := s.server + [message.content])
    case Answer(flight, result) =>
      s.(flights := s.flights[flight := s.flights[flight].(phase := Settling(result, 0, []))])
    case Settle(flight) =>
      var f := s.flights[flight];
      var item, verdict := f.batch[f.phase.next], Verdict(f.phase.result, f.phase.next);
      var accepted := f.phase.accepted + if verdict.ACCEPTED? then [item.id] else [];
      s.(queue := SettleOne(s.queue, item, verdict, s.now, policy),
         flights := s.flights[flight := f.(phase := Settling(f.phase.result, f.phase.next + 1, accepted))])
    case Finish(flight) =>
      s.(queue := RemoveAll(s.queue, s.flights[flight].phase.accepted), flights := s.flights - {flight})
  }

  ghost predicate Possible(s: State, steps: seq<Step>, policy: OutboxPolicy)
    decreases |steps|
  {
    steps == [] || (Enabled(s, steps[0]) && Possible(After(s, steps[0], policy), steps[1..], policy))
  }

  ghost function Final(s: State, steps: seq<Step>, policy: OutboxPolicy): State
    requires Possible(s, steps, policy)
    decreases |steps|
  {
    if steps == [] then s else Final(After(s, steps[0], policy), steps[1..], policy)
  }

  lemma RunFrom(s: State, step: Step, rest: seq<Step>, policy: OutboxPolicy)
    requires Enabled(s, step) && Possible(After(s, step, policy), rest, policy)
    ensures Possible(s, [step] + rest, policy)
    ensures Final(s, [step] + rest, policy) == Final(After(s, step, policy), rest, policy)
  {
    assert ([step] + rest)[1..] == rest;
  }

  lemma RunOfTwo(s: State, a: Step, b: Step, policy: OutboxPolicy)
    requires Enabled(s, a) && Enabled(After(s, a, policy), b)
    ensures Possible(s, [a, b], policy) && Final(s, [a, b], policy) == After(After(s, a, policy), b, policy)
  {
    RunFrom(After(s, a, policy), b, [], policy);
    RunFrom(s, a, [b], policy);
    assert [a] + [b] == [a, b] && [b] + [] == [b];
  }

  lemma {:induction false} RunThen(s: State, first: seq<Step>, rest: seq<Step>, policy: OutboxPolicy)
    requires Possible(s, first, policy) && Possible(Final(s, first, policy), rest, policy)
    ensures Possible(s, first + rest, policy)
    ensures Final(s, first + rest, policy) == Final(Final(s, first, policy), rest, policy)
    decreases |first|
  {
    if first == [] {
      assert first + rest == rest;
    } else {
      RunThen(After(s, first[0], policy), first[1..], rest, policy);
      RunFrom(s, first[0], first[1..] + rest, policy);
      assert [first[0]] + (first[1..] + rest) == first + rest;
    }
  }

  // ----------------------------------------------------------------------------------------
  // What every step keeps
  // ----------------------------------------------------------------------------------------

  /** A snapshot of a row that was appended: same id, same frozen content. */
  ghost predicate Genuine(s: State, item: OutboxItem) {
    item.id in s.appended && item.Content() == s.appended[item.id].Content()
  }

  ghost predicate QueueGenuine(s: State) {
    && WellFormed(s.queue)
    && (forall id :: id in s.appended ==> s.appended[id].id == id)
    && (forall i :: 0 <= i < |s.queue| ==> Genuine(s, s.queue[i]))
  }

  ghost predicate NetworkGenuine(s: State) {
    forall m :: m in s.network ==> m.from in s.appended && m.content == s.appended[m.from].Content()
  }

  ghost predicate FromAppended(s: State, content: EventContent) {
    exists id :: id in s.appended && s.appended[id].Content() == content
  }

  ghost predicate ServerSound(s: State) {
    && (forall i, j :: 0 <= i < j < |s.server| ==> s.server[i].clientEventId != s.server[j].clientEventId)
    && (forall i :: 0 <= i < |s.server| ==> FromAppended(s, s.server[i]))
  }

  /** The ids accepted among the first `n` items of a batch; neither clock nor policy matter here. */
  function AcceptedOf(batch: Queue, result: SendResult, n: nat): seq<RowId>
    requires n <= |batch|
  {
    AcceptedIds(Attempt(batch, result, _ => 0, DEFAULT_OUTBOX_POLICY), n)
  }

  ghost predicate FlightSound(s: State, f: Flight) {
    && DistinctIds(f.batch)
    && (forall i :: 0 <= i < |f.batch| ==> Genuine(s, f.batch[i]))
    && (f.phase.Settling? ==>
          && f.phase.next <= |f.batch|
          && f.phase.accepted == AcceptedOf(f.batch, f.phase.result, f.phase.next)
          && Honest(f.phase.result, f.batch, s.server)
          && (forall i :: 0 <= i < |f.phase.accepted| ==>
                && f.phase.accepted[i] in s.appended
                && s.appended[f.phase.accepted[i]].Content() in s.server))
  }

  ghost predicate FlightsSound(s: State) {
    forall flight :: flight in s.flights ==> FlightSound(s, s.flights[flight])
  }

  /** Every row ever appended is still queued, or the server holds exactly its content. */
  ghost predicate Conserved(s: State) {
    forall id :: id in s.appended ==> HasId(s.queue, id) || s.appended[id].Content() in s.server
  }

  ghost predicate Inv(s: State) {
    QueueGenuine(s) && NetworkGenuine(s) && ServerSound(s) && FlightsSound(s) && Conserved(s)
  }

  lemma SettleKeepsRows(q: Queue, item: OutboxItem, verdict: SendOutcome, now: Instant, policy: OutboxPolicy)
    ensures var q' := SettleOne(q, item, verdict, now, policy);
      && |q'| == |q|
      && forall i :: 0 <= i < |q| ==>
           && q'[i].id == q[i].id && q'[i].Content() == q[i].Content()
           && q[i].attempts <= q'[i].attempts
           && (q[i].state == BLOCKED ==> q'[i].state == BLOCKED)
           && (q[i].id != item.id ==> q'[i] == q[i])
  {
  }

  /** Nothing already on record changes: rows only join, the server only grows. */
  ghost predicate Grows(s: State, t: State) {
    && (forall id :: id in s.appended ==> id in t.appended && t.appended[id] == s.appended[id])
    && |s.server| <= |t.server| && t.server[..|s.server|] == s.server
    && s.now <= t.now
  }

  lemma StepGrows(s: State, step: Step, policy: OutboxPolicy)
    requires Enabled(s, step)
    ensures Grows(s, After(s, step, policy))
  {
  }

  lemma GrowsKeepsServer(s: State, t: State, content: EventContent)
    requires Grows(s, t) && content in s.server
    ensures content in t.server
  {
    var i :| 0 <= i < |s.server| && s.server[i] == content;
    assert t.server[..|s.server|][i] == content;
  }

  lemma FlightStaysSound(s: State, t: State, f: Flight)
    requires Grows(s, t) && FlightSound(s, f)
    ensures FlightSound(t, f)
  {
    forall content | content in s.server ensures content in t.server { GrowsKeepsServer(s, t, content); }
  }

  lemma ClaimedBatchGenuine(s: State, kind: OutboxItemKind, policy: OutboxPolicy)
    requires QueueGenuine(s)
    ensures var batch := Claimed(s.queue, kind, policy.maxBatchSize, s.now);
      DistinctIds(batch) && forall item :: item in batch ==> Genuine(s, item)
  {
    ClaimedRows(s.queue, kind, policy.maxBatchSize, s.now);
  }

  lemma SettledFlightSound(s: State, f: Flight)
    requires FlightSound(s, f) && f.phase.Settling? && f.phase.next < |f.batch|
    ensures var item, verdict := f.batch[f.phase.next], Verdict(f.phase.result, f.phase.next);
      var accepted := f.phase.accepted + if verdict.ACCEPTED? then [item.id] else [];
      FlightSound(s, f.(phase := Settling(f.phase.result, f.phase.next + 1, accepted)))
  {
    assert Genuine(s, f.batch[f.phase.next]);
  }

  /** The flight a step touches, before it is touched and after. */
  lemma TouchedFlightSound(s: State, step: Step, policy: OutboxPolicy, f: Flight)
    requires Inv(s) && Enabled(s, step) && (step.Claim? || step.Answer? || step.Settle?)
    requires step.flight in After(s, step, policy).flights && f == After(s, step, policy).flights[step.flight]
    ensures FlightSound(s, f)
  {
    match step {
      case Claim(_, kind) => ClaimedBatchGenuine(s, kind, policy);
      case Answer(flight, _) => assert FlightSound(s, s.flights[flight]);
      case Settle(flight) => SettledFlightSound(s, s.flights[flight]);
    }
  }

  lemma StepKeepsFlights(s: State, step: Step, policy: OutboxPolicy)
    requires Inv(s) && Enabled(s, step)
    ensures FlightsSound(After(s, step, policy))
  {
    var t := After(s, step, policy);
    StepGrows(s, step, policy);
    forall flight | flight in t.flights ensures FlightSound(t, t.flights[flight]) {
      if (step.Claim? || step.Answer? || step.Settle?) && flight == step.flight {
        TouchedFlightSound(s, step, policy, t.flights[flight]);
        FlightStaysSound(s, t, t.flights[flight]);
      } else {
        FlightStaysSound(s, t, s.flights[flight]);
      }
    }
  }

  lemma SettleKeepsQueue(s: State, flight: nat, policy: OutboxPolicy)
    requires Inv(s) && Enabled(s, Settle(flight))
    ensures QueueGenuine(After(s, Settle(flight), policy))
  {
    var f := s.flights[flight];
    SettleKeepsRows(s.queue, f.batch[f.phase.next], Verdict(f.phase.result, f.phase.next), s.now, policy);
  }

  lemma FinishKeepsQueue(s: State, flight: nat, policy: OutboxPolicy)
    requires Inv(s) && Enabled(s, Finish(flight))
    ensures QueueGenuine(After(s, Finish(flight), policy))
  {
    var q' := RemoveAll(s.queue, s.flights[flight].phase.accepted);
    RemoveAllKeepsWellFormed(s.queue, s.flights[flight].phase.accepted);
    forall i | 0 <= i < |q'| ensures Genuine(s, q'[i]) { assert q'[i] in s.queue; }
  }

  lemma StepKeepsQueue(s: State, step: Step, policy: OutboxPolicy)
    requires Inv(s) && Enabled(s, step)
    ensures QueueGenuine(After(s, step, policy))
  {
    match step {
      case Settle(flight) => SettleKeepsQueue(s, flight, policy);
      case Finish(flight) => FinishKeepsQueue(s, flight, policy);
      case _ =>
    }
  }

  lemma StepKeepsNetwork(s: State, step: Step, policy: OutboxPolicy)
    requires Inv(s) && Enabled(s, step)
    ensures NetworkGenuine(After(s, step, policy))
  {
    if step.Claim? {
      ClaimedBatchGenuine(s, step.kind, policy);
    }
  }

  lemma StepKeepsServer(s: State, step: Step, policy: OutboxPolicy)
    requires Inv(s) && Enabled(s, step)
    ensures ServerSound(After(s, step, policy))
  {
    var t := After(s, step, policy);
    forall content | FromAppended(s, content) ensures FromAppended(t, content) {
      var id :| id in s.appended && s.appended[id].Content() == content;
      assert id in t.appended;
    }
  }

  lemma StepKeepsConservation(s: State, step: Step, policy: OutboxPolicy)
    requires Inv(s) && Enabled(s, step)
    ensures Conserved(After(s, step, policy))
  {
    var t := After(s, step, policy);
    StepGrows(s, step, policy);
    forall id | id in t.appended ensures HasId(t.queue, id) || t.appended[id].Content() in t.server {
      if id !in s.appended {
        assert t.queue[|s.queue|].id == id;
      } else if !HasId(s.queue, id) {
        GrowsKeepsServer(s, t, s.appended[id].Content());
      } else {
        RowSurvivesOrArrived(s, step, policy, id);
      }
    }
  }

  /** A row leaves the queue in one way only: a drain that accepted it finishes. */
  lemma RowsLeaveInFinish(s: State, step: Step, policy: OutboxPolicy, id: RowId)
    requires Inv(s) && Enabled(s, step) && HasId(s.queue, id)
    ensures !HasId(After(s, step, policy).queue, id) <==> step.Finish? && id in s.flights[step.flight].phase.accepted
  {
    match step {
      case Settle(flight) =>
        var f := s.flights[flight];
        SettleKeepsId(s.queue, f.batch[f.phase.next], Verdict(f.phase.result, f.phase.next), s.now, policy, id);
      case Finish(flight) =>
        var accepted := s.flights[flight].phase.accepted;
        if id in accepted { RemovedAreGone(s.queue, accepted, id); } else { RemoveAllKeepsOthers(s.queue, accepted, id); }
      case Enqueue(command, newId) =>
        var i :| 0 <= i < |s.queue| && s.queue[i].id == id;
        assert After(s, step, policy).queue[i] == s.queue[i];
      case _ =>
    }
  }

  /** A row leaves the queue only in a step that finds its content on the server. */
  lemma RowSurvivesOrArrived(s: State, step: Step, policy: OutboxPolicy, id: RowId)
    requires Inv(s) && Enabled(s, step) && HasId(s.queue, id)
    ensures HasId(After(s, step, policy).queue, id) || s.appended[id].Content() in s.server
  {
    RowsLeaveInFinish(s, step, policy, id);
    if step.Finish? { assert FlightSound(s, s.flights[step.flight]); }
  }

  lemma SettleKeepsId(q: Queue, item: OutboxItem, verdict: SendOutcome, now: Instant, policy: OutboxPolicy, id: RowId)
    requires HasId(q, id)
    ensures HasId(SettleOne(q, item, verdict, now, policy), id)
  {
    SettleKeepsRows(q, item, verdict, now, policy);
    var i :| 0 <= i < |q| && q[i].id == id;
    assert SettleOne(q, item, verdict, now, policy)[i].id == id;
  }

  lemma RemovedAreGone(q: Queue, ids: seq<RowId>, id: RowId)
    requires id in ids
    ensures !HasId(RemoveAll(q, ids), id)
  {
    forall i | 0 <= i < |RemoveAll(q, ids)| ensures RemoveAll(q, ids)[i].id != id {
      assert RemoveAll(q, ids)[i] in RemoveAll(q, ids);
    }
  }

  lemma RemoveAllKeepsOthers(q: Queue, ids: seq<RowId>, id: RowId)
    requires HasId(q, id) && id !in ids
    ensures HasId(RemoveAll(q, ids), id)
  {
    var i :| 0 <= i < |q| && q[i].id == id;
    assert q[i] in RemoveAll(q, ids);
    var k :| 0 <= k < |RemoveAll(q, ids)| && RemoveAll(q, ids)[k] == q[i];
  }

  lemma StepKeepsInv(s: State, step: Step, policy: OutboxPolicy)
    requires Inv(s) && Enabled(s, step)
    ensures Inv(After(s, step, policy))
  {
    StepKeepsQueue(s, step, policy);
    StepKeepsNetwork(s, step, policy);
    StepKeepsServer(s, step, policy);
    StepKeepsFlights(s, step, policy);
    StepKeepsConservation(s, step, policy);
  }

  lemma {:induction false} RunKeepsInv(s: State, steps: seq<Step>, policy: OutboxPolicy)
    requires Inv(s) && Possible(s, steps, policy)
    ensures Inv(Final(s, steps, policy)) && Grows(s, Final(s, steps, policy))
    decreases |steps|
  {
    if steps != [] {
      var next := After(s, steps[0], policy);
      StepKeepsInv(s, steps[0], policy);
      StepGrows(s, steps[0], policy);
      RunKeepsInv(next, steps[1..], policy);
      GrowsTransitive(s, next, Final(s, steps, policy));
    }
  }

  lemma GrowsTransitive(s: State, t: State, u: State)
    requires Grows(s, t) && Grows(t, u)
    ensures Grows(s, u)
  {
    assert u.server[..|t.server|][..|s.server|] == u.server[..|s.server|];
  }
}
