/** The engine: it enqueues events and drains them in bounded batches
    (packages/driver-outbox/src/outbox.ts). Here a call runs to its end before the next one starts;
    `OutboxProtocol` takes the awaits apart. */
module OutboxEngine {
  import opened Sequences
  import opened Backoff
  import opened OutboxTypes
  import opened OutboxQueue
  import opened OutboxDrain
  import opened OutboxOutcomes
  import opened OutboxStore

  function NewItem(command: EnqueueCommand, id: RowId, now: Instant): OutboxItem {
    OutboxItem(id, command.clientEventId, command.kind, command.capturedAt, command.payload,
               match command.attachments case None => [] case Some(files) => files,
               0, now, PENDING, None)
  }

  /** The row holds what the command says, word for word, and is due at once. */
  predicate CarriesCommand(row: OutboxItem, command: EnqueueCommand) {
    && row.clientEventId == command.clientEventId && row.kind == command.kind
    && row.capturedAt == command.capturedAt && row.payload == command.payload
    && row.attachments == (if command.attachments.Some? then command.attachments.value else [])
  }

  predicate Untried(row: OutboxItem, now: Instant) {
    row.attempts == 0 && row.nextAttemptAt == now && row.state == PENDING && row.lastError == None
  }

  class OutboxEngine {
    const store: InMemoryOutboxStore
    const policy: OutboxPolicy
    var lastAttemptAt: Option<Instant>
    var lastError: Option<string>

    constructor (store: InMemoryOutboxStore, policy: Option<OutboxPolicy>)
      ensures this.store == store
      ensures this.policy == if policy.Some? then policy.value else OutboxPolicy(200, 2_000, 300_000)
      ensures lastAttemptAt == None && lastError == None
    {
      this.store := store;
      this.policy := match policy case None => DEFAULT_OUTBOX_POLICY case Some(given) => given;
      lastAttemptAt, lastError := None, None;
    }

    /** A second tap on the same event leaves the queue alone and hands back the first row, with the
        capture instant of the first tap. A new event joins at the end, due at once; the store stays
        valid then exactly when the generated id is new. */
    method Enqueue(command: EnqueueCommand, newId: RowId, now: Instant) returns (item: OutboxItem)
      requires store.Valid()
      modifies store
      ensures store.Valid() <==> old(HasKey(store.Values(), command.clientEventId)) || newId !in old(store.rows)
      ensures old(HasKey(store.Values(), command.clientEventId)) ==>
        store.Values() == old(store.Values()) && item in store.Values() && item.clientEventId == command.clientEventId
      ensures !old(HasKey(store.Values(), command.clientEventId)) && newId !in old(store.rows) ==>
        && store.Values() == old(store.Values()) + [item]
        && item.id == newId && CarriesCommand(item, command) && Untried(item, now)
    {
      item := store.Append(NewItem(command, newId, now));
    }

    /** Sends one batch of one kind. `send` is what awaiting the sender gives for a batch, and
        `clock(i)` is the clock while batch item `i` is settled. */
    method Drain(kind: OutboxItemKind, startedAt: Instant, clock: nat -> Instant, send: Queue -> SendResult)
      returns (removed: nat)
      requires store.Valid()
      modifies this, store
      ensures store.Valid()
      ensures var batch := old(store.Claim(kind, policy.maxBatchSize, startedAt));
        var a := Attempt(batch, send(batch), clock, policy);
        && store.Values() == Fates(old(store.Values()), a)
        && DrainSettles(old(store.Values()), store.Values(), a)
        && removed == |old(store.Values())| - |store.Values()|
        && removed == |AcceptedIds(a, |batch|)|
        && lastAttemptAt == (if batch == [] then old(lastAttemptAt) else Some(startedAt))
        && lastError == (if batch == [] then old(lastError) else LastFailure(a, |batch|))
    {
      var batch := store.Claim(kind, policy.maxBatchSize, startedAt);
      ghost var before := store.Values();
      ghost var a := Attempt(batch, send(batch), clock, policy);
      ClaimIsSound(batch, kind, startedAt);
      DrainSettlesItsBatch(before, a);
      if |batch| == 0 {
        DrainDecidesRowByRow(before, a);
        RemoveNone(before, []);
        return 0;
      }
      lastAttemptAt := Some(startedAt);
      removed := SettleAnswer(a, batch, send(batch), clock);
    }

    /** The drain from the sender's answer on. */
    method SettleAnswer(ghost a: Attempt, batch: Queue, result: SendResult, clock: nat -> Instant)
      returns (removed: nat)
      requires store.Valid() && batch != [] && DistinctIds(store.Values()) && DistinctIds(batch)
      requires a == Attempt(batch, result, clock, policy) && forall item :: item in batch ==> item in store.Values()
      modifies this, store
      ensures store.Valid() && store.Values() == Fates(old(store.Values()), a)
      ensures removed == |old(store.Values())| - |store.Values()| == |AcceptedIds(a, |batch|)|
      ensures lastAttemptAt == old(lastAttemptAt) && lastError == LastFailure(a, |batch|)
    {
      ghost var before := store.Values();
      DrainDecidesRowByRow(before, a);
      DrainCountsRemovals(before, a);
      match result
      case Thrown(error) =>
        var reason := MessageOf(error);
        lastError := Some(reason);
        RetryBatch(a, batch, reason, clock);
        ThrowAcceptsNothing(a, |batch|);
        RemoveNone(store.Values(), []);
        removed := 0;
      case Returned(outcomes) =>
        var accepted, lastFailure := SettleBatch(a, batch, outcomes, clock);
        if |accepted| > 0 {
          store.Remove(accepted);
        } else {
          RemoveNone(store.Values(), accepted);
        }
        lastError := lastFailure;
        removed := |accepted|;
    }

    /** The loop after a throw: the whole batch backs off. */
    method RetryBatch(ghost a: Attempt, batch: Queue, reason: string, clock: nat -> Instant)
      requires store.Valid()
      requires a.batch == batch && a.clock == clock && a.policy == policy
      requires a.result.Thrown? && reason == MessageOf(a.result.error)
      modifies store
      ensures store.Valid()
      ensures store.Values() == SettlePrefix(old(store.Values()), a, |batch|)
    {
      for i := 0 to |batch|
        invariant store.Valid()
        invariant store.Values() == SettlePrefix(old(store.Values()), a, i)
      {
        RetryLater(batch[i], reason, clock(i));
      }
    }

    /** The loop over the outcomes: collects the accepted ids and settles every other item. */
    method SettleBatch(ghost a: Attempt, batch: Queue, outcomes: seq<SendOutcome>, clock: nat -> Instant)
      returns (accepted: seq<RowId>, lastFailure: Option<string>)
      requires store.Valid()
      requires a == Attempt(batch, Returned(outcomes), clock, policy)
      modifies store
      ensures store.Valid()
      ensures store.Values() == SettlePrefix(old(store.Values()), a, |batch|)
      ensures accepted == AcceptedIds(a, |batch|) && lastFailure == LastFailure(a, |batch|)
    {
      accepted, lastFailure := [], None;
      for i := 0 to |batch|
        invariant store.Valid()
        invariant store.Values() == SettlePrefix(old(store.Values()), a, i)
        invariant accepted == AcceptedIds(a, i) && lastFailure == LastFailure(a, i)
      {
        var outcome := if i < |outcomes| then outcomes[i] else RETRY("MISSING_OUTCOME");
        assert outcome == Verdict(a.result, i);
        match outcome {
          case ACCEPTED =>
            accepted := accepted + [batch[i].id];
          case REJECTED(reason) =>
            lastFailure := Some(reason);
            store.Block(batch[i].id, reason);
          case RETRY(reason) =>
            lastFailure := Some(reason);
            RetryLater(batch[i], reason, clock(i));
        }
      }
    }

    lemma ClaimIsSound(batch: Queue, kind: OutboxItemKind, startedAt: Instant)
      requires store.Valid() && batch == store.Claim(kind, policy.maxBatchSize, startedAt)
      ensures DistinctIds(store.Values()) && DistinctIds(batch)
      ensures forall item :: item in batch ==> item in store.Values() && item.state == PENDING
    {
      AgreeingMapsAreWellFormed(store.rows, store.order, store.byEventId);
      ClaimedRows(store.Values(), kind, policy.maxBatchSize, startedAt);
    }

    method RetryLater(item: OutboxItem, reason: string, now: Instant)
      requires store.Valid()
      modifies store
      ensures store.Valid()
      ensures store.Values() == SettleOne(old(store.Values()), item, RETRY(reason), now, policy)
    {
      var next := RetryAt(item, now, policy);
      store.Reschedule(item.id, next, reason);
    }

    method Status() returns (status: SyncStatus)
      requires store.Valid()
      ensures status.pending + status.blocked == |store.rows|
      ensures status.blocked == |store.ListBlocked()|
      ensures status.lastAttemptAt == lastAttemptAt && status.lastError == lastError
    {
      var pending, blocked := store.CountByState();
      status := SyncStatus(pending, blocked, lastAttemptAt, lastError);
    }
  }
}
