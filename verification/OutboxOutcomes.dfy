/** What a drain does, read off the sender's own answer and the fields of the rows
    (packages/driver-outbox/src/outbox.ts): the contract of `Drain` for whoever looks at the store. */
module OutboxOutcomes {
  import opened Sequences
  import opened Backoff
  import opened OutboxTypes
  import opened OutboxQueue
  import opened OutboxDrain

  /** The sender's answer accepts item `k`. */
  predicate Accepts(result: SendResult, k: nat) {
    result.Returned? && k < |result.outcomes| && result.outcomes[k].ACCEPTED?
  }

  predicate SameEvent(row: OutboxItem, item: OutboxItem) {
    && row.id == item.id && row.clientEventId == item.clientEventId && row.kind == item.kind
    && row.capturedAt == item.capturedAt && row.payload == item.payload && row.attachments == item.attachments
  }

  ghost predicate Gone(q: Queue, item: OutboxItem) {
    forall row :: row in q ==> row.id != item.id
  }

  /** The item waits for its next attempt, one failure further on. */
  ghost predicate Waiting(q: Queue, item: OutboxItem, reason: string, now: Instant, policy: OutboxPolicy) {
    exists row :: row in q && SameEvent(row, item)
      && row.state == PENDING && row.attempts == item.attempts + 1 && row.lastError == Some(reason)
      && row.nextAttemptAt == now + BackoffDelayMs(item.attempts + 1, policy)
  }

  /** The item is set aside for good. */
  ghost predicate SetAside(q: Queue, item: OutboxItem, reason: string) {
    exists row :: row in q && SameEvent(row, item)
      && row.state == BLOCKED && row.attempts == item.attempts + 1 && row.lastError == Some(reason)
      && row.nextAttemptAt == item.nextAttemptAt
  }

  /** What has become of item `k` of a batch: accepted items are gone, rejected ones are set aside,
      and all others wait: those to be retried, those the answer leaves out, and after a throw every one. */
  ghost predicate ItemSettled(
    q: Queue, item: OutboxItem, result: SendResult, k: nat, now: Instant, policy: OutboxPolicy)
  {
    match result
    case Thrown(AnError(message)) => Waiting(q, item, if message == "" then "NETWORK_ERROR" else message, now, policy)
    case Thrown(NotAnError) => Waiting(q, item, "NETWORK_ERROR", now, policy)
    case Returned(outcomes) =>
      if k >= |outcomes| then Waiting(q, item, "MISSING_OUTCOME", now, policy)
      else
        match outcomes[k]
        case ACCEPTED => Gone(q, item)
        case RETRY(reason) => Waiting(q, item, reason, now, policy)
        case REJECTED(reason) => SetAside(q, item, reason)
  }

  ghost predicate BatchSettled(q: Queue, a: Attempt) {
    forall k :: 0 <= k < |a.batch| ==> ItemSettled(q, a.batch[k], a.result, k, a.clock(k), a.policy)
  }

  /** The rows outside the batch are all there, as they were, and no row is new. */
  ghost predicate OthersUntouched(before: Queue, after: Queue, batch: Queue) {
    && (forall row :: row in before && (forall k :: 0 <= k < |batch| ==> batch[k].id != row.id) ==> row in after)
    && (forall row :: row in after ==> HasId(before, row.id))
  }

  ghost predicate DrainSettles(before: Queue, after: Queue, a: Attempt) {
    BatchSettled(after, a) && OthersUntouched(before, after, a.batch)
  }

  // ----------------------------------------------------------------------------------------
  // The row-by-row account of a drain says just this
  // ----------------------------------------------------------------------------------------

  lemma FateOfItem(item: OutboxItem, a: Attempt, k: nat)
    requires DistinctIds(a.batch) && k < |a.batch| && a.batch[k] == item
    ensures IndexOfId(a.batch, item.id) == k
    ensures Fate(item, a)
         == if Verdict(a.result, k).ACCEPTED? then None
            else Some(SettledRow(item, item, Verdict(a.result, k), a.clock(k), a.policy))
  {
    var i := IndexOfId(a.batch, item.id);
    assert i == k;
  }

  lemma {:induction false} FatesHold(q: Queue, a: Attempt, row: OutboxItem)
    requires row in q && Fate(row, a).Some?
    ensures Fate(row, a).value in Fates(q, a)
  {
    if row != q[0] { FatesHold(q[1..], a, row); }
  }

  lemma {:induction false} FatesComeFrom(q: Queue, a: Attempt, later: OutboxItem) returns (row: OutboxItem)
    requires later in Fates(q, a)
    ensures row in q && Fate(row, a) == Some(later) && later.id == row.id
  {
    if Fate(q[0], a) == Some(later) {
      row := q[0];
    } else {
      row := FatesComeFrom(q[1..], a, later);
    }
  }

  lemma SettledItem(q: Queue, a: Attempt, k: nat)
    requires DistinctIds(q) && DistinctIds(a.batch) && k < |a.batch|
    requires a.batch[k] in q && a.batch[k].state == PENDING
    ensures ItemSettled(Fates(q, a), a.batch[k], a.result, k, a.clock(k), a.policy)
  {
    var item := a.batch[k];
    FateOfItem(item, a, k);
    if Fate(item, a).Some? {
      FatesHold(q, a, item);
    } else {
      AcceptedIsGone(q, a, item);
    }
  }

  lemma AcceptedIsGone(q: Queue, a: Attempt, item: OutboxItem)
    requires DistinctIds(q) && item in q && Fate(item, a).None?
    ensures Gone(Fates(q, a), item)
  {
    forall later | later in Fates(q, a) ensures later.id != item.id {
      var row := FatesComeFrom(q, a, later);
      var i :| 0 <= i < |q| && q[i] == row;
      var j :| 0 <= j < |q| && q[j] == item;
    }
  }

  /** For any answer, a drain settles every item of its batch as the answer says, and touches no
      other row. */
  lemma DrainSettlesItsBatch(q: Queue, a: Attempt)
    requires DistinctIds(q) && DistinctIds(a.batch)
    requires forall item :: item in a.batch ==> item in q && item.state == PENDING
    ensures DrainSettles(q, Fates(q, a), a)
  {
    forall k | 0 <= k < |a.batch| ensures ItemSettled(Fates(q, a), a.batch[k], a.result, k, a.clock(k), a.policy) {
      SettledItem(q, a, k);
    }
    forall row | row in q && (forall k :: 0 <= k < |a.batch| ==> a.batch[k].id != row.id) ensures row in Fates(q, a) {
      var i := IndexOfId(a.batch, row.id);
      FatesHold(q, a, row);
    }
    forall later | later in Fates(q, a) ensures HasId(q, later.id) {
      var row := FatesComeFrom(q, a, later);
      var i :| 0 <= i < |q| && q[i] == row;
    }
  }

  lemma FailureIs(result: SendResult, k: nat)
    ensures Verdict(result, k).ACCEPTED? <==> Accepts(result, k)
    ensures !Accepts(result, k) ==> FailureOf(result, k) == Some(Verdict(result, k).reason)
  {
  }

  /** A drain has no failure exactly when every item was accepted. */
  lemma {:induction false} NoFailureMeans(a: Attempt, n: nat)
    requires n <= |a.batch|
    ensures LastFailure(a, n).None? <==> forall k :: 0 <= k < n ==> Accepts(a.result, k)
  {
    if n > 0 {
      NoFailureMeans(a, n - 1);
      FailureIs(a.result, n - 1);
    }
  }

  /** Otherwise its failure is that of the last item not accepted. */
  lemma {:induction false} LastFailureMeans(a: Attempt, n: nat, k: nat)
    requires k < n <= |a.batch| && !Accepts(a.result, k) && forall j :: k < j < n ==> Accepts(a.result, j)
    ensures LastFailure(a, n) == FailureOf(a.result, k)
  {
    FailureIs(a.result, n - 1);
    if k < n - 1 { LastFailureMeans(a, n - 1, k); }
  }

  /** Why item `k` was not accepted. */
  function FailureOf(result: SendResult, k: nat): Option<string> {
    match result
    case Thrown(AnError(message)) => Some(if message == "" then "NETWORK_ERROR" else message)
    case Thrown(NotAnError) => Some("NETWORK_ERROR")
    case Returned(outcomes) =>
      if k >= |outcomes| then Some("MISSING_OUTCOME")
      else
        match outcomes[k]
        case ACCEPTED => None
        case RETRY(reason) => Some(reason)
        case REJECTED(reason) => Some(reason)
  }

  /** A row that waits is claimed again once the clock reaches its next attempt, unless the claim is full
      of rows that are no younger. */
  lemma WaitingRowsComeBack(
    q: Queue, policy: OutboxPolicy, item: OutboxItem, reason: string, now: Instant, later: Instant, limit: nat)
    requires Waiting(q, item, reason, now, policy)
    requires now + BackoffDelayMs(item.attempts + 1, policy) <= later
    ensures var batch := Claimed(q, item.kind, limit, later);
      || (exists row :: row in batch && SameEvent(row, item))
      || (|batch| == limit && forall row :: row in batch ==> row.capturedAt <= item.capturedAt)
  {
    var row :| row in q && SameEvent(row, item)
      && row.state == PENDING && row.attempts == item.attempts + 1 && row.lastError == Some(reason)
      && row.nextAttemptAt == now + BackoffDelayMs(item.attempts + 1, policy);
    ClaimTakesTheOldest(q, item.kind, limit, later);
    var batch := Claimed(q, item.kind, limit, later);
    if row !in batch {
      assert |batch| == limit;
      forall taken | taken in batch ensures taken.capturedAt <= item.capturedAt {
        assert taken.capturedAt <= row.capturedAt;
      }
    }
  }
}
