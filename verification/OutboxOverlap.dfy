/** What becomes of the spacing when drains of one kind overlap, and what a drain returns then. */
module OutboxOverlap {
  import opened Sequences
  import opened Backoff
  import opened OutboxTypes
  import opened OutboxQueue
  import opened OutboxDrain
  import opened OutboxProtocol
  import opened OutboxSpacing
  import OutboxEngine

  /** A retry computes its wait from the drain's snapshot. It waits the delay of the attempt count it
      writes exactly when the snapshot is current, or its wait is capped already. */
  lemma StaleSnapshotWaits(row: OutboxItem, snapshot: OutboxItem, now: Instant, reason: string, policy: OutboxPolicy)
    requires policy.Waits() && row.id == snapshot.id && snapshot.attempts <= row.attempts
    ensures var written := SettledRow(row, snapshot, RETRY(reason), now, policy);
      written.nextAttemptAt - now == BackoffDelayMs(written.attempts, policy)
      <==> || snapshot.attempts == row.attempts
           || 32 <= snapshot.attempts + 1
           || BackoffDelayMs(snapshot.attempts + 1, policy) == policy.maxDelayMs
  {
    SameDelay(snapshot.attempts + 1, row.attempts + 1, policy);
  }

  /** Two drains claim the same row, and both sends throw. */
  function TwoDrainsOneRow(command: EnqueueCommand, id: RowId): seq<Step> {
    [Enqueue(command, id), Claim(0, command.kind), Claim(1, command.kind)]
    + ThrowAndSettle(0) + ThrowAndSettle(1)
  }

  function ThrowAndSettle(flight: nat): seq<Step> {
    [Answer(flight, Thrown(NotAnError)), Settle(flight)]
  }

  lemma ClaimOfOneRow(item: OutboxItem, limit: int, now: Instant)
    requires 0 < limit && Due(item, item.kind, now)
    ensures Claimed([item], item.kind, limit, now) == [item]
  {
    assert Eligible([item], item.kind, now) == [item];
    assert EligibleInOrder([item], item.kind, now) == [item];
  }

  lemma EnqueueAndClaimTwice(command: EnqueueCommand, id: RowId, policy: OutboxPolicy)
    requires 0 < policy.maxBatchSize
    ensures var steps := [Enqueue(command, id)] + [Claim(0, command.kind), Claim(1, command.kind)];
      var item := OutboxEngine.NewItem(command, id, 0);
      var sent := Flight([item], 0, Sending);
      && Possible(Init(0), steps, policy)
      && var s := Final(Init(0), steps, policy);
         && s.queue == [item] && s.appended == map[id := item] && s.now == 0
         && s.flights == map[0 := sent, 1 := sent]
  {
    var item := OutboxEngine.NewItem(command, id, 0);
    ClaimOfOneRow(item, policy.maxBatchSize, 0);
    var s := After(Init(0), Enqueue(command, id), policy);
    assert s.queue == [item] && s.appended == map[id := item];
    RunOfTwo(s, Claim(0, command.kind), Claim(1, command.kind), policy);
    RunFrom(Init(0), Enqueue(command, id), [Claim(0, command.kind), Claim(1, command.kind)], policy);
  }

  lemma ThrowReschedules(s: State, flight: nat, row: OutboxItem, item: OutboxItem, policy: OutboxPolicy)
    requires flight in s.flights && s.flights[flight] == Flight([item], 0, Sending)
    requires s.queue == [row] && row.id == item.id
    ensures Possible(s, ThrowAndSettle(flight), policy)
    ensures var t := Final(s, ThrowAndSettle(flight), policy);
      && t.queue == [Rescheduled(row, RetryAt(item, s.now, policy), "NETWORK_ERROR")]
      && t.appended == s.appended && t.now == s.now
      && forall other :: other in s.flights && other != flight ==> other in t.flights && t.flights[other] == s.flights[other]
  {
    var thrown := Thrown(NotAnError);
    RunOfTwo(s, Answer(flight, thrown), Settle(flight), policy);
    var t := After(After(s, Answer(flight, thrown), policy), Settle(flight), policy);
    assert Verdict(thrown, 0) == RETRY("NETWORK_ERROR");
    assert t.queue == Reschedule([row], item.id, RetryAt(item, s.now, policy), "NETWORK_ERROR");
  }

  /** Claims take no lease, so the spacing fails when two drains of one kind overlap, whatever the
      policy and the kind: here a row counts two failures but waits only the first wait. */
  lemma OverlapShortensTheWait(command: EnqueueCommand, id: RowId, policy: OutboxPolicy)
    requires policy.Waits() && 0 < policy.maxBatchSize
    ensures Possible(Init(0), TwoDrainsOneRow(command, id), policy)
    ensures var s := Final(Init(0), TwoDrainsOneRow(command, id), policy);
      && |s.queue| == 1 && s.queue[0].id == id && id in s.appended
      && s.queue[0].state == PENDING && s.queue[0].attempts == 2
      && s.queue[0].nextAttemptAt - s.appended[id].nextAttemptAt < TotalWait(2, policy)
  {
    var item := OutboxEngine.NewItem(command, id, 0);
    var claims := [Enqueue(command, id)] + [Claim(0, command.kind), Claim(1, command.kind)];
    EnqueueAndClaimTwice(command, id, policy);
    var s := Final(Init(0), claims, policy);
    ThrowReschedules(s, 0, item, item, policy);
    var t := Final(s, ThrowAndSettle(0), policy);
    ThrowReschedules(t, 1, t.queue[0], item, policy);
    RunThen(s, ThrowAndSettle(0), ThrowAndSettle(1), policy);
    RunThen(Init(0), claims, ThrowAndSettle(0) + ThrowAndSettle(1), policy);
    assert claims + (ThrowAndSettle(0) + ThrowAndSettle(1)) == TwoDrainsOneRow(command, id);
    DelayIsBoundedAndMonotone(1, 2, policy);
    assert TotalWait(2, policy) == BackoffDelayMs(1, policy) + BackoffDelayMs(2, policy) by {
      assert TotalWait(1, policy) == BackoffDelayMs(1, policy);
    }
  }

  // ----------------------------------------------------------------------------------------
  // Exactly when the waits add up
  // ----------------------------------------------------------------------------------------

  /** Drains of the kinds in `free` may overlap drains of their own kind. In every such run, from any
      start, each pending row has waited for all its failures since it was appended. */
  ghost predicate WaitsAddUp(policy: OutboxPolicy, free: set<OutboxItemKind>) {
    forall start, steps | Orderly(Init(start), steps, policy, free) :: WaitedInFull(start, steps, policy)
  }

  ghost predicate WaitedInFull(start: Instant, steps: seq<Step>, policy: OutboxPolicy) {
    && Possible(Init(start), steps, policy)
    && var s := Final(Init(start), steps, policy);
       forall row :: row in s.queue && row.state == PENDING ==>
         && row.id in s.appended
         && s.appended[row.id].nextAttemptAt + TotalWait(row.attempts, policy) <= row.nextAttemptAt
  }

  lemma {:induction false} FreeClaimsAreOrderly(s: State, steps: seq<Step>, policy: OutboxPolicy, free: set<OutboxItemKind>)
    requires Possible(s, steps, policy)
    requires forall i :: 0 <= i < |steps| && steps[i].Claim? ==> steps[i].kind in free
    ensures Orderly(s, steps, policy, free)
    decreases |steps|
  {
    if steps != [] { FreeClaimsAreOrderly(After(s, steps[0], policy), steps[1..], policy, free); }
  }

  lemma OverlapBreaksTheSum(policy: OutboxPolicy, free: set<OutboxItemKind>, kind: OutboxItemKind, key: EventKey, id: RowId)
    requires policy.Waits() && 0 < policy.maxBatchSize && kind in free
    ensures exists steps :: Orderly(Init(0), steps, policy, free) && !WaitedInFull(0, steps, policy)
  {
    var command := EnqueueCommand(key, kind, 0, Payload(""), None);
    var steps := TwoDrainsOneRow(command, id);
    OverlapShortensTheWait(command, id, policy);
    FreeClaimsAreOrderly(Init(0), steps, policy, free);
    var s := Final(Init(0), steps, policy);
    assert s.queue[0] in s.queue;
  }

  /** Waits add up exactly when no kind's drains may overlap each other; drains of different kinds
      may overlap as they like. */
  lemma WaitsAddUpExactlyWithoutOverlap(policy: OutboxPolicy, free: set<OutboxItemKind>)
    requires policy.Waits() && 0 < policy.maxBatchSize
    ensures WaitsAddUp(policy, free) <==> free == {}
  {
    if free == {} {
      forall start, steps | Orderly(Init(start), steps, policy, {}) ensures WaitedInFull(start, steps, policy) {
        SerialRunWaitedInFull(start, steps, policy);
      }
    } else {
      var kind :| kind in free;
      var key: EventKey, id: RowId :| true;
      OverlapBreaksTheSum(policy, free, kind, key, id);
    }
  }

  lemma SerialRunWaitedInFull(start: Instant, steps: seq<Step>, policy: OutboxPolicy)
    requires policy.Waits() && SerialPossible(Init(start), steps, policy)
    ensures WaitedInFull(start, steps, policy)
  {
    OrderlyIsPossible(Init(start), steps, policy, {});
    var s := Final(Init(start), steps, policy);
    forall row | row in s.queue && row.state == PENDING
      ensures row.id in s.appended
      ensures s.appended[row.id].nextAttemptAt + TotalWait(row.attempts, policy) <= row.nextAttemptAt
    {
      PendingRowsWaitedInFull(start, steps, policy, row);
    }
  }

  // ----------------------------------------------------------------------------------------
  // The number a drain returns
  // ----------------------------------------------------------------------------------------

  /** A finishing drain returns the number of items it accepted. That is never less than the number
      of rows it removes, and exactly that number when every accepted row is still there: no other
      drain took one of them first. */
  lemma FinishCountsItsRows(s: State, flight: nat, policy: OutboxPolicy)
    requires Inv(s) && Enabled(s, Finish(flight))
    ensures var accepted := s.flights[flight].phase.accepted;
      var removed := |s.queue| - |After(s, Finish(flight), policy).queue|;
      && 0 <= removed <= |accepted|
      && (removed == |accepted| <==> forall i :: 0 <= i < |accepted| ==> HasId(s.queue, accepted[i]))
  {
    var f := s.flights[flight];
    assert FlightSound(s, f);
    AcceptedOnce(s, f);
    RemovedArePresent(s.queue, f.phase.accepted);
  }

  lemma AcceptedOnce(s: State, f: Flight)
    requires FlightSound(s, f) && f.phase.Settling?
    ensures forall i, j :: 0 <= i < j < |f.phase.accepted| ==> f.phase.accepted[i] != f.phase.accepted[j]
  {
    AcceptedIdsDistinct(Attempt(f.batch, f.phase.result, _ => 0, DEFAULT_OUTBOX_POLICY), f.phase.next);
  }

  /** Removing distinct ids removes one row for each of them that is there. */
  lemma {:induction false} RemovedArePresent(q: Queue, ids: seq<RowId>)
    requires DistinctIds(q)
    requires forall i, j :: 0 <= i < j < |ids| ==> ids[i] != ids[j]
    ensures 0 <= |q| - |RemoveAll(q, ids)| <= |ids|
    ensures |q| - |RemoveAll(q, ids)| == |ids| <==> forall i :: 0 <= i < |ids| ==> HasId(q, ids[i])
    decreases |ids|
  {
    if ids == [] {
      FilterAll(NotAmong(ids), q);
    } else {
      var n := |ids| - 1;
      var rest := RemoveAll(q, ids[..n]);
      assert ids == ids[..n] + [ids[n]];
      RemovedArePresent(q, ids[..n]);
      RemoveInTwo(q, ids[..n], [ids[n]]);
      FilterKeepsDistinctIds(NotAmong(ids[..n]), q);
      RemoveOneId(rest, ids[n]);
      StillThere(q, ids[..n], ids[n]);
      assert forall i :: 0 <= i < n ==> ids[..n][i] == ids[i];
    }
  }

  lemma RemoveOneId(q: Queue, id: RowId)
    requires DistinctIds(q)
    ensures |RemoveAll(q, [id])| == if HasId(q, id) then |q| - 1 else |q|
  {
    if HasId(q, id) {
      var k :| 0 <= k < |q| && q[k].id == id;
      RemoveOne(q, k);
    } else {
      FilterAll(NotAmong([id]), q);
    }
  }

  lemma StillThere(q: Queue, ids: seq<RowId>, id: RowId)
    requires id !in ids
    ensures HasId(RemoveAll(q, ids), id) <==> HasId(q, id)
  {
    if HasId(q, id) { RemoveAllKeepsOthers(q, ids, id); }
    var rest := RemoveAll(q, ids);
    if HasId(rest, id) {
      var i :| 0 <= i < |rest| && rest[i].id == id;
      assert rest[i] in q;
    }
  }

  /** So it always is while no two drains of one kind overlap. */
  lemma SerialFinishCountsItsRows(s: State, flight: nat, policy: OutboxPolicy)
    requires SerialInv(s) && Enabled(s, Finish(flight))
    ensures |s.flights[flight].phase.accepted| == |s.queue| - |After(s, Finish(flight), policy).queue|
  {
    var f := s.flights[flight];
    assert FlightSound(s, f) && Current(s, f);
    FinishCountsItsRows(s, flight, policy);
    forall i | 0 <= i < |f.phase.accepted| ensures HasId(s.queue, f.phase.accepted[i]) {
      AcceptedAreInBatch(s, f, f.phase.accepted[i]);
    }
  }
}
