/** How far apart the failures of one row are while no two drains of one kind overlap. A drain takes
    one kind, so an observation drain beside a proof drain is not an overlap. */
module OutboxSpacing {
  import opened Sequences
  import opened Backoff
  import opened OutboxTypes
  import opened OutboxQueue
  import opened OutboxDrain
  import opened OutboxProtocol

  // ----------------------------------------------------------------------------------------
  // One drain of a kind at a time
  // ----------------------------------------------------------------------------------------

  predicate HoldsKind(batch: Queue, kind: OutboxItemKind) {
    exists i :: 0 <= i < |batch| && batch[i].kind == kind
  }

  ghost predicate InFlight(s: State, kind: OutboxItemKind) {
    exists flight :: flight in s.flights && HoldsKind(s.flights[flight].batch, kind)
  }

  /** A drain starts only when none of its kind is in flight, unless its kind is one of `free`. */
  ghost predicate OrderlyStep(s: State, step: Step, free: set<OutboxItemKind>) {
    Enabled(s, step) && (step.Claim? ==> step.kind in free || !InFlight(s, step.kind))
  }

  ghost predicate Orderly(s: State, steps: seq<Step>, policy: OutboxPolicy, free: set<OutboxItemKind>)
    decreases |steps|
  {
    steps == [] ||
    (OrderlyStep(s, steps[0], free) && Orderly(After(s, steps[0], policy), steps[1..], policy, free))
  }

  /** Runs in which no two drains of one kind overlap. */
  ghost predicate SerialPossible(s: State, steps: seq<Step>, policy: OutboxPolicy) {
    Orderly(s, steps, policy, {})
  }

  ghost predicate SerialStep(s: State, step: Step) {
    OrderlyStep(s, step, {})
  }

  lemma {:induction false} OrderlyIsPossible(s: State, steps: seq<Step>, policy: OutboxPolicy, free: set<OutboxItemKind>)
    requires Orderly(s, steps, policy, free)
    ensures Possible(s, steps, policy)
    decreases |steps|
  {
    if steps != [] { OrderlyIsPossible(After(s, steps[0], policy), steps[1..], policy, free); }
  }

  function Unsettled(f: Flight): nat {
    match f.phase
    case Sending => 0
    case Settling(_, next, _) => next
  }

  /** Every snapshot still to be settled is the row as it is now, and was due when the drain began; no
      row of the batch has left the queue. */
  ghost predicate Current(s: State, f: Flight) {
    && f.startedAt <= s.now
    && (forall k :: 0 <= k < |f.batch| ==> HasId(s.queue, f.batch[k].id))
    && forall k :: Unsettled(f) <= k < |f.batch| ==>
         && f.batch[k].nextAttemptAt <= f.startedAt
         && forall i :: 0 <= i < |s.queue| && s.queue[i].id == f.batch[k].id ==> s.queue[i] == f.batch[k]
  }

  ghost predicate Apart(f: Flight, g: Flight) {
    forall i, j :: 0 <= i < |f.batch| && 0 <= j < |g.batch| ==> f.batch[i].kind != g.batch[j].kind
  }

  ghost predicate AllApart(s: State) {
    forall a, b :: a in s.flights && b in s.flights && a != b ==> Apart(s.flights[a], s.flights[b])
  }

  ghost predicate SerialInv(s: State) {
    Inv(s) && AllApart(s) && forall a :: a in s.flights ==> Current(s, s.flights[a])
  }

  lemma OneRowOfAnId(s: State, a: OutboxItem, b: OutboxItem)
    requires Inv(s) && a in s.queue && b in s.queue && a.id == b.id
    ensures a == b && a.id in s.appended
  {
    var i :| 0 <= i < |s.queue| && s.queue[i] == a;
    var j :| 0 <= j < |s.queue| && s.queue[j] == b;
    assert Genuine(s, s.queue[i]);
  }

  lemma ClaimedRowIsCurrent(s: State, kind: OutboxItemKind, policy: OutboxPolicy, row: OutboxItem)
    requires Inv(s) && row in Claimed(s.queue, kind, policy.maxBatchSize, s.now)
    ensures row in s.queue && row.kind == kind && row.nextAttemptAt <= s.now
  {
    ClaimedRows(s.queue, kind, policy.maxBatchSize, s.now);
    assert Due(row, kind, s.now);
  }

  lemma FreshClaimIsCurrent(s: State, kind: OutboxItemKind, policy: OutboxPolicy)
    requires Inv(s)
    ensures var f := Flight(Claimed(s.queue, kind, policy.maxBatchSize, s.now), s.now, Sending);
      Current(s, f) && forall k :: 0 <= k < |f.batch| ==> f.batch[k].kind == kind
  {
    var batch := Claimed(s.queue, kind, policy.maxBatchSize, s.now);
    forall k | 0 <= k < |batch|
      ensures HasId(s.queue, batch[k].id) && batch[k].kind == kind && batch[k].nextAttemptAt <= s.now
      ensures forall i :: 0 <= i < |s.queue| && s.queue[i].id == batch[k].id ==> s.queue[i] == batch[k]
    {
      ClaimedRowIsCurrent(s, kind, policy, batch[k]);
      forall i | 0 <= i < |s.queue| && s.queue[i].id == batch[k].id ensures s.queue[i] == batch[k] {
        OneRowOfAnId(s, s.queue[i], batch[k]);
      }
    }
  }

  /** Rows of batches that are apart are different rows. */
  lemma ApartMeansOtherIds(s: State, f: Flight, g: Flight)
    requires Inv(s) && FlightSound(s, f) && FlightSound(s, g) && Apart(f, g)
    ensures forall i, j :: 0 <= i < |f.batch| && 0 <= j < |g.batch| ==> f.batch[i].id != g.batch[j].id
  {
    forall i, j | 0 <= i < |f.batch| && 0 <= j < |g.batch| ensures f.batch[i].id != g.batch[j].id {
      assert Genuine(s, f.batch[i]) && Genuine(s, g.batch[j]);
    }
  }

  /** A flight stays current when the rows it holds stay and those still to be settled do not change. */
  lemma StaysCurrent(s: State, t: State, f: Flight)
    requires Current(s, f) && s.now <= t.now
    requires forall k :: 0 <= k < |f.batch| ==> HasId(t.queue, f.batch[k].id)
    requires forall k, row :: Unsettled(f) <= k < |f.batch| && row in t.queue && row.id == f.batch[k].id ==> row in s.queue
    ensures Current(t, f)
  {
    forall k, i | Unsettled(f) <= k < |f.batch| && 0 <= i < |t.queue| && t.queue[i].id == f.batch[k].id
      ensures t.queue[i] == f.batch[k]
    {
      assert t.queue[i] in s.queue;
      var j :| 0 <= j < |s.queue| && s.queue[j] == t.queue[i];
    }
  }

  /** What settling does to a row: nothing, or it is the row the drain's snapshot shows, and it failed. */
  lemma SettledRows(s: State, flight: nat, policy: OutboxPolicy, row: OutboxItem) returns (was: OutboxItem)
    requires SerialInv(s) && Enabled(s, Settle(flight)) && row in After(s, Settle(flight), policy).queue
    ensures was in s.queue && was.id == row.id
    ensures var f := s.flights[flight];
      var item, verdict := f.batch[f.phase.next], Verdict(f.phase.result, f.phase.next);
      if row.id == item.id && !verdict.ACCEPTED?
      then was == item && item.nextAttemptAt <= s.now && row == SettledRow(item, item, verdict, s.now, policy)
      else row == was
  {
    var f, t := s.flights[flight], After(s, Settle(flight), policy);
    var item, verdict := f.batch[f.phase.next], Verdict(f.phase.result, f.phase.next);
    assert Current(s, f);
    SettleKeepsRows(s.queue, item, verdict, s.now, policy);
    var i :| 0 <= i < |t.queue| && t.queue[i] == row;
    was := s.queue[i];
  }

  lemma SettleStaysCurrent(s: State, flight: nat, policy: OutboxPolicy, a: nat)
    requires SerialInv(s) && Enabled(s, Settle(flight)) && a in s.flights
    ensures Current(After(s, Settle(flight), policy), After(s, Settle(flight), policy).flights[a])
  {
    var t := After(s, Settle(flight), policy);
    var f, g := s.flights[flight], t.flights[a];
    var item, verdict := f.batch[f.phase.next], Verdict(f.phase.result, f.phase.next);
    SettledIsNoOther(s, flight, policy, a, g);
    forall k | 0 <= k < |g.batch| ensures HasId(t.queue, g.batch[k].id) {
      SettleKeepsId(s.queue, item, verdict, s.now, policy, g.batch[k].id);
    }
    forall k, row | Unsettled(g) <= k < |g.batch| && row in t.queue && row.id == g.batch[k].id ensures row in s.queue {
      var was := SettledRows(s, flight, policy, row);
    }
    StaysCurrent(s, t, g);
  }

  /** The item settled is none that any drain still has to settle afterwards. */
  lemma SettledIsNoOther(s: State, flight: nat, policy: OutboxPolicy, a: nat, g: Flight)
    requires SerialInv(s) && Enabled(s, Settle(flight)) && a in s.flights
    requires g == After(s, Settle(flight), policy).flights[a]
    ensures Current(s, g)
    ensures var f := s.flights[flight];
      forall k :: Unsettled(g) <= k < |g.batch| ==> g.batch[k].id != f.batch[f.phase.next].id
  {
    var f := s.flights[flight];
    assert FlightSound(s, f) && FlightSound(s, s.flights[a]) && Current(s, s.flights[a]);
    if a != flight { ApartMeansOtherIds(s, f, g); }
  }

  lemma FinishStaysCurrent(s: State, flight: nat, policy: OutboxPolicy, a: nat)
    requires SerialInv(s) && Enabled(s, Finish(flight)) && a in s.flights && a != flight
    ensures Current(After(s, Finish(flight), policy), s.flights[a])
  {
    var f, g := s.flights[flight], s.flights[a];
    var t := After(s, Finish(flight), policy);
    assert FlightSound(s, f) && FlightSound(s, g) && Current(s, g);
    ApartMeansOtherIds(s, f, g);
    forall k | 0 <= k < |g.batch| ensures HasId(t.queue, g.batch[k].id) {
      AcceptedAreInBatch(s, f, g.batch[k].id);
      RemoveAllKeepsOthers(s.queue, f.phase.accepted, g.batch[k].id);
    }
    StaysCurrent(s, t, g);
  }

  /** What a drain accepts comes from its batch. */
  lemma AcceptedAreInBatch(s: State, f: Flight, id: RowId)
    requires FlightSound(s, f) && f.phase.Settling?
    ensures id in f.phase.accepted ==> exists k :: 0 <= k < f.phase.next && f.batch[k].id == id
  {
    var a := Attempt(f.batch, f.phase.result, _ => 0, DEFAULT_OUTBOX_POLICY);
    AcceptedIdsDistinct(a, f.phase.next);
    if id in f.phase.accepted {
      var i :| 0 <= i < |f.phase.accepted| && f.phase.accepted[i] == id;
      assert HasId(f.batch[..f.phase.next], id);
    }
  }

  lemma EnqueueStaysCurrent(s: State, step: Step, policy: OutboxPolicy, f: Flight)
    requires Inv(s) && Enabled(s, step) && step.Enqueue? && FlightSound(s, f) && Current(s, f)
    ensures Current(After(s, step, policy), f)
  {
    var t := After(s, step, policy);
    forall k | 0 <= k < |f.batch| ensures HasId(t.queue, f.batch[k].id) {
      assert HasId(s.queue, f.batch[k].id);
      var i :| 0 <= i < |s.queue| && s.queue[i].id == f.batch[k].id;
      assert t.queue[i] == s.queue[i];
    }
    forall k, row | 0 <= k < |f.batch| && row in t.queue && row.id == f.batch[k].id ensures row in s.queue {
      assert Genuine(s, f.batch[k]);
    }
    StaysCurrent(s, t, f);
  }

  lemma ClaimStaysCurrent(s: State, step: Step, policy: OutboxPolicy, flight: nat)
    requires SerialInv(s) && SerialStep(s, step) && step.Claim? && flight in After(s, step, policy).flights
    ensures Current(After(s, step, policy), After(s, step, policy).flights[flight])
  {
    FreshClaimIsCurrent(s, step.kind, policy);
    if flight in s.flights { assert Current(s, s.flights[flight]); }
  }

  lemma FlightStaysCurrent(s: State, step: Step, policy: OutboxPolicy, flight: nat)
    requires SerialInv(s) && SerialStep(s, step)
    requires flight in After(s, step, policy).flights
    ensures Current(After(s, step, policy), After(s, step, policy).flights[flight])
  {
    match step {
      case Claim(_, _) => ClaimStaysCurrent(s, step, policy, flight);
      case Settle(other) => SettleStaysCurrent(s, other, policy, flight);
      case Finish(other) => FinishStaysCurrent(s, other, policy, flight);
      case Enqueue(_, _) => EnqueueStaysCurrent(s, step, policy, s.flights[flight]);
      case _ => assert Current(s, s.flights[flight]);
    }
  }

  lemma StepKeepsApart(s: State, step: Step, policy: OutboxPolicy)
    requires SerialInv(s) && SerialStep(s, step)
    ensures AllApart(After(s, step, policy))
  {
    var t := After(s, step, policy);
    if step.Claim? { FreshClaimIsCurrent(s, step.kind, policy); }
    forall a, b | a in t.flights && b in t.flights && a != b ensures Apart(t.flights[a], t.flights[b]) {
      if step.Claim? && a == step.flight && a !in s.flights {
        assert !HoldsKind(s.flights[b].batch, step.kind);
      } else if step.Claim? && b == step.flight && b !in s.flights {
        assert !HoldsKind(s.flights[a].batch, step.kind);
      } else {
        assert Apart(s.flights[a], s.flights[b]);
      }
    }
  }

  lemma SerialStepKeepsInv(s: State, step: Step, policy: OutboxPolicy)
    requires SerialInv(s) && SerialStep(s, step)
    ensures SerialInv(After(s, step, policy))
  {
    StepKeepsInv(s, step, policy);
    StepKeepsApart(s, step, policy);
    var t := After(s, step, policy);
    forall flight | flight in t.flights ensures Current(t, t.flights[flight]) {
      FlightStaysCurrent(s, step, policy, flight);
    }
  }

  // ----------------------------------------------------------------------------------------
  // Spacing
  // ----------------------------------------------------------------------------------------

  /** Seen from `base`, an earlier state of the same row, a later state has waited at least the sum
      of the waits of the failures in between. */
  ghost predicate WaitedSince(base: OutboxItem, row: OutboxItem, policy: OutboxPolicy) {
    && base.attempts <= row.attempts
    && TotalWait(row.attempts, policy) - TotalWait(base.attempts, policy) <= row.nextAttemptAt - base.nextAttemptAt
  }

  ghost predicate Spaced(base: map<RowId, OutboxItem>, s: State, policy: OutboxPolicy) {
    forall i :: 0 <= i < |s.queue| && s.queue[i].state == PENDING && s.queue[i].id in base ==>
      WaitedSince(base[s.queue[i].id], s.queue[i], policy)
  }

  lemma SettleKeepsSpacing(base: map<RowId, OutboxItem>, s: State, flight: nat, policy: OutboxPolicy)
    requires SerialInv(s) && Enabled(s, Settle(flight)) && Spaced(base, s, policy)
    ensures Spaced(base, After(s, Settle(flight), policy), policy)
  {
    var f := s.flights[flight];
    var t := After(s, Settle(flight), policy);
    var item, verdict := f.batch[f.phase.next], Verdict(f.phase.result, f.phase.next);
    assert Current(s, f);
    SettleKeepsRows(s.queue, item, verdict, s.now, policy);
    forall i | 0 <= i < |t.queue| && t.queue[i].state == PENDING && t.queue[i].id in base
      ensures WaitedSince(base[t.queue[i].id], t.queue[i], policy)
    {
      assert s.queue[i].state == PENDING;
      assert WaitedSince(base[s.queue[i].id], s.queue[i], policy);
      if t.queue[i] != s.queue[i] {
        assert s.queue[i] == item && verdict.RETRY?;
        assert t.queue[i].nextAttemptAt == RetryAt(item, s.now, policy);
      }
    }
  }

  lemma StepKeepsSpacing(base: map<RowId, OutboxItem>, s: State, step: Step, policy: OutboxPolicy)
    requires SerialInv(s) && SerialStep(s, step) && Spaced(base, s, policy)
    requires forall id :: id in base ==> id in s.appended
    ensures Spaced(base, After(s, step, policy), policy)
  {
    match step {
      case Settle(flight) => SettleKeepsSpacing(base, s, flight, policy);
      case Finish(flight) =>
        var t := After(s, step, policy);
        forall i | 0 <= i < |t.queue| && t.queue[i].state == PENDING && t.queue[i].id in base
          ensures WaitedSince(base[t.queue[i].id], t.queue[i], policy)
        {
          assert t.queue[i] in s.queue;
          var j :| 0 <= j < |s.queue| && s.queue[j] == t.queue[i];
        }
      case _ =>
    }
  }

  lemma StepKeepsSpacingSinceAppend(s: State, step: Step, policy: OutboxPolicy)
    requires SerialInv(s) && SerialStep(s, step) && Spaced(s.appended, s, policy)
    ensures Spaced(After(s, step, policy).appended, After(s, step, policy), policy)
  {
    var t := After(s, step, policy);
    StepKeepsSpacing(s.appended, s, step, policy);
    if t.appended != s.appended {
      forall i | 0 <= i < |t.queue| && t.queue[i].state == PENDING && t.queue[i].id in t.appended
        ensures WaitedSince(t.appended[t.queue[i].id], t.queue[i], policy)
      {
        if i < |s.queue| { assert Genuine(s, s.queue[i]); }
      }
    }
  }

  /** Every state such a run reaches. */
  lemma {:induction false} SerialRunKeepsInv(s: State, steps: seq<Step>, policy: OutboxPolicy)
    requires SerialInv(s) && SerialPossible(s, steps, policy)
    ensures Possible(s, steps, policy) && SerialInv(Final(s, steps, policy))
    decreases |steps|
  {
    OrderlyIsPossible(s, steps, policy, {});
    if steps != [] {
      SerialStepKeepsInv(s, steps[0], policy);
      SerialRunKeepsInv(After(s, steps[0], policy), steps[1..], policy);
    }
  }

  lemma {:induction false} SerialRunKeepsSpacingSinceAppend(s: State, steps: seq<Step>, policy: OutboxPolicy)
    requires SerialInv(s) && SerialPossible(s, steps, policy) && Spaced(s.appended, s, policy)
    ensures Possible(s, steps, policy)
    ensures var t := Final(s, steps, policy); SerialInv(t) && Spaced(t.appended, t, policy)
    decreases |steps|
  {
    OrderlyIsPossible(s, steps, policy, {});
    if steps != [] {
      SerialStepKeepsInv(s, steps[0], policy);
      StepKeepsSpacingSinceAppend(s, steps[0], policy);
      SerialRunKeepsSpacingSinceAppend(After(s, steps[0], policy), steps[1..], policy);
    }
  }

  lemma FailuresTakeTime(base: OutboxItem, row: OutboxItem, policy: OutboxPolicy)
    requires policy.Waits() && WaitedSince(base, row, policy)
    ensures (row.attempts - base.attempts) * BackoffDelayMs(1, policy) <= row.nextAttemptAt - base.nextAttemptAt
  {
    WaitsInBetween(base.attempts, row.attempts, policy);
  }

  lemma WaitsInBetween(m: nat, n: nat, policy: OutboxPolicy)
    requires policy.Waits() && m <= n
    ensures (n - m) * BackoffDelayMs(1, policy) <= TotalWait(n, policy) - TotalWait(m, policy)
  {
    if m < n {
      WaitsInBetween(m, n - 1, policy);
      DelayIsBoundedAndMonotone(1, n, policy);
      assert (n - m) * BackoffDelayMs(1, policy) == (n - 1 - m) * BackoffDelayMs(1, policy) + BackoffDelayMs(1, policy);
    }
  }

  /** While no two drains of one kind overlap, a pending row that failed `n` times is not due before its
      enqueue instant plus the waits of failures 1 to `n`; so by any instant it is due, it has
      failed at most once per first wait since it was enqueued. */
  lemma PendingRowsWaitedInFull(start: Instant, steps: seq<Step>, policy: OutboxPolicy, row: OutboxItem)
    requires policy.Waits() && SerialPossible(Init(start), steps, policy)
    ensures Possible(Init(start), steps, policy)
    ensures var s := Final(Init(start), steps, policy);
      row in s.queue && row.state == PENDING ==>
        && row.id in s.appended
        && s.appended[row.id].nextAttemptAt + TotalWait(row.attempts, policy) <= row.nextAttemptAt
        && row.attempts * BackoffDelayMs(1, policy) <= row.nextAttemptAt - s.appended[row.id].nextAttemptAt
  {
    SerialRunKeepsSpacingSinceAppend(Init(start), steps, policy);
    var s := Final(Init(start), steps, policy);
    AppendedUntried(Init(start), steps, policy);
    if row in s.queue && row.state == PENDING {
      var i :| 0 <= i < |s.queue| && s.queue[i] == row;
      assert Genuine(s, s.queue[i]);
      FailuresTakeTime(s.appended[row.id], row, policy);
    }
  }

  lemma {:induction false} AppendedUntried(s: State, steps: seq<Step>, policy: OutboxPolicy)
    requires Possible(s, steps, policy)
    requires forall id :: id in s.appended ==> s.appended[id].attempts == 0
    ensures forall id :: id in Final(s, steps, policy).appended ==> Final(s, steps, policy).appended[id].attempts == 0
    decreases |steps|
  {
    if steps != [] { AppendedUntried(After(s, steps[0], policy), steps[1..], policy); }
  }
}
