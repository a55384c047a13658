/** How often one row can fail, and how often it can be sent, in any window of a run in which no two
    drains of one kind overlap. A window starts in any state such a run reaches: `SerialInv` holds in all
    of them (`OutboxSpacing.SerialRunKeepsInv`). */
module OutboxPace {
  import opened Sequences
  import opened Backoff
  import opened OutboxTypes
  import opened OutboxQueue
  import opened OutboxDrain
  import opened OutboxProtocol
  import opened OutboxSpacing

  // ----------------------------------------------------------------------------------------
  // Failures in a window
  // ----------------------------------------------------------------------------------------

  /** A row that had `from` attempts at the instant `since`: if it failed after that, the first failure
      came no earlier than `since`, and its next attempt is no later than one wait from now. */
  ghost predicate FailedInTime(row: OutboxItem, from: nat, since: Instant, now: Instant, policy: OutboxPolicy) {
    && from <= row.attempts
    && (row.state == PENDING && from < row.attempts ==>
          && since + TotalWait(row.attempts, policy) - TotalWait(from, policy) <= row.nextAttemptAt
          && row.nextAttemptAt <= now + BackoffDelayMs(row.attempts, policy))
  }

  ghost predicate AllFailedInTime(s: State, id: RowId, from: nat, since: Instant, policy: OutboxPolicy) {
    since <= s.now && forall row :: row in s.queue && row.id == id ==> FailedInTime(row, from, since, s.now, policy)
  }

  lemma FailsInTime(item: OutboxItem, verdict: SendOutcome, from: nat, since: Instant, now: Instant, policy: OutboxPolicy)
    requires FailedInTime(item, from, since, now, policy) && since <= now && item.nextAttemptAt <= now
    ensures FailedInTime(SettledRow(item, item, verdict, now, policy), from, since, now, policy)
  {
    var n := item.attempts + 1;
    assert TotalWait(n, policy) == TotalWait(item.attempts, policy) + BackoffDelayMs(n, policy);
  }

  lemma SettleKeepsTime(s: State, flight: nat, policy: OutboxPolicy, id: RowId, from: nat, since: Instant)
    requires SerialInv(s) && Enabled(s, Settle(flight)) && AllFailedInTime(s, id, from, since, policy)
    ensures AllFailedInTime(After(s, Settle(flight), policy), id, from, since, policy)
  {
    var f, t := s.flights[flight], After(s, Settle(flight), policy);
    var item, verdict := f.batch[f.phase.next], Verdict(f.phase.result, f.phase.next);
    forall row | row in t.queue && row.id == id ensures FailedInTime(row, from, since, t.now, policy) {
      var was := SettledRows(s, flight, policy, row);
      assert FailedInTime(was, from, since, s.now, policy);
      if row.id == item.id && !verdict.ACCEPTED? { FailsInTime(item, verdict, from, since, s.now, policy); }
    }
  }

  lemma StepKeepsTime(s: State, step: Step, policy: OutboxPolicy, id: RowId, from: nat, since: Instant)
    requires SerialInv(s) && SerialStep(s, step) && AllFailedInTime(s, id, from, since, policy) && id in s.appended
    ensures AllFailedInTime(After(s, step, policy), id, from, since, policy)
  {
    var t := After(s, step, policy);
    match step {
      case Settle(flight) => SettleKeepsTime(s, flight, policy, id, from, since);
      case _ =>
        forall row | row in t.queue && row.id == id ensures FailedInTime(row, from, since, t.now, policy) {
          assert row in s.queue && FailedInTime(row, from, since, s.now, policy);
        }
    }
  }

  lemma {:induction false} RunKeepsTime(
    s: State, steps: seq<Step>, policy: OutboxPolicy, id: RowId, from: nat, since: Instant)
    requires SerialInv(s) && SerialPossible(s, steps, policy)
    requires AllFailedInTime(s, id, from, since, policy) && id in s.appended
    ensures Possible(s, steps, policy)
    ensures AllFailedInTime(Final(s, steps, policy), id, from, since, policy)
    decreases |steps|
  {
    OrderlyIsPossible(s, steps, policy, {});
    if steps != [] {
      SerialStepKeepsInv(s, steps[0], policy);
      StepKeepsTime(s, steps[0], policy, id, from, since);
      RunKeepsTime(After(s, steps[0], policy), steps[1..], policy, id, from, since);
    }
  }

  lemma FailuresTookTime(row: OutboxItem, from: nat, before: nat, since: Instant, now: Instant, policy: OutboxPolicy)
    requires policy.Waits() && FailedInTime(row, from, since, now, policy) && row.state == PENDING
    requires from <= before && row.attempts == before + 1
    ensures TotalWait(before, policy) - TotalWait(from, policy) <= now - since
    ensures (before - from) * BackoffDelayMs(1, policy) <= now - since
  {
    assert TotalWait(row.attempts, policy) == TotalWait(before, policy) + BackoffDelayMs(row.attempts, policy);
    WaitsInBetween(from, before, policy);
  }

  /** Between two sightings of a pending row, at the instants `s.now` and `t.now`: every failure in
      between, from the second on, has waited. In particular `n` failures take at least `n - 1` first
      waits, however overdue the row was to begin with. */
  lemma FailuresAreSpacedInAnyWindow(
    s: State, steps: seq<Step>, policy: OutboxPolicy, row: OutboxItem, later: OutboxItem)
    requires policy.Waits() && SerialInv(s) && SerialPossible(s, steps, policy)
    requires row in s.queue
    ensures Possible(s, steps, policy)
    ensures var t := Final(s, steps, policy);
      later in t.queue && later.id == row.id && later.state == PENDING ==>
        && row.attempts <= later.attempts
        && (row.attempts < later.attempts ==>
              && TotalWait(later.attempts - 1, policy) - TotalWait(row.attempts, policy) <= t.now - s.now
              && (later.attempts - row.attempts - 1) * BackoffDelayMs(1, policy) <= t.now - s.now)
  {
    OneRowOfAnId(s, row, row);
    forall other | other in s.queue && other.id == row.id ensures other == row {
      OneRowOfAnId(s, other, row);
    }
    RunKeepsTime(s, steps, policy, row.id, row.attempts, s.now);
    var t := Final(s, steps, policy);
    if later in t.queue && later.id == row.id && later.state == PENDING && row.attempts < later.attempts {
      assert FailedInTime(later, row.attempts, s.now, t.now, policy);
      FailuresTookTime(later, row.attempts, later.attempts - 1, s.now, t.now, policy);
    }
  }

  // ----------------------------------------------------------------------------------------
  // Sends in a window
  // ----------------------------------------------------------------------------------------

  /** The step hands the row to the sender. */
  ghost predicate SendsRow(s: State, step: Step, policy: OutboxPolicy, id: RowId) {
    step.Claim? && HasId(Claimed(s.queue, step.kind, policy.maxBatchSize, s.now), id)
  }

  /** How often a run hands the row to the sender. */
  ghost function Sends(s: State, steps: seq<Step>, policy: OutboxPolicy, id: RowId): nat
    requires Possible(s, steps, policy)
    decreases |steps|
  {
    if steps == [] then 0
    else
      (if SendsRow(s, steps[0], policy, id) then 1 else 0)
      + Sends(After(s, steps[0], policy), steps[1..], policy, id)
  }

  /** The drain still has to settle the row, or to remove it. */
  predicate AwaitedBy(f: Flight, id: RowId) {
    || (exists k :: Unsettled(f) <= k < |f.batch| && f.batch[k].id == id)
    || (f.phase.Settling? && id in f.phase.accepted)
  }

  ghost predicate Awaited(s: State, id: RowId) {
    exists flight :: flight in s.flights && AwaitedBy(s.flights[flight], id)
  }

  /** What `n` sends since the instant `since` took, and how long the row waits for the next one. The
      row had at least `from` attempts to begin with. */
  ghost predicate Paced(s: State, id: RowId, from: nat, since: Instant, n: nat, policy: OutboxPolicy) {
    && since <= s.now
    && (id !in s.appended ==> from == 0 && n == 0)
    && (0 < n ==> since + TotalWait(from + n - 1, policy) - TotalWait(from, policy) <= s.now)
    && forall row :: row in s.queue && row.id == id ==> RowPaced(s, row, from, since, n, policy)
  }

  ghost predicate RowPaced(s: State, row: OutboxItem, from: nat, since: Instant, n: nat, policy: OutboxPolicy) {
    && from <= row.attempts
    && (0 < n ==> from + n - 1 <= row.attempts)
    && (0 < n && row.state == PENDING && !Awaited(s, row.id) ==>
          && from + n <= row.attempts
          && since + TotalWait(from + n, policy) - TotalWait(from, policy) <= row.nextAttemptAt)
  }

  lemma SettlingStaysAwaited(f: Flight, g: Flight, id: RowId)
    requires f.phase.Settling? && f.phase.next < |f.batch| && AwaitedBy(f, id)
    requires var item, verdict := f.batch[f.phase.next], Verdict(f.phase.result, f.phase.next);
      && (item.id != id || verdict.ACCEPTED?)
      && g.batch == f.batch && g.phase.Settling? && g.phase.next == f.phase.next + 1
      && g.phase.accepted == f.phase.accepted + if verdict.ACCEPTED? then [item.id] else []
    ensures AwaitedBy(g, id)
  {
    if id !in f.phase.accepted {
      var k :| Unsettled(f) <= k < |f.batch| && f.batch[k].id == id;
      assert k == f.phase.next || Unsettled(g) <= k;
    }
  }

  /** Only settling a row, and finishing the drain that holds it, ends the waiting for it. */
  lemma StaysAwaited(s: State, step: Step, policy: OutboxPolicy, id: RowId)
    requires Inv(s) && Enabled(s, step) && Awaited(s, id) && !step.Finish?
    requires step.Settle? ==>
      var f := s.flights[step.flight];
      f.batch[f.phase.next].id != id || Verdict(f.phase.result, f.phase.next).ACCEPTED?
    ensures Awaited(After(s, step, policy), id)
  {
    var flight :| flight in s.flights && AwaitedBy(s.flights[flight], id);
    FlightStaysAwaited(s, step, policy, id, flight, After(s, step, policy).flights);
  }

  lemma FlightStaysAwaited(
    s: State, step: Step, policy: OutboxPolicy, id: RowId, flight: nat, flights: map<nat, Flight>)
    requires Enabled(s, step) && !step.Finish? && flights == After(s, step, policy).flights
    requires flight in s.flights && AwaitedBy(s.flights[flight], id)
    requires step.Settle? ==>
      var f := s.flights[step.flight];
      f.batch[f.phase.next].id != id || Verdict(f.phase.result, f.phase.next).ACCEPTED?
    ensures flight in flights && AwaitedBy(flights[flight], id)
  {
    if step.Settle? && step.flight == flight {
      SettlingStaysAwaited(s.flights[flight], flights[flight], id);
    } else if step.Answer? && step.flight == flight {
      AnswerStaysAwaited(s.flights[flight], flights[flight], id);
    } else {
      assert flights[flight] == s.flights[flight];
    }
  }

  lemma AnswerStaysAwaited(f: Flight, g: Flight, id: RowId)
    requires f.phase.Sending? && AwaitedBy(f, id) && g.batch == f.batch && Unsettled(g) == 0
    ensures AwaitedBy(g, id)
  {
  }

  lemma FailsPaced(
    s: State, t: State, item: OutboxItem, verdict: SendOutcome, from: nat, since: Instant, n: nat, policy: OutboxPolicy)
    requires policy.Waits() && RowPaced(s, item, from, since, n, policy) && !verdict.ACCEPTED?
    requires 0 < n ==> since + TotalWait(from + n - 1, policy) - TotalWait(from, policy) <= s.now
    ensures RowPaced(t, SettledRow(item, item, verdict, s.now, policy), from, since, n, policy)
  {
    if 0 < n {
      var m := from + n;
      DelayIsBoundedAndMonotone(m, item.attempts + 1, policy);
      assert TotalWait(m, policy) == TotalWait(m - 1, policy) + BackoffDelayMs(m, policy);
    }
  }

  lemma AwaitedMore(s: State, t: State, row: OutboxItem, from: nat, since: Instant, n: nat, policy: OutboxPolicy)
    requires RowPaced(s, row, from, since, n, policy) && (Awaited(s, row.id) ==> Awaited(t, row.id))
    ensures RowPaced(t, row, from, since, n, policy)
  {
  }

  lemma SettleKeepsPace(s: State, flight: nat, policy: OutboxPolicy, id: RowId, from: nat, since: Instant, n: nat)
    requires policy.Waits() && SerialInv(s) && Enabled(s, Settle(flight)) && Paced(s, id, from, since, n, policy)
    ensures Paced(After(s, Settle(flight), policy), id, from, since, n, policy)
  {
    var f, t := s.flights[flight], After(s, Settle(flight), policy);
    var item, verdict := f.batch[f.phase.next], Verdict(f.phase.result, f.phase.next);
    forall row | row in t.queue && row.id == id ensures RowPaced(t, row, from, since, n, policy) {
      var was := SettledRows(s, flight, policy, row);
      assert RowPaced(s, was, from, since, n, policy);
      if row.id == item.id && !verdict.ACCEPTED? {
        FailsPaced(s, t, item, verdict, from, since, n, policy);
      } else {
        if Awaited(s, id) { StaysAwaited(s, Settle(flight), policy, id); }
        AwaitedMore(s, t, row, from, since, n, policy);
      }
    }
  }

  lemma FinishKeepsPace(s: State, flight: nat, policy: OutboxPolicy, id: RowId, from: nat, since: Instant, n: nat)
    requires SerialInv(s) && Enabled(s, Finish(flight)) && Paced(s, id, from, since, n, policy)
    ensures Paced(After(s, Finish(flight), policy), id, from, since, n, policy)
  {
    var f, t := s.flights[flight], After(s, Finish(flight), policy);
    forall row | row in t.queue && row.id == id ensures RowPaced(t, row, from, since, n, policy) {
      assert row in s.queue && row.id !in f.phase.accepted && RowPaced(s, row, from, since, n, policy);
      if Awaited(s, id) {
        var other :| other in s.flights && AwaitedBy(s.flights[other], id);
        assert other != flight && other in t.flights && t.flights[other] == s.flights[other];
        assert Awaited(t, id);
      }
    }
  }

  /** A row is sent only when it is due and no drain awaits it. */
  lemma SendFindsTheRowFree(s: State, step: Step, policy: OutboxPolicy, id: RowId)
    requires SerialInv(s) && SerialStep(s, step) && SendsRow(s, step, policy, id)
    ensures !Awaited(s, id)
    ensures exists row :: row in s.queue && row.id == id && row.state == PENDING && row.nextAttemptAt <= s.now
  {
    var batch := Claimed(s.queue, step.kind, policy.maxBatchSize, s.now);
    ClaimedRows(s.queue, step.kind, policy.maxBatchSize, s.now);
    var k :| 0 <= k < |batch| && batch[k].id == id;
    assert batch[k] in batch && batch[k] in s.queue && Due(batch[k], step.kind, s.now);
    if Awaited(s, id) { AwaitedIsInFlight(s, batch[k]); }
  }

  lemma AwaitedIsInFlight(s: State, row: OutboxItem)
    requires Inv(s) && row in s.queue && Awaited(s, row.id)
    ensures InFlight(s, row.kind)
  {
    var flight :| flight in s.flights && AwaitedBy(s.flights[flight], row.id);
    var f := s.flights[flight];
    assert FlightSound(s, f);
    AwaitedIsInBatch(s, f, row.id);
    var i :| 0 <= i < |f.batch| && f.batch[i].id == row.id;
    var j :| 0 <= j < |s.queue| && s.queue[j] == row;
    assert Genuine(s, f.batch[i]) && Genuine(s, s.queue[j]);
    assert HoldsKind(f.batch, row.kind);
  }

  lemma AwaitedIsInBatch(s: State, f: Flight, id: RowId)
    requires FlightSound(s, f) && AwaitedBy(f, id)
    ensures exists i :: 0 <= i < |f.batch| && f.batch[i].id == id
  {
    if f.phase.Settling? { AcceptedAreInBatch(s, f, id); }
  }

  lemma ClaimKeepsPace(
    s: State, step: Step, policy: OutboxPolicy, id: RowId, from: nat, since: Instant, n: nat, m: nat)
    requires SerialInv(s) && SerialStep(s, step) && step.Claim? && Paced(s, id, from, since, n, policy)
    requires m == if SendsRow(s, step, policy, id) then n + 1 else n
    ensures Paced(After(s, step, policy), id, from, since, m, policy)
  {
    var t := After(s, step, policy);
    if m == n {
      forall row | row in t.queue && row.id == id ensures RowPaced(t, row, from, since, n, policy) {
        assert RowPaced(s, row, from, since, n, policy);
        if Awaited(s, id) { StaysAwaited(s, step, policy, id); }
      }
    } else {
      SendKeepsPace(s, step, policy, id, from, since, n, m);
    }
  }

  lemma SentIsAwaited(s: State, step: Step, policy: OutboxPolicy, id: RowId)
    requires Enabled(s, step) && SendsRow(s, step, policy, id)
    ensures Awaited(After(s, step, policy), id)
  {
    var t := After(s, step, policy);
    var batch := Claimed(s.queue, step.kind, policy.maxBatchSize, s.now);
    var k :| 0 <= k < |batch| && batch[k].id == id;
    assert t.flights[step.flight] == Flight(batch, s.now, Sending);
    assert AwaitedBy(t.flights[step.flight], id);
  }

  lemma SentRowIsPaced(s: State, t: State, row: OutboxItem, from: nat, since: Instant, n: nat, m: nat, policy: OutboxPolicy)
    requires RowPaced(s, row, from, since, n, policy) && row.state == PENDING && !Awaited(s, row.id)
    requires row.nextAttemptAt <= s.now && since <= s.now && m == n + 1 && Awaited(t, row.id)
    ensures RowPaced(t, row, from, since, m, policy)
    ensures since + TotalWait(from + m - 1, policy) - TotalWait(from, policy) <= s.now
  {
  }

  lemma SendKeepsPace(
    s: State, step: Step, policy: OutboxPolicy, id: RowId, from: nat, since: Instant, n: nat, m: nat)
    requires SerialInv(s) && SerialStep(s, step) && SendsRow(s, step, policy, id) && Paced(s, id, from, since, n, policy)
    requires m == n + 1
    ensures Paced(After(s, step, policy), id, from, since, m, policy)
  {
    var t := After(s, step, policy);
    SendFindsTheRowFree(s, step, policy, id);
    SentIsAwaited(s, step, policy, id);
    var sent :| sent in s.queue && sent.id == id && sent.state == PENDING && sent.nextAttemptAt <= s.now;
    assert RowPaced(s, sent, from, since, n, policy);
    OneRowOfAnId(s, sent, sent);
    SentRowIsPaced(s, t, sent, from, since, n, m, policy);
    forall row | row in t.queue && row.id == id ensures row == sent {
      OneRowOfAnId(s, row, sent);
    }
  }

  lemma EnqueueKeepsPace(s: State, step: Step, policy: OutboxPolicy, id: RowId, from: nat, since: Instant, n: nat)
    requires SerialInv(s) && Enabled(s, step) && step.Enqueue? && Paced(s, id, from, since, n, policy)
    ensures Paced(After(s, step, policy), id, from, since, n, policy)
  {
    var t := After(s, step, policy);
    forall row | row in t.queue && row.id == id ensures RowPaced(t, row, from, since, n, policy) {
      if row in s.queue {
        assert RowPaced(s, row, from, since, n, policy);
        if Awaited(s, id) { StaysAwaited(s, step, policy, id); }
      }
    }
  }

  lemma StepKeepsPace(
    s: State, step: Step, policy: OutboxPolicy, id: RowId, from: nat, since: Instant, n: nat, m: nat)
    requires policy.Waits() && SerialInv(s) && SerialStep(s, step) && Paced(s, id, from, since, n, policy)
    requires m == if SendsRow(s, step, policy, id) then n + 1 else n
    ensures Paced(After(s, step, policy), id, from, since, m, policy)
  {
    match step {
      case Claim(_, _) => ClaimKeepsPace(s, step, policy, id, from, since, n, m);
      case Settle(flight) => SettleKeepsPace(s, flight, policy, id, from, since, n);
      case Finish(flight) => FinishKeepsPace(s, flight, policy, id, from, since, n);
      case Enqueue(_, _) => EnqueueKeepsPace(s, step, policy, id, from, since, n);
      case _ =>
        var t := After(s, step, policy);
        forall row | row in t.queue && row.id == id ensures RowPaced(t, row, from, since, n, policy) {
          assert RowPaced(s, row, from, since, n, policy);
          if Awaited(s, id) { StaysAwaited(s, step, policy, id); }
        }
    }
  }

  lemma {:induction false} RunKeepsPace(
    s: State, steps: seq<Step>, policy: OutboxPolicy, id: RowId, from: nat, since: Instant, n: nat, total: nat)
    requires policy.Waits() && SerialInv(s) && SerialPossible(s, steps, policy) && Paced(s, id, from, since, n, policy)
    requires Possible(s, steps, policy) && total == n + Sends(s, steps, policy, id)
    ensures Paced(Final(s, steps, policy), id, from, since, total, policy)
    decreases |steps|
  {
    if steps != [] {
      var m := if SendsRow(s, steps[0], policy, id) then n + 1 else n;
      SerialStepKeepsInv(s, steps[0], policy);
      StepKeepsPace(s, steps[0], policy, id, from, since, n, m);
      RunKeepsPace(After(s, steps[0], policy), steps[1..], policy, id, from, since, m, total);
    }
  }

  lemma StartsPaced(s: State, id: RowId, from: nat, policy: OutboxPolicy)
    requires Inv(s)
    requires if id in s.appended then forall row :: row in s.queue && row.id == id ==> from <= row.attempts else from == 0
    ensures Paced(s, id, from, s.now, 0, policy)
  {
    forall row | row in s.queue && row.id == id ensures RowPaced(s, row, from, s.now, 0, policy) {
      OneRowOfAnId(s, row, row);
    }
  }

  /** In any window of such a run, `n` sends of one row take at least the waits of `n - 1` failures that
      follow the attempts it had: so at least `n - 1` first waits, whatever becomes of the row. */
  lemma SendsAreSpacedInAnyWindow(s: State, steps: seq<Step>, policy: OutboxPolicy, id: RowId, from: nat)
    requires policy.Waits() && SerialInv(s) && SerialPossible(s, steps, policy)
    requires if id in s.appended then forall row :: row in s.queue && row.id == id ==> from <= row.attempts else from == 0
    ensures Possible(s, steps, policy)
    ensures var n, t := Sends(s, steps, policy, id), Final(s, steps, policy);
      0 < n ==>
        && TotalWait(from + n - 1, policy) - TotalWait(from, policy) <= t.now - s.now
        && (n - 1) * BackoffDelayMs(1, policy) <= t.now - s.now
  {
    OrderlyIsPossible(s, steps, policy, {});
    var n, t := Sends(s, steps, policy, id), Final(s, steps, policy);
    StartsPaced(s, id, from, policy);
    RunKeepsPace(s, steps, policy, id, from, s.now, 0, n);
    if 0 < n { PacedTakesTime(t, id, from, s.now, n, policy); }
  }

  lemma PacedTakesTime(s: State, id: RowId, from: nat, since: Instant, n: nat, policy: OutboxPolicy)
    requires policy.Waits() && Paced(s, id, from, since, n, policy) && 0 < n
    ensures TotalWait(from + n - 1, policy) - TotalWait(from, policy) <= s.now - since
    ensures (n - 1) * BackoffDelayMs(1, policy) <= s.now - since
  {
    WaitsInBetween(from, from + n - 1, policy);
  }
}
