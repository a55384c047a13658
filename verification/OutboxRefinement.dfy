/** The engine's uninterrupted drain is one of the runs of the protocol. */
module OutboxRefinement {
  import opened Sequences
  import opened Backoff
  import opened OutboxTypes
  import opened OutboxQueue
  import opened OutboxDrain
  import opened OutboxProtocol

  /** Settling the first `n` items, the clock moving on before each. */
  function SettleSteps(flight: nat, clock: nat -> Instant, n: nat): seq<Step> {
    if n == 0 then [] else SettleSteps(flight, clock, n - 1) + [Tick(clock(n - 1)), Settle(flight)]
  }

  function DrainSteps(flight: nat, kind: OutboxItemKind, a: Attempt): seq<Step> {
    [Claim(flight, kind), Answer(flight, a.result)] + SettleSteps(flight, a.clock, |a.batch|) + [Finish(flight)]
  }

  /** The clock does not go back while the batch is settled. */
  ghost predicate ClockRuns(start: Instant, clock: nat -> Instant) {
    start <= clock(0) && forall i: nat :: clock(i) <= clock(i + 1)
  }

  /** The state once `n` items are settled. */
  ghost predicate SettledSoFar(s: State, q: Queue, flight: nat, startedAt: Instant, a: Attempt, n: nat)
    requires n <= |a.batch|
  {
    && s.queue == SettlePrefix(q, a, n)
    && flight in s.flights
    && s.flights[flight] == Flight(a.batch, startedAt, Settling(a.result, n, AcceptedIds(a, n)))
    && s.now <= a.clock(n)
  }

  lemma SettleOneMore(s: State, q: Queue, flight: nat, startedAt: Instant, a: Attempt, n: nat)
    requires n < |a.batch| && SettledSoFar(s, q, flight, startedAt, a, n) && ClockRuns(startedAt, a.clock)
    ensures var steps := [Tick(a.clock(n)), Settle(flight)];
      && Possible(s, steps, a.policy)
      && var t := Final(s, steps, a.policy);
         && SettledSoFar(t, q, flight, startedAt, a, n + 1)
         && t.flights - {flight} == s.flights - {flight}
         && t.server == s.server && t.appended == s.appended && t.network == s.network
  {
    var ticked := After(s, Tick(a.clock(n)), a.policy);
    RunOfTwo(s, Tick(a.clock(n)), Settle(flight), a.policy);
  }

  lemma {:induction false} SettleAll(s: State, q: Queue, flight: nat, startedAt: Instant, a: Attempt, n: nat)
    requires n <= |a.batch| && SettledSoFar(s, q, flight, startedAt, a, 0) && ClockRuns(startedAt, a.clock)
    ensures Possible(s, SettleSteps(flight, a.clock, n), a.policy)
    ensures var t := Final(s, SettleSteps(flight, a.clock, n), a.policy);
      && SettledSoFar(t, q, flight, startedAt, a, n)
      && t.flights - {flight} == s.flights - {flight}
      && t.server == s.server && t.appended == s.appended && t.network == s.network
  {
    if n > 0 {
      SettleAll(s, q, flight, startedAt, a, n - 1);
      var before := Final(s, SettleSteps(flight, a.clock, n - 1), a.policy);
      SettleOneMore(before, q, flight, startedAt, a, n - 1);
      RunThen(s, SettleSteps(flight, a.clock, n - 1), [Tick(a.clock(n - 1)), Settle(flight)], a.policy);
    }
  }

  lemma ClaimThenAnswer(s: State, flight: nat, kind: OutboxItemKind, a: Attempt)
    requires flight !in s.flights && a.batch != []
    requires a.batch == Claimed(s.queue, kind, a.policy.maxBatchSize, s.now)
    requires Honest(a.result, a.batch, s.server) && ClockRuns(s.now, a.clock)
    ensures var steps := [Claim(flight, kind), Answer(flight, a.result)];
      && Possible(s, steps, a.policy)
      && var t := Final(s, steps, a.policy);
         && SettledSoFar(t, s.queue, flight, s.now, a, 0)
         && t.flights - {flight} == s.flights
         && t.server == s.server && t.appended == s.appended
  {
    RunOfTwo(s, Claim(flight, kind), Answer(flight, a.result), a.policy);
  }

  lemma FinishRemoves(s: State, q: Queue, flight: nat, startedAt: Instant, a: Attempt)
    requires SettledSoFar(s, q, flight, startedAt, a, |a.batch|)
    ensures Possible(s, [Finish(flight)], a.policy)
    ensures var t := Final(s, [Finish(flight)], a.policy);
      && t.queue == Drained(q, a)
      && t.flights == s.flights - {flight} && t.server == s.server && t.appended == s.appended
  {
    RunFrom(s, Finish(flight), [], a.policy);
    assert [Finish(flight)] + [] == [Finish(flight)];
  }

  /** Claiming, sending and settling without interruption is a possible run; it ends in the queue the
      row-by-row account of a drain gives, with every other drain in flight undisturbed. */
  lemma UninterruptedDrainIsARun(s: State, flight: nat, kind: OutboxItemKind, a: Attempt)
    requires Inv(s) && flight !in s.flights && a.batch != []
    requires a.batch == Claimed(s.queue, kind, a.policy.maxBatchSize, s.now)
    requires Honest(a.result, a.batch, s.server) && ClockRuns(s.now, a.clock)
    ensures Possible(s, DrainSteps(flight, kind, a), a.policy)
    ensures var t := Final(s, DrainSteps(flight, kind, a), a.policy);
      t.queue == Fates(s.queue, a) && t.flights == s.flights && t.server == s.server && t.appended == s.appended
  {
    ClaimedRows(s.queue, kind, a.policy.maxBatchSize, s.now);
    DrainDecidesRowByRow(s.queue, a);
    var opening := [Claim(flight, kind), Answer(flight, a.result)];
    var settle := SettleSteps(flight, a.clock, |a.batch|);
    ClaimThenAnswer(s, flight, kind, a);
    var answered := Final(s, opening, a.policy);
    SettleAll(answered, s.queue, flight, s.now, a, |a.batch|);
    RunThen(s, opening, settle, a.policy);
    var settled := Final(s, opening + settle, a.policy);
    FinishRemoves(settled, s.queue, flight, s.now, a);
    RunThen(s, opening + settle, [Finish(flight)], a.policy);
  }
}
