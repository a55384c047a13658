/** Successive drains of one kind while the clock stands still: whatever the sender answers, every
    eligible row gets its turn, once, oldest first. */
module OutboxFairness {
  import opened Sequences
  import opened Backoff
  import opened OutboxTypes
  import opened OutboxQueue
  import opened OutboxDrain

  function AttemptOf(q: Queue, kind: OutboxItemKind, now: Instant, policy: OutboxPolicy, result: SendResult): Attempt {
    Attempt(Claimed(q, kind, policy.maxBatchSize, now), result, _ => now, policy)
  }

  /** The queue after one drain per answer in `results`. */
  function AfterDrains(q: Queue, kind: OutboxItemKind, now: Instant, policy: OutboxPolicy, results: seq<SendResult>): Queue
    decreases |results|
  {
    if results == [] then q
    else AfterDrains(Drained(q, AttemptOf(q, kind, now, policy, results[0])), kind, now, policy, results[1..])
  }

  /** The rows those drains hand to the sender, in the order they do. */
  function Attempted(q: Queue, kind: OutboxItemKind, now: Instant, policy: OutboxPolicy, results: seq<SendResult>): Queue
    decreases |results|
  {
    if results == [] then []
    else
      Claimed(q, kind, policy.maxBatchSize, now)
      + Attempted(Drained(q, AttemptOf(q, kind, now, policy, results[0])), kind, now, policy, results[1..])
  }

  function Ids(q: Queue): (ids: seq<RowId>)
    ensures |ids| == |q|
    ensures forall i :: 0 <= i < |q| ==> ids[i] == q[i].id
    ensures forall row :: row in q ==> row.id in ids
  {
    seq(|q|, i requires 0 <= i < |q| => q[i].id)
  }

  /** An attempted row is gone, blocked or not due; any other row is as it was. */
  lemma FateEndsEligibility(row: OutboxItem, a: Attempt, kind: OutboxItemKind, now: Instant)
    requires a.policy.Waits() && forall k :: a.clock(k) == now
    ensures row.id in Ids(a.batch) ==> Fate(row, a).None? || !Due(Fate(row, a).value, kind, now)
    ensures row.id !in Ids(a.batch) ==> Fate(row, a) == Some(row)
  {
    var k := IndexOfId(a.batch, row.id);
    if k < |a.batch| {
      assert Ids(a.batch)[k] == row.id;
      DelayIsBoundedAndMonotone(a.batch[k].attempts + 1, a.batch[k].attempts + 1, a.policy);
    }
  }

  lemma {:induction false} EligibleAfterFates(q: Queue, a: Attempt, kind: OutboxItemKind, now: Instant)
    requires a.policy.Waits() && forall k :: a.clock(k) == now
    ensures Eligible(Fates(q, a), kind, now) == Filter(NotAmong(Ids(a.batch)), Eligible(q, kind, now))
  {
    if q != [] {
      var due, others := DueFor(kind, now), NotAmong(Ids(a.batch));
      EligibleAfterFates(q[1..], a, kind, now);
      FateEndsEligibility(q[0], a, kind, now);
      var front := match Fate(q[0], a) case None => [] case Some(row) => [row];
      FilterAppend(due, front, Fates(q[1..], a));
      var dueFront := if due(q[0]) then [q[0]] else [];
      FilterAppend(others, dueFront, Eligible(q[1..], kind, now));
      assert Filter(due, front) == Filter(others, dueFront);
    }
  }

  lemma FilterDropsFront(keep: OutboxItem -> bool, front: Queue, back: Queue)
    requires forall row :: row in front ==> !keep(row)
    requires forall row :: row in back ==> keep(row)
    ensures Filter(keep, front + back) == back
  {
    FilterAppend(keep, front, back);
    FilterNone(keep, front);
    FilterAll(keep, back);
  }

  lemma {:induction false} FilterDropsPrefix(ordered: Queue, n: nat)
    requires DistinctIds(ordered) && n <= |ordered|
    ensures Filter(NotAmong(Ids(ordered[..n])), ordered) == ordered[n..]
  {
    var front, back := ordered[..n], ordered[n..];
    assert ordered == front + back;
    forall j | 0 <= j < |back| ensures back[j].id !in Ids(front) {
      assert ordered[n + j] == back[j];
    }
    FilterDropsFront(NotAmong(Ids(front)), front, back);
  }

  /** One drain takes exactly the batch off the front of the eligible rows. */
  lemma DrainTakesTheFront(q: Queue, kind: OutboxItemKind, now: Instant, policy: OutboxPolicy, result: SendResult)
    requires WellFormed(q) && policy.Waits() && 0 < policy.maxBatchSize
    ensures var next := Drained(q, AttemptOf(q, kind, now, policy, result));
      && WellFormed(next)
      && EligibleInOrder(next, kind, now)
         == EligibleInOrder(q, kind, now)[Min(policy.maxBatchSize, |EligibleInOrder(q, kind, now)|)..]
  {
    var a := AttemptOf(q, kind, now, policy, result);
    var ordered := EligibleInOrder(q, kind, now);
    var n := |a.batch|;
    assert a.batch == ordered[..n];
    ClaimedRows(q, kind, policy.maxBatchSize, now);
    DrainKeepsWellFormed(q, a);
    DrainDecidesRowByRow(q, a);
    EligibleAfterFates(q, a, kind, now);
    SortFilterCommute(CapturedNoLater, NotAmong(Ids(a.batch)), Eligible(q, kind, now));
    FilterDropsPrefix(ordered, n);
  }

  /** `|results|` drains attempt exactly the first `|results| * maxBatchSize` of the rows that were
      eligible at the start, in stable capture order, and leave exactly the rest eligible. */
  lemma {:induction false} DrainsWorkThroughTheQueue(
    q: Queue, kind: OutboxItemKind, now: Instant, policy: OutboxPolicy, results: seq<SendResult>)
    requires WellFormed(q) && policy.Waits() && 0 < policy.maxBatchSize
    ensures var ordered := EligibleInOrder(q, kind, now);
      var n := Min(|results| * policy.maxBatchSize, |ordered|);
      && 0 <= n
      && Attempted(q, kind, now, policy, results) == ordered[..n]
      && EligibleInOrder(AfterDrains(q, kind, now, policy, results), kind, now) == ordered[n..]
    decreases |results|
  {
    var ordered := EligibleInOrder(q, kind, now);
    if results == [] {
      assert ordered[0..] == ordered;
    } else {
      var size, later := policy.maxBatchSize, results[1..];
      assert |later| == |results| - 1;
      var next := Drained(q, AttemptOf(q, kind, now, policy, results[0]));
      DrainTakesTheFront(q, kind, now, policy, results[0]);
      DrainsWorkThroughTheQueue(next, kind, now, policy, later);
      FrontThenRest(ordered, size, |results|);
    }
  }

  /** One batch off the front, then `drains - 1` batches off what is left. */
  lemma FrontThenRest(ordered: Queue, size: nat, drains: nat)
    requires 0 < drains
    ensures 0 <= Min((drains - 1) * size, |ordered[Min(size, |ordered|)..]|)
    ensures 0 <= Min(drains * size, |ordered|)
    ensures var first, n := Min(size, |ordered|), Min(drains * size, |ordered|);
      var rest := ordered[first..];
      var m := Min((drains - 1) * size, |rest|);
      ordered[..first] + rest[..m] == ordered[..n] && rest[m..] == ordered[n..]
  {
    BatchesAddUp(size, drains, |ordered|);
    var first := Min(size, |ordered|);
    SliceTwice(ordered, first, Min((drains - 1) * size, |ordered| - first));
  }

  lemma BatchesAddUp(size: nat, drains: nat, rows: nat)
    requires 0 < drains
    ensures 0 <= (drains - 1) * size
    ensures Min(drains * size, rows) == Min(size, rows) + Min((drains - 1) * size, rows - Min(size, rows))
  {
    assert drains * size == size + (drains - 1) * size;
  }

  lemma SliceTwice<T>(s: seq<T>, first: nat, second: nat)
    requires first + second <= |s|
    ensures s[..first] + s[first..][..second] == s[..first + second]
    ensures s[first..][second..] == s[first + second..]
  {
  }

  /** A row of the kind that is pending and due. */
  predicate WantsSending(row: OutboxItem, kind: OutboxItemKind, now: Instant) {
    row.kind == kind && row.state == PENDING && row.nextAttemptAt <= now
  }

  /** After enough drains every row that was pending and due has been attempted, exactly once and oldest
      first, and none is left: a failing row never keeps the rows behind it from being sent. */
  lemma EveryEligibleRowGetsItsTurn(
    q: Queue, kind: OutboxItemKind, now: Instant, policy: OutboxPolicy, results: seq<SendResult>)
    requires WellFormed(q) && policy.Waits() && 0 < policy.maxBatchSize
    ensures |Eligible(q, kind, now)| <= |results| * policy.maxBatchSize
       <==> forall row :: row in AfterDrains(q, kind, now, policy, results) ==> !WantsSending(row, kind, now)
    ensures |Eligible(q, kind, now)| <= |results| * policy.maxBatchSize
        ==> forall row :: row in Attempted(q, kind, now, policy, results) <==> row in q && WantsSending(row, kind, now)
    ensures DistinctIds(Attempted(q, kind, now, policy, results))
    ensures var attempted := Attempted(q, kind, now, policy, results);
      forall i, j :: 0 <= i < j < |attempted| ==> attempted[i].capturedAt <= attempted[j].capturedAt
  {
    var after := AfterDrains(q, kind, now, policy, results);
    DrainsWorkThroughTheQueue(q, kind, now, policy, results);
    ClaimedRows(q, kind, policy.maxBatchSize, now);
    EligibleRows(q, kind, now);
    EligibleRows(after, kind, now);
    var ordered := EligibleInOrder(q, kind, now);
    SameElements(ordered, Eligible(q, kind, now));
    SortBySorted(CapturedNoLater, Eligible(q, kind, now));
    NoneLeft(after, kind, now);
    if |ordered| <= |results| * policy.maxBatchSize {
      assert ordered[..|ordered|] == ordered;
    }
  }

  lemma NoneLeft(q: Queue, kind: OutboxItemKind, now: Instant)
    ensures EligibleInOrder(q, kind, now) == [] <==> forall row :: row in q ==> !WantsSending(row, kind, now)
  {
    var eligible := Eligible(q, kind, now);
    EligibleRows(q, kind, now);
    if eligible != [] { assert eligible[0] in eligible; }
  }
}
