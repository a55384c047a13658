/** What one drain does to the queue once it holds its batch and the sender has answered: first as
    the source does it, one batch item after another, then row by row, and the two agree. */
module OutboxDrain {
  import opened Sequences
  import opened Backoff
  import opened OutboxTypes
  import opened OutboxQueue

  /** A batch, the answer to sending it, and the clock as it reads while item `i` is settled. */
  datatype Attempt = Attempt(batch: Queue, result: SendResult, clock: nat -> Instant, policy: OutboxPolicy)

  function MessageOf(error: Thrown): string {
    if error.AnError? && error.message != "" then error.message else "NETWORK_ERROR"
  }

  /** A throw is a network error for every item; an outcome the server left out is a retry. */
  function Verdict(result: SendResult, index: nat): SendOutcome {
    match result
    case Thrown(error) => RETRY(MessageOf(error))
    case Returned(outcomes) => if index < |outcomes| then outcomes[index] else RETRY("MISSING_OUTCOME")
  }

  function RetryAt(item: OutboxItem, now: Instant, policy: OutboxPolicy): Instant {
    now + BackoffDelayMs(item.attempts + 1, policy)
  }

  /** A row that never failed waits twice the base first, capped: that is the base itself exactly when the
      base is the cap. */
  lemma FirstWait(item: OutboxItem, now: Instant, policy: OutboxPolicy)
    requires policy.Waits() && item.attempts == 0
    ensures RetryAt(item, now, policy) - now == Min(2 * policy.baseDelayMs, policy.maxDelayMs)
    ensures RetryAt(item, now, policy) - now == policy.baseDelayMs <==> policy.baseDelayMs == policy.maxDelayMs
  {
    assert Doubled(policy.baseDelayMs, 1) == 2 * Doubled(policy.baseDelayMs, 0);
  }

  function SettleOne(q: Queue, item: OutboxItem, verdict: SendOutcome, now: Instant, policy: OutboxPolicy): Queue {
    match verdict
    case ACCEPTED => q
    case RETRY(reason) => Reschedule(q, item.id, RetryAt(item, now, policy), reason)
    case REJECTED(reason) => Block(q, item.id, reason)
  }

  function SettlePrefix(q: Queue, a: Attempt, n: nat): Queue
    requires n <= |a.batch|
  {
    if n == 0 then q
    else SettleOne(SettlePrefix(q, a, n - 1), a.batch[n - 1], Verdict(a.result, n - 1), a.clock(n - 1), a.policy)
  }

  function AcceptedIds(a: Attempt, n: nat): seq<RowId>
    requires n <= |a.batch|
  {
    if n == 0 then []
    else AcceptedIds(a, n - 1) + if Verdict(a.result, n - 1).ACCEPTED? then [a.batch[n - 1].id] else []
  }

  function LastFailure(a: Attempt, n: nat): Option<string>
    requires n <= |a.batch|
  {
    if n == 0 then None
    else if Verdict(a.result, n - 1).ACCEPTED? then LastFailure(a, n - 1)
    else Some(Verdict(a.result, n - 1).reason)
  }

  function Drained(q: Queue, a: Attempt): Queue {
    RemoveAll(SettlePrefix(q, a, |a.batch|), AcceptedIds(a, |a.batch|))
  }

  // ----------------------------------------------------------------------------------------
  // Row by row
  // ----------------------------------------------------------------------------------------

  /** Where the batch holds a row with this id; the batch length if it does not. */
  function IndexOfId(batch: Queue, id: RowId): (k: nat)
    ensures k <= |batch|
    ensures k < |batch| ==> batch[k].id == id
    ensures forall i :: 0 <= i < k ==> batch[i].id != id
  {
    if batch == [] then 0 else if batch[0].id == id then 0 else 1 + IndexOfId(batch[1..], id)
  }

  function SettledRow(row: OutboxItem, item: OutboxItem, verdict: SendOutcome, now: Instant, policy: OutboxPolicy)
    : OutboxItem
  {
    match verdict
    case ACCEPTED => row
    case RETRY(reason) => Rescheduled(row, RetryAt(item, now, policy), reason)
    case REJECTED(reason) => BlockedRow(row, reason)
  }

  /** What becomes of one row: rows outside the batch stay as they are, accepted rows go. */
  function Fate(row: OutboxItem, a: Attempt): Option<OutboxItem> {
    var k := IndexOfId(a.batch, row.id);
    if k == |a.batch| then Some(row)
    else if Verdict(a.result, k).ACCEPTED? then None
    else Some(SettledRow(row, a.batch[k], Verdict(a.result, k), a.clock(k), a.policy))
  }

  function Fates(q: Queue, a: Attempt): Queue {
    if q == [] then []
    else (match Fate(q[0], a) case None => [] case Some(row) => [row]) + Fates(q[1..], a)
  }

  lemma {:induction false} SettlePrefixPointwise(q: Queue, a: Attempt, n: nat)
    requires DistinctIds(a.batch) && n <= |a.batch|
    ensures |SettlePrefix(q, a, n)| == |q|
    ensures forall i :: 0 <= i < |q| ==>
      SettlePrefix(q, a, n)[i] ==
        var k := IndexOfId(a.batch, q[i].id);
        if k < n then SettledRow(q[i], a.batch[k], Verdict(a.result, k), a.clock(k), a.policy) else q[i]
  {
    if n > 0 {
      SettlePrefixPointwise(q, a, n - 1);
      forall i | 0 <= i < |q| && q[i].id == a.batch[n - 1].id ensures IndexOfId(a.batch, q[i].id) == n - 1 {
        var k := IndexOfId(a.batch, q[i].id);
      }
    }
  }

  lemma AcceptedIdsAre(a: Attempt, n: nat, id: RowId)
    requires DistinctIds(a.batch) && n <= |a.batch|
    ensures id in AcceptedIds(a, n) <==> var k := IndexOfId(a.batch, id); k < n && Verdict(a.result, k).ACCEPTED?
  {
    if n > 0 {
      AcceptedIdsAre(a, n - 1, id);
      var k := IndexOfId(a.batch, id);
    }
  }

  lemma {:induction false} FilterIsFates(settled: Queue, q: Queue, a: Attempt, keep: OutboxItem -> bool)
    requires |settled| == |q|
    requires forall i :: 0 <= i < |q| ==>
      Fate(q[i], a) == if keep(settled[i]) then Some(settled[i]) else None
    ensures Filter(keep, settled) == Fates(q, a)
  {
    if q != [] {
      assert Fate(q[0], a) == if keep(settled[0]) then Some(settled[0]) else None;
      FilterIsFates(settled[1..], q[1..], a, keep);
    }
  }

  /** Settling the batch item by item and then removing the accepted ids decides every row on its
      own: accepted rows vanish, rejected ones are blocked, every other claimed row (a missing
      outcome and a throw included) is rescheduled, and unclaimed rows are untouched. */
  lemma DrainDecidesRowByRow(q: Queue, a: Attempt)
    requires DistinctIds(a.batch)
    ensures Drained(q, a) == Fates(q, a)
  {
    var n := |a.batch|;
    var settled := SettlePrefix(q, a, n);
    SettlePrefixPointwise(q, a, n);
    forall i | 0 <= i < |q|
      ensures Fate(q[i], a) == if NotAmong(AcceptedIds(a, n))(settled[i]) then Some(settled[i]) else None
    {
      AcceptedIdsAre(a, n, q[i].id);
      assert settled[i].id == q[i].id;
    }
    FilterIsFates(settled, q, a, NotAmong(AcceptedIds(a, n)));
  }

  lemma AcceptedIdsDistinct(a: Attempt, n: nat)
    requires DistinctIds(a.batch) && n <= |a.batch|
    ensures forall i, j :: 0 <= i < j < |AcceptedIds(a, n)| ==> AcceptedIds(a, n)[i] != AcceptedIds(a, n)[j]
    ensures forall i :: 0 <= i < |AcceptedIds(a, n)| ==> HasId(a.batch[..n], AcceptedIds(a, n)[i])
  {
    if n > 0 {
      AcceptedIdsDistinct(a, n - 1);
      var ids := AcceptedIds(a, n);
      var before := AcceptedIds(a, n - 1);
      forall i | 0 <= i < |before| ensures before[i] != a.batch[n - 1].id && HasId(a.batch[..n], before[i]) {
        var k :| 0 <= k < n - 1 && a.batch[..n - 1][k].id == before[i];
        assert a.batch[..n][k].id == before[i];
      }
      assert a.batch[..n][n - 1].id == a.batch[n - 1].id;
    }
  }

  lemma {:induction false} ThrowAcceptsNothing(a: Attempt, n: nat)
    requires n <= |a.batch| && a.result.Thrown?
    ensures AcceptedIds(a, n) == []
    ensures 0 < n ==> LastFailure(a, n) == Some(MessageOf(a.result.error))
  {
    if n > 0 { ThrowAcceptsNothing(a, n - 1); }
  }

  lemma SettlePrefixKeepsIds(q: Queue, a: Attempt, n: nat)
    requires n <= |a.batch|
    ensures |SettlePrefix(q, a, n)| == |q|
    ensures forall i :: 0 <= i < |q| ==>
      SettlePrefix(q, a, n)[i].id == q[i].id && SettlePrefix(q, a, n)[i].clientEventId == q[i].clientEventId
  {
  }

  /** The number a drain returns is the number of rows it removed. */
  lemma DrainCountsRemovals(q: Queue, a: Attempt)
    requires DistinctIds(q) && DistinctIds(a.batch)
    requires forall item :: item in a.batch ==> item in q
    ensures |AcceptedIds(a, |a.batch|)| == |q| - |Drained(q, a)|
  {
    var n := |a.batch|;
    var ids := AcceptedIds(a, n);
    var settled := SettlePrefix(q, a, n);
    AcceptedIdsDistinct(a, n);
    SettlePrefixKeepsIds(q, a, n);
    forall i | 0 <= i < |ids| ensures HasId(settled, ids[i]) {
      var k :| 0 <= k < n && a.batch[..n][k].id == ids[i];
      assert a.batch[k] in q;
      var j :| 0 <= j < |q| && q[j] == a.batch[k];
      assert settled[j].id == ids[i];
    }
    RemoveAllCount(settled, ids);
  }

  lemma DrainKeepsWellFormed(q: Queue, a: Attempt)
    requires WellFormed(q)
    ensures WellFormed(Drained(q, a))
  {
    var n := |a.batch|;
    var settled := SettlePrefix(q, a, n);
    SettlePrefixKeepsIds(q, a, n);
    assert WellFormed(settled);
    RemoveAllKeepsWellFormed(settled, AcceptedIds(a, n));
  }

  /** A claimed batch has distinct ids and consists of rows of the queue. */
  lemma ClaimedRows(q: Queue, kind: OutboxItemKind, limit: int, now: Instant)
    requires DistinctIds(q)
    ensures DistinctIds(EligibleInOrder(q, kind, now))
    ensures DistinctIds(Claimed(q, kind, limit, now))
    ensures forall row :: row in Claimed(q, kind, limit, now) ==> row in q && Due(row, kind, now)
  {
    var eligible := Eligible(q, kind, now);
    var ordered := EligibleInOrder(q, kind, now);
    FilterKeepsDistinctIds(DueFor(kind, now), q);
    SortKeepsDistinctIds(eligible);
    SameElements(ordered, eligible);
    forall row | row in Claimed(q, kind, limit, now) ensures row in q && Due(row, kind, now) {
      assert row in eligible;
    }
  }

  lemma SortKeepsDistinctIds(q: Queue)
    requires DistinctIds(q)
    ensures DistinctIds(SortBy(CapturedNoLater, q))
  {
    if q != [] {
      SortKeepsDistinctIds(q[1..]);
      var rest := SortBy(CapturedNoLater, q[1..]);
      SameElements(rest, q[1..]);
      forall i | 0 <= i < |rest| ensures rest[i].id != q[0].id {
        assert rest[i] in q[1..];
      }
      InsertKeepsDistinctIds(q[0], rest);
    }
  }

  lemma {:induction false} InsertKeepsDistinctIds(x: OutboxItem, q: Queue)
    requires DistinctIds(q) && forall i :: 0 <= i < |q| ==> q[i].id != x.id
    ensures DistinctIds(Insert(CapturedNoLater, x, q))
    ensures forall i :: 0 <= i < |Insert(CapturedNoLater, x, q)| ==>
      Insert(CapturedNoLater, x, q)[i].id == x.id || HasId(q, Insert(CapturedNoLater, x, q)[i].id)
  {
    if q == [] {
    } else if CapturedNoLater(x, q[0]) {
      assert Insert(CapturedNoLater, x, q) == [x] + q;
    } else {
      InsertKeepsDistinctIds(x, q[1..]);
      var rest := Insert(CapturedNoLater, x, q[1..]);
      forall i | 0 <= i < |rest| ensures rest[i].id != q[0].id && (rest[i].id == x.id || HasId(q, rest[i].id)) {
        if rest[i].id != x.id {
          var j :| 0 <= j < |q[1..]| && q[1..][j].id == rest[i].id;
          assert q[j + 1].id == rest[i].id;
        }
      }
    }
  }
}
