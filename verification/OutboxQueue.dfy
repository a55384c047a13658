/** The outbox as its users see it: one list of rows in insertion order. Every store operation is
    stated on this list; the two-map store is proved against it, and so are drains and runs. */
module OutboxQueue {
  import opened Sequences
  import opened Backoff
  import opened OutboxTypes

  type Queue = seq<OutboxItem>

  ghost predicate DistinctIds(q: Queue) {
    forall i, j :: 0 <= i < j < |q| ==> q[i].id != q[j].id
  }

  ghost predicate DistinctKeys(q: Queue) {
    forall i, j :: 0 <= i < j < |q| ==> q[i].clientEventId != q[j].clientEventId
  }

  ghost predicate WellFormed(q: Queue) {
    DistinctIds(q) && DistinctKeys(q)
  }

  predicate HasId(q: Queue, id: RowId) {
    exists i :: 0 <= i < |q| && q[i].id == id
  }

  predicate HasKey(q: Queue, key: EventKey) {
    exists i :: 0 <= i < |q| && q[i].clientEventId == key
  }

  // ----------------------------------------------------------------------------------------
  // Claiming
  // ----------------------------------------------------------------------------------------

  predicate Due(row: OutboxItem, kind: OutboxItemKind, now: Instant) {
    row.kind == kind && row.state == PENDING && row.nextAttemptAt <= now
  }

  predicate CapturedNoLater(a: OutboxItem, b: OutboxItem) {
    a.capturedAt <= b.capturedAt
  }

  function Eligible(q: Queue, kind: OutboxItemKind, now: Instant): Queue {
    Filter(DueFor(kind, now), q)
  }

  function DueFor(kind: OutboxItemKind, now: Instant): OutboxItem -> bool {
    (row: OutboxItem) => Due(row, kind, now)
  }

  /** `Array.prototype.slice(0, limit)`: a negative limit counts from the end. */
  function SliceTo<T>(s: seq<T>, limit: int): (r: seq<T>)
    ensures r <= s
    ensures 0 <= limit ==> |r| == Min(limit, |s|)
  {
    if limit < 0 then s[..if |s| + limit < 0 then 0 else |s| + limit] else s[..Min(limit, |s|)]
  }

  function EligibleInOrder(q: Queue, kind: OutboxItemKind, now: Instant): Queue {
    SortBy(CapturedNoLater, Eligible(q, kind, now))
  }

  function Claimed(q: Queue, kind: OutboxItemKind, limit: int, now: Instant): Queue {
    SliceTo(EligibleInOrder(q, kind, now), limit)
  }

  /** What is eligible: exactly the rows of the kind that are pending and have come due. */
  lemma EligibleRows(q: Queue, kind: OutboxItemKind, now: Instant)
    ensures forall row :: row in Eligible(q, kind, now) <==>
      row in q && row.kind == kind && row.state == PENDING && row.nextAttemptAt <= now
  {
  }

  /** A claim takes only rows of the kind that are pending and due. As long as there is room it leaves
      none of them out; when it is full, none it leaves out is older than one it takes. */
  lemma {:induction false} ClaimTakesTheOldest(q: Queue, kind: OutboxItemKind, limit: nat, now: Instant)
    ensures var batch := Claimed(q, kind, limit, now);
      && |batch| == Min(limit, |Eligible(q, kind, now)|)
      && (forall row :: row in batch ==>
            row in q && row.kind == kind && row.state == PENDING && row.nextAttemptAt <= now)
      && (|batch| < limit ==> forall row :: row in q && row !in batch ==>
            row.kind != kind || row.state == BLOCKED || now < row.nextAttemptAt)
      && (forall row, left :: row in batch && left in q && left !in batch
            && left.kind == kind && left.state == PENDING && left.nextAttemptAt <= now
            ==> row.capturedAt <= left.capturedAt)
  {
    var eligible := Eligible(q, kind, now);
    var ordered := EligibleInOrder(q, kind, now);
    var batch := Claimed(q, kind, limit, now);
    EligibleRows(q, kind, now);
    assert batch == ordered[..|batch|];
    TakeFromSorted(CapturedNoLater, eligible, |batch|);
    SameElements(ordered, eligible);
    forall row | row in batch ensures row in eligible {
      assert row in ordered;
    }
    if |batch| < limit { assert batch == ordered; }
    forall row, left | row in batch && left in eligible && left !in batch ensures row.capturedAt <= left.capturedAt {
      assert CapturedNoLater(row, left);
    }
  }

  /** A claim is oldest first, and within one capture instant it is an initial part of the eligible
      rows in insertion order. */
  lemma {:induction false} ClaimIsInOrder(q: Queue, kind: OutboxItemKind, limit: int, now: Instant)
    ensures var batch := Claimed(q, kind, limit, now);
      forall i, j :: 0 <= i < j < |batch| ==> batch[i].capturedAt <= batch[j].capturedAt
    ensures Sorted(CapturedNoLater, Claimed(q, kind, limit, now))
    ensures forall x: OutboxItem ::
      Ties(CapturedNoLater, x, Claimed(q, kind, limit, now)) <= Ties(CapturedNoLater, x, Eligible(q, kind, now))
  {
    var batch := Claimed(q, kind, limit, now);
    assert batch == EligibleInOrder(q, kind, now)[..|batch|];
    TakeFromSorted(CapturedNoLater, Eligible(q, kind, now), |batch|);
  }

  // ----------------------------------------------------------------------------------------
  // Changing rows
  // ----------------------------------------------------------------------------------------

  function Rescheduled(row: OutboxItem, next: Instant, error: string): OutboxItem {
    row.(attempts := row.attempts + 1, nextAttemptAt := next, lastError := Some(error))
  }

  function BlockedRow(row: OutboxItem, error: string): OutboxItem {
    row.(attempts := row.attempts + 1, state := BLOCKED, lastError := Some(error))
  }

  function Reschedule(q: Queue, id: RowId, next: Instant, error: string): (r: Queue)
    ensures |r| == |q|
    ensures forall i :: 0 <= i < |q| ==> r[i] == if q[i].id == id then Rescheduled(q[i], next, error) else q[i]
  {
    seq(|q|, i requires 0 <= i < |q| => if q[i].id == id then Rescheduled(q[i], next, error) else q[i])
  }

  function Block(q: Queue, id: RowId, error: string): (r: Queue)
    ensures |r| == |q|
    ensures forall i :: 0 <= i < |q| ==> r[i] == if q[i].id == id then BlockedRow(q[i], error) else q[i]
  {
    seq(|q|, i requires 0 <= i < |q| => if q[i].id == id then BlockedRow(q[i], error) else q[i])
  }

  /** The rows whose id is not one of `ids`, in order. */
  function RemoveAll(q: Queue, ids: seq<RowId>): Queue {
    Filter(NotAmong(ids), q)
  }

  function NotAmong(ids: seq<RowId>): OutboxItem -> bool {
    (row: OutboxItem) => row.id !in ids
  }

  function Append(q: Queue, item: OutboxItem): Queue {
    if HasKey(q, item.clientEventId) then q else q + [item]
  }

  lemma FilterKeepsWellFormed(keep: OutboxItem -> bool, q: Queue)
    requires WellFormed(q)
    ensures WellFormed(Filter(keep, q))
  {
    FilterKeepsDistinctIds(keep, q);
    FilterKeepsDistinct((row: OutboxItem) => row.clientEventId, keep, q);
  }

  lemma RemoveAllKeepsWellFormed(q: Queue, ids: seq<RowId>)
    requires WellFormed(q)
    ensures WellFormed(RemoveAll(q, ids))
  {
    FilterKeepsWellFormed(NotAmong(ids), q);
  }

  lemma RemoveInTwo(q: Queue, ids: seq<RowId>, more: seq<RowId>)
    ensures RemoveAll(q, ids + more) == RemoveAll(RemoveAll(q, ids), more)
  {
    FilterFilter(NotAmong(more), NotAmong(ids), NotAmong(ids + more), q);
  }

  /** Removing distinct ids that are all present removes exactly that many rows. */
  lemma RemoveAllCount(q: Queue, ids: seq<RowId>)
    requires DistinctIds(q)
    requires forall i, j :: 0 <= i < j < |ids| ==> ids[i] != ids[j]
    requires forall i :: 0 <= i < |ids| ==> HasId(q, ids[i])
    ensures |RemoveAll(q, ids)| == |q| - |ids|
  {
    if ids == [] {
      FilterAll(NotAmong(ids), q);
    } else {
      var n := |ids| - 1;
      assert ids == ids[..n] + [ids[n]];
      RemoveAllCount(q, ids[..n]);
      RemoveInTwo(q, ids[..n], [ids[n]]);
      var rest := RemoveAll(q, ids[..n]);
      FilterKeepsDistinctIds(NotAmong(ids[..n]), q);
      var i :| 0 <= i < |q| && q[i].id == ids[n];
      assert q[i] in rest;
      var k :| 0 <= k < |rest| && rest[k] == q[i];
      RemoveOne(rest, k);
    }
  }

  lemma FilterKeepsDistinctIds(keep: OutboxItem -> bool, q: Queue)
    requires DistinctIds(q)
    ensures DistinctIds(Filter(keep, q))
  {
    FilterKeepsDistinct((row: OutboxItem) => row.id, keep, q);
  }

  /** Removing the id of row `k` takes out row `k` and nothing else. */
  lemma RemoveOne(q: Queue, k: nat)
    requires DistinctIds(q) && k < |q|
    ensures RemoveAll(q, [q[k].id]) == q[..k] + q[k + 1..]
  {
    FilterOneOut(NotAmong([q[k].id]), q, k);
  }
}
