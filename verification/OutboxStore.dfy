/** The reference store: a map of rows by id that remembers insertion order, and a map from event
    key to row id (packages/driver-outbox/src/memory-store.ts). */
module OutboxStore {
  import opened Sequences
  import opened OutboxTypes
  import opened OutboxQueue

  type Rows = map<RowId, OutboxItem>
  type Index = map<EventKey, RowId>

  /** `order` lists the keys of `rows` once each: the insertion order a `Map` keeps. */
  predicate Ordered(rows: Rows, order: seq<RowId>) {
    && (forall i, j :: 0 <= i < j < |order| ==> order[i] != order[j])
    && (forall id :: id in order ==> id in rows)
    && (forall id :: id in rows ==> id in order)
  }

  predicate KeyedById(rows: Rows) {
    forall id :: id in rows ==> rows[id].id == id
  }

  /** The two maps are each other's inverse: a key leads to an id exactly when the row with that id
      carries that key. */
  ghost predicate Inverse(rows: Rows, byEventId: Index) {
    forall id, key {:trigger id in rows, key in byEventId} ::
      (id in rows && rows[id].clientEventId == key) <==> (key in byEventId && byEventId[key] == id)
  }

  /** `[...rows.values()]` for a map whose keys were inserted in this order. */
  function ValuesOf(rows: Rows, order: seq<RowId>): (q: Queue)
    requires forall id :: id in order ==> id in rows
    ensures |q| == |order|
    ensures forall i :: 0 <= i < |q| ==> q[i] == rows[order[i]]
  {
    if order == [] then [] else [rows[order[0]]] + ValuesOf(rows, order[1..])
  }

  function OtherThan(id: RowId): RowId -> bool {
    (other: RowId) => other != id
  }

  predicate IsBlocked(row: OutboxItem) {
    row.state == BLOCKED
  }

  class InMemoryOutboxStore {
    var rows: Rows
    var order: seq<RowId>
    var byEventId: Index

    ghost predicate Valid()
      reads this
    {
      Ordered(rows, order) && KeyedById(rows) && Inverse(rows, byEventId)
    }

    function Values(): (q: Queue)
      requires Ordered(rows, order)
      reads this
    {
      ValuesOf(rows, order)
    }

    constructor ()
      ensures Valid() && Values() == []
    {
      rows, order, byEventId := map[], [], map[];
    }

    /** Appends unless the event key is present, in which case nothing is written and the row that
        is already there comes back. The maps agree afterwards exactly when the key was present or
        the row id is new. */
    method Append(item: OutboxItem) returns (row: OutboxItem)
      requires Valid()
      modifies this
      ensures old(HasKey(Values(), item.clientEventId)) ==>
        && rows == old(rows) && order == old(order) && byEventId == old(byEventId)
        && row in old(Values()) && row.clientEventId == item.clientEventId
      ensures !old(HasKey(Values(), item.clientEventId)) ==>
        && row == item
        && rows == old(rows)[item.id := item]
        && byEventId == old(byEventId)[item.clientEventId := item.id]
      ensures Ordered(rows, order)
      ensures Valid() <==> old(HasKey(Values(), item.clientEventId)) || item.id !in old(rows)
      ensures Valid() ==> Values() == OutboxQueue.Append(old(Values()), item)
    {
      IndexFindsKeys(rows, order, byEventId, item.clientEventId);
      if item.clientEventId in byEventId {
        var existingId := byEventId[item.clientEventId];
        if existingId in rows {
          RowIsAValue(rows, order, existingId);
          return rows[existingId];
        }
      }
      PutNew(rows, order, byEventId, item);
      if item.id !in rows {
        order := order + [item.id];
      }
      rows := rows[item.id := item];
      byEventId := byEventId[item.clientEventId := item.id];
      row := item;
    }

    /** `filter`, then a stable `sort`, then `slice`; what that amounts to is stated by
        `OutboxQueue.ClaimTakesTheOldest`. */
    function Claim(kind: OutboxItemKind, limit: int, now: Instant): (batch: Queue)
      requires Valid()
      reads this
    {
      Claimed(Values(), kind, limit, now)
    }

    /** What the store hands out: due rows of the kind, none left out while there is room, none older left
        out when it is full, the oldest first. */
    lemma ClaimedFromTheStore(kind: OutboxItemKind, limit: nat, now: Instant)
      requires Valid()
      ensures var batch := Claim(kind, limit, now);
        && |batch| <= limit
        && (forall row :: row in batch ==>
              row in Values() && row.kind == kind && row.state == PENDING && row.nextAttemptAt <= now)
        && (|batch| < limit ==> forall row :: row in Values() && row !in batch ==>
              row.kind != kind || row.state == BLOCKED || now < row.nextAttemptAt)
        && (forall row, left :: row in batch && left in Values() && left !in batch
              && left.kind == kind && left.state == PENDING && left.nextAttemptAt <= now
              ==> row.capturedAt <= left.capturedAt)
        && (forall i, j :: 0 <= i < j < |batch| ==> batch[i].capturedAt <= batch[j].capturedAt)
    {
      ClaimTakesTheOldest(Values(), kind, limit, now);
      ClaimIsInOrder(Values(), kind, limit, now);
    }

    method Remove(ids: seq<RowId>)
      requires Valid()
      modifies this
      ensures Valid()
      ensures Values() == RemoveAll(old(Values()), ids)
    {
      ghost var before := Values();
      RemoveNone(before, ids);
      for k := 0 to |ids|
        invariant Valid()
        invariant Values() == RemoveAll(before, ids[..k])
      {
        RemoveOneMore(before, ids, k);
        RemoveRow(ids[k]);
      }
      assert ids[..|ids|] == ids;
    }

    /** One turn of the removal loop. */
    method RemoveRow(id: RowId)
      requires Valid()
      modifies this
      ensures Valid()
      ensures Values() == RemoveAll(old(Values()), [id])
    {
      Without(rows, order, byEventId, id);
      if id !in rows {
        return;
      }
      var row := rows[id];
      byEventId := byEventId - {row.clientEventId};
      rows := rows - {id};
      order := Filter(OtherThan(id), order);
    }

    method Reschedule(id: RowId, nextAttemptAt: Instant, error: string)
      requires Valid()
      modifies this
      ensures Valid()
      ensures Values() == OutboxQueue.Reschedule(old(Values()), id, nextAttemptAt, error)
    {
      RescheduleInMaps(rows, order, byEventId, id, nextAttemptAt, error);
      if id !in rows {
        return;
      }
      var row := rows[id];
      rows := rows[id := Rescheduled(row, nextAttemptAt, error)];
    }

    method Block(id: RowId, error: string)
      requires Valid()
      modifies this
      ensures Valid()
      ensures Values() == OutboxQueue.Block(old(Values()), id, error)
    {
      BlockInMaps(rows, order, byEventId, id, error);
      if id !in rows {
        return;
      }
      var row := rows[id];
      rows := rows[id := BlockedRow(row, error)];
    }

    /** The blocked rows and no others, in insertion order. */
    function ListBlocked(): (listed: Queue)
      requires Valid()
      reads this
      ensures forall row :: row in listed <==> row in Values() && row.state == BLOCKED
    {
      Filter(IsBlocked, Values())
    }

    /** The two counters split the rows: blocked rows are the ones listed as blocked. */
    method CountByState() returns (pending: nat, blocked: nat)
      requires Valid()
      ensures pending + blocked == |rows|
      ensures blocked == |ListBlocked()|
    {
      pending, blocked := 0, 0;
      var q := Values();
      for i := 0 to |q|
        invariant pending + blocked == i
        invariant blocked == |Filter(IsBlocked, q[..i])|
      {
        BlockedSoFar(q, i);
        if q[i].state == BLOCKED {
          blocked := blocked + 1;
        } else {
          pending := pending + 1;
        }
      }
      assert q[..|q|] == q;
      OrderCountsRows(rows, order);
    }

    function Peek(clientEventId: EventKey): (found: Option<OutboxItem>)
      requires Valid()
      reads this
    {
      if clientEventId in byEventId && byEventId[clientEventId] in rows
      then Some(rows[byEventId[clientEventId]]) else None
    }

    /** Looking a key up finds the one row carrying it, or nothing when no row does. */
    lemma PeekFindsTheRow(clientEventId: EventKey)
      requires Valid()
      ensures Peek(clientEventId).None? <==> !HasKey(Values(), clientEventId)
      ensures forall row :: Peek(clientEventId) == Some(row) <==> row in Values() && row.clientEventId == clientEventId
    {
      IndexFindsKeys(rows, order, byEventId, clientEventId);
      forall row | row in Values() && row.clientEventId == clientEventId
        ensures Peek(clientEventId) == Some(row)
      {
        var i :| 0 <= i < |Values()| && Values()[i] == row;
        assert order[i] in rows;
      }
      if clientEventId in byEventId {
        RowIsAValue(rows, order, byEventId[clientEventId]);
      }
    }
  }

  // ----------------------------------------------------------------------------------------
  // The maps and the list
  // ----------------------------------------------------------------------------------------

  lemma RowIsAValue(rows: Rows, order: seq<RowId>, id: RowId)
    requires Ordered(rows, order) && id in rows
    ensures rows[id] in ValuesOf(rows, order)
  {
    var i :| 0 <= i < |order| && order[i] == id;
    assert ValuesOf(rows, order)[i] == rows[id];
  }

  lemma {:induction false} IndexFindsKeys(rows: Rows, order: seq<RowId>, byEventId: Index, key: EventKey)
    requires Ordered(rows, order) && Inverse(rows, byEventId)
    ensures HasKey(ValuesOf(rows, order), key) <==> key in byEventId
  {
    var q := ValuesOf(rows, order);
    if HasKey(q, key) {
      var i :| 0 <= i < |q| && q[i].clientEventId == key;
      assert order[i] in rows;
    }
    if key in byEventId {
      RowIsAValue(rows, order, byEventId[key]);
    }
  }

  /** The rows of agreeing maps form a well-formed queue. */
  lemma {:induction false} AgreeingMapsAreWellFormed(rows: Rows, order: seq<RowId>, byEventId: Index)
    requires Ordered(rows, order) && KeyedById(rows) && Inverse(rows, byEventId)
    ensures WellFormed(ValuesOf(rows, order))
  {
    var q := ValuesOf(rows, order);
    forall i, j | 0 <= i < j < |q| ensures q[i].id != q[j].id && q[i].clientEventId != q[j].clientEventId {
      ValueIds(rows, order);
      assert q[i].id in rows && q[j].id in rows;
      assert q[i].clientEventId in byEventId && q[j].clientEventId in byEventId;
      assert byEventId[q[i].clientEventId] == order[i] && byEventId[q[j].clientEventId] == order[j];
    }
  }

  /** Writing an item under a key that is not indexed keeps the maps inverse exactly when its id is
      new: overwriting a row leaves the index entry of the lost row behind. */
  lemma {:induction false} PutNew(rows: Rows, order: seq<RowId>, byEventId: Index, item: OutboxItem)
    requires Ordered(rows, order) && KeyedById(rows) && Inverse(rows, byEventId)
    requires item.clientEventId !in byEventId
    ensures KeyedById(rows[item.id := item])
    ensures Inverse(rows[item.id := item], byEventId[item.clientEventId := item.id]) <==> item.id !in rows
    ensures item.id !in rows ==>
      && Ordered(rows[item.id := item], order + [item.id])
      && ValuesOf(rows[item.id := item], order + [item.id]) == ValuesOf(rows, order) + [item]
    ensures item.id in rows ==> Ordered(rows[item.id := item], order)
  {
    var rows', byEventId' := rows[item.id := item], byEventId[item.clientEventId := item.id];
    if item.id in rows {
      var lost := rows[item.id].clientEventId;
      assert lost in byEventId' && byEventId'[lost] == item.id;
      assert rows'[item.id].clientEventId != lost;
    } else {
      var order' := order + [item.id];
      assert Ordered(rows', order') by {
        forall id | id in rows' ensures id in order' {
          assert id == item.id || id in order;
          assert order'[|order|] == item.id;
        }
      }
      assert Inverse(rows', byEventId') by {
        forall key | key in byEventId' ensures byEventId'[key] in rows' && rows'[byEventId'[key]].clientEventId == key {
          assert key == item.clientEventId || key in byEventId;
        }
      }
    }
  }

  lemma ValueIds(rows: Rows, order: seq<RowId>)
    requires Ordered(rows, order) && KeyedById(rows)
    ensures forall i :: 0 <= i < |order| ==> ValuesOf(rows, order)[i].id == order[i]
  {
    forall i | 0 <= i < |order| ensures ValuesOf(rows, order)[i].id == order[i] {
      assert order[i] in rows;
    }
  }

  /** Overwriting a row with one that has the same id and key changes that row of the list only. */
  lemma {:induction false} Replace(rows: Rows, order: seq<RowId>, byEventId: Index, row: OutboxItem, q': Queue)
    requires Ordered(rows, order) && KeyedById(rows) && Inverse(rows, byEventId)
    requires row.id in rows && row.clientEventId == rows[row.id].clientEventId
    requires |q'| == |order|
    requires forall i :: 0 <= i < |order| ==> q'[i] == if order[i] == row.id then row else rows[order[i]]
    ensures var rows' := rows[row.id := row];
      Ordered(rows', order) && KeyedById(rows') && Inverse(rows', byEventId) && ValuesOf(rows', order) == q'
  {
  }

  lemma {:induction false} RescheduleInMaps(
    rows: Rows, order: seq<RowId>, byEventId: Index, id: RowId, next: Instant, error: string)
    requires Ordered(rows, order) && KeyedById(rows) && Inverse(rows, byEventId)
    ensures var q' := OutboxQueue.Reschedule(ValuesOf(rows, order), id, next, error);
      if id !in rows then q' == ValuesOf(rows, order)
      else
        var rows' := rows[id := Rescheduled(rows[id], next, error)];
        Ordered(rows', order) && KeyedById(rows') && Inverse(rows', byEventId) && ValuesOf(rows', order) == q'
  {
    ValueIds(rows, order);
    if id in rows {
      Replace(rows, order, byEventId, Rescheduled(rows[id], next, error),
              OutboxQueue.Reschedule(ValuesOf(rows, order), id, next, error));
    }
  }

  lemma {:induction false} BlockInMaps(rows: Rows, order: seq<RowId>, byEventId: Index, id: RowId, error: string)
    requires Ordered(rows, order) && KeyedById(rows) && Inverse(rows, byEventId)
    ensures var q' := OutboxQueue.Block(ValuesOf(rows, order), id, error);
      if id !in rows then q' == ValuesOf(rows, order)
      else
        var rows' := rows[id := BlockedRow(rows[id], error)];
        Ordered(rows', order) && KeyedById(rows') && Inverse(rows', byEventId) && ValuesOf(rows', order) == q'
  {
    ValueIds(rows, order);
    if id in rows {
      Replace(rows, order, byEventId, BlockedRow(rows[id], error),
              OutboxQueue.Block(ValuesOf(rows, order), id, error));
    }
  }

  lemma RemoveNone(q: Queue, ids: seq<RowId>)
    ensures RemoveAll(q, ids[..0]) == q
  {
    FilterAll(NotAmong(ids[..0]), q);
  }

  lemma {:induction false} RemoveOneMore(q: Queue, ids: seq<RowId>, k: nat)
    requires k < |ids|
    ensures RemoveAll(RemoveAll(q, ids[..k]), [ids[k]]) == RemoveAll(q, ids[..k + 1])
  {
    RemoveInTwo(q, ids[..k], [ids[k]]);
    assert ids[..k] + [ids[k]] == ids[..k + 1];
  }

  lemma {:induction false} BlockedSoFar(q: Queue, i: nat)
    requires i < |q|
    ensures |Filter(IsBlocked, q[..i + 1])| == |Filter(IsBlocked, q[..i])| + if IsBlocked(q[i]) then 1 else 0
  {
    assert q[..i + 1] == q[..i] + [q[i]];
    FilterAppend(IsBlocked, q[..i], [q[i]]);
  }

  lemma {:induction false} ValuesWithout(rows: Rows, order: seq<RowId>, id: RowId)
    requires forall other :: other in order ==> other in rows && rows[other].id == other
    ensures ValuesOf(rows - {id}, Filter(OtherThan(id), order)) == RemoveAll(ValuesOf(rows, order), [id])
  {
    if order != [] {
      ValuesWithout(rows, order[1..], id);
      var rest := Filter(OtherThan(id), order[1..]);
      FilterCons(NotAmong([id]), rows[order[0]], ValuesOf(rows, order[1..]));
      if order[0] == id {
        assert Filter(OtherThan(id), order) == rest;
      } else {
        assert Filter(OtherThan(id), order) == [order[0]] + rest;
        assert ([order[0]] + rest)[1..] == rest;
      }
    }
  }

  /** Deleting a row together with its index entry is removing it from the list. */
  lemma {:induction false} Without(rows: Rows, order: seq<RowId>, byEventId: Index, id: RowId)
    requires Ordered(rows, order) && KeyedById(rows) && Inverse(rows, byEventId)
    ensures id !in rows ==> RemoveAll(ValuesOf(rows, order), [id]) == ValuesOf(rows, order)
    ensures id in rows ==>
      var rows', order' := rows - {id}, Filter(OtherThan(id), order);
      && Ordered(rows', order') && KeyedById(rows')
      && Inverse(rows', byEventId - {rows[id].clientEventId})
      && ValuesOf(rows', order') == RemoveAll(ValuesOf(rows, order), [id])
  {
    var q := ValuesOf(rows, order);
    if id in rows {
      ValuesWithout(rows, order, id);
      FilterKeepsDistinct((x: RowId) => x, OtherThan(id), order);
    } else {
      ValueIds(rows, order);
      FilterAll(NotAmong([id]), q);
    }
  }

  lemma OrderCountsRows(rows: Rows, order: seq<RowId>)
    requires Ordered(rows, order)
    ensures |order| == |rows|
  {
    DistinctLength(order);
    assert (set id | id in order) == rows.Keys;
  }

  lemma DistinctLength(order: seq<RowId>)
    requires forall i, j :: 0 <= i < j < |order| ==> order[i] != order[j]
    ensures |set id | id in order| == |order|
  {
    if order != [] {
      DistinctLength(order[1..]);
      assert (set id | id in order) == {order[0]} + (set id | id in order[1..]);
    }
  }
}
