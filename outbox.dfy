/**
 * The durable event outbox: the event_bus_events table, its column rules, and
 * the semantics of the three table operations used by the reader and the
 * writer (the pending query, the processed stamp, the retry increment).
 *
 * The table is a map from Id to row. Ids are handed out by an auto-increment
 * counter `nextId`, starting at 1, so every stored Id lies in [1, nextId).
 * "ORDER BY Id" is therefore an ascending scan of that range.
 */
module Outbox {
  import opened Wrappers

  const FirstId := 1
  const EventTypeMaxLength := 255
  const CorrelationIdMaxLength := 36

  datatype EventBusEvent = EventBusEvent(
    id: int,
    eventType: string,
    payload: string,              // serialized JSON, opaque here
    createdAt: Time,
    processedAt: Option<Time>,
    retryCount: int,
    correlationId: Option<string>)

  type EventTable = map<int, EventBusEvent>

  /** The filter of the pending query: `ProcessedAt IS NULL`. */
  predicate IsPending(e: EventBusEvent) {
    e.processedAt.None?
  }

  /** Column rules: EventType at most 255 characters, CorrelationId at most 36. */
  predicate ColumnsOk(eventType: string, correlationId: Option<string>) {
    |eventType| <= EventTypeMaxLength &&
    (correlationId.Some? ==> |correlationId.value| <= CorrelationIdMaxLength)
  }

  /** Each row is stored under its own Id. */
  ghost predicate IdsConsistent(rows: EventTable) {
    forall k :: k in rows ==> rows[k].id == k
  }

  /** The table invariant: rows under their Ids, Ids below the counter, columns within limits. */
  ghost predicate TableValid(rows: EventTable, nextId: int) {
    FirstId <= nextId &&
    IdsConsistent(rows) &&
    forall k :: k in rows ==> FirstId <= k < nextId && ColumnsOk(rows[k].eventType, rows[k].correlationId)
  }

  /**
   * The unique index on (EventType, Id) never rejects a row the Id key
   * accepts: rows stored under their own Ids never share the pair.
   */
  lemma EventTypeIdUnique(rows: EventTable)
    requires IdsConsistent(rows)
    ensures forall a, b :: a in rows && b in rows && a != b ==>
      (rows[a].eventType, rows[a].id) != (rows[b].eventType, rows[b].id)
  {
    forall a, b | a in rows && b in rows && a != b
      ensures (rows[a].eventType, rows[a].id) != (rows[b].eventType, rows[b].id)
    {
      assert rows[a].id == a && rows[b].id == b;
    }
  }

  /** The pending rows whose Id lies in [FirstId, hi), in ascending Id order. */
  function PendingBelow(rows: EventTable, hi: int): seq<EventBusEvent>
    decreases hi
  {
    if hi <= FirstId then []
    else
      PendingBelow(rows, hi - 1) +
      (if hi - 1 in rows && IsPending(rows[hi - 1]) then [rows[hi - 1]] else [])
  }

  /** LINQ `Take(n)`: the first n elements, none when n is not positive. */
  function Take<T>(s: seq<T>, n: int): (r: seq<T>)
    ensures |r| == if n <= 0 then 0 else Min(n, |s|)
    ensures forall i :: 0 <= i < |r| ==> r[i] == s[i]
  {
    if n <= 0 then [] else if n < |s| then s[..n] else s
  }

  /** `Where(ProcessedAt == null).OrderBy(Id).Take(batchSize)` over the whole table. */
  function PendingBatch(rows: EventTable, nextId: int, batchSize: int): seq<EventBusEvent> {
    Take(PendingBelow(rows, nextId), batchSize)
  }

  /** The Ids of the pending rows with Id in [FirstId, hi). */
  ghost function PendingIds(rows: EventTable, hi: int): set<int> {
    set k | k in rows && FirstId <= k < hi && IsPending(rows[k])
  }

  /** The Ids of a sequence of events, in order. */
  function Ids(s: seq<EventBusEvent>): (r: seq<int>)
    ensures |r| == |s|
    ensures forall i :: 0 <= i < |s| ==> r[i] == s[i].id
  {
    seq(|s|, i requires 0 <= i < |s| => s[i].id)
  }

  /** The row update of MarkAsProcessed: stamp ProcessedAt on the row with that Id, if any. */
  function Processed(rows: EventTable, id: int, now: Time): (r: EventTable)
    ensures r.Keys == rows.Keys
    ensures forall k :: k in rows && k != id ==> r[k] == rows[k]
    ensures id in rows ==> !IsPending(r[id]) && r[id].processedAt == Some(now)
    ensures id in rows ==> r[id] == rows[id].(processedAt := Some(now))
  {
    if id in rows then rows[id := rows[id].(processedAt := Some(now))] else rows
  }

  /** The row update of IncrementRetry: RetryCount + 1 on the row with that Id, if any. */
  function Retried(rows: EventTable, id: int): (r: EventTable)
    ensures r.Keys == rows.Keys
    ensures forall k :: k in rows && k != id ==> r[k] == rows[k]
    ensures id in rows ==> r[id].retryCount == rows[id].retryCount + 1
    ensures id in rows ==> r[id] == rows[id].(retryCount := rows[id].retryCount + 1)
  {
    if id in rows then rows[id := rows[id].(retryCount := rows[id].retryCount + 1)] else rows
  }

  /** The row Enqueue inserts: not yet processed, no retries, stamped with `now`. */
  function NewEvent(id: int, eventType: string, payload: string, correlationId: Option<string>, now: Time): (e: EventBusEvent)
    ensures IsPending(e) && e.retryCount == 0 && e.createdAt == now
    ensures e.id == id && e.eventType == eventType && e.correlationId == correlationId && e.payload == payload
  {
    EventBusEvent(id, eventType, payload, now, None, 0, correlationId)
  }

  // ---------------------------------------------------------------------------
  // The pending scan

  /** Every scanned row is a pending row of the table, with an Id in range, and Ids ascend strictly. */
  lemma {:induction false} PendingBelowSound(rows: EventTable, hi: int)
    requires IdsConsistent(rows)
    ensures forall i :: 0 <= i < |PendingBelow(rows, hi)| ==>
      var e := PendingBelow(rows, hi)[i];
      FirstId <= e.id < hi && e.id in rows && rows[e.id] == e && IsPending(e)
    ensures forall i, j :: 0 <= i < j < |PendingBelow(rows, hi)| ==>
      PendingBelow(rows, hi)[i].id < PendingBelow(rows, hi)[j].id
    decreases hi
  {
    if hi > FirstId {
      PendingBelowSound(rows, hi - 1);
    }
  }

  /** The scan has one entry per pending row in range. */
  lemma {:induction false} PendingBelowCount(rows: EventTable, hi: int)
    ensures |PendingBelow(rows, hi)| == |PendingIds(rows, hi)|
    decreases hi
  {
    if hi > FirstId {
      PendingBelowCount(rows, hi - 1);
      var k := hi - 1;
      if k in rows && IsPending(rows[k]) {
        assert PendingIds(rows, hi) == PendingIds(rows, k) + {k};
        assert k !in PendingIds(rows, k);
      } else {
        assert PendingIds(rows, hi) == PendingIds(rows, k);
      }
    } else {
      assert PendingIds(rows, hi) == {};
    }
  }

  /** The scan misses no pending row in range. */
  lemma {:induction false} PendingBelowComplete(rows: EventTable, hi: int, k: int)
    requires IdsConsistent(rows)
    requires k in PendingIds(rows, hi)
    ensures exists i :: 0 <= i < |PendingBelow(rows, hi)| && PendingBelow(rows, hi)[i].id == k
    decreases hi
  {
    var a := PendingBelow(rows, hi - 1);
    if k < hi - 1 {
      assert k in PendingIds(rows, hi - 1);
      PendingBelowComplete(rows, hi - 1, k);
      var i :| 0 <= i < |a| && a[i].id == k;
      assert PendingBelow(rows, hi)[i] == a[i];
    } else {
      assert PendingBelow(rows, hi)[|a|] == rows[k];
    }
  }

  /**
   * The batch is exactly the first `batchSize` pending rows in Id order: its
   * rows are pending rows of the table in strictly ascending Id order, its
   * length is min(batchSize, number of pending rows), and a pending row left out
   * has a larger Id than every row returned (so nothing earlier is skipped).
   */
  lemma PendingBatchSpec(rows: EventTable, nextId: int, batchSize: int)
    requires IdsConsistent(rows)
    ensures var r := PendingBatch(rows, nextId, batchSize);
      && (forall i :: 0 <= i < |r| ==> r[i].id in rows && rows[r[i].id] == r[i] && IsPending(r[i]))
      && (forall i, j :: 0 <= i < j < |r| ==> r[i].id < r[j].id)
      && |r| == (if batchSize <= 0 then 0 else Min(batchSize, |PendingIds(rows, nextId)|))
      && (forall k :: k in PendingIds(rows, nextId) && (forall i :: 0 <= i < |r| ==> r[i].id != k) ==>
            (batchSize <= 0 || |r| == batchSize) && forall i :: 0 <= i < |r| ==> r[i].id < k)
  {
    var all := PendingBelow(rows, nextId);
    var r := Take(all, batchSize);
    PendingBelowSound(rows, nextId);
    PendingBelowCount(rows, nextId);
    forall k | k in PendingIds(rows, nextId) && (forall i :: 0 <= i < |r| ==> r[i].id != k)
      ensures (batchSize <= 0 || |r| == batchSize) && forall i :: 0 <= i < |r| ==> r[i].id < k
    {
      PendingBelowComplete(rows, nextId, k);
      var j :| 0 <= j < |all| && all[j].id == k;
      assert j >= |r| && |r| < |all|;
      forall i | 0 <= i < |r| ensures r[i].id < k {
        assert r[i] == all[i];
      }
    }
  }

  /** A table that agrees with another below `hi` has the same pending scan below `hi`. */
  lemma {:induction false} PendingBelowFrame(rows: EventTable, rows': EventTable, hi: int)
    requires forall k :: k < hi ==> (k in rows <==> k in rows')
    requires forall k :: k < hi && k in rows ==> rows[k] == rows'[k]
    ensures PendingBelow(rows, hi) == PendingBelow(rows', hi)
    decreases hi
  {
    if hi > FirstId {
      PendingBelowFrame(rows, rows', hi - 1);
    }
  }

  // ---------------------------------------------------------------------------
  // Enqueue, MarkAsProcessed and IncrementRetry seen through the pending scan

  /**
   * Storing a row under the counter and advancing the counter keeps the table
   * invariant exactly when the row carries that Id and its columns fit.
   */
  lemma EnqueueKeepsTable(rows: EventTable, nextId: int, e: EventBusEvent)
    requires TableValid(rows, nextId)
    ensures nextId !in rows
    ensures TableValid(rows[nextId := e], nextId + 1) <==> e.id == nextId && ColumnsOk(e.eventType, e.correlationId)
  {
    var rows' := rows[nextId := e];
    if e.id == nextId && ColumnsOk(e.eventType, e.correlationId) {
      forall k | k in rows' ensures rows'[k].id == k && FirstId <= k < nextId + 1 &&
        ColumnsOk(rows'[k].eventType, rows'[k].correlationId)
      {
        if k != nextId {
          assert k in rows;
        }
      }
    } else {
      assert rows'[nextId] == e;
    }
  }

  /** Appending a pending row at the counter extends the pending scan by exactly that row. */
  lemma EnqueueAppendsPending(rows: EventTable, nextId: int, e: EventBusEvent)
    requires TableValid(rows, nextId)
    requires IsPending(e)
    ensures PendingBelow(rows[nextId := e], nextId + 1) == PendingBelow(rows, nextId) + [e]
  {
    PendingBelowFrame(rows, rows[nextId := e], nextId);
  }

  /**
   * A freshly enqueued event is fetched by the next batch exactly when fewer
   * than `batchSize` older events are still pending; it is then the last row.
   */
  lemma EnqueuedEventFetched(rows: EventTable, nextId: int, e: EventBusEvent, batchSize: int)
    requires TableValid(rows, nextId)
    requires IsPending(e) && e.id == nextId
    ensures var r := PendingBatch(rows[nextId := e], nextId + 1, batchSize);
      (e in r <==> |PendingBelow(rows, nextId)| < batchSize) &&
      (e in r ==> r[|r| - 1] == e)
  {
    var old' := PendingBelow(rows, nextId);
    EnqueueAppendsPending(rows, nextId, e);
    var all := old' + [e];
    var r := Take(all, batchSize);
    assert r == PendingBatch(rows[nextId := e], nextId + 1, batchSize);
    PendingBelowSound(rows, nextId);
    if |old'| < batchSize {
      assert r == all;
    }
  }

  /** A processed event is never returned by a later pending batch. */
  lemma ProcessedNotPending(rows: EventTable, id: int, now: Time, nextId: int, batchSize: int)
    requires IdsConsistent(rows)
    requires id in rows
    ensures forall e :: e in PendingBatch(Processed(rows, id, now), nextId, batchSize) ==> e.id != id
  {
    var rows' := Processed(rows, id, now);
    assert IdsConsistent(rows');
    PendingBelowSound(rows', nextId);
  }

  /**
   * Marking twice is not timestamp-preserving: the second stamp replaces the
   * first, and the event stays processed.
   */
  lemma ProcessedTwiceRestamps(rows: EventTable, id: int, first: Time, second: Time)
    requires id in rows
    ensures Processed(Processed(rows, id, first), id, second) == Processed(rows, id, second)
    ensures Processed(Processed(rows, id, first), id, second)[id].processedAt == Some(second)
  {
  }

  /** IncrementRetry changes no row's pending status, so the scan returns the same Ids in the same order. */
  lemma {:induction false} RetryKeepsPendingOrder(rows: EventTable, id: int, hi: int)
    ensures Ids(PendingBelow(Retried(rows, id), hi)) == Ids(PendingBelow(rows, hi))
    decreases hi
  {
    if hi > FirstId {
      RetryKeepsPendingOrder(rows, id, hi - 1);
      var a := PendingBelow(Retried(rows, id), hi - 1);
      var b := PendingBelow(rows, hi - 1);
      var k := hi - 1;
      var ta := if k in Retried(rows, id) && IsPending(Retried(rows, id)[k]) then [Retried(rows, id)[k]] else [];
      var tb := if k in rows && IsPending(rows[k]) then [rows[k]] else [];
      assert Ids(a + ta) == Ids(a) + Ids(ta);
      assert Ids(b + tb) == Ids(b) + Ids(tb);
      assert Ids(ta) == Ids(tb);
    }
  }

  /** A retry and a processed stamp on any two events commute. */
  lemma RetryProcessedCommute(rows: EventTable, retried: int, processed: int, now: Time)
    ensures Processed(Retried(rows, retried), processed, now) == Retried(Processed(rows, processed, now), retried)
  {
  }
}
