/**
 * The outbox writer and reader services. Both wrap the same AppDbContext;
 * the writer inserts one event per call, and the reader runs the pending query
 * and the two single-row updates used after an event was consumed or failed.
 *
 * The clock (DateTime.UtcNow) is the parameter `now`, and the payload is the
 * already serialized JSON text.
 */
module EventBus {
  import opened Wrappers
  import opened Outbox
  import opened Schema
  import opened Data

  /** The default batch size of the pending query. */
  const DefaultBatchSize := 50

  class EventBusWriter {
    const db: AppDbContext

    constructor (db: AppDbContext)
      ensures this.db == db
    {
      this.db := db;
    }

    /**
     * Add one event row and save it: not yet processed, no retries, created at
     * `now`, under the next Id. A missing (null) EventType or an over-long
     * EventType or CorrelationId makes the save fail and the table stays as
     * it was.
     */
    method Enqueue(eventType: Option<string>, payload: string, correlationId: Option<string>, now: Time)
      returns (r: Outcome<DbError>)
      requires db.Valid()
      modifies db`eventBusEvents, db`nextEventId
      ensures db.Valid()
      ensures r.Pass? <==> eventType.Some? && ColumnsOk(eventType.value, correlationId)
      ensures r == Fail(RequiredValueMissing) <==> eventType.None?
      ensures r == Fail(MaxLengthExceeded) <==> eventType.Some? && !ColumnsOk(eventType.value, correlationId)
      ensures r.Fail? ==> db.eventBusEvents == old(db.eventBusEvents) && db.nextEventId == old(db.nextEventId)
      ensures r.Pass? ==>
        (old(db.nextEventId) !in old(db.eventBusEvents) &&
         (forall k :: k in old(db.eventBusEvents) ==> k < old(db.nextEventId)) &&
         db.eventBusEvents == old(db.eventBusEvents)[old(db.nextEventId) :=
           NewEvent(old(db.nextEventId), eventType.value, payload, correlationId, now)] &&
         db.nextEventId == old(db.nextEventId) + 1)
      ensures r.Pass? ==>
        PendingBelow(db.eventBusEvents, db.nextEventId) ==
          PendingBelow(old(db.eventBusEvents), old(db.nextEventId)) +
          [NewEvent(old(db.nextEventId), eventType.value, payload, correlationId, now)]
    {
      if eventType.None? {
        return Fail(RequiredValueMissing);
      }
      if !ColumnsOk(eventType.value, correlationId) {
        return Fail(MaxLengthExceeded);
      }
      var id := db.nextEventId;
      var e := NewEvent(id, eventType.value, payload, correlationId, now);
      EnqueueKeepsStore(db.tables, db.nextUserId, db.nextDeviceId, db.nextChatId, db.eventBusEvents, id, e);
      EnqueueAppendsPending(db.eventBusEvents, id, e);
      db.eventBusEvents := db.eventBusEvents[id := e];
      db.nextEventId := id + 1;
      r := Pass;
    }
  }

  class EventBusReader {
    const db: AppDbContext

    constructor (db: AppDbContext)
      ensures this.db == db
    {
      this.db := db;
    }

    /**
     * The first `batchSize` unprocessed events in Id order: each is a
     * pending row of the table, Ids strictly ascend, as many as there are
     * pending rows up to `batchSize`, and no pending row with a smaller Id than
     * a returned one is left out.
     */
    method GetPending(batchSize: int) returns (r: seq<EventBusEvent>)
      requires db.Valid()
      ensures r == PendingBatch(db.eventBusEvents, db.nextEventId, batchSize)
      ensures forall i :: 0 <= i < |r| ==>
        r[i].id in db.eventBusEvents && db.eventBusEvents[r[i].id] == r[i] && IsPending(r[i])
      ensures forall i, j :: 0 <= i < j < |r| ==> r[i].id < r[j].id
      ensures |r| == if batchSize <= 0 then 0 else Min(batchSize, |PendingIds(db.eventBusEvents, db.nextEventId)|)
      ensures forall k :: k in PendingIds(db.eventBusEvents, db.nextEventId) && (forall i :: 0 <= i < |r| ==> r[i].id != k) ==>
        (batchSize <= 0 || |r| == batchSize) && forall i :: 0 <= i < |r| ==> r[i].id < k
    {
      PendingBatchSpec(db.eventBusEvents, db.nextEventId, batchSize);
      r := PendingBatch(db.eventBusEvents, db.nextEventId, batchSize);
    }

    /**
     * Stamp ProcessedAt with `now` on the event with that Id. The update
     * touches no row when the Id is unknown, and re-stamps an event that was
     * already processed.
     */
    method MarkAsProcessed(eventId: int, now: Time)
      requires db.Valid()
      modifies db`eventBusEvents
      ensures db.Valid()
      ensures db.eventBusEvents == Processed(old(db.eventBusEvents), eventId, now)
      ensures eventId !in old(db.eventBusEvents) ==> db.eventBusEvents == old(db.eventBusEvents)
      ensures forall e :: e in PendingBatch(db.eventBusEvents, db.nextEventId, DefaultBatchSize) ==> e.id != eventId
    {
      var rows := db.eventBusEvents;
      if eventId in rows {
        ProcessedNotPending(rows, eventId, now, db.nextEventId, DefaultBatchSize);
      } else {
        PendingBatchSpec(rows, db.nextEventId, DefaultBatchSize);
      }
      db.eventBusEvents := Processed(rows, eventId, now);
    }

    /**
     * Add one to RetryCount of the event with that Id; no row changes when
     * the Id is unknown. The event stays where it was in the pending order.
     */
    method IncrementRetry(eventId: int)
      requires db.Valid()
      modifies db`eventBusEvents
      ensures db.Valid()
      ensures db.eventBusEvents == Retried(old(db.eventBusEvents), eventId)
      ensures eventId !in old(db.eventBusEvents) ==> db.eventBusEvents == old(db.eventBusEvents)
      ensures Ids(PendingBelow(db.eventBusEvents, db.nextEventId)) ==
              Ids(PendingBelow(old(db.eventBusEvents), db.nextEventId))
    {
      var rows := db.eventBusEvents;
      RetryKeepsPendingOrder(rows, eventId, db.nextEventId);
      db.eventBusEvents := Retried(rows, eventId);
    }
  }
}
