/** The event store: its tables are updated in place, one transaction per method. */
module EventStore {
  import opened EventTables
  import opened EventReplay
  import opened EventSteps
  import opened Wrappers

  datatype StoreError = UnknownStreamError | StorageError

  class SQLStore {
    const options: Retention
    var streams: map<StreamKey, StreamRow>
    var log: map<EventKey, EventRow>

    /** The full history of every stream, kept for the specification only. */
    ghost var history: History

    ghost function View(): Tables
      reads this
    {
      Tables(streams, log)
    }

    ghost function ViewWorld(): World
      reads this
    {
      World(View(), history)
    }

    ghost predicate Valid()
      reads this
    {
      options.Valid() && Inv(View(), history)
    }

    constructor (options: Retention)
      requires options.Valid()
      ensures Valid() && this.options == options
      ensures ViewWorld() == Run([], options)
    {
      this.options := options;
      streams, log, history := map[], map[], map[];
    }

    /** Upserts the stream's row and prunes. `fault` is a transaction that the
        database rolled back. */
    method Open(key: StreamKey, now: int, fault: bool) returns (r: Result<(), StoreError>)
      requires Valid()
      modifies this
      ensures Valid()
      ensures r == if fault then Err(StorageError) else Ok(())
      ensures ViewWorld() == if fault then old(ViewWorld())
        else Step(old(ViewWorld()), EventReplay.Open(key, now), options)
      ensures fault || StepExactly(old(ViewWorld()), ViewWorld(), EventReplay.Open(key, now), options)
    {
      if fault {
        return Err(StorageError);
      }
      ghost var w := ViewWorld();
      OpenRow(key, now);
      PruneTables(now);
      Record(w, EventReplay.Open(key, now));
      return Ok(());
    }

    /** Allocates the next index, records the event, extends the stream and prunes. */
    method Append(key: StreamKey, data: Payload, now: int, fault: bool) returns (r: Result<(), StoreError>)
      requires Valid()
      modifies this
      ensures Valid()
      ensures r == if fault then Err(StorageError)
                   else if key !in old(history) then Err(UnknownStreamError)
                   else Ok(())
      ensures ViewWorld() == if fault then old(ViewWorld())
        else Step(old(ViewWorld()), EventReplay.Append(key, data, now), options)
      ensures fault || StepExactly(old(ViewWorld()), ViewWorld(), EventReplay.Append(key, data, now), options)
    {
      if fault {
        return Err(StorageError);
      }
      ghost var w := ViewWorld();
      AppendKeepsInv(w, key, data, now, options);
      if key in streams {
        InsertEvent(key, data, now);
        PruneTables(now);
        r := Ok(());
      } else {
        r := Err(UnknownStreamError);
      }
      Record(w, EventReplay.Append(key, data, now));
    }

    method Prune(now: int, fault: bool) returns (r: Result<(), StoreError>)
      requires Valid()
      modifies this
      ensures Valid()
      ensures r == if fault then Err(StorageError) else Ok(())
      ensures ViewWorld() == if fault then old(ViewWorld()) else Step(old(ViewWorld()), EventReplay.Prune(now), options)
      ensures fault || StepExactly(old(ViewWorld()), ViewWorld(), EventReplay.Prune(now), options)
    {
      if fault {
        return Err(StorageError);
      }
      ghost var w := ViewWorld();
      PruneTables(now);
      Record(w, EventReplay.Prune(now));
      return Ok(());
    }

    method SessionClosed(session: string, fault: bool) returns (r: Result<(), StoreError>)
      requires Valid()
      modifies this
      ensures Valid()
      ensures r == if fault then Err(StorageError) else Ok(())
      ensures ViewWorld() == if fault then old(ViewWorld())
        else Step(old(ViewWorld()), EventReplay.SessionClosed(session), options)
      ensures !fault ==> forall k ::
        && (k in streams <==> k in old(streams) && k.session != session)
        && (k in streams ==> streams[k] == old(streams)[k])
        && (k in history <==> k in old(history) && k.session != session)
        && (k in history ==> history[k] == old(history)[k])
      ensures !fault ==> forall e ::
        && (e in log <==> e in old(log) && e.stream.session != session)
        && (e in log ==> log[e] == old(log)[e])
    {
      if fault {
        return Err(StorageError);
      }
      ghost var w := ViewWorld();
      log := map e | e in log && e.stream.session != session :: log[e];
      streams := map k | k in streams && k.session != session :: streams[k];
      Record(w, EventReplay.SessionClosed(session));
      return Ok(());
    }

    /** Replays the events after `index`, or refuses. */
    method ReadAfter(key: StreamKey, index: int, fault: bool) returns (r: Result<Replay, StoreError>)
      requires Valid()
      ensures fault ==> r == Err(StorageError)
      ensures !fault ==> r.Ok? && ReplayCorrect(ViewWorld(), key, index, r.value)
    {
      if fault {
        return Err(StorageError);
      }
      ReadRefinesHistory(ViewWorld(), key, index);
      var replay := ReadRows(key, index);
      return Ok(replay);
    }

    /** The ghost history follows the transaction that has just run. */
    ghost method Record(w: World, op: Op)
      requires options.Valid() && Inv(w.tables, w.history)
      requires View() == Apply(w.tables, op, options)
      modifies this`history
      ensures Valid() && ViewWorld() == Step(w, op, options)
      ensures StepExactly(w, ViewWorld(), op, options)
    {
      StepKeepsInv(w, op, options);
      StepIsExact(w, op, options);
      history := Step(w, op, options).history;
    }

    method OpenRow(key: StreamKey, now: int)
      modifies this`streams
      ensures View() == Upsert(old(View()), key, now, options)
    {
      var expiresAt := now + options.eventTTL;
      if key in streams {
        streams := streams[key := streams[key].(expiresAt := expiresAt, updatedAt := now)];
      } else {
        streams := streams[key := StreamRow(0, 0, expiresAt, now)];
      }
    }

    method InsertEvent(key: StreamKey, data: Payload, now: int)
      requires key in streams
      modifies this`streams, this`log
      ensures View() == Insert(old(View()), key, data, now, options)
    {
      var index := streams[key].next;
      log := log[EventKey(key, index) := EncodeRow(data, now)];
      streams := streams[key :=
        streams[key].(next := index + 1, expiresAt := now + options.eventTTL, updatedAt := now)];
    }

    method ReadRows(key: StreamKey, index: int) returns (replay: Replay)
      ensures replay == EventTables.ReadAfter(View(), key, index)
    {
      if key !in streams {
        return Purged;
      }
      var firstRetained, next := streams[key].firstRetained, streams[key].next;
      var start := index + 1;
      if firstRetained > start {
        return Purged;
      }
      if start >= next {
        return Events([]);
      }
      var rows := SelectAfter(key, index);
      InOrderMembers(RowsAfter(View(), key, index));
      forall j | 0 <= j < |rows| ensures rows[j] in log {
        assert rows[j] in InOrder(RowsAfter(View(), key, index));
      }
      var values := [];
      var i := 0;
      while i < |rows|
        invariant 0 <= i <= |rows| && |values| == i
        invariant forall j :: 0 <= j < i ==> values[j] == DecodeRow(log[rows[j]])
      {
        var row := log[rows[i]];
        if row.payloadIsNull {
          values := values + [NilPayload];
        } else {
          values := values + [Data(row.payload)];
        }
        i := i + 1;
      }
      assert values == Decode(log, rows);
      return Events(values);
    }

    /** The retention step that ends every writing transaction. */
    method PruneTables(now: int)
      modifies this`streams, this`log
      ensures View() == PruneTx(old(View()), now, options)
    {
      log := map e | e in log && !(e.stream in streams && streams[e.stream].expiresAt <= now) :: log[e];
      streams := map k | k in streams && streams[k].expiresAt > now :: streams[k];
      ghost var expired := View();
      assert expired == Expire(old(View()), now);

      var totalBytes, eventCount := SelectTotals();
      while totalBytes > options.maxEventBytes && eventCount > 1
        invariant totalBytes == Bytes(log) && eventCount == |log|
        invariant Evict(View(), options.maxEventBytes) == Evict(expired, options.maxEventBytes)
        decreases eventCount
      {
        var e := SelectOldest();
        OldestUnique(log, e, Oldest(log));
        var payloadSize := log[e].payloadSize;
        DeleteEvent(e);
        totalBytes := totalBytes - payloadSize;
        eventCount := eventCount - 1;
      }
    }

    /** Deletes one event and raises its stream's watermark above it. */
    method DeleteEvent(e: EventKey)
      requires e in log
      modifies this`streams, this`log
      ensures View() == DropEvent(old(View()), e)
      ensures Bytes(old(log)) == old(log)[e].payloadSize + Bytes(log) && |log| == |old(log)| - 1
    {
      BytesRemove(log, e);
      log := log - {e};
      var watermark := e.index + 1;
      if e.stream in streams {
        var row := streams[e.stream];
        streams := streams[e.stream :=
          row.(firstRetained := if row.firstRetained < watermark then watermark else row.firstRetained)];
      }
    }

    /** SELECT SUM(payload_size), COUNT(*). */
    method SelectTotals() returns (totalBytes: int, eventCount: int)
      ensures totalBytes == Bytes(log) && eventCount == |log|
    {
      var rest := log;
      totalBytes, eventCount := 0, 0;
      while rest != map[]
        invariant totalBytes + Bytes(rest) == Bytes(log) && eventCount + |rest| == |log|
        decreases |rest|
      {
        assert rest.Keys != {};
        var e :| e in rest.Keys;
        BytesRemove(rest, e);
        totalBytes := totalBytes + rest[e].payloadSize;
        eventCount := eventCount + 1;
        rest := rest - {e};
      }
    }

    /** SELECT ... ORDER BY created_at, session_id, stream_id, event_index LIMIT 1. */
    method SelectOldest() returns (e: EventKey)
      requires |log| > 0
      ensures IsOldest(log, e)
    {
      assert log.Keys != {};
      e :| e in log.Keys;
      var rest := log.Keys - {e};
      while rest != {}
        invariant rest <= log.Keys && e in log
        invariant forall f :: f in log.Keys - rest && f != e ==> Precedes(log, e, f)
        decreases |rest|
      {
        var f :| f in rest;
        PrecedesTotal(log, e, f);
        if Precedes(log, f, e) {
          forall g | g in log.Keys - rest && g != e ensures Precedes(log, f, g) {
            PrecedesTransitive(log, f, e, g);
          }
          e := f;
        }
        rest := rest - {f};
      }
    }

    /** SELECT ... WHERE event_index > index ORDER BY event_index. */
    method SelectAfter(key: StreamKey, index: int) returns (rows: seq<EventKey>)
      ensures rows == InOrder(RowsAfter(View(), key, index))
    {
      var rest := set e | e in log && e.stream == key && e.index > index;
      assert rest == RowsAfter(View(), key, index);
      rows := [];
      while rest != {}
        invariant forall e :: e in rest ==> e.stream == key
        invariant rows + InOrder(rest) == InOrder(RowsAfter(View(), key, index))
        decreases |rest|
      {
        var e := FirstRow(rest);
        var first := FirstOf(rest);
        assert first.index == e.index && first == e;
        rows := rows + [e];
        rest := rest - {e};
      }
    }

    static method FirstRow(rows: set<EventKey>) returns (e: EventKey)
      requires rows != {}
      ensures IsFirst(rows, e)
    {
      e :| e in rows;
      var rest := rows - {e};
      while rest != {}
        invariant rest <= rows && e in rows
        invariant forall f :: f in rows - rest ==> e.index <= f.index
        decreases |rest|
      {
        var f :| f in rest;
        if f.index < e.index { e := f; }
        rest := rest - {f};
      }
    }
  }
}
