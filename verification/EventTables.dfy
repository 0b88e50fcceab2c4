/** The two tables of the event replay store and the transactions on them.

    Every transaction is one atomic, serializable step on `Tables`. The clock is
    an argument of each transaction and may take any value, so it may also run
    backwards. */
module EventTables {
  import opened Ordering
  import opened Wrappers

  /** Event data as a caller sees it: a nil slice and an empty slice differ. */
  datatype Payload = NilPayload | Data(bytes: seq<byte>)

  datatype StreamKey = StreamKey(session: string, stream: string)

  datatype EventKey = EventKey(stream: StreamKey, index: int)

  datatype StreamRow = StreamRow(firstRetained: int, next: int, expiresAt: int, updatedAt: int)

  datatype EventRow = EventRow(payload: seq<byte>, payloadIsNull: bool, payloadSize: nat, createdAt: int)

  datatype Tables = Tables(streams: map<StreamKey, StreamRow>, log: map<EventKey, EventRow>)

  datatype Retention = Retention(eventTTL: int, maxEventBytes: int) {
    predicate Valid() { eventTTL > 0 && maxEventBytes > 0 }
  }

  const EMPTY := Tables(map[], map[])

  function EncodeRow(data: Payload, now: int): EventRow {
    match data
    case NilPayload => EventRow([], true, 0, now)
    case Data(bytes) => EventRow(bytes, false, |bytes|, now)
  }

  function DecodeRow(row: EventRow): Payload {
    if row.payloadIsNull then NilPayload else Data(row.payload)
  }

  // ---- The log's retention order and size ----

  /** ORDER BY created_at, session_id, stream_id, event_index. */
  predicate Precedes(log: map<EventKey, EventRow>, a: EventKey, b: EventKey)
    requires a in log && b in log
  {
    if log[a].createdAt != log[b].createdAt then log[a].createdAt < log[b].createdAt
    else if a.stream.session != b.stream.session then Less(a.stream.session, b.stream.session)
    else if a.stream.stream != b.stream.stream then Less(a.stream.stream, b.stream.stream)
    else a.index < b.index
  }

  lemma PrecedesTotal(log: map<EventKey, EventRow>, a: EventKey, b: EventKey)
    requires a in log && b in log
    ensures a == b || Precedes(log, a, b) || Precedes(log, b, a)
    ensures !(Precedes(log, a, b) && Precedes(log, b, a))
    ensures !Precedes(log, a, a)
  {
    LessTrichotomy(a.stream.session, b.stream.session);
    LessTrichotomy(a.stream.stream, b.stream.stream);
  }

  lemma PrecedesTransitive(log: map<EventKey, EventRow>, a: EventKey, b: EventKey, c: EventKey)
    requires a in log && b in log && c in log
    requires Precedes(log, a, b) && Precedes(log, b, c)
    ensures Precedes(log, a, c)
  {
    if Less(a.stream.session, b.stream.session) && Less(b.stream.session, c.stream.session) {
      LessTransitive(a.stream.session, b.stream.session, c.stream.session);
    }
    if Less(a.stream.stream, b.stream.stream) && Less(b.stream.stream, c.stream.stream) {
      LessTransitive(a.stream.stream, b.stream.stream, c.stream.stream);
    }
    LessTrichotomy(a.stream.session, b.stream.session);
    LessTrichotomy(a.stream.stream, b.stream.stream);
  }

  ghost predicate IsOldest(log: map<EventKey, EventRow>, e: EventKey) {
    e in log && forall f :: f in log && f != e ==> Precedes(log, e, f)
  }

  lemma {:induction false} OldestExists(log: map<EventKey, EventRow>, among: set<EventKey>) returns (e: EventKey)
    requires among != {} && among <= log.Keys
    ensures e in among && forall f :: f in among && f != e ==> Precedes(log, e, f)
    decreases |among|
  {
    var x :| x in among;
    if among == {x} {
      e := x;
    } else {
      var rest := among - {x};
      assert rest != {};
      var y := OldestExists(log, rest);
      PrecedesTotal(log, x, y);
      e := if Precedes(log, x, y) then x else y;
      forall f | f in among && f != e ensures Precedes(log, e, f) {
        if e == x && f != y { PrecedesTransitive(log, x, y, f); }
      }
    }
  }

  lemma OldestUnique(log: map<EventKey, EventRow>, a: EventKey, b: EventKey)
    requires IsOldest(log, a) && IsOldest(log, b)
    ensures a == b
  {
    PrecedesTotal(log, a, b);
  }

  lemma SomeOldest(log: map<EventKey, EventRow>)
    requires |log| > 0
    ensures exists e :: IsOldest(log, e)
  {
    assert log.Keys != {};
    var e := OldestExists(log, log.Keys);
    assert IsOldest(log, e);
  }

  ghost function Oldest(log: map<EventKey, EventRow>): (e: EventKey)
    requires |log| > 0
    ensures IsOldest(log, e)
  {
    SomeOldest(log);
    var e :| IsOldest(log, e);
    e
  }

  /** SUM(payload_size), added up in some order. */
  ghost function Bytes(log: map<EventKey, EventRow>): nat
    decreases |log|
  {
    if |log| == 0 then 0
    else log[AnyKey(log)].payloadSize + Bytes(log - {AnyKey(log)})
  }

  ghost function AnyKey(log: map<EventKey, EventRow>): (e: EventKey)
    requires |log| > 0
    ensures e in log && |log - {e}| == |log| - 1
  {
    assert log.Keys != {};
    var e :| e in log.Keys;
    assert (log - {e}).Keys == log.Keys - {e};
    e
  }

  lemma RemoveCommutes(log: map<EventKey, EventRow>, a: EventKey, b: EventKey)
    ensures (log - {a}) - {b} == (log - {b}) - {a}
  {
  }

  /** The order of summation does not matter. */
  lemma {:induction false} BytesRemove(log: map<EventKey, EventRow>, e: EventKey)
    requires e in log
    ensures Bytes(log) == log[e].payloadSize + Bytes(log - {e})
    ensures |log - {e}| == |log| - 1
    decreases |log|
  {
    assert (log - {e}).Keys == log.Keys - {e};
    assert |log| > 0;
    var k := AnyKey(log);
    if k != e {
      BytesRemove(log - {k}, e);
      BytesRemove(log - {e}, k);
      RemoveCommutes(log, k, e);
    }
  }

  // ---- Transactions ----

  /** Deletes every stream whose lifetime has ended, and its events. */
  function Expire(t: Tables, now: int): Tables {
    Tables(
      map k | k in t.streams && t.streams[k].expiresAt > now :: t.streams[k],
      map e | e in t.log && !(e.stream in t.streams && t.streams[e.stream].expiresAt <= now) :: t.log[e])
  }

  function RaiseWatermark(streams: map<StreamKey, StreamRow>, e: EventKey): map<StreamKey, StreamRow> {
    if e.stream in streams && streams[e.stream].firstRetained < e.index + 1
    then streams[e.stream := streams[e.stream].(firstRetained := e.index + 1)]
    else streams
  }

  function DropEvent(t: Tables, e: EventKey): Tables {
    Tables(RaiseWatermark(t.streams, e), t.log - {e})
  }

  /** Drops oldest events until the payload bound holds or one event is left. */
  ghost function Evict(t: Tables, maxEventBytes: int): Tables
    decreases |t.log|
  {
    if Bytes(t.log) > maxEventBytes && |t.log| > 1 then
      var e := Oldest(t.log);
      BytesRemove(t.log, e);
      Evict(DropEvent(t, e), maxEventBytes)
    else t
  }

  ghost function PruneTx(t: Tables, now: int, o: Retention): Tables {
    Evict(Expire(t, now), o.maxEventBytes)
  }

  function Upsert(t: Tables, k: StreamKey, now: int, o: Retention): Tables {
    t.(streams := t.streams[k :=
      if k in t.streams
      then t.streams[k].(expiresAt := now + o.eventTTL, updatedAt := now)
      else StreamRow(0, 0, now + o.eventTTL, now)])
  }

  ghost function OpenTx(t: Tables, k: StreamKey, now: int, o: Retention): Tables {
    PruneTx(Upsert(t, k, now, o), now, o)
  }

  datatype AppendOutcome = Appended(tables: Tables) | UnknownStream | DuplicateEvent

  function Insert(t: Tables, k: StreamKey, data: Payload, now: int, o: Retention): Tables
    requires k in t.streams
  {
    var index := t.streams[k].next;
    Tables(
      t.streams[k := t.streams[k].(next := index + 1, expiresAt := now + o.eventTTL, updatedAt := now)],
      t.log[EventKey(k, index) := EncodeRow(data, now)])
  }

  ghost function AppendTx(t: Tables, k: StreamKey, data: Payload, now: int, o: Retention): AppendOutcome {
    if k !in t.streams then UnknownStream
    else if EventKey(k, t.streams[k].next) in t.log then DuplicateEvent
    else Appended(PruneTx(Insert(t, k, data, now, o), now, o))
  }

  function SessionClosedTx(t: Tables, session: string): Tables {
    Tables(
      map k | k in t.streams && k.session != session :: t.streams[k],
      map e | e in t.log && e.stream.session != session :: t.log[e])
  }

  // ---- Replay ----

  datatype Replay = Purged | Events(values: seq<Payload>)

  /** WHERE session_id = ? AND stream_id = ? AND event_index > ?. */
  ghost function RowsAfter(t: Tables, k: StreamKey, index: int): set<EventKey> {
    set e | e in t.log && e.stream == k && e.index > index
  }

  ghost predicate IsFirst(rows: set<EventKey>, e: EventKey) {
    e in rows && forall f :: f in rows ==> e.index <= f.index
  }

  lemma {:induction false} FirstExists(rows: set<EventKey>) returns (e: EventKey)
    requires rows != {}
    ensures IsFirst(rows, e)
    decreases |rows|
  {
    e :| e in rows;
    var rest := rows - {e};
    if rest != {} {
      var first := FirstExists(rest);
      e := if e.index < first.index then e else first;
    }
    assert forall f :: f in rows ==> f in rest || f in rows - rest;
  }

  lemma SomeFirst(rows: set<EventKey>)
    requires rows != {}
    ensures exists e :: IsFirst(rows, e)
  {
    var e := FirstExists(rows);
  }

  ghost function FirstOf(rows: set<EventKey>): (e: EventKey)
    requires rows != {}
    ensures IsFirst(rows, e)
  {
    SomeFirst(rows);
    var e :| IsFirst(rows, e);
    e
  }

  /** The selected rows, ORDER BY event_index. */
  ghost function InOrder(rows: set<EventKey>): seq<EventKey>
    decreases |rows|
  {
    if rows == {} then [] else [FirstOf(rows)] + InOrder(rows - {FirstOf(rows)})
  }

  lemma {:induction false} InOrderMembers(rows: set<EventKey>)
    ensures forall e :: e in InOrder(rows) <==> e in rows
    ensures |InOrder(rows)| == |rows|
    decreases |rows|
  {
    if rows != {} {
      InOrderMembers(rows - {FirstOf(rows)});
    }
  }

  function Decode(log: map<EventKey, EventRow>, rows: seq<EventKey>): (values: seq<Payload>)
    requires forall e :: e in rows ==> e in log
    ensures |values| == |rows|
    ensures forall i :: 0 <= i < |rows| ==> values[i] == DecodeRow(log[rows[i]])
  {
    seq(|rows|, i requires 0 <= i < |rows| => DecodeRow(log[rows[i]]))
  }

  ghost function ReadAfter(t: Tables, k: StreamKey, index: int): Replay {
    if k !in t.streams then Purged
    else if t.streams[k].firstRetained > index + 1 then Purged
    else if index + 1 >= t.streams[k].next then Events([])
    else
      InOrderMembers(RowsAfter(t, k, index));
      Events(Decode(t.log, InOrder(RowsAfter(t, k, index))))
  }
}
