/** Replay refines the full history of every stream, over all runs of the event
    store and under an arbitrary clock. */
module EventReplay {
  import opened EventTables

  datatype Op =
    | Open(key: StreamKey, now: int)
    | Append(key: StreamKey, data: Payload, now: int)
    | Prune(now: int)
    | SessionClosed(session: string)

  type History = map<StreamKey, seq<Payload>>

  /** The tables, and everything appended to each stream since its row was
      created, which no transaction reads. */
  datatype World = World(tables: Tables, history: History)

  ghost function Apply(t: Tables, op: Op, o: Retention): Tables {
    match op
    case Open(k, now) => OpenTx(t, k, now, o)
    case Append(k, data, now) =>
      (match AppendTx(t, k, data, now, o)
       case Appended(t') => t'
       case _ => t)
    case Prune(now) => PruneTx(t, now, o)
    case SessionClosed(session) => SessionClosedTx(t, session)
  }

  /** A history lives as long as its row. It starts empty with the row, and only a
      successful append extends it. */
  function Track(history: History, op: Op, after: Tables, grew: bool): History
    requires grew ==> op.Append?
  {
    map k | k in after.streams :: Extend(history, op, k, grew && op.key == k)
  }

  function Extend(history: History, op: Op, k: StreamKey, grew: bool): seq<Payload>
    requires grew ==> op.Append?
  {
    var past := if k in history then history[k] else [];
    if grew then past + [op.data] else past
  }

  ghost predicate Grows(t: Tables, op: Op, o: Retention) {
    op.Append? && AppendTx(t, op.key, op.data, op.now, o).Appended?
  }

  ghost function Step(w: World, op: Op, o: Retention): World {
    var after := Apply(w.tables, op, o);
    World(after, Track(w.history, op, after, Grows(w.tables, op, o)))
  }

  ghost function Run(ops: seq<Op>, o: Retention): World {
    if |ops| == 0 then World(EMPTY, map[]) else Step(Run(ops[..|ops| - 1], o), ops[|ops| - 1], o)
  }

  // ---- The invariant ----

  ghost predicate StreamsTracked(t: Tables, h: History) {
    && t.streams.Keys == h.Keys
    && forall k :: k in t.streams ==> 0 <= t.streams[k].firstRetained <= t.streams[k].next == |h[k]|
  }

  /** Every index from the watermark on is in the log. */
  ghost predicate SuffixRetained(t: Tables) {
    forall k, j :: k in t.streams && t.streams[k].firstRetained <= j < t.streams[k].next ==> EventKey(k, j) in t.log
  }

  /** The log holds nothing but history, byte for byte. */
  ghost predicate LogFaithful(t: Tables, h: History) {
    forall e :: e in t.log ==>
      && e.stream in h
      && 0 <= e.index < |h[e.stream]|
      && t.log[e] == EncodeRow(h[e.stream][e.index], t.log[e].createdAt)
  }

  /** A raised watermark stands just above an event that is gone. */
  ghost predicate WatermarkTight(t: Tables) {
    forall k :: k in t.streams && t.streams[k].firstRetained > 0
      ==> EventKey(k, t.streams[k].firstRetained - 1) !in t.log
  }

  ghost predicate Inv(t: Tables, h: History) {
    && StreamsTracked(t, h)
    && SuffixRetained(t)
    && LogFaithful(t, h)
    && WatermarkTight(t)
  }

  lemma RowRoundTrip(data: Payload, now: int)
    ensures DecodeRow(EncodeRow(data, now)) == data
  {
  }

  function Restrict(h: History, t: Tables): History {
    map k | k in h && k in t.streams :: h[k]
  }

  lemma ExpireKeepsInv(t: Tables, h: History, now: int)
    requires Inv(t, h)
    ensures Inv(Expire(t, now), Restrict(h, Expire(t, now)))
  {
    var t' := Expire(t, now);
    forall e | e in t'.log ensures e.stream in t'.streams {
      assert e in t.log;
    }
  }

  lemma DropKeepsInv(t: Tables, h: History, e: EventKey)
    requires Inv(t, h) && e in t.log
    ensures Inv(DropEvent(t, e), h)
    ensures DropEvent(t, e).streams.Keys == t.streams.Keys
  {
    DropKeepsLog(t, h, e);
    hide LogFaithful, EncodeRow;
    var t' := DropEvent(t, e);
    assert StreamsTracked(t', h);
    assert WatermarkTight(t');
    forall k, j | k in t'.streams && t'.streams[k].firstRetained <= j < t'.streams[k].next
      ensures EventKey(k, j) in t'.log
    {
      assert t.streams[k].firstRetained <= j;
      assert EventKey(k, j) in t.log;
    }
  }

  lemma DropKeepsLog(t: Tables, h: History, e: EventKey)
    requires LogFaithful(t, h) && e in t.log
    ensures LogFaithful(DropEvent(t, e), h)
    ensures e.stream in h && 0 <= e.index < |h[e.stream]|
  {
    hide EncodeRow;
    assert forall f :: f in DropEvent(t, e).log ==> f in t.log && DropEvent(t, e).log[f] == t.log[f];
  }

  lemma {:induction false} EvictKeepsInv(t: Tables, h: History, bound: int)
    requires Inv(t, h)
    ensures Inv(Evict(t, bound), h)
    ensures Evict(t, bound).streams.Keys == t.streams.Keys
    decreases |t.log|
  {
    if Bytes(t.log) > bound && |t.log| > 1 {
      var e := Oldest(t.log);
      BytesRemove(t.log, e);
      DropKeepsInv(t, h, e);
      EvictKeepsInv(DropEvent(t, e), h, bound);
    }
  }

  lemma PruneKeepsInv(t: Tables, h: History, now: int, o: Retention)
    requires Inv(t, h)
    ensures PruneTx(t, now, o).streams.Keys == Expire(t, now).streams.Keys
    ensures Inv(PruneTx(t, now, o), Restrict(h, PruneTx(t, now, o)))
  {
    ExpireKeepsInv(t, h, now);
    EvictKeepsInv(Expire(t, now), Restrict(h, Expire(t, now)), o.maxEventBytes);
    assert Restrict(h, PruneTx(t, now, o)) == Restrict(h, Expire(t, now));
  }

  lemma UpsertKeepsInv(t: Tables, h: History, k: StreamKey, now: int, o: Retention) returns (h': History)
    requires Inv(t, h)
    ensures h' == if k in h then h else h[k := []]
    ensures Inv(Upsert(t, k, now, o), h')
  {
    h' := if k in h then h else h[k := []];
  }

  lemma OpenKeepsInv(w: World, k: StreamKey, now: int, o: Retention)
    requires Inv(w.tables, w.history) && o.Valid()
    ensures var w' := Step(w, Open(k, now), o); Inv(w'.tables, w'.history)
  {
    var h := UpsertKeepsInv(w.tables, w.history, k, now, o);
    var t := Upsert(w.tables, k, now, o);
    PruneKeepsInv(t, h, now, o);
    assert Step(w, Open(k, now), o).history == Restrict(h, PruneTx(t, now, o));
  }

  lemma InsertKeepsInv(t: Tables, h: History, k: StreamKey, data: Payload, now: int, o: Retention) returns (h': History)
    requires Inv(t, h) && k in h
    ensures h' == h[k := h[k] + [data]]
    ensures EventKey(k, t.streams[k].next) !in t.log
    ensures Inv(Insert(t, k, data, now, o), h')
  {
    h' := h[k := h[k] + [data]];
    assert EventKey(k, t.streams[k].next) !in t.log;
    InsertKeepsLog(t, h, k, data, now, o);
    hide LogFaithful, EncodeRow;
  }

  lemma InsertKeepsLog(t: Tables, h: History, k: StreamKey, data: Payload, now: int, o: Retention)
    requires StreamsTracked(t, h) && LogFaithful(t, h) && k in h
    ensures LogFaithful(Insert(t, k, data, now, o), h[k := h[k] + [data]])
  {
    var t', h' := Insert(t, k, data, now, o), h[k := h[k] + [data]];
    forall e | e in t'.log
      ensures e.stream in h' && 0 <= e.index < |h'[e.stream]|
      ensures t'.log[e] == EncodeRow(h'[e.stream][e.index], t'.log[e].createdAt)
    {
      if e != EventKey(k, t.streams[k].next) { assert t'.log[e] == t.log[e]; }
    }
  }

  lemma TrackAppend(history: History, op: Op, after: Tables)
    requires op.Append? && op.key in history && after.streams.Keys <= history.Keys
    ensures Track(history, op, after, true) == Restrict(history[op.key := history[op.key] + [op.data]], after)
  {
  }

  lemma TrackNothing(history: History, op: Op, after: Tables)
    requires after.streams.Keys <= history.Keys
    ensures Track(history, op, after, false) == Restrict(history, after)
  {
  }

  lemma AppendKeepsInv(w: World, k: StreamKey, data: Payload, now: int, o: Retention)
    requires Inv(w.tables, w.history) && o.Valid()
    ensures var w' := Step(w, Append(k, data, now), o); Inv(w'.tables, w'.history)
    ensures AppendTx(w.tables, k, data, now, o).Appended? <==> k in w.history
  {
    if k in w.history {
      var h := InsertKeepsInv(w.tables, w.history, k, data, now, o);
      PruneKeepsInv(Insert(w.tables, k, data, now, o), h, now, o);
      TrackAppend(w.history, Append(k, data, now), PruneTx(Insert(w.tables, k, data, now, o), now, o));
    } else {
      TrackNothing(w.history, Append(k, data, now), w.tables);
      assert Restrict(w.history, w.tables) == w.history;
    }
  }

  lemma SessionClosedKeepsInv(w: World, session: string, o: Retention)
    requires Inv(w.tables, w.history)
    ensures var w' := Step(w, SessionClosed(session), o); Inv(w'.tables, w'.history)
  {
    var w' := Step(w, SessionClosed(session), o);
    assert w'.history == Restrict(w.history, w'.tables);
  }

  lemma StepKeepsInv(w: World, op: Op, o: Retention)
    requires Inv(w.tables, w.history) && o.Valid()
    ensures Inv(Step(w, op, o).tables, Step(w, op, o).history)
  {
    match op
    case Open(k, now) => OpenKeepsInv(w, k, now, o);
    case Append(k, data, now) => AppendKeepsInv(w, k, data, now, o);
    case Prune(now) =>
      PruneKeepsInv(w.tables, w.history, now, o);
      assert Step(w, op, o).history == Restrict(w.history, PruneTx(w.tables, now, o));
    case SessionClosed(session) =>
      SessionClosedKeepsInv(w, session, o);
  }

  lemma {:induction false} RunKeepsInv(ops: seq<Op>, o: Retention)
    requires o.Valid()
    ensures Inv(Run(ops, o).tables, Run(ops, o).history)
  {
    if |ops| > 0 {
      RunKeepsInv(ops[..|ops| - 1], o);
      StepKeepsInv(Run(ops[..|ops| - 1], o), ops[|ops| - 1], o);
    }
  }

  // ---- Replay ----

  /** Some event of the stream after `index` is no longer in the log. */
  ghost predicate Lost(w: World, k: StreamKey, index: int)
    requires k in w.history
  {
    exists j :: index < j && 0 <= j < |w.history[k]| && EventKey(k, j) !in w.tables.log
  }

  lemma {:induction false} InOrderRange(rows: set<EventKey>, k: StreamKey, lo: int, hi: int)
    requires lo <= hi
    requires forall e :: e in rows <==> e.stream == k && lo <= e.index < hi
    ensures |InOrder(rows)| == hi - lo
    ensures forall i :: 0 <= i < hi - lo ==> InOrder(rows)[i] == EventKey(k, lo + i)
    decreases hi - lo
  {
    if lo == hi {
      assert rows == {};
    } else {
      assert EventKey(k, lo) in rows;
      var first := FirstOf(rows);
      assert first == EventKey(k, lo);
      InOrderRange(rows - {first}, k, lo + 1, hi);
    }
  }

  lemma ReadExact(w: World, k: StreamKey, index: int)
    requires Inv(w.tables, w.history)
    requires k in w.history && w.tables.streams[k].firstRetained <= index + 1 <= |w.history[k]|
    ensures ReadAfter(w.tables, k, index) == Events(w.history[k][index + 1..])
  {
    var t := w.tables;
    if index + 1 < t.streams[k].next {
      var rows := RowsAfter(t, k, index);
      InOrderMembers(rows);
      RowsExact(w, k, index);
      InOrderRange(rows, k, index + 1, t.streams[k].next);
      hide InOrder, RowsAfter, SuffixRetained, WatermarkTight, DecodeRow, EncodeRow;
      var values := Decode(t.log, InOrder(rows));
      forall i | 0 <= i < |values| ensures values[i] == w.history[k][index + 1..][i] {
        RowRoundTrip(w.history[k][index + 1 + i], t.log[EventKey(k, index + 1 + i)].createdAt);
      }
    }
  }

  lemma RowsExact(w: World, k: StreamKey, index: int)
    requires Inv(w.tables, w.history)
    requires k in w.history && w.tables.streams[k].firstRetained <= index + 1
    ensures forall e :: e in RowsAfter(w.tables, k, index) <==>
      e.stream == k && index + 1 <= e.index < w.tables.streams[k].next
  {
    hide EncodeRow;
    forall e ensures e in RowsAfter(w.tables, k, index) <==>
      e.stream == k && index + 1 <= e.index < w.tables.streams[k].next {
      if e.stream == k && index + 1 <= e.index < w.tables.streams[k].next {
        assert e == EventKey(k, e.index);
      }
    }
  }

  /** What a replay must return, in terms of the history alone. */
  ghost predicate ReplayCorrect(w: World, k: StreamKey, index: int, r: Replay) {
    match r
    case Purged => k !in w.history || index < -1 || Lost(w, k, index)
    case Events(values) =>
      && k in w.history && -1 <= index && !Lost(w, k, index)
      && values == if index + 1 <= |w.history[k]| then w.history[k][index + 1..] else []
  }

  lemma ReadRefinesHistory(w: World, k: StreamKey, index: int)
    requires Inv(w.tables, w.history)
    ensures ReplayCorrect(w, k, index, ReadAfter(w.tables, k, index))
  {
    if k in w.history {
      var row := w.tables.streams[k];
      if row.firstRetained > index + 1 {
        assert EventKey(k, row.firstRetained - 1) !in w.tables.log;
      } else if index + 1 <= row.next {
        ReadExact(w, k, index);
      }
    }
  }

  /** Main result. After any run, a replay after `index` is either refused, and
      then the stream does not exist, the index was never handed out, or an event
      after it has really been purged; or it is exactly the part of the stream's
      history after `index`: no gap, no duplicate, no reordering, and nil and
      empty payloads kept apart. */
  lemma ReplayRefinesHistory(ops: seq<Op>, o: Retention, k: StreamKey, index: int)
    requires o.Valid()
    ensures ReplayCorrect(Run(ops, o), k, index, ReadAfter(Run(ops, o).tables, k, index))
  {
    RunKeepsInv(ops, o);
    ReadRefinesHistory(Run(ops, o), k, index);
  }

  // ---- A clock that does not run backwards ----

  ghost function Time(op: Op, last: int): int {
    if op.SessionClosed? then last else op.now
  }

  /** The latest clock reading of a run that started at `start`. */
  ghost function LastTime(ops: seq<Op>, start: int): int {
    if |ops| == 0 then start else Time(ops[|ops| - 1], LastTime(ops[..|ops| - 1], start))
  }

  ghost predicate ClockMonotone(ops: seq<Op>, start: int) {
    |ops| == 0 || (ClockMonotone(ops[..|ops| - 1], start) && LastTime(ops[..|ops| - 1], start) <= LastTime(ops, start))
  }

  /** Creation times grow with the index, no event lies below its stream's
      watermark, and none is from the future. */
  ghost predicate Chronological(t: Tables, now: int) {
    && (forall a, b :: a in t.log && b in t.log && a.stream == b.stream && a.index < b.index
          ==> t.log[a].createdAt <= t.log[b].createdAt)
    && (forall e :: e in t.log && e.stream in t.streams ==> t.streams[e.stream].firstRetained <= e.index)
    && (forall e :: e in t.log ==> t.log[e].createdAt <= now)
  }

  lemma OldestIsFirstOfItsStream(t: Tables, e: EventKey, f: EventKey, now: int)
    requires Chronological(t, now) && IsOldest(t.log, e)
    requires f in t.log && f != e && f.stream == e.stream
    ensures e.index < f.index
  {
    assert Precedes(t.log, e, f);
    assert e.index != f.index || e == f;
  }

  lemma DropOldestChronological(t: Tables, e: EventKey, now: int)
    requires Chronological(t, now) && IsOldest(t.log, e)
    ensures Chronological(DropEvent(t, e), now)
  {
    forall f | f in t.log && f != e && f.stream == e.stream ensures e.index < f.index {
      OldestIsFirstOfItsStream(t, e, f, now);
    }
  }

  lemma {:induction false} EvictChronological(t: Tables, bound: int, now: int)
    requires Chronological(t, now)
    ensures Chronological(Evict(t, bound), now)
    decreases |t.log|
  {
    if Bytes(t.log) > bound && |t.log| > 1 {
      var e := Oldest(t.log);
      BytesRemove(t.log, e);
      DropOldestChronological(t, e, now);
      EvictChronological(DropEvent(t, e), bound, now);
    }
  }

  lemma InsertChronological(w: World, k: StreamKey, data: Payload, now: int, o: Retention)
    requires Inv(w.tables, w.history) && Chronological(w.tables, now) && k in w.history
    ensures Chronological(Insert(w.tables, k, data, now, o), now)
  {
    hide SuffixRetained, WatermarkTight;
    var t := Insert(w.tables, k, data, now, o);
    var e := EventKey(k, w.tables.streams[k].next);
    assert forall f :: f in w.tables.log && f.stream == k ==> f.index < e.index;
    hide LogFaithful;
    assert t.log[e].createdAt == now;
    hide EncodeRow;
    assert forall f :: f in t.log && f != e ==> f in w.tables.log && t.log[f] == w.tables.log[f];
  }

  lemma PruneChronological(t: Tables, now: int, o: Retention)
    requires Chronological(t, now)
    ensures Chronological(PruneTx(t, now, o), now)
  {
    assert Chronological(Expire(t, now), now);
    EvictChronological(Expire(t, now), o.maxEventBytes, now);
  }

  lemma StepChronological(w: World, op: Op, o: Retention, last: int)
    requires o.Valid() && Inv(w.tables, w.history)
    requires Chronological(w.tables, last) && last <= Time(op, last)
    ensures Chronological(Step(w, op, o).tables, Time(op, last))
  {
    match op
    case Open(k, now) =>
      assert Chronological(Upsert(w.tables, k, now, o), now) by {
        assert forall e :: e in w.tables.log ==> 0 <= e.index;
      }
      PruneChronological(Upsert(w.tables, k, now, o), now, o);
    case Append(k, data, now) =>
      AppendKeepsInv(w, k, data, now, o);
      if k in w.history {
        InsertChronological(w, k, data, now, o);
        PruneChronological(Insert(w.tables, k, data, now, o), now, o);
      }
    case Prune(now) =>
      PruneChronological(w.tables, now, o);
    case SessionClosed(session) =>
  }

  lemma {:induction false} RunChronological(ops: seq<Op>, o: Retention, start: int)
    requires o.Valid() && ClockMonotone(ops, start)
    ensures Chronological(Run(ops, o).tables, LastTime(ops, start))
  {
    if |ops| > 0 {
      var before := ops[..|ops| - 1];
      RunChronological(before, o, start);
      RunKeepsInv(before, o);
      StepChronological(Run(before, o), ops[|ops| - 1], o, LastTime(before, start));
    }
  }

  /** While the clock never runs backwards, what is retained of a stream is
      exactly the indices from the watermark on. */
  lemma RetainedExactly(ops: seq<Op>, o: Retention, start: int, e: EventKey)
    requires o.Valid() && ClockMonotone(ops, start)
    ensures var t := Run(ops, o).tables;
      e in t.log <==> e.stream in t.streams && t.streams[e.stream].firstRetained <= e.index < t.streams[e.stream].next
  {
    RunKeepsInv(ops, o);
    RunChronological(ops, o, start);
  }

  /** Under such a clock a stream loses its events strictly from the front, so a
      refused replay has lost the very next event after the index. */
  lemma PurgedFromTheFront(ops: seq<Op>, o: Retention, start: int, k: StreamKey, index: int)
    requires o.Valid() && ClockMonotone(ops, start)
    requires k in Run(ops, o).history && -1 <= index
    ensures var w := Run(ops, o);
      ReadAfter(w.tables, k, index).Purged?
      <==> index + 1 < |w.history[k]| && EventKey(k, index + 1) !in w.tables.log
  {
    RunKeepsInv(ops, o);
    RunChronological(ops, o, start);
    RetainedExactly(ops, o, start, EventKey(k, index + 1));
  }
}
