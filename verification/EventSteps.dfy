/** What every transaction does to every stream and every event, in any run: which
    streams live, what their rows say, and which events are kept. */
module EventSteps {
  import opened Ordering
  import opened EventTables
  import opened EventReplay
  import opened EventPrune

  // ---- Streams ----

  /** The transaction creates or extends the stream. An unknown stream's append does
      nothing at all. */
  ghost predicate Touches(w: World, op: Op, k: StreamKey) {
    (op.Open? && op.key == k) || (op.Append? && op.key == k && k in w.history)
  }

  ghost predicate Prunes(w: World, op: Op) {
    op.Open? || op.Prune? || (op.Append? && op.key in w.history)
  }

  /** The transaction deletes a stream whose lifetime ends at `expiresAt`. */
  ghost predicate Removes(w: World, op: Op, k: StreamKey, expiresAt: int) {
    (Prunes(w, op) && expiresAt <= op.now) || (op.SessionClosed? && k.session == op.session)
  }

  ghost predicate Lives(w: World, op: Op, k: StreamKey)
    requires w.tables.streams.Keys == w.history.Keys
  {
    Touches(w, op, k) || (k in w.history && !Removes(w, op, k, w.tables.streams[k].expiresAt))
  }

  /** What the row of a living stream says after the transaction. */
  ghost predicate RowAfter(w: World, op: Op, o: Retention, k: StreamKey, row: StreamRow)
    requires w.tables.streams.Keys == w.history.Keys
  {
    if Touches(w, op, k) then
      && row.expiresAt == op.now + o.eventTTL && row.updatedAt == op.now
      && row.next == (if k in w.history then |w.history[k]| else 0) + (if op.Append? then 1 else 0)
    else
      k in w.history && row == w.tables.streams[k].(firstRetained := row.firstRetained)
  }

  ghost predicate StreamStep(w: World, w': World, op: Op, o: Retention, k: StreamKey)
    requires w.tables.streams.Keys == w.history.Keys
  {
    && (k in w'.tables.streams <==> Lives(w, op, k)) && (k in w'.history <==> Lives(w, op, k))
    && (k in w'.tables.streams ==> RowAfter(w, op, o, k, w'.tables.streams[k]))
    && (k in w'.history ==>
          w'.history[k] == (if k in w.history then w.history[k] else [])
                         + (if op.Append? && op.key == k then [op.data] else []))
  }

  lemma EvictRow(t: Tables, bound: int, k: StreamKey)
    ensures k in Evict(t, bound).streams <==> k in t.streams
    ensures k in t.streams ==>
      Evict(t, bound).streams[k] == t.streams[k].(firstRetained := Evict(t, bound).streams[k].firstRetained)
  {
    EvictStreams(t, bound);
    if k in t.streams { EvictWatermarks(t, bound, k); }
  }

  lemma {:induction false} EvictStreams(t: Tables, bound: int)
    ensures Evict(t, bound).streams.Keys == t.streams.Keys
    decreases |t.log|
  {
    if Bytes(t.log) > bound && |t.log| > 1 {
      BytesRemove(t.log, Oldest(t.log));
      EvictStreams(DropEvent(t, Oldest(t.log)), bound);
    }
  }

  lemma OpenStream(w: World, key: StreamKey, now: int, o: Retention, k: StreamKey)
    requires Inv(w.tables, w.history) && o.Valid()
    ensures StreamStep(w, Step(w, Open(key, now), o), Open(key, now), o, k)
  {
    hide Evict, SuffixRetained, LogFaithful, WatermarkTight;
    EvictRow(Expire(Upsert(w.tables, key, now, o), now), o.maxEventBytes, k);
  }

  lemma AppendStream(w: World, key: StreamKey, data: Payload, now: int, o: Retention, k: StreamKey)
    requires Inv(w.tables, w.history) && o.Valid()
    ensures StreamStep(w, Step(w, Append(key, data, now), o), Append(key, data, now), o, k)
  {
    hide Evict, SuffixRetained, LogFaithful, WatermarkTight;
    AppendKeepsInv(w, key, data, now, o);
    if key in w.history { EvictRow(Expire(Insert(w.tables, key, data, now, o), now), o.maxEventBytes, k); }
  }

  lemma PruneStream(w: World, now: int, o: Retention, k: StreamKey)
    requires Inv(w.tables, w.history) && o.Valid()
    ensures StreamStep(w, Step(w, Prune(now), o), Prune(now), o, k)
  {
    hide Evict, SuffixRetained, LogFaithful, WatermarkTight;
    EvictRow(Expire(w.tables, now), o.maxEventBytes, k);
  }

  lemma CloseStream(w: World, session: string, o: Retention, k: StreamKey)
    requires Inv(w.tables, w.history)
    ensures StreamStep(w, Step(w, SessionClosed(session), o), SessionClosed(session), o, k)
  {
    hide SuffixRetained, LogFaithful, WatermarkTight;
  }

  lemma StepsStream(w: World, op: Op, o: Retention, k: StreamKey)
    requires Inv(w.tables, w.history) && o.Valid()
    ensures StreamStep(w, Step(w, op, o), op, o, k)
  {
    hide Step, StreamStep;
    match op
    case Open(key, now) => OpenStream(w, key, now, o, k);
    case Append(key, data, now) => AppendStream(w, key, data, now, o, k);
    case Prune(now) => PruneStream(w, now, o, k);
    case SessionClosed(session) => CloseStream(w, session, o, k);
  }

  /** Main result. In any run, a transaction lets live exactly the stream it opens or
      appends to and the others that neither their lifetime nor their session ends; it
      renews that one's lifetime alone; and it extends that one's history alone. */
  lemma StreamsExactly(ops: seq<Op>, o: Retention, op: Op, k: StreamKey)
    requires o.Valid()
    ensures var w := Run(ops, o);
      w.tables.streams.Keys == w.history.Keys && StreamStep(w, Run(ops + [op], o), op, o, k)
  {
    RunKeepsInv(ops, o);
    assert (ops + [op])[..|ops + [op]| - 1] == ops;
    StepsStream(Run(ops, o), op, o, k);
  }

  // ---- Which streams live after a run ----

  /** The end of the lifetime that the transaction gives a stream it touches. */
  function Expiry(op: Op, o: Retention): int {
    if op.SessionClosed? then 0 else op.now + o.eventTTL
  }

  /** The transaction neither touches the stream nor removes it at the end of a lifetime. */
  ghost predicate Spares(w: World, op: Op, k: StreamKey, expiresAt: int) {
    !Touches(w, op, k) && !Removes(w, op, k, expiresAt)
  }

  /** The i-th transaction is the last to open or append to the stream, and none has
      removed it since. */
  ghost predicate LastTouch(ops: seq<Op>, o: Retention, i: nat, k: StreamKey)
    requires i < |ops|
  {
    && Touches(Run(ops[..i], o), ops[i], k)
    && forall j :: i < j < |ops| ==> Spares(Run(ops[..j], o), ops[j], k, Expiry(ops[i], o))
  }

  /** The lifetime of a living stream is the one that its last touch gave it. */
  ghost predicate Dated(ops: seq<Op>, o: Retention, k: StreamKey) {
    forall i :: 0 <= i < |ops| && LastTouch(ops, o, i, k) && k in Run(ops, o).tables.streams ==>
      Run(ops, o).tables.streams[k].expiresAt == Expiry(ops[i], o)
  }

  /** Main result. A stream exists after a run exactly if some transaction opened or
      appended to it, none has since, none has pruned at or after the end of the lifetime
      that this one gave it, and its session has not been closed since. */
  lemma {:induction false} LivesExactly(ops: seq<Op>, o: Retention, k: StreamKey)
    requires o.Valid()
    ensures k in Run(ops, o).tables.streams <==> exists i :: 0 <= i < |ops| && LastTouch(ops, o, i, k)
    ensures Dated(ops, o, k)
  {
    hide Step, Touches, Removes, Spares, LastTouch, StreamStep, Lives, Dated, Run;
    if |ops| == 0 {
      NoneAtStart(o, k);
    } else {
      var n := |ops| - 1;
      var init := ops[..n];
      LivesExactly(init, o, k);
      StreamsExactly(init, o, ops[n], k);
      assert init + [ops[n]] == ops;
      var w, w' := Run(init, o), Run(ops, o);
      StepDates(w, w', ops[n], o, k);
      LastTouchNow(ops, o, k);
      StepTouches(ops, o, k);
    }
  }

  lemma NoneAtStart(o: Retention, k: StreamKey)
    ensures k !in Run([], o).tables.streams && Dated([], o, k)
  {
  }

  lemma StepTouches(ops: seq<Op>, o: Retention, k: StreamKey)
    requires |ops| > 0
    requires var n := |ops| - 1; var init, w, w' := ops[..n], Run(ops[..n], o), Run(ops, o);
      && (k in w.tables.streams <==> exists i :: 0 <= i < n && LastTouch(init, o, i, k)) && Dated(init, o, k)
      && (k in w'.tables.streams <==>
            Touches(w, ops[n], k) || (k in w.tables.streams && Spares(w, ops[n], k, w.tables.streams[k].expiresAt)))
      && (Touches(w, ops[n], k) ==> k in w'.tables.streams && w'.tables.streams[k].expiresAt == Expiry(ops[n], o))
      && (k in w'.tables.streams && !Touches(w, ops[n], k) ==>
            k in w.tables.streams && w'.tables.streams[k].expiresAt == w.tables.streams[k].expiresAt)
      && (LastTouch(ops, o, n, k) <==> Touches(w, ops[n], k))
    ensures k in Run(ops, o).tables.streams <==> exists i :: 0 <= i < |ops| && LastTouch(ops, o, i, k)
    ensures Dated(ops, o, k)
  {
    hide Touches, LastTouch, Run, Removes;
    var n := |ops| - 1;
    var init, w, w' := ops[..n], Run(ops[..n], o), Run(ops, o);
    if k in w'.tables.streams && !Touches(w, ops[n], k) {
      var i :| 0 <= i < n && LastTouch(init, o, i, k);
      LastTouchExtends(ops, o, i, k);
      assert LastTouch(ops, o, i, k);
    }
    forall i | 0 <= i < |ops| && LastTouch(ops, o, i, k)
      ensures k in w'.tables.streams && w'.tables.streams[k].expiresAt == Expiry(ops[i], o)
    {
      if i < n { LastTouchExtends(ops, o, i, k); }
    }
  }

  /** How a step changes whether a stream lives, and until when. */
  lemma StepDates(w: World, w': World, op: Op, o: Retention, k: StreamKey)
    requires w.tables.streams.Keys == w.history.Keys && StreamStep(w, w', op, o, k)
    ensures k in w'.tables.streams <==>
      Touches(w, op, k) || (k in w.tables.streams && Spares(w, op, k, w.tables.streams[k].expiresAt))
    ensures Touches(w, op, k) ==>
      k in w'.tables.streams && w'.tables.streams[k].expiresAt == Expiry(op, o) && !Spares(w, op, k, Expiry(op, o))
    ensures k in w'.tables.streams && !Touches(w, op, k) ==>
      k in w.tables.streams && w'.tables.streams[k].expiresAt == w.tables.streams[k].expiresAt
    ensures forall expiresAt :: Spares(w, op, k, expiresAt) ==> !Touches(w, op, k)
  {
  }

  lemma LastTouchExtends(ops: seq<Op>, o: Retention, i: nat, k: StreamKey)
    requires i < |ops| - 1
    ensures var n := |ops| - 1; var init := ops[..n];
      LastTouch(ops, o, i, k) <==>
        (LastTouch(init, o, i, k) && Spares(Run(init, o), ops[n], k, Expiry(ops[i], o)))
  {
    hide Touches, Spares, Run;
    var n := |ops| - 1;
    var init := ops[..n];
    assert forall j: nat :: j < n ==> init[j] == ops[j] && init[..j] == ops[..j];
  }

  lemma LastTouchNow(ops: seq<Op>, o: Retention, k: StreamKey)
    requires |ops| > 0
    ensures LastTouch(ops, o, |ops| - 1, k) <==> Touches(Run(ops[..|ops| - 1], o), ops[|ops| - 1], k)
  {
  }

  // ---- Events ----

  /** The row of an event that is appended now. */
  function NewRow(data: Payload, now: int): EventRow {
    match data
    case NilPayload => EventRow([], true, 0, now)
    case Data(bytes) => EventRow(bytes, false, |bytes|, now)
  }

  /** The events of living streams, with the one that is appended: the next one of its
      stream. */
  ghost predicate Offered(w: World, op: Op, e: EventKey, row: EventRow)
    requires w.tables.streams.Keys == w.history.Keys
  {
    && Lives(w, op, e.stream)
    && if op.Append? && op.key == e.stream && e.index == |w.history[e.stream]| then row == NewRow(op.data, op.now)
       else e in w.tables.log && row == w.tables.log[e]
  }

  /** `all` are the offered events; `kept` of them fit the bound, and no more would. */
  ghost predicate EventStep(w: World, w': World, op: Op, o: Retention, all: map<EventKey, EventRow>)
    requires w.tables.streams.Keys == w.history.Keys
  {
    var kept := w'.tables.log.Keys;
    && (forall e, row :: e in all && all[e] == row <==> Offered(w, op, e, row))
    && w'.tables.log == Sub(all, kept)
    && if Prunes(w, op) then
         Suffix(all, kept) && Fits(all, kept, o.maxEventBytes)
         && forall other :: Suffix(all, other) && Fits(all, other, o.maxEventBytes) ==> other <= kept
       else kept == all.Keys
  }

  lemma PrunedLog(t: Tables, now: int, o: Retention) returns (all: map<EventKey, EventRow>)
    ensures forall e :: e in all <==> e in t.log && !(e.stream in t.streams && t.streams[e.stream].expiresAt <= now)
    ensures forall e :: e in all ==> all[e] == t.log[e]
    ensures var kept := PruneTx(t, now, o).log.Keys;
      && PruneTx(t, now, o).log == Sub(all, kept) && Suffix(all, kept) && Fits(all, kept, o.maxEventBytes)
      && forall other :: Suffix(all, other) && Fits(all, other, o.maxEventBytes) ==> other <= kept
  {
    all := Expire(t, now).log;
    EvictKeepsLargestFittingSuffix(Expire(t, now), o.maxEventBytes);
  }

  lemma OpenEvents(w: World, k: StreamKey, now: int, o: Retention) returns (all: map<EventKey, EventRow>)
    requires Inv(w.tables, w.history) && o.Valid()
    ensures EventStep(w, Step(w, Open(k, now), o), Open(k, now), o, all)
  {
    hide Suffix, Fits, PruneTx, SuffixRetained, WatermarkTight;
    all := PrunedLog(Upsert(w.tables, k, now, o), now, o);
  }

  lemma AppendEvents(w: World, k: StreamKey, data: Payload, now: int, o: Retention)
      returns (all: map<EventKey, EventRow>)
    requires Inv(w.tables, w.history) && o.Valid()
    ensures EventStep(w, Step(w, Append(k, data, now), o), Append(k, data, now), o, all)
  {
    if k in w.history {
      all := AppendKnown(w, k, data, now, o);
    } else {
      all := w.tables.log;
      hide SuffixRetained, WatermarkTight;
    }
  }

  lemma AppendKnown(w: World, k: StreamKey, data: Payload, now: int, o: Retention)
      returns (all: map<EventKey, EventRow>)
    requires Inv(w.tables, w.history) && o.Valid() && k in w.history
    ensures EventStep(w, Step(w, Append(k, data, now), o), Append(k, data, now), o, all)
  {
    hide Suffix, Fits, PruneTx, Step, Insert, Offered, Inv;
    AppendPrunes(w, k, data, now, o);
    InsertOffers(w, k, data, now, o);
    all := PrunedLog(Inserted(w, k, data, now, o), now, o);
  }

  /** The tables between the insertion and the pruning. */
  function Inserted(w: World, k: StreamKey, data: Payload, now: int, o: Retention): Tables {
    if k in w.tables.streams then Insert(w.tables, k, data, now, o) else w.tables
  }

  lemma AppendPrunes(w: World, k: StreamKey, data: Payload, now: int, o: Retention)
    requires Inv(w.tables, w.history) && k in w.history && o.Valid()
    ensures w.tables.streams.Keys == w.history.Keys
    ensures Step(w, Append(k, data, now), o).tables == PruneTx(Inserted(w, k, data, now, o), now, o)
  {
    AppendKeepsInv(w, k, data, now, o);
    hide PruneTx, Insert;
  }

  lemma InsertOffers(w: World, k: StreamKey, data: Payload, now: int, o: Retention)
    requires Inv(w.tables, w.history) && k in w.history && o.Valid()
    ensures w.tables.streams.Keys == w.history.Keys
    ensures var t := Inserted(w, k, data, now, o);
      forall e, row :: Offered(w, Append(k, data, now), e, row) <==>
        e in t.log && t.log[e] == row && !(e.stream in t.streams && t.streams[e.stream].expiresAt <= now)
  {
    hide SuffixRetained, WatermarkTight;
    var t, op := Insert(w.tables, k, data, now, o), Append(k, data, now);
    forall e, row
      ensures Offered(w, op, e, row) <==>
        e in t.log && t.log[e] == row && !(e.stream in t.streams && t.streams[e.stream].expiresAt <= now)
    {
      assert e in w.tables.log ==> e.stream in w.history && e.index < |w.history[e.stream]|;
      assert e.stream == k && e.index == |w.history[k]| <==> e == EventKey(k, t.streams[k].next - 1);
    }
  }

  lemma PruneEvents(w: World, now: int, o: Retention) returns (all: map<EventKey, EventRow>)
    requires Inv(w.tables, w.history) && o.Valid()
    ensures EventStep(w, Step(w, Prune(now), o), Prune(now), o, all)
  {
    hide Suffix, Fits, PruneTx, SuffixRetained, WatermarkTight;
    all := PrunedLog(w.tables, now, o);
  }

  lemma CloseEvents(w: World, session: string, o: Retention) returns (all: map<EventKey, EventRow>)
    requires Inv(w.tables, w.history)
    ensures EventStep(w, Step(w, SessionClosed(session), o), SessionClosed(session), o, all)
  {
    hide SuffixRetained, WatermarkTight;
    all := Step(w, SessionClosed(session), o).tables.log;
  }

  lemma StepsEvents(w: World, op: Op, o: Retention) returns (all: map<EventKey, EventRow>)
    requires Inv(w.tables, w.history) && o.Valid()
    ensures EventStep(w, Step(w, op, o), op, o, all)
  {
    hide EventStep, Step;
    match op
    case Open(key, now) => all := OpenEvents(w, key, now, o);
    case Append(key, data, now) => all := AppendEvents(w, key, data, now, o);
    case Prune(now) => all := PruneEvents(w, now, o);
    case SessionClosed(session) => all := CloseEvents(w, session, o);
  }

  /** What one transaction does, stream by stream and event by event. */
  ghost predicate StepExactly(w: World, w': World, op: Op, o: Retention) {
    && w.tables.streams.Keys == w.history.Keys
    && (forall k :: StreamStep(w, w', op, o, k))
    && exists all :: EventStep(w, w', op, o, all)
  }

  lemma StepIsExact(w: World, op: Op, o: Retention)
    requires Inv(w.tables, w.history) && o.Valid()
    ensures StepExactly(w, Step(w, op, o), op, o)
  {
    hide StreamStep, EventStep, Step;
    forall k ensures StreamStep(w, Step(w, op, o), op, o, k) { StepsStream(w, op, o, k); }
    var all := StepsEvents(w, op, o);
  }

  /** Main result. In any run, a transaction keeps every event of the streams that live,
      adds the one it appends, and if it prunes drops from the front of the retention
      order as few as fit the bound. */
  lemma EventsExactly(ops: seq<Op>, o: Retention, op: Op) returns (all: map<EventKey, EventRow>)
    requires o.Valid()
    ensures var w := Run(ops, o);
      w.tables.streams.Keys == w.history.Keys && EventStep(w, Run(ops + [op], o), op, o, all)
  {
    RunKeepsInv(ops, o);
    assert (ops + [op])[..|ops + [op]| - 1] == ops;
    all := StepsEvents(Run(ops, o), op, o);
  }

  /** Main result. Closing a session deletes its streams and events and no others, and
      leaves these as they are. */
  lemma SessionClosedExactly(ops: seq<Op>, o: Retention, session: string, k: StreamKey, e: EventKey)
    requires o.Valid()
    ensures var w := Run(ops, o); var w' := Run(ops + [SessionClosed(session)], o);
      && (k in w'.tables.streams <==> k in w.tables.streams && k.session != session)
      && (k in w'.tables.streams ==> w'.tables.streams[k] == w.tables.streams[k])
      && (k in w'.history <==> k in w.history && k.session != session)
      && (k in w'.history ==> w'.history[k] == w.history[k])
      && (e in w'.tables.log <==> e in w.tables.log && e.stream.session != session)
      && (e in w'.tables.log ==> w'.tables.log[e] == w.tables.log[e])
  {
    RunKeepsInv(ops, o);
    assert (ops + [SessionClosed(session)])[..|ops + [SessionClosed(session)]| - 1] == ops;
  }

  /** The retention order compares creation times first, then sessions, streams and
      indexes. */
  lemma RetentionOrder(log: map<EventKey, EventRow>, a: EventKey, b: EventKey)
    requires a in log && b in log
    ensures Precedes(log, a, b) <==>
      || log[a].createdAt < log[b].createdAt
      || (log[a].createdAt == log[b].createdAt && Less(a.stream.session, b.stream.session))
      || (log[a].createdAt == log[b].createdAt && a.stream.session == b.stream.session
          && Less(a.stream.stream, b.stream.stream))
      || (log[a].createdAt == log[b].createdAt && a.stream == b.stream && a.index < b.index)
  {
    LessTrichotomy(a.stream.session, b.stream.session);
    LessTrichotomy(a.stream.stream, b.stream.stream);
  }
}
