/** What the size bound removes: characterised without the loop that removes it. */
module EventPrune {
  import opened EventTables
  import opened EventReplay

  function Sub(log: map<EventKey, EventRow>, kept: set<EventKey>): map<EventKey, EventRow> {
    map e | e in log && e in kept :: log[e]
  }

  /** Everything outside `kept` comes before everything in it. */
  ghost predicate Suffix(log: map<EventKey, EventRow>, kept: set<EventKey>) {
    && kept <= log.Keys
    && forall a, b :: a in log && a !in kept && b in kept ==> Precedes(log, a, b)
  }

  ghost predicate Fits(log: map<EventKey, EventRow>, kept: set<EventKey>, bound: int) {
    Bytes(Sub(log, kept)) <= bound || |kept| <= 1
  }

  lemma WholeLog(log: map<EventKey, EventRow>)
    ensures Sub(log, log.Keys) == log && |log.Keys| == |log|
  {
  }

  /** A suffix that contains the oldest event is the whole log. */
  lemma SuffixWithOldest(log: map<EventKey, EventRow>, kept: set<EventKey>, e: EventKey)
    requires Suffix(log, kept) && IsOldest(log, e) && e in kept
    ensures kept == log.Keys
  {
    forall a | a in log ensures a in kept {
      if a !in kept {
        PrecedesTotal(log, a, e);
      }
    }
  }

  lemma SuffixWithoutOldest(log: map<EventKey, EventRow>, kept: set<EventKey>, e: EventKey)
    requires IsOldest(log, e) && e !in kept
    ensures Suffix(log, kept) <==> Suffix(log - {e}, kept)
    ensures Sub(log, kept) == Sub(log - {e}, kept)
  {
    assert forall a, b :: a in log - {e} && b in log - {e} ==> Precedes(log, a, b) == Precedes(log - {e}, a, b);
  }

  /** The largest suffix of the retention order that fits is what is kept: the
      events removed are a prefix of that order, and no shorter prefix would do. */
  lemma {:induction false} EvictKeepsLargestFittingSuffix(t: Tables, bound: int)
    ensures var kept := Evict(t, bound).log.Keys;
      && Evict(t, bound).log == Sub(t.log, kept)
      && Suffix(t.log, kept)
      && Fits(t.log, kept, bound)
      && forall other :: Suffix(t.log, other) && Fits(t.log, other, bound) ==> other <= kept
    decreases |t.log|
  {
    var kept := Evict(t, bound).log.Keys;
    WholeLog(t.log);
    if Bytes(t.log) > bound && |t.log| > 1 {
      var e := Oldest(t.log);
      BytesRemove(t.log, e);
      EvictKeepsLargestFittingSuffix(DropEvent(t, e), bound);
      assert e !in kept;
      SuffixWithoutOldest(t.log, kept, e);
      forall other | Suffix(t.log, other) && Fits(t.log, other, bound) ensures other <= kept {
        if e in other {
          SuffixWithOldest(t.log, other, e);
          assert false;
        } else {
          SuffixWithoutOldest(t.log, other, e);
        }
      }
    }
  }

  /** Each watermark ends one above the highest index removed from its stream, or
      stays where it was when that is higher or nothing was removed. */
  ghost predicate WatermarkMoved(t: Tables, t': Tables, k: StreamKey) {
    && k in t.streams && k in t'.streams
    && t'.streams[k] == t.streams[k].(firstRetained := t'.streams[k].firstRetained)
    && t.streams[k].firstRetained <= t'.streams[k].firstRetained
    && (forall e :: e in t.log && e !in t'.log && e.stream == k ==> e.index < t'.streams[k].firstRetained)
    && (t'.streams[k].firstRetained != t.streams[k].firstRetained ==>
          EventKey(k, t'.streams[k].firstRetained - 1) in t.log.Keys - t'.log.Keys)
  }

  lemma DropMovesWatermark(t: Tables, e: EventKey, k: StreamKey)
    requires k in t.streams && e in t.log
    ensures WatermarkMoved(t, DropEvent(t, e), k)
  {
  }

  lemma WatermarkMovesCompose(a: Tables, b: Tables, c: Tables, k: StreamKey)
    requires WatermarkMoved(a, b, k) && WatermarkMoved(b, c, k)
    requires c.log.Keys <= b.log.Keys <= a.log.Keys
    ensures WatermarkMoved(a, c, k)
  {
    forall e | e in a.log && e !in c.log && e.stream == k ensures e.index < c.streams[k].firstRetained {
      if e !in b.log { assert e.index < b.streams[k].firstRetained; }
    }
  }

  lemma {:induction false} EvictWatermarks(t: Tables, bound: int, k: StreamKey)
    requires k in t.streams
    ensures WatermarkMoved(t, Evict(t, bound), k)
    ensures Evict(t, bound).log.Keys <= t.log.Keys
    decreases |t.log|
  {
    if Bytes(t.log) > bound && |t.log| > 1 {
      var t' := DropEvent(t, Oldest(t.log));
      BytesRemove(t.log, Oldest(t.log));
      DropMovesWatermark(t, Oldest(t.log), k);
      EvictWatermarks(t', bound, k);
      WatermarkMovesCompose(t, t', Evict(t', bound), k);
    }
  }

  // ---- The bound over runs ----

  ghost predicate Bounded(t: Tables, o: Retention) {
    Bytes(t.log) <= o.maxEventBytes || |t.log| <= 1
  }

  lemma {:induction false} BytesOfSub(log: map<EventKey, EventRow>, part: map<EventKey, EventRow>)
    requires part.Keys <= log.Keys && forall e :: e in part ==> part[e] == log[e]
    ensures Bytes(part) <= Bytes(log) && |part| <= |log|
    decreases |log|
  {
    if |part| > 0 {
      var e := AnyKey(part);
      BytesRemove(log, e);
      BytesOfSub(log - {e}, part - {e});
    }
  }

  lemma PruneBounded(t: Tables, now: int, o: Retention)
    ensures Bounded(PruneTx(t, now, o), o)
  {
    EvictBounded(Expire(t, now), o.maxEventBytes);
  }

  lemma {:induction false} EvictBounded(t: Tables, bound: int)
    ensures Bytes(Evict(t, bound).log) <= bound || |Evict(t, bound).log| <= 1
    decreases |t.log|
  {
    if Bytes(t.log) > bound && |t.log| > 1 {
      BytesRemove(t.log, Oldest(t.log));
      EvictBounded(DropEvent(t, Oldest(t.log)), bound);
    }
  }

  /** After any run the retained payloads fit the bound, or one event is left. */
  lemma {:induction false} RunBounded(ops: seq<Op>, o: Retention)
    requires o.Valid()
    ensures Bounded(Run(ops, o).tables, o)
  {
    if |ops| > 0 {
      hide PruneTx, Upsert, Insert, Bytes;
      var w := Run(ops[..|ops| - 1], o);
      RunBounded(ops[..|ops| - 1], o);
      match ops[|ops| - 1]
      case Open(k, now) => PruneBounded(Upsert(w.tables, k, now, o), now, o);
      case Append(k, data, now) =>
        if k in w.tables.streams { PruneBounded(Insert(w.tables, k, data, now, o), now, o); }
      case Prune(now) => PruneBounded(w.tables, now, o);
      case SessionClosed(session) =>
        BytesOfSub(w.tables.log, SessionClosedTx(w.tables, session).log);
    }
  }

  /** Pruning deletes expired streams with all of their events and no other stream. */
  lemma PruneExpires(t: Tables, h: History, now: int, o: Retention, k: StreamKey)
    requires Inv(t, h)
    ensures k in PruneTx(t, now, o).streams <==> k in t.streams && t.streams[k].expiresAt > now
    ensures forall e :: e in PruneTx(t, now, o).log ==> e in t.log && e.stream in PruneTx(t, now, o).streams
  {
    PruneKeepsInv(t, h, now, o);
    EvictKeepsLargestFittingSuffix(Expire(t, now), o.maxEventBytes);
  }
}
