/** The pool of component runtimes: one shared runtime per frontend session,
    configuration fingerprint and component.

    Each critical section under the pool's mutex is one function on `State`. An
    entry opens at most one runtime, which is named by the entry. */
module PoolSections {

  type Frontend = nat
  type EntryId = nat

  datatype Key = Key(frontend: Frontend, fingerprint: string, component: string)

  datatype Opening = Pending | Failed | Opened

  datatype Entry = Entry(key: Key, status: Opening, refs: int) {
    /** The entry's ready channel is closed. */
    predicate Ready() { !status.Pending? }
  }

  datatype State = State(
    entries: map<Key, EntryId>,
    heap: map<EntryId, Entry>,      // every entry ever created
    watched: set<Frontend>,
    closed: bool,
    cleanups: int,                  // the WaitGroup of detached session cleanups
    cleanupFailures: nat)

  const INITIAL := State(map[], map[], {}, false, 0, 0)

  datatype Acquired = Refused | MustWait(e: EntryId) | MustOpen(e: EntryId)

  predicate Current(p: State, e: EntryId) {
    e in p.heap && p.heap[e].key in p.entries && p.entries[p.heap[e].key] == e
  }

  function Acquire(p: State, key: Key, id: EntryId): (State, Acquired) {
    if p.closed then (p, Refused)
    else if key in p.entries && p.entries[key] in p.heap then
      var e := p.entries[key];
      (p.(heap := p.heap[e := p.heap[e].(refs := p.heap[e].refs + 1)]), MustWait(e))
    else
      (p.(entries := p.entries[key := id],
          heap := p.heap[id := Entry(key, Pending, 1)],
          watched := p.watched + {key.frontend}),
       MustOpen(id))
  }

  /** The section after OpenRuntime. A failure deletes whatever entry has the key. */
  function Publish(p: State, e: EntryId, ok: bool): State
    requires e in p.heap
  {
    var key := p.heap[e].key;
    p.(heap := p.heap[e := p.heap[e].(status := if ok then Opened else Failed)],
       entries := if ok then p.entries else p.entries - {key})
  }

  function Release(p: State, e: EntryId): State {
    if Current(p, e) && p.heap[e].refs > 0
    then p.(heap := p.heap[e := p.heap[e].(refs := p.heap[e].refs - 1)])
    else p
  }

  function OfSession(entries: map<Key, EntryId>, frontend: Frontend): set<EntryId> {
    set k | k in entries && k.frontend == frontend :: entries[k]
  }

  function WithoutSession(entries: map<Key, EntryId>, frontend: Frontend): map<Key, EntryId> {
    map k | k in entries && k.frontend != frontend :: entries[k]
  }

  /** The entries detached by the second component must be closed by the caller. */
  function CloseSession(p: State, frontend: Frontend): (State, set<EntryId>) {
    var p' := p.(watched := p.watched - {frontend});
    if p.closed then (p', {})
    else
      (p'.(cleanups := p.cleanups + 1, entries := WithoutSession(p.entries, frontend)), OfSession(p.entries, frontend))
  }

  function RecordFailure(p: State): State {
    p.(cleanupFailures := p.cleanupFailures + 1)
  }

  function CleanupDone(p: State): State {
    p.(cleanups := p.cleanups - 1)
  }

  function Close(p: State): (State, set<EntryId>) {
    if p.closed then (p, {})
    else (p.(closed := true, entries := map[]), p.entries.Values)
  }
}

/** The pool itself: the sections run on its fields. */
module ComponentPool {
  import opened PoolSections

  class Pool {
    var entries: map<Key, EntryId>
    var heap: map<EntryId, Entry>
    var watched: set<Frontend>
    var closed: bool
    var cleanups: int
    var cleanupFailures: nat

    ghost function View(): State
      reads this
    {
      State(entries, heap, watched, closed, cleanups, cleanupFailures)
    }

    constructor ()
      ensures View() == INITIAL
    {
      entries, heap, watched, closed, cleanups, cleanupFailures := map[], map[], {}, false, 0, 0;
    }

    method Acquire(key: Key, id: EntryId) returns (acquired: Acquired)
      modifies this
      ensures (View(), acquired) == PoolSections.Acquire(old(View()), key, id)
    {
      if closed {
        return Refused;
      }
      if key in entries && entries[key] in heap {
        var e := entries[key];
        heap := heap[e := heap[e].(refs := heap[e].refs + 1)];
        return MustWait(e);
      }
      heap := heap[id := Entry(key, Pending, 1)];
      entries := entries[key := id];
      if key.frontend !in watched {
        watched := watched + {key.frontend};
      }
      assert watched == old(watched) + {key.frontend};
      return MustOpen(id);
    }

    method Publish(e: EntryId, ok: bool)
      requires e in heap
      modifies this
      ensures View() == PoolSections.Publish(old(View()), e, ok)
    {
      heap := heap[e := heap[e].(status := if ok then Opened else Failed)];
      if !ok {
        entries := entries - {heap[e].key};
      }
    }

    method Release(e: EntryId)
      modifies this
      ensures View() == PoolSections.Release(old(View()), e)
    {
      if e in heap && heap[e].key in entries && entries[heap[e].key] == e && heap[e].refs > 0 {
        heap := heap[e := heap[e].(refs := heap[e].refs - 1)];
      }
    }

    /** Detaches a session's entries, draining them from the table one by one. */
    method CloseSession(frontend: Frontend) returns (detached: set<EntryId>)
      modifies this
      ensures (View(), detached) == PoolSections.CloseSession(old(View()), frontend)
    {
      watched := watched - {frontend};
      if closed {
        return {};
      }
      cleanups := cleanups + 1;
      detached := {};
      var rest := entries.Keys;
      ghost var all := entries;
      while rest != {}
        invariant rest <= all.Keys
        invariant entries == map k | k in all && (k.frontend != frontend || k in rest) :: all[k]
        invariant detached == set k | k in all && k.frontend == frontend && k !in rest :: all[k]
        modifies this`entries
        decreases |rest|
      {
        var key :| key in rest;
        rest := rest - {key};
        if key.frontend == frontend {
          assert key in entries;
          detached := detached + {entries[key]};
          entries := entries - {key};
        }
      }
      assert entries == WithoutSession(all, frontend);
      assert detached == OfSession(all, frontend);
    }

    method RecordFailure()
      modifies this
      ensures View() == PoolSections.RecordFailure(old(View()))
    {
      cleanupFailures := cleanupFailures + 1;
    }

    method CleanupDone()
      modifies this
      ensures View() == PoolSections.CleanupDone(old(View()))
    {
      cleanups := cleanups - 1;
    }

    method Close() returns (detached: set<EntryId>)
      modifies this
      ensures (View(), detached) == PoolSections.Close(old(View()))
    {
      if closed {
        return {};
      }
      closed := true;
      detached := {};
      var rest := entries.Keys;
      ghost var all := entries;
      while rest != {}
        invariant rest <= all.Keys
        invariant entries == map k | k in all && k in rest :: all[k]
        invariant detached == set k | k in all && k !in rest :: all[k]
        modifies this`entries
        decreases |rest|
      {
        var key :| key in rest;
        rest := rest - {key};
        detached := detached + {entries[key]};
        entries := entries - {key};
      }
      assert entries == map[];
      assert detached == all.Values;
    }
  }
}
