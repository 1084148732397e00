/**
 * The pool in place: the worker map and its loops, each method proved to take the step of the state machine.
 */
module AgentPool {
  import opened Basics
  import opened WorkerPool

  class Pool {
    const cfg: Config
    var workers: seq<Entry>
    var waiting: map<Key, seq<nat>>
    var nextId: nat
    var calls: nat
    var log: seq<Effect>
    ghost var trace: seq<Event>

    function View(): World
      reads this
    {
      World(workers, waiting, nextId, calls, log)
    }

    ghost predicate Valid()
      reads this
    {
      View() == After(cfg, trace)
    }

    constructor (cfg: Config)
      ensures Valid() && trace == [] && this.cfg == cfg
    {
      this.cfg := cfg;
      workers, waiting, nextId, calls, log, trace := [], map[], 0, 0, [], [];
    }

    ghost method Extend(w: World, e: Event)
      requires w == After(cfg, trace) && View() == Step(cfg, w, e)
      modifies `trace
      ensures trace == old(trace) + [e] && Valid()
    {
      assert (trace + [e])[..|trace|] == trace;
      trace := trace + [e];
    }

    // ----- the worker map ---------------------------------------------------------------------------

    method Lookup(key: Key) returns (found: Option<Worker>)
      ensures found == Find(workers, key)
    {
      found := None;
      for i := 0 to |workers|
        invariant found == Find(workers[..i], key)
      {
        assert workers[..i + 1][..i] == workers[..i];
        if workers[i].key == key { found := Some(workers[i].worker); }
      }
      assert workers[..|workers|] == workers;
    }

    method Remove(key: Key)
      modifies `workers
      ensures workers == Drop(old(workers), key)
    {
      var all := workers;
      workers := [];
      for i := 0 to |all|
        invariant workers == Drop(all[..i], key)
      {
        assert all[..i + 1][..i] == all[..i];
        if all[i].key != key { workers := workers + [all[i]]; }
      }
      assert all[..|all|] == all;
    }

    method Close(e: Entry, why: Why)
      modifies `workers, `log
      ensures View() == Evicted(old(View()), e, why)
    {
      Remove(e.key);
      if e.worker.run.Some? { log := log + [GateRejected(e.worker.run.value)]; }
      log := log + [Closed(e.worker.id, e.key, e.worker.busy, why)];
    }

    // ----- get ------------------------------------------------------------------------------------------

    method FindVictim() returns (victim: Option<Entry>)
      ensures victim == Victim(workers)
    {
      var entries := SortByUse(workers);
      for i := 0 to |entries|
        invariant FirstIdle(entries) == FirstIdle(entries[i..])
      {
        if !entries[i].worker.busy { return Some(entries[i]); }
        assert entries[i..][1..] == entries[i + 1..];
      }
      victim := None;
    }

    method MakeRoom()
      modifies `workers, `log
      ensures View() == EvictOverCap(cfg, old(View()))
    {
      hide Victim, Drop, Evicted;
      while |workers| >= cfg.maxWorkers
        invariant EvictOverCap(cfg, View()) == EvictOverCap(cfg, old(View()))
        decreases |workers|
      {
        var victim := FindVictim();
        if victim.None? { break; }
        VictimShrinks(workers);
        EvictedShrinks(View(), victim.value);
        Close(victim.value, OverCap);
      }
    }

    /** A live worker is handed out at once; otherwise the caller joins the key's spawn, starting it if there is none. */
    method GetWorker(key: Key) returns (served: Option<nat>)
      requires Valid()
      modifies this
      ensures Valid() && trace == old(trace) + [Get(key)]
      ensures served.Some? <==> Find(old(workers), key).Some? && !Find(old(workers), key).value.dead
    {
      hide After, Find, Drop, EvictOverCap;
      ghost var w := View();
      var caller := calls;
      calls := calls + 1;
      var found := Lookup(key);
      if found.Some? && !found.value.dead {
        log := log + [Served(caller, key, found.value.id)];
        served := Some(found.value.id);
      } else {
        served := None;
        if found.Some? {
          Remove(key);
          log := log + [Forgotten(found.value.id, key)];
        }
        assert View() == DropDead(w.(calls := w.calls + 1), key);
        if key in waiting {
          waiting := waiting[key := waiting[key] + [caller]];
        } else {
          waiting, log := waiting[key := [caller]], log + [SpawnStarted(key)];
          MakeRoom();
        }
      }
      Extend(w, Get(key));
    }

    method FinishSpawn(key: Key, now: nat)
      requires Valid() && key in waiting
      modifies this
      ensures Valid() && trace == old(trace) + [SpawnDone(key, now)]
    {
      hide After;
      ghost var w := View();
      var id, queue := nextId, waiting[key];
      nextId := nextId + 1;
      workers := workers + [Entry(key, Worker(id, now, false, false, None))];
      waiting, log := waiting - {key}, log + [Spawned(key, id)];
      ghost var started := log;
      for i := 0 to |queue|
        invariant log == started + ServeAll(queue[..i], key, id)
        invariant View() == World(w.workers + [Entry(key, Worker(id, now, false, false, None))], w.waiting - {key}, w.nextId + 1, w.calls, log)
        invariant trace == old(trace)
      {
        log := log + [Served(queue[i], key, id)];
      }
      assert queue[..|queue|] == queue;
      Extend(w, SpawnDone(key, now));
    }

    method FailSpawn(key: Key)
      requires Valid() && key in waiting
      modifies this
      ensures Valid() && trace == old(trace) + [SpawnFails(key)]
    {
      hide After;
      ghost var w := View();
      var queue := waiting[key];
      waiting, log := waiting - {key}, log + [SpawnFailed(key)];
      ghost var failed := log;
      for i := 0 to |queue|
        invariant log == failed + RefuseAll(queue[..i], key)
        invariant View() == w.(waiting := w.waiting - {key}, log := log) && trace == old(trace)
      {
        log := log + [Refused(queue[i], key)];
      }
      assert queue[..|queue|] == queue;
      Extend(w, SpawnFails(key));
    }

    // ----- housekeeping and eviction -------------------------------------------------------------------------

    method HousekeepEntry(e: Entry, now: nat)
      modifies `workers, `log
      ensures View() == HousekeepOne(cfg, old(View()), e, now)
    {
      hide Drop, Evicted;
      if e.worker.dead {
        Remove(e.key);
        log := log + [Forgotten(e.worker.id, e.key)];
        return;
      }
      if now - e.worker.lastUsed > cfg.idleEvict {
        if e.worker.busy { return; }
        Close(e, Idle);
      }
    }

    method RunHousekeep(now: nat)
      requires Valid()
      modifies this
      ensures Valid() && trace == old(trace) + [Housekeep(now)]
    {
      hide After, HousekeepOne;
      ghost var w := View();
      var entries := workers;
      for i := 0 to |entries|
        invariant View() == HousekeepAll(cfg, w, entries[..i], now) && trace == old(trace)
      {
        assert entries[..i + 1][..i] == entries[..i];
        HousekeepEntry(entries[i], now);
      }
      assert entries[..|entries|] == entries;
      Extend(w, Housekeep(now));
    }

    method EvictKey(key: Key) returns (evicted: bool)
      requires Valid()
      modifies this
      ensures Valid() && trace == old(trace) + [Evict(key)] && evicted == Find(old(workers), key).Some?
    {
      hide After, Find, Evicted;
      ghost var w := View();
      var found := Lookup(key);
      evicted := found.Some?;
      if evicted { Close(Entry(key, found.value), Manual); }
      Extend(w, Evict(key));
    }
  }

  lemma EvictedShrinks(w: World, e: Entry)
    ensures |Evicted(w, e, OverCap).workers| == |Drop(w.workers, e.key)|
  {
  }

  method InsertByUse(sorted: seq<Entry>, e: Entry) returns (r: seq<Entry>)
    ensures r == Insert(sorted, e)
  {
    hide Insert;
    var at := |sorted|;
    assert sorted[..at] == sorted && sorted[at..] == [];
    while at > 0 && sorted[at - 1].worker.lastUsed > e.worker.lastUsed
      invariant 0 <= at <= |sorted|
      invariant Insert(sorted, e) == Insert(sorted[..at], e) + sorted[at..]
    {
      InsertBefore(sorted, e, at);
      at := at - 1;
    }
    InsertHere(sorted[..at], e);
    r := sorted[..at] + [e] + sorted[at..];
  }

  lemma InsertBefore(sorted: seq<Entry>, e: Entry, at: nat)
    requires 0 < at <= |sorted| && sorted[at - 1].worker.lastUsed > e.worker.lastUsed
    ensures Insert(sorted[..at], e) + sorted[at..] == Insert(sorted[..at - 1], e) + sorted[at - 1..]
  {
    assert sorted[..at][..at - 1] == sorted[..at - 1];
    assert [sorted[at - 1]] + sorted[at..] == sorted[at - 1..];
  }

  lemma InsertHere(sorted: seq<Entry>, e: Entry)
    requires sorted == [] || sorted[|sorted| - 1].worker.lastUsed <= e.worker.lastUsed
    ensures Insert(sorted, e) == sorted + [e]
  {
  }

  /** The sort of the entries before the search: stable, by last use. */
  method SortByUse(ws: seq<Entry>) returns (sorted: seq<Entry>)
    ensures sorted == SortedByUse(ws)
  {
    hide Insert;
    sorted := [];
    for i := 0 to |ws|
      invariant sorted == SortedByUse(ws[..i])
    {
      assert ws[..i + 1][..i] == ws[..i];
      sorted := InsertByUse(sorted, ws[i]);
    }
    assert ws[..|ws|] == ws;
  }
}
