/**
 * What the pool keeps over every interleaving: no busy worker is closed to make room or for idleness, a spawn per key
 * is outstanding at most once, every caller is answered once, and a closed worker is never handed out.
 */
module PoolSafety {
  import opened Basics
  import opened WorkerPool

  lemma Position(log: seq<Effect>, block: seq<Effect>, i: nat)
    requires i < |log + block|
    ensures i < |log| ==> (log + block)[i] == log[i] && log[i] in log
    ensures i >= |log| ==> (log + block)[i] == block[i - |log|] && block[i - |log|] in block
  {
  }

  // ----- the eviction loop ----------------------------------------------------------------------------

  /** The loop ends below the cap or with every pooled worker busy; it takes no busy worker and adds none. */
  lemma {:induction false} EvictionEnds(cfg: Config, w: World)
    ensures var v := EvictOverCap(cfg, w);
            |v.workers| < cfg.maxWorkers || forall x :: x in v.workers ==> x.worker.busy
    ensures forall x :: x in EvictOverCap(cfg, w).workers ==> x in w.workers
    ensures forall x :: x in w.workers && x.worker.busy && Unique(w.workers) ==> x in EvictOverCap(cfg, w).workers
    decreases |w.workers|
  {
    hide Victim, Drop;
    var victim := Victim(w.workers);
    VictimIsLeastRecentlyUsedIdle(w.workers);
    if |w.workers| >= cfg.maxWorkers && victim.Some? {
      VictimShrinks(w.workers);
      DropKeeps(w.workers, victim.value.key);
      var next := Evicted(w, victim.value, OverCap);
      EvictionEnds(cfg, next);
      if Unique(w.workers) {
        DropUnique(w.workers, victim.value.key);
        forall x | x in w.workers && x.worker.busy ensures x in next.workers { SameKey(w.workers, x, victim.value); }
      }
    }
  }

  /** Keys and worker ids are unique in the pool. */
  predicate Unique(ws: seq<Entry>) {
    forall i, j :: 0 <= i < j < |ws| ==> ws[i].key != ws[j].key && ws[i].worker.id != ws[j].worker.id
  }

  lemma SameKey(ws: seq<Entry>, a: Entry, b: Entry)
    requires Unique(ws) && a in ws && b in ws
    ensures a.key == b.key ==> a == b
    ensures a.worker.id == b.worker.id ==> a == b
  {
    var i :| 0 <= i < |ws| && ws[i] == a;
    var j :| 0 <= j < |ws| && ws[j] == b;
    if a.key == b.key || a.worker.id == b.worker.id { assert !(i < j) && !(j < i); }
  }

  lemma UniqueSnoc(ws: seq<Entry>, e: Entry)
    requires Unique(ws) && forall x :: x in ws ==> x.key != e.key && x.worker.id != e.worker.id
    ensures Unique(ws + [e])
  {
    forall i, j | 0 <= i < j < |ws + [e]|
      ensures (ws + [e])[i].key != (ws + [e])[j].key && (ws + [e])[i].worker.id != (ws + [e])[j].worker.id
    {
      if j == |ws| { assert ws[i] in ws; }
    }
  }

  lemma {:induction false} DropUnique(ws: seq<Entry>, key: Key)
    requires Unique(ws)
    ensures Unique(Drop(ws, key))
  {
    if ws != [] {
      var front, last := ws[..|ws| - 1], ws[|ws| - 1];
      DropUnique(front, key);
      DropKeeps(front, key);
      if last.key != key {
        forall x | x in Drop(front, key) ensures x.key != last.key && x.worker.id != last.worker.id {
          var k :| 0 <= k < |front| && front[k] == x;
          assert ws[k] == x;
        }
        UniqueSnoc(Drop(front, key), last);
      }
    }
  }

  lemma {:induction false} FindIs(ws: seq<Entry>, key: Key)
    ensures Find(ws, key).Some? ==> Entry(key, Find(ws, key).value) in ws
    ensures Find(ws, key).None? ==> forall x :: x in ws ==> x.key != key
  {
    if ws != [] {
      FindIs(ws[..|ws| - 1], key);
      assert ws == ws[..|ws| - 1] + [ws[|ws| - 1]];
    }
  }

  lemma {:induction false} ChangeIs(ws: seq<Entry>, key: Key, w: Worker)
    ensures |Change(ws, key, w)| == |ws|
    ensures forall i :: 0 <= i < |ws| ==> Change(ws, key, w)[i] == if ws[i].key == key then Entry(key, w) else ws[i]
  {
    if ws != [] { ChangeIs(ws[..|ws| - 1], key, w); }
  }

  // ----- the invariant ------------------------------------------------------------------------------------------

  /** Keys are unique, a key is pooled or being spawned but not both, and ids are fresh. */
  ghost predicate Pooled(w: World) {
    && Unique(w.workers)
    && (forall x :: x in w.workers ==> x.worker.id < w.nextId && x.key !in w.waiting)
  }

  /** Workers that left the pool are gone for good. */
  predicate Leaves(e: Effect, id: nat) {
    (e.Closed? || e.Forgotten?) && e.id == id
  }

  ghost predicate GoneStaysGone(w: World) {
    && (forall e, id: nat :: e in w.log && Leaves(e, id) ==> id < w.nextId)
    && (forall e, x :: e in w.log && x in w.workers ==> !Leaves(e, x.worker.id))
    && (forall i, j, id: nat :: 0 <= i < j < |w.log| && Leaves(w.log[i], id) ==>
          !Leaves(w.log[j], id) && !(w.log[j].Served? && w.log[j].id == id))
  }

  /** Only a manual eviction closes a busy worker. */
  predicate BusyIsSafe(log: seq<Effect>) {
    forall e <- log :: e.Closed? && e.why != Manual ==> !e.busy
  }

  ghost predicate Safe(w: World) {
    Pooled(w) && GoneStaysGone(w) && BusyIsSafe(w.log)
  }

  /** A worker leaves the pool: the effect that says so is new to the log. */
  lemma LeaveSafely(w: World, x: Entry, block: seq<Effect>, e: Effect)
    requires Safe(w) && x in w.workers && Leaves(e, x.worker.id)
    requires forall f :: f in block ==> f.GateRejected?
    requires e.Closed? && e.why != Manual ==> !e.busy
    ensures Safe(w.(workers := Drop(w.workers, x.key), log := w.log + block + [e]))
  {
    hide Unique, Drop;
    var v := w.(workers := Drop(w.workers, x.key), log := w.log + block + [e]);
    DropKeeps(w.workers, x.key);
    DropUnique(w.workers, x.key);
    assert Pooled(v);
    forall f ensures f in v.log <==> f in w.log || f in block || f == e {
      InConcat(w.log, block, f);
      InConcat(w.log + block, [e], f);
    }
    assert BusyIsSafe(v.log);
    forall f, y | f in v.log && y in v.workers ensures !Leaves(f, y.worker.id) {
      SameKey(w.workers, x, y);
    }
    LeaveOrder(w, x, block, e);
  }

  lemma LeaveOrder(w: World, x: Entry, block: seq<Effect>, e: Effect)
    requires GoneStaysGone(w) && x in w.workers && Leaves(e, x.worker.id)
    requires forall f :: f in block ==> f.GateRejected?
    ensures var log := w.log + block + [e];
            forall i, j, id: nat :: 0 <= i < j < |log| && Leaves(log[i], id) ==> !Leaves(log[j], id) && !(log[j].Served? && log[j].id == id)
  {
    var log := w.log + block + [e];
    assert log == w.log + (block + [e]);
    forall k | |w.log| <= k < |log| - 1 ensures log[k].GateRejected? { assert log[k] == block[k - |w.log|]; }
    forall i, j, id: nat | 0 <= i < j < |log| && Leaves(log[i], id) ensures !Leaves(log[j], id) && !(log[j].Served? && log[j].id == id) {
      Position(w.log, block + [e], i);
      Position(w.log, block + [e], j);
      assert log[i] in w.log ==> !Leaves(log[i], x.worker.id);
      assert i < |w.log| + |block|;
      assert !log[i].GateRejected? ==> i < |w.log|;
    }
  }

  lemma EvictSafely(w: World, x: Entry, why: Why)
    requires Safe(w) && x in w.workers && (why == Manual || !x.worker.busy)
    ensures Safe(Evicted(w, x, why))
  {
    hide Safe;
    LeaveSafely(w, x, if x.worker.run.Some? then [GateRejected(x.worker.run.value)] else [],
                Closed(x.worker.id, x.key, x.worker.busy, why));
  }

  lemma ForgetSafely(w: World, x: Entry)
    requires Safe(w) && x in w.workers
    ensures Safe(w.(workers := Drop(w.workers, x.key), log := w.log + [Forgotten(x.worker.id, x.key)]))
  {
    hide Safe;
    LeaveSafely(w, x, [], Forgotten(x.worker.id, x.key));
    assert w.log + [] == w.log;
  }

  lemma {:induction false} EvictionSafe(cfg: Config, w: World)
    requires Safe(w)
    ensures Safe(EvictOverCap(cfg, w))
    ensures EvictOverCap(cfg, w).waiting == w.waiting && EvictOverCap(cfg, w).calls == w.calls
    decreases |w.workers|
  {
    hide Safe, Victim, Drop;
    var victim := Victim(w.workers);
    if |w.workers| >= cfg.maxWorkers && victim.Some? {
      VictimIsLeastRecentlyUsedIdle(w.workers);
      VictimShrinks(w.workers);
      EvictSafely(w, victim.value, OverCap);
      EvictionSafe(cfg, Evicted(w, victim.value, OverCap));
    }
  }

  /** Effects that neither close nor hand out a worker, and a map of waiting callers off the pooled keys. */
  lemma QuietlySafe(w: World, v: World, block: seq<Effect>)
    requires Safe(w) && v.workers == w.workers && v.nextId == w.nextId && v.log == w.log + block
    requires forall f :: f in block ==> !f.Closed? && !f.Forgotten? && (f.Served? ==> exists x :: x in w.workers && x.worker.id == f.id)
    requires forall x :: x in w.workers ==> x.key !in v.waiting
    ensures Safe(v)
  {
    hide Unique;
    forall f ensures f in v.log <==> f in w.log || f in block { InConcat(w.log, block, f); }
    forall i, j, id: nat | 0 <= i < j < |v.log| && Leaves(v.log[i], id)
      ensures !Leaves(v.log[j], id) && !(v.log[j].Served? && v.log[j].id == id)
    {
      Position(w.log, block, i);
      Position(w.log, block, j);
    }
  }

  lemma GetSafe(cfg: Config, w: World, key: Key)
    requires Safe(w)
    ensures Safe(GetStep(cfg, w, key))
  {
    hide GoneStaysGone, BusyIsSafe, Unique, Find, Drop, EvictOverCap;
    var called := w.(calls := w.calls + 1);
    var found := Find(w.workers, key);
    FindIs(w.workers, key);
    assert w.log + [] == w.log;
    QuietlySafe(w, called, []);
    if found.Some? && !found.value.dead {
      assert Entry(key, found.value) in w.workers;
      QuietlySafe(called, GetStep(cfg, w, key), [Served(w.calls, key, found.value.id)]);
    } else {
      var live := DropDead(called, key);
      if found.Some? { ForgetSafely(called, Entry(key, found.value)); }
      DropKeeps(w.workers, key);
      assert forall x :: x in live.workers ==> x.key != key;
      if key in live.waiting {
        assert live.log + [] == live.log;
        QuietlySafe(live, GetStep(cfg, w, key), []);
      } else {
        var started := live.(waiting := live.waiting[key := [w.calls]], log := live.log + [SpawnStarted(key)]);
        QuietlySafe(live, started, [SpawnStarted(key)]);
        EvictionSafe(cfg, started);
      }
    }
  }

  lemma SpawnDoneSafe(w: World, key: Key, now: nat)
    requires Safe(w)
    ensures Safe(SpawnDoneStep(w, key, now))
  {
    if key in w.waiting {
      var e := Entry(key, Worker(w.nextId, now, false, false, None));
      var joined := w.(workers := w.workers + [e], nextId := w.nextId + 1, waiting := w.waiting - {key});
      UniqueSnoc(w.workers, e);
      hide Unique;
      assert Safe(joined) by {
        forall x ensures x in joined.workers <==> x in w.workers || x == e { assert joined.workers == w.workers + [e]; }
      }
      var block := [Spawned(key, w.nextId)] + ServeAll(w.waiting[key], key, w.nextId);
      assert e in joined.workers;
      assert w.log + [Spawned(key, w.nextId)] + ServeAll(w.waiting[key], key, w.nextId) == w.log + block;
      QuietlySafe(joined, SpawnDoneStep(w, key, now), block);
    }
  }

  lemma SpawnFailsSafe(w: World, key: Key)
    requires Safe(w)
    ensures Safe(SpawnFailsStep(w, key))
  {
    if key in w.waiting {
      hide Unique;
      var block := [SpawnFailed(key)] + RefuseAll(w.waiting[key], key);
      assert w.log + [SpawnFailed(key)] + RefuseAll(w.waiting[key], key) == w.log + block;
      QuietlySafe(w, SpawnFailsStep(w, key), block);
    }
  }

  lemma ChangeSafe(w: World, key: Key, to: Worker)
    requires Safe(w) && Find(w.workers, key).Some? && to.id == Find(w.workers, key).value.id
    ensures Safe(w.(workers := Change(w.workers, key, to)))
  {
    hide Find, Change;
    var v := w.(workers := Change(w.workers, key, to));
    FindIs(w.workers, key);
    ChangeIs(w.workers, key, to);
    var before := Entry(key, Find(w.workers, key).value);
    forall i | 0 <= i < |w.workers| ensures v.workers[i].key == w.workers[i].key && v.workers[i].worker.id == w.workers[i].worker.id {
      SameKey(w.workers, w.workers[i], before);
    }
    assert Unique(v.workers);
    forall x | x in v.workers ensures exists y :: y in w.workers && y.key == x.key && y.worker.id == x.worker.id {
      var i :| 0 <= i < |v.workers| && v.workers[i] == x;
      assert w.workers[i] in w.workers;
    }
  }

  // ----- housekeeping ----------------------------------------------------------------------------------------------

  predicate Stays(cfg: Config, e: Entry, now: nat) {
    !e.worker.dead && !Expired(cfg, e.worker, now)
  }

  /** Housekeeping removes exactly the dead and the idle ones of its snapshot; whoever else is pooled stays. */
  lemma {:induction false} HousekeepRemovesExactly(cfg: Config, w: World, es: seq<Entry>, now: nat)
    requires Safe(w) && forall x :: x in es ==> x in w.workers
    requires Unique(es)
    ensures Safe(HousekeepAll(cfg, w, es, now))
    ensures forall x :: x in HousekeepAll(cfg, w, es, now).workers <==> x in w.workers && (x in es ==> Stays(cfg, x, now))
    ensures HousekeepAll(cfg, w, es, now).waiting == w.waiting && HousekeepAll(cfg, w, es, now).calls == w.calls
  {
    hide Safe, Expired, Drop;
    if es != [] {
      var front, e := es[..|es| - 1], es[|es| - 1];
      assert es == front + [e];
      HousekeepRemovesExactly(cfg, w, front, now);
      var before := HousekeepAll(cfg, w, front, now);
      forall x | x in front ensures x.key != e.key {
        var k :| 0 <= k < |front| && front[k] == x;
        assert es[k] == x;
      }
      assert e in before.workers;
      DropKeeps(before.workers, e.key);
      SafeIsUnique(before, e);
      if e.worker.dead {
        ForgetSafely(before, e);
      } else if Expired(cfg, e.worker, now) {
        ExpiredIsIdle(cfg, e.worker, now);
        EvictSafely(before, e, Idle);
      }
    }
  }

  lemma SafeIsUnique(w: World, e: Entry)
    requires Safe(w) && e in w.workers
    ensures forall x :: x in w.workers && x.key == e.key ==> x == e
  {
    forall x | x in w.workers && x.key == e.key ensures x == e { SameKey(w.workers, x, e); }
  }

  lemma ExpiredIsIdle(cfg: Config, t: Worker, now: nat)
    requires Expired(cfg, t, now)
    ensures !t.busy
  {
  }

  // ----- every run -----------------------------------------------------------------------------------------------------

  lemma StepSafe(cfg: Config, w: World, e: Event)
    requires Safe(w)
    ensures Safe(Step(cfg, w, e))
  {
    hide GoneStaysGone, BusyIsSafe, Unique, GetStep, SpawnDoneStep, SpawnFailsStep, HousekeepAll, Find, Change, Evicted;
    match e
    case Get(key) => GetSafe(cfg, w, key);
    case SpawnDone(key, now) => SpawnDoneSafe(w, key, now);
    case SpawnFails(key) => SpawnFailsSafe(w, key);
    case Housekeep(now) => HousekeepRemovesExactly(cfg, w, w.workers, now);
    case Evict(key) =>
      FindIs(w.workers, key);
      if Find(w.workers, key).Some? { EvictSafely(w, Entry(key, Find(w.workers, key).value), Manual); }
    case Changes(key, to) =>
      if Find(w.workers, key).Some? { ChangeSafe(w, key, to.(id := Find(w.workers, key).value.id)); }
  }

  lemma {:induction false} RunSafe(cfg: Config, es: seq<Event>)
    ensures Safe(After(cfg, es))
  {
    if es == [] {
      assert After(cfg, es) == START;
    } else {
      hide Safe, Step;
      RunSafe(cfg, es[..|es| - 1]);
      StepSafe(cfg, After(cfg, es[..|es| - 1]), es[|es| - 1]);
    }
  }

  /** Neither making room nor housekeeping ever closes a worker with a turn in flight. */
  lemma BusyWorkersAreNeverClosed(cfg: Config, es: seq<Event>, id: nat, key: Key, busy: bool, why: Why)
    requires Closed(id, key, busy, why) in After(cfg, es).log && why != Manual
    ensures !busy
  {
    RunSafe(cfg, es);
  }

  /** A worker leaves the pool at most once, and no caller is handed one that has left. */
  lemma ClosedIsNeverHandedOut(cfg: Config, es: seq<Event>, i: nat, j: nat, id: nat)
    requires i < j < |After(cfg, es).log| && Leaves(After(cfg, es).log[i], id)
    ensures !Leaves(After(cfg, es).log[j], id)
    ensures !(After(cfg, es).log[j].Served? && After(cfg, es).log[j].id == id)
  {
    RunSafe(cfg, es);
  }
}
