/**
 * What each step of the pool does, worker by worker and caller by caller: who is served, what is closed and rejected,
 * and which workers are left.
 */
module PoolMeaning {
  import opened Basics
  import opened WorkerPool
  import opened PoolSafety

  // ----- finding a worker ---------------------------------------------------------------------------------------

  /** With one worker per key, looking a key up finds the worker pooled under it, or none. */
  lemma FindExactly(ws: seq<Entry>, key: Key, worker: Worker)
    requires Unique(ws)
    ensures Find(ws, key) == Some(worker) <==> Entry(key, worker) in ws
    ensures Find(ws, key) == None <==> forall e :: e in ws ==> e.key != key
  {
    hide Find;
    FindIs(ws, key);
    if Entry(key, worker) in ws && Find(ws, key).Some? { SameKey(ws, Entry(key, worker), Entry(key, Find(ws, key).value)); }
  }

  /** Dropping a key takes its worker out and leaves the others in order. */
  lemma {:induction false} DropExactly(ws: seq<Entry>, i: nat)
    requires Unique(ws) && i < |ws|
    ensures Drop(ws, ws[i].key) == ws[..i] + ws[i + 1..]
  {
    var front, last := ws[..|ws| - 1], ws[|ws| - 1];
    if i == |ws| - 1 {
      DropAbsent(front, last.key);
    } else {
      DropExactly(front, i);
      assert front[i] == ws[i];
      assert ws[i + 1..] == front[i + 1..] + [last];
    }
  }

  lemma {:induction false} DropAbsent(ws: seq<Entry>, key: Key)
    requires forall i :: 0 <= i < |ws| ==> ws[i].key != key
    ensures Drop(ws, key) == ws
  {
    if ws != [] { DropAbsent(ws[..|ws| - 1], key); }
  }

  // ----- get ----------------------------------------------------------------------------------------------------------

  /** A live worker serves the caller at once, and nothing else changes. */
  lemma LiveWorkerServes(cfg: Config, w: World, key: Key, worker: Worker)
    requires Unique(w.workers) && Entry(key, worker) in w.workers && !worker.dead
    ensures var v := Step(cfg, w, Get(key));
            v == World(w.workers, w.waiting, w.nextId, w.calls + 1, w.log + [Served(w.calls, key, worker.id)])
  {
    hide Find, EvictOverCap, DropDead;
    FindExactly(w.workers, key, worker);
  }

  /** What is left when the worker of a key, if there is one, is found dead and forgotten. */
  ghost predicate Forgot(w: World, v: World, key: Key) {
    && v.waiting == w.waiting && v.nextId == w.nextId
    && ((exists i :: 0 <= i < |w.workers| && w.workers[i].key == key && v.workers == w.workers[..i] + w.workers[i + 1..]
                     && v.log == w.log + [Forgotten(w.workers[i].worker.id, key)])
        || ((forall e :: e in w.workers ==> e.key != key) && v.workers == w.workers && v.log == w.log))
  }

  lemma DeadIsForgotten(w: World, key: Key)
    requires Unique(w.workers)
    ensures Forgot(w, DropDead(w, key), key)
  {
    hide Find, Drop;
    FindIs(w.workers, key);
    if Find(w.workers, key).Some? {
      var i :| 0 <= i < |w.workers| && w.workers[i] == Entry(key, Find(w.workers, key).value);
      DropExactly(w.workers, i);
    }
  }

  /** Without a live worker the caller waits: at the spawn under way, or at one it starts after room has been made. */
  lemma OthersWait(cfg: Config, w: World, key: Key)
    requires Unique(w.workers) && forall e :: e in w.workers && e.key == key ==> e.worker.dead
    ensures var v := Step(cfg, w, Get(key));
            exists live: World {:trigger Forgot(w, live, key)} ::
              && Forgot(w, live, key) && live.calls == w.calls + 1
              && if key in w.waiting
                 then v == live.(waiting := w.waiting[key := w.waiting[key] + [w.calls]])
                 else v == EvictOverCap(cfg, live.(waiting := w.waiting[key := [w.calls]], log := live.log + [SpawnStarted(key)]))
  {
    hide Find, EvictOverCap, DropDead;
    FindIs(w.workers, key);
    var called := w.(calls := w.calls + 1);
    DeadIsForgotten(called, key);
    var live := DropDead(called, key);
    assert live.calls == w.calls + 1 by { DropDeadKeepsCalls(called, key); }
    assert Forgot(w, live, key);
  }

  lemma DropDeadKeepsCalls(w: World, key: Key)
    ensures DropDead(w, key).calls == w.calls
  {
    hide Drop, Find;
  }

  // ----- eviction -----------------------------------------------------------------------------------------------------

  /** Closing a worker: it leaves the pool, the approval its run waits for is rejected, and then it is closed. */
  ghost predicate ClosedAt(w: World, v: World, i: nat, why: Why) {
    && i < |w.workers| && v.waiting == w.waiting && v.nextId == w.nextId && v.calls == w.calls
    && v.workers == w.workers[..i] + w.workers[i + 1..]
    && var e := w.workers[i];
       v.log == w.log + (match e.worker.run case Some(run) => [GateRejected(run)] case None => [])
                + [Closed(e.worker.id, e.key, e.worker.busy, why)]
  }

  lemma EvictedMeans(w: World, i: nat, why: Why)
    requires Unique(w.workers) && i < |w.workers|
    ensures ClosedAt(w, Evicted(w, w.workers[i], why), i, why)
  {
    hide Drop;
    DropExactly(w.workers, i);
  }

  /** The least recently used idle worker, the first of them in the map. */
  predicate IsVictim(ws: seq<Entry>, i: nat) {
    && i < |ws| && !ws[i].worker.busy
    && (forall j :: 0 <= j < |ws| && !ws[j].worker.busy ==> ws[i].worker.lastUsed <= ws[j].worker.lastUsed)
    && forall j :: 0 <= j < i && !ws[j].worker.busy ==> ws[i].worker.lastUsed < ws[j].worker.lastUsed
  }

  lemma {:induction false} FirstIdleIsFirst(ws: seq<Entry>)
    ensures FirstIdle(ws).Some? ==>
              exists i :: 0 <= i < |ws| && FirstIdle(ws).value == ws[i] && !ws[i].worker.busy && forall j :: 0 <= j < i ==> ws[j].worker.busy
  {
    if ws != [] && ws[0].worker.busy && FirstIdle(ws).Some? {
      FirstIdleIsFirst(ws[1..]);
      var i :| 0 <= i < |ws[1..]| && FirstIdle(ws[1..]).value == ws[1..][i] && !ws[1..][i].worker.busy
               && forall j :: 0 <= j < i ==> ws[1..][j].worker.busy;
      assert ws[i + 1] == ws[1..][i];
      assert forall j :: 0 < j < i + 1 ==> ws[j] == ws[1..][j - 1];
    }
  }

  lemma {:induction false} FirstIdleUsedAt(ws: seq<Entry>, t: int)
    ensures FirstIdle(UsedAt(ws, t)).Some? ==>
              exists i :: 0 <= i < |ws| && ws[i] == FirstIdle(UsedAt(ws, t)).value && !ws[i].worker.busy && ws[i].worker.lastUsed == t
                          && forall j :: 0 <= j < i && ws[j].worker.lastUsed == t ==> ws[j].worker.busy
  {
    if ws != [] {
      var head, tail := [ws[0]], ws[1..];
      assert ws == head + tail && head[..0] == [];
      UsedAtConcat(head, tail, t);
      FirstIdleUsedAt(tail, t);
      assert ws[0].worker.lastUsed == t ==> UsedAt(ws, t)[0] == ws[0] && UsedAt(ws, t)[1..] == UsedAt(tail, t);
      assert ws[0].worker.lastUsed != t ==> UsedAt(ws, t) == UsedAt(tail, t);
      assert forall j :: 0 < j < |ws| ==> ws[j] == tail[j - 1];
      if FirstIdle(UsedAt(tail, t)).Some? {
        var i :| 0 <= i < |tail| && tail[i] == FirstIdle(UsedAt(tail, t)).value && !tail[i].worker.busy && tail[i].worker.lastUsed == t
                 && forall j :: 0 <= j < i && tail[j].worker.lastUsed == t ==> tail[j].worker.busy;
        assert ws[i + 1] == tail[i];
      }
    }
  }

  lemma VictimExactly(ws: seq<Entry>)
    ensures Victim(ws).None? <==> forall i :: 0 <= i < |ws| ==> ws[i].worker.busy
    ensures Victim(ws).Some? ==> exists i: nat :: IsVictim(ws, i) && ws[i] == Victim(ws).value
  {
    hide Victim, FirstIdle, UsedAt;
    VictimIsLeastRecentlyUsedIdle(ws);
    VictimIsFirstOfItsUse(ws);
    if Victim(ws).Some? {
      var t := Victim(ws).value.worker.lastUsed;
      FirstIdleUsedAt(ws, t);
      var i: nat :| 0 <= i < |ws| && ws[i] == Victim(ws).value && !ws[i].worker.busy && ws[i].worker.lastUsed == t
               && forall j :: 0 <= j < i && ws[j].worker.lastUsed == t ==> ws[j].worker.busy;
      assert forall j :: 0 <= j < |ws| ==> ws[j] in ws;
      assert IsVictim(ws, i);
    }
  }

  /** At the cap, the victim is closed and room is made on; below it, or with every worker busy, nothing is closed. */
  lemma MakingRoomMeans(cfg: Config, w: World)
    requires Unique(w.workers)
    ensures |w.workers| < cfg.maxWorkers || (forall i :: 0 <= i < |w.workers| ==> w.workers[i].worker.busy) ==>
              EvictOverCap(cfg, w) == w
    ensures |w.workers| >= cfg.maxWorkers && (exists i :: 0 <= i < |w.workers| && !w.workers[i].worker.busy) ==>
              exists i: nat, v :: IsVictim(w.workers, i) && ClosedAt(w, v, i, OverCap) && EvictOverCap(cfg, w) == EvictOverCap(cfg, v)
  {
    hide Victim, Evicted, ClosedAt;
    VictimExactly(w.workers);
    if |w.workers| >= cfg.maxWorkers && Victim(w.workers).Some? {
      var i: nat :| IsVictim(w.workers, i) && w.workers[i] == Victim(w.workers).value;
      EvictedMeans(w, i, OverCap);
    }
  }

  /** Evicting by hand closes the worker of the key, busy or not, if there is one. */
  lemma EvictMeans(cfg: Config, w: World, key: Key)
    requires Unique(w.workers)
    ensures (forall e :: e in w.workers ==> e.key != key) ==> Step(cfg, w, Evict(key)) == w
    ensures forall i :: 0 <= i < |w.workers| && w.workers[i].key == key ==> ClosedAt(w, Step(cfg, w, Evict(key)), i, Manual)
  {
    hide Find, Evicted, ClosedAt;
    FindIs(w.workers, key);
    forall i | 0 <= i < |w.workers| && w.workers[i].key == key ensures ClosedAt(w, Step(cfg, w, Evict(key)), i, Manual) {
      FindExactly(w.workers, key, w.workers[i].worker);
      EvictedMeans(w, i, Manual);
    }
  }

  // ----- spawns ----------------------------------------------------------------------------------------------------------

  /** A finished spawn pools a new, idle worker under its key and serves it to every caller in turn. */
  lemma SpawnMeans(cfg: Config, w: World, key: Key, now: nat)
    requires key in w.waiting
    ensures var v, callers := Step(cfg, w, SpawnDone(key, now)), w.waiting[key];
            && v.workers == w.workers + [Entry(key, Worker(w.nextId, now, false, false, None))]
            && v.waiting == w.waiting - {key} && v.nextId == w.nextId + 1 && v.calls == w.calls
            && |v.log| == |w.log| + 1 + |callers| && w.log <= v.log && v.log[|w.log|] == Spawned(key, w.nextId)
            && forall i :: 0 <= i < |callers| ==> v.log[|w.log| + 1 + i] == Served(callers[i], key, w.nextId)
  {
  }

  /** The next get of the key is served that very worker, unless something happened to it. */
  lemma SpawnedIsServedNext(cfg: Config, w: World, key: Key, now: nat)
    requires Safe(w) && key in w.waiting
    ensures var v := Step(cfg, w, SpawnDone(key, now));
            Step(cfg, v, Get(key)) == v.(calls := v.calls + 1, log := v.log + [Served(v.calls, key, w.nextId)])
  {
    hide Step, GoneStaysGone, BusyIsSafe;
    SpawnMeans(cfg, w, key, now);
    var v := Step(cfg, w, SpawnDone(key, now));
    var worker := Worker(w.nextId, now, false, false, None);
    UniqueSnoc(w.workers, Entry(key, worker));
    assert v.workers[|w.workers|] == Entry(key, worker);
    LiveWorkerServes(cfg, v, key, worker);
  }

  /** A failed spawn pools nothing and refuses every caller in turn. */
  lemma FailedSpawnMeans(cfg: Config, w: World, key: Key)
    requires key in w.waiting
    ensures var v, callers := Step(cfg, w, SpawnFails(key)), w.waiting[key];
            && v.workers == w.workers && v.waiting == w.waiting - {key} && v.nextId == w.nextId && v.calls == w.calls
            && |v.log| == |w.log| + 1 + |callers| && w.log <= v.log && v.log[|w.log|] == SpawnFailed(key)
            && forall i :: 0 <= i < |callers| ==> v.log[|w.log| + 1 + i] == Refused(callers[i], key)
  {
  }

  lemma NoSpawnNoChange(cfg: Config, w: World, key: Key, now: nat)
    requires key !in w.waiting
    ensures Step(cfg, w, SpawnDone(key, now)) == w && Step(cfg, w, SpawnFails(key)) == w
  {
  }

  // ----- housekeeping, and what turns do to workers -------------------------------------------------------------------------

  /** Of each entry: a dead one is forgotten, one idle for longer than the limit is closed, any other is left alone. */
  lemma HousekeepingMeans(cfg: Config, w: World, i: nat, now: nat)
    requires Unique(w.workers) && i < |w.workers|
    ensures var e, v := w.workers[i], HousekeepOne(cfg, w, w.workers[i], now);
            if e.worker.dead then v == w.(workers := w.workers[..i] + w.workers[i + 1..], log := w.log + [Forgotten(e.worker.id, e.key)])
            else if !e.worker.busy && e.worker.lastUsed + cfg.idleEvict < now then ClosedAt(w, v, i, Idle)
            else v == w
  {
    hide Drop, Evicted, ClosedAt;
    DropExactly(w.workers, i);
    EvictedMeans(w, i, Idle);
  }

  /** A pooled worker changes in place, but for its id, and no other does. */
  lemma ChangeMeans(cfg: Config, w: World, i: nat, to: Worker)
    requires Unique(w.workers) && i < |w.workers|
    ensures Step(cfg, w, Changes(w.workers[i].key, to)) ==
            w.(workers := w.workers[i := Entry(w.workers[i].key, to.(id := w.workers[i].worker.id))])
  {
    hide Find, Change;
    var e := w.workers[i];
    FindExactly(w.workers, e.key, e.worker);
    ChangeIs(w.workers, e.key, to.(id := e.worker.id));
  }
}
