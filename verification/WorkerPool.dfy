/**
 * The pool of session workers: reuse, coalesced spawning, eviction over the cap, and housekeeping, as a state machine
 * over every interleaving of callers, spawns, turns and timers.
 */
module WorkerPool {
  import opened Basics

  type Key = string

  datatype Config = Config(maxWorkers: nat, idleEvict: nat)

  datatype Worker = Worker(id: nat, lastUsed: nat, busy: bool, dead: bool, run: Option<string>)

  /** One pool entry; entries stand in the order their keys were inserted. */
  datatype Entry = Entry(key: Key, worker: Worker)

  datatype Why = OverCap | Idle | Manual

  datatype Effect =
    | SpawnStarted(key: Key)
    | Spawned(key: Key, id: nat)
    | SpawnFailed(key: Key)
    | Served(caller: nat, key: Key, id: nat)
    | Refused(caller: nat, key: Key)
    | GateRejected(run: string)
    | Closed(id: nat, key: Key, busy: bool, why: Why)
    | Forgotten(id: nat, key: Key)

  /** The worker map, the callers waiting for each outstanding spawn, and what has happened. */
  datatype World = World(workers: seq<Entry>, waiting: map<Key, seq<nat>>, nextId: nat, calls: nat, log: seq<Effect>)

  /** Changes stands for whatever a turn, a touch or a dying session does to the fields of a pooled worker. */
  datatype Event =
    | Get(key: Key)
    | SpawnDone(key: Key, now: nat)
    | SpawnFails(key: Key)
    | Changes(key: Key, to: Worker)
    | Housekeep(now: nat)
    | Evict(key: Key)

  const START: World := World([], map[], 0, 0, [])

  // ----- the worker map ------------------------------------------------------------------------------

  function Find(ws: seq<Entry>, key: Key): Option<Worker> {
    if ws == [] then None
    else if ws[|ws| - 1].key == key then Some(ws[|ws| - 1].worker)
    else Find(ws[..|ws| - 1], key)
  }

  function Drop(ws: seq<Entry>, key: Key): seq<Entry> {
    if ws == [] then []
    else if ws[|ws| - 1].key == key then Drop(ws[..|ws| - 1], key)
    else Drop(ws[..|ws| - 1], key) + [ws[|ws| - 1]]
  }

  /** A field of the worker under a key changes in place. */
  function Change(ws: seq<Entry>, key: Key, w: Worker): seq<Entry> {
    if ws == [] then []
    else if ws[|ws| - 1].key == key then Change(ws[..|ws| - 1], key, w) + [Entry(key, w)]
    else Change(ws[..|ws| - 1], key, w) + [ws[|ws| - 1]]
  }

  // ----- the cap victim -----------------------------------------------------------------------------------

  /** Stable insertion by last use: after every entry used no later. */
  function Insert(ws: seq<Entry>, e: Entry): seq<Entry> {
    if ws == [] || ws[|ws| - 1].worker.lastUsed <= e.worker.lastUsed then ws + [e]
    else Insert(ws[..|ws| - 1], e) + [ws[|ws| - 1]]
  }

  function SortedByUse(ws: seq<Entry>): seq<Entry> {
    if ws == [] then [] else Insert(SortedByUse(ws[..|ws| - 1]), ws[|ws| - 1])
  }

  function FirstIdle(ws: seq<Entry>): Option<Entry> {
    if ws == [] then None else if !ws[0].worker.busy then Some(ws[0]) else FirstIdle(ws[1..])
  }

  function Victim(ws: seq<Entry>): Option<Entry> {
    FirstIdle(SortedByUse(ws))
  }

  // ----- steps ------------------------------------------------------------------------------------------------

  function Evicted(w: World, e: Entry, why: Why): World {
    w.(workers := Drop(w.workers, e.key),
       log := w.log + (if e.worker.run.Some? then [GateRejected(e.worker.run.value)] else [])
              + [Closed(e.worker.id, e.key, e.worker.busy, why)])
  }

  /** The eviction loop of get. */
  function EvictOverCap(cfg: Config, w: World): World
    decreases |w.workers|
  {
    var victim := Victim(w.workers);
    if |w.workers| < cfg.maxWorkers || victim.None? then w
    else
      VictimShrinks(w.workers);
      EvictOverCap(cfg, Evicted(w, victim.value, OverCap))
  }

  function DropDead(w: World, key: Key): World {
    var found := Find(w.workers, key);
    if found.Some? then w.(workers := Drop(w.workers, key), log := w.log + [Forgotten(found.value.id, key)]) else w
  }

  function GetStep(cfg: Config, w: World, key: Key): World {
    var caller := w.calls;
    var called := w.(calls := w.calls + 1);
    var found := Find(w.workers, key);
    if found.Some? && !found.value.dead then called.(log := called.log + [Served(caller, key, found.value.id)])
    else
      var live := DropDead(called, key);
      if key in live.waiting then live.(waiting := live.waiting[key := live.waiting[key] + [caller]])
      else EvictOverCap(cfg, live.(waiting := live.waiting[key := [caller]], log := live.log + [SpawnStarted(key)]))
  }

  function ServeAll(callers: seq<nat>, key: Key, id: nat): seq<Effect> {
    seq(|callers|, i requires 0 <= i < |callers| => Served(callers[i], key, id))
  }

  function RefuseAll(callers: seq<nat>, key: Key): seq<Effect> {
    seq(|callers|, i requires 0 <= i < |callers| => Refused(callers[i], key))
  }

  /** Every caller of the spawn gets the one new worker. */
  function SpawnDoneStep(w: World, key: Key, now: nat): World {
    if key !in w.waiting then w
    else
      World(w.workers + [Entry(key, Worker(w.nextId, now, false, false, None))], w.waiting - {key}, w.nextId + 1, w.calls,
            w.log + [Spawned(key, w.nextId)] + ServeAll(w.waiting[key], key, w.nextId))
  }

  function SpawnFailsStep(w: World, key: Key): World {
    if key !in w.waiting then w
    else w.(waiting := w.waiting - {key}, log := w.log + [SpawnFailed(key)] + RefuseAll(w.waiting[key], key))
  }

  predicate Expired(cfg: Config, w: Worker, now: nat) {
    now - w.lastUsed > cfg.idleEvict && !w.busy
  }

  function HousekeepOne(cfg: Config, w: World, e: Entry, now: nat): World {
    if e.worker.dead then w.(workers := Drop(w.workers, e.key), log := w.log + [Forgotten(e.worker.id, e.key)])
    else if Expired(cfg, e.worker, now) then Evicted(w, e, Idle)
    else w
  }

  function HousekeepAll(cfg: Config, w: World, es: seq<Entry>, now: nat): World {
    if es == [] then w else HousekeepOne(cfg, HousekeepAll(cfg, w, es[..|es| - 1], now), es[|es| - 1], now)
  }

  function EvictStep(w: World, key: Key): World {
    var found := Find(w.workers, key);
    if found.None? then w else Evicted(w, Entry(key, found.value), Manual)
  }

  function Step(cfg: Config, w: World, e: Event): World {
    match e
    case Get(key) => GetStep(cfg, w, key)
    case SpawnDone(key, now) => SpawnDoneStep(w, key, now)
    case SpawnFails(key) => SpawnFailsStep(w, key)
    case Housekeep(now) => HousekeepAll(cfg, w, w.workers, now)
    case Evict(key) => EvictStep(w, key)
    case Changes(key, to) =>
      var found := Find(w.workers, key);
      if found.None? then w else w.(workers := Change(w.workers, key, to.(id := found.value.id)))
  }

  function After(cfg: Config, es: seq<Event>): World {
    if es == [] then START else Step(cfg, After(cfg, es[..|es| - 1]), es[|es| - 1])
  }

  // ----- the victim is the least recently used idle worker ------------------------------------------------------------

  lemma {:induction false} InsertKeeps(ws: seq<Entry>, e: Entry)
    ensures forall x :: x in Insert(ws, e) <==> x in ws || x == e
    ensures |Insert(ws, e)| == |ws| + 1
  {
    if ws != [] && ws[|ws| - 1].worker.lastUsed > e.worker.lastUsed {
      InsertKeeps(ws[..|ws| - 1], e);
      assert ws == ws[..|ws| - 1] + [ws[|ws| - 1]];
    }
  }

  predicate ByUse(ws: seq<Entry>) {
    forall i, j :: 0 <= i < j < |ws| ==> ws[i].worker.lastUsed <= ws[j].worker.lastUsed
  }

  lemma {:induction false} InsertSorts(ws: seq<Entry>, e: Entry)
    requires ByUse(ws)
    ensures ByUse(Insert(ws, e))
  {
    if ws != [] && ws[|ws| - 1].worker.lastUsed > e.worker.lastUsed {
      var front := ws[..|ws| - 1];
      InsertSorts(front, e);
      InsertKeeps(front, e);
      forall x | x in Insert(front, e) ensures x.worker.lastUsed <= ws[|ws| - 1].worker.lastUsed {
        if x in front {
          var k :| 0 <= k < |front| && front[k] == x;
          assert ws[k] == x;
        }
      }
    }
  }

  lemma {:induction false} SortIsSorted(ws: seq<Entry>)
    ensures ByUse(SortedByUse(ws)) && |SortedByUse(ws)| == |ws|
    ensures forall x :: x in SortedByUse(ws) <==> x in ws
  {
    hide Insert, ByUse;
    if ws == [] {
      EmptyIsSorted();
    } else {
      SortIsSorted(ws[..|ws| - 1]);
      InsertKeeps(SortedByUse(ws[..|ws| - 1]), ws[|ws| - 1]);
      InsertSorts(SortedByUse(ws[..|ws| - 1]), ws[|ws| - 1]);
      assert ws == ws[..|ws| - 1] + [ws[|ws| - 1]];
    }
  }

  lemma EmptyIsSorted()
    ensures ByUse([])
  {
  }

  lemma {:induction false} FirstIdleIs(ws: seq<Entry>)
    requires ByUse(ws)
    ensures FirstIdle(ws).Some? ==> FirstIdle(ws).value in ws && !FirstIdle(ws).value.worker.busy
    ensures FirstIdle(ws).Some? ==>
              forall x :: x in ws && !x.worker.busy ==> FirstIdle(ws).value.worker.lastUsed <= x.worker.lastUsed
    ensures FirstIdle(ws).None? ==> forall x :: x in ws ==> x.worker.busy
  {
    if ws != [] && ws[0].worker.busy { FirstIdleIs(ws[1..]); }
  }

  /** The victim is idle and no idle worker was used longer ago; there is none exactly when every worker is busy. */
  lemma VictimIsLeastRecentlyUsedIdle(ws: seq<Entry>)
    ensures Victim(ws).None? <==> forall x :: x in ws ==> x.worker.busy
    ensures Victim(ws).Some? ==> Victim(ws).value in ws && !Victim(ws).value.worker.busy
    ensures Victim(ws).Some? ==>
              forall x :: x in ws && !x.worker.busy ==> Victim(ws).value.worker.lastUsed <= x.worker.lastUsed
  {
    hide FirstIdle, SortedByUse, ByUse;
    SortIsSorted(ws);
    FirstIdleIs(SortedByUse(ws));
  }

  /** The workers last used at one instant, in map order. */
  function UsedAt(ws: seq<Entry>, t: int): seq<Entry> {
    if ws == [] then [] else UsedAt(ws[..|ws| - 1], t) + (if ws[|ws| - 1].worker.lastUsed == t then [ws[|ws| - 1]] else [])
  }

  lemma {:induction false} UsedAtConcat(a: seq<Entry>, b: seq<Entry>, t: int)
    ensures UsedAt(a + b, t) == UsedAt(a, t) + UsedAt(b, t)
  {
    if b == [] {
      assert a + b == a;
    } else {
      assert (a + b)[..|a + b| - 1] == a + b[..|b| - 1];
      UsedAtConcat(a, b[..|b| - 1], t);
    }
  }

  lemma {:induction false} InsertIsStable(ws: seq<Entry>, e: Entry, t: int)
    ensures UsedAt(Insert(ws, e), t) == UsedAt(ws + [e], t)
  {
    UsedAtConcat(ws, [e], t);
    assert [e][..0] == [];
    if ws != [] && ws[|ws| - 1].worker.lastUsed > e.worker.lastUsed {
      var last := ws[|ws| - 1];
      assert [last][..0] == [];
      InsertIsStable(ws[..|ws| - 1], e, t);
      UsedAtConcat(ws[..|ws| - 1], [e], t);
      UsedAtConcat(Insert(ws[..|ws| - 1], e), [last], t);
    }
  }

  /** The sort is stable: workers last used at the same instant keep their order. */
  lemma {:induction false} SortIsStable(ws: seq<Entry>, t: int)
    ensures UsedAt(SortedByUse(ws), t) == UsedAt(ws, t)
  {
    hide Insert;
    if ws != [] {
      var front, last := ws[..|ws| - 1], ws[|ws| - 1];
      SortIsStable(front, t);
      InsertIsStable(SortedByUse(front), last, t);
      UsedAtConcat(SortedByUse(front), [last], t);
      UsedAtConcat(front, [last], t);
      assert ws == front + [last];
    }
  }

  lemma {:induction false} FirstIdleOfItsUse(ws: seq<Entry>)
    ensures FirstIdle(ws).Some? ==> FirstIdle(UsedAt(ws, FirstIdle(ws).value.worker.lastUsed)) == FirstIdle(ws)
  {
    if ws != [] && FirstIdle(ws).Some? {
      var t := FirstIdle(ws).value.worker.lastUsed;
      UsedAtConcat([ws[0]], ws[1..], t);
      assert ws == [ws[0]] + ws[1..] && [ws[0]][..0] == [];
      var here := UsedAt([ws[0]], t);
      assert here == if ws[0].worker.lastUsed == t then [ws[0]] else [];
      assert here != [] ==> UsedAt(ws, t)[0] == ws[0] && UsedAt(ws, t)[1..] == UsedAt(ws[1..], t);
      assert here == [] ==> UsedAt(ws, t) == UsedAt(ws[1..], t);
      if ws[0].worker.busy { FirstIdleOfItsUse(ws[1..]); }
    }
  }

  /** Among idle workers last used at the same instant, the victim is the one longest in the map. */
  lemma VictimIsFirstOfItsUse(ws: seq<Entry>)
    ensures Victim(ws).Some? ==> FirstIdle(UsedAt(ws, Victim(ws).value.worker.lastUsed)) == Victim(ws)
  {
    hide FirstIdle, SortedByUse, UsedAt;
    FirstIdleOfItsUse(SortedByUse(ws));
    if Victim(ws).Some? { SortIsStable(ws, Victim(ws).value.worker.lastUsed); }
  }

  lemma {:induction false} DropKeeps(ws: seq<Entry>, key: Key)
    ensures forall x :: x in Drop(ws, key) <==> x in ws && x.key != key
    ensures |Drop(ws, key)| <= |ws| && ((exists x :: x in ws && x.key == key) ==> |Drop(ws, key)| < |ws|)
  {
    if ws != [] {
      DropKeeps(ws[..|ws| - 1], key);
      assert ws == ws[..|ws| - 1] + [ws[|ws| - 1]];
    }
  }

  lemma VictimShrinks(ws: seq<Entry>)
    ensures Victim(ws).Some? ==> |Drop(ws, Victim(ws).value.key)| < |ws|
  {
    hide Drop;
    VictimIsLeastRecentlyUsedIdle(ws);
    if Victim(ws).Some? { DropKeeps(ws, Victim(ws).value.key); }
  }
}
