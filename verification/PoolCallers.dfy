/**
 * Callers and spawns of the pool: every call is answered exactly once, or waits at one spawn; and a key never has two
 * spawns outstanding.
 */
module PoolCallers {
  import opened Basics
  import opened WorkerPool
  import opened PoolSafety

  predicate Answers(e: Effect, c: nat) {
    (e.Served? || e.Refused?) && e.caller == c
  }

  predicate IsAnswer(e: Effect) {
    e.Served? || e.Refused?
  }

  predicate Answered(log: seq<Effect>, c: nat) {
    exists e <- log :: Answers(e, c)
  }

  predicate Waits(w: World, c: nat) {
    exists k <- w.waiting :: c in w.waiting[k]
  }

  predicate AnsweredOnce(log: seq<Effect>) {
    forall i, j :: 0 <= i < j < |log| && IsAnswer(log[i]) ==> !Answers(log[j], log[i].caller)
  }

  /** Waiting callers are distinct, unanswered, and known. */
  ghost predicate Queued(w: World) {
    && (forall k, i :: k in w.waiting && 0 <= i < |w.waiting[k]| ==> w.waiting[k][i] < w.calls && !Answered(w.log, w.waiting[k][i]))
    && (forall k, i, l, j :: k in w.waiting && l in w.waiting && 0 <= i < |w.waiting[k]| && 0 <= j < |w.waiting[l]| ==>
          w.waiting[k][i] == w.waiting[l][j] ==> k == l && i == j)
  }

  ghost predicate Accounted(w: World) {
    && (forall e :: e in w.log && IsAnswer(e) ==> e.caller < w.calls)
    && AnsweredOnce(w.log)
    && Queued(w)
    && (forall c: nat :: c < w.calls ==> Answered(w.log, c) || Waits(w, c))
  }

  lemma AnsweredConcat(log: seq<Effect>, block: seq<Effect>, c: nat)
    ensures Answered(log + block, c) <==> Answered(log, c) || Answered(block, c)
  {
    forall e ensures e in log + block <==> e in log || e in block { InConcat(log, block, e); }
  }

  lemma OnceConcat(log: seq<Effect>, block: seq<Effect>)
    requires AnsweredOnce(log) && AnsweredOnce(block)
    requires forall e :: e in block && IsAnswer(e) ==> !Answered(log, e.caller)
    ensures AnsweredOnce(log + block)
  {
    forall i, j | 0 <= i < j < |log + block| && IsAnswer((log + block)[i]) ensures !Answers((log + block)[j], (log + block)[i].caller) {
      Position(log, block, i);
      Position(log, block, j);
    }
  }

  /** Effects that answer nobody change no account. */
  lemma QuietlyAccounted(w: World, v: World, block: seq<Effect>)
    requires Accounted(w) && v.waiting == w.waiting && v.calls == w.calls && v.log == w.log + block
    requires forall e :: e in block ==> !IsAnswer(e)
    ensures Accounted(v)
  {
    OnceConcat(w.log, block);
    forall c: nat ensures Answered(v.log, c) <==> Answered(w.log, c) { AnsweredConcat(w.log, block, c); }
    hide Answered, AnsweredOnce;
    forall e | e in v.log && IsAnswer(e) ensures e.caller < v.calls { InConcat(w.log, block, e); }
    forall c: nat | c < v.calls ensures Answered(v.log, c) || Waits(v, c) { assert Waits(w, c) ==> Waits(v, c); }
  }

  lemma EvictedAccounted(w: World, x: Entry, why: Why)
    requires Accounted(w)
    ensures Accounted(Evicted(w, x, why))
  {
    hide Accounted;
    var block := (if x.worker.run.Some? then [GateRejected(x.worker.run.value)] else []) + [Closed(x.worker.id, x.key, x.worker.busy, why)];
    assert Evicted(w, x, why).log == w.log + block;
    QuietlyAccounted(w, Evicted(w, x, why), block);
  }

  lemma {:induction false} EvictionAccounted(cfg: Config, w: World)
    requires Accounted(w)
    ensures Accounted(EvictOverCap(cfg, w))
    decreases |w.workers|
  {
    hide Accounted, Victim, Drop;
    var victim := Victim(w.workers);
    if |w.workers| >= cfg.maxWorkers && victim.Some? {
      VictimShrinks(w.workers);
      EvictedAccounted(w, victim.value, OverCap);
      EvictionAccounted(cfg, Evicted(w, victim.value, OverCap));
    }
  }

  lemma {:induction false} HousekeepAccounted(cfg: Config, w: World, es: seq<Entry>, now: nat)
    requires Accounted(w)
    ensures Accounted(HousekeepAll(cfg, w, es, now))
  {
    hide Accounted, Evicted, Expired;
    if es != [] {
      var before, e := HousekeepAll(cfg, w, es[..|es| - 1], now), es[|es| - 1];
      HousekeepAccounted(cfg, w, es[..|es| - 1], now);
      EvictedAccounted(before, e, Idle);
      QuietlyAccounted(before, before.(workers := Drop(before.workers, e.key), log := before.log + [Forgotten(e.worker.id, e.key)]),
                       [Forgotten(e.worker.id, e.key)]);
    }
  }

  // ----- a call ------------------------------------------------------------------------------------------

  /** The new caller, numbered w.calls, is answered by the block. */
  lemma NewCallerAnswered(w: World, key: Key, id: nat)
    requires Accounted(w)
    ensures Accounted(w.(calls := w.calls + 1, log := w.log + [Served(w.calls, key, id)]))
  {
    var block := [Served(w.calls, key, id)];
    var v := w.(calls := w.calls + 1, log := w.log + block);
    assert !Answered(w.log, w.calls);
    OnceConcat(w.log, block);
    forall c: nat ensures Answered(v.log, c) <==> Answered(w.log, c) || c == w.calls {
      AnsweredConcat(w.log, block, c);
      assert block[0] in block;
    }
    hide Answered, AnsweredOnce;
    forall e | e in v.log && IsAnswer(e) ensures e.caller < v.calls { InConcat(w.log, block, e); }
    forall c: nat | c < v.calls ensures Answered(v.log, c) || Waits(v, c) { assert Waits(w, c) ==> Waits(v, c); }
  }

  /** The new caller joins the queue of a key. */
  lemma NewCallerWaits(w: World, key: Key)
    requires Accounted(w)
    ensures Accounted(w.(calls := w.calls + 1, waiting := w.waiting[key := (if key in w.waiting then w.waiting[key] else []) + [w.calls]]))
  {
    var queue := if key in w.waiting then w.waiting[key] else [];
    var v := w.(calls := w.calls + 1, waiting := w.waiting[key := queue + [w.calls]]);
    assert !Answered(w.log, w.calls);
    hide Answered, AnsweredOnce;
    NewCallerQueued(w, v, key, queue);
    forall c: nat | c < v.calls ensures Answered(v.log, c) || Waits(v, c) {
      if c == w.calls {
        assert c == v.waiting[key][|queue|];
      } else if !Answered(w.log, c) {
        var k :| k in w.waiting && c in w.waiting[k];
        assert c in v.waiting[k];
      }
    }
  }

  lemma NewCallerQueued(w: World, v: World, key: Key, queue: seq<nat>)
    requires Queued(w) && queue == (if key in w.waiting then w.waiting[key] else []) && !Answered(w.log, w.calls)
    requires v == w.(calls := w.calls + 1, waiting := w.waiting[key := queue + [w.calls]])
    ensures Queued(v)
  {
    hide Answered;
    forall k, i | k in v.waiting && 0 <= i < |v.waiting[k]|
      ensures (v.waiting[k][i] == w.calls && k == key && i == |queue|)
              || (k in w.waiting && i < |w.waiting[k]| && v.waiting[k][i] == w.waiting[k][i])
    {
    }
  }

  lemma GetAccounted(cfg: Config, w: World, key: Key)
    requires Accounted(w)
    ensures Accounted(GetStep(cfg, w, key))
  {
    hide Accounted, Find, Drop, EvictOverCap;
    var found := Find(w.workers, key);
    if found.Some? && !found.value.dead {
      NewCallerAnswered(w, key, found.value.id);
    } else {
      var live := DropDead(w, key);
      if found.Some? {
        QuietlyAccounted(w, live, [Forgotten(found.value.id, key)]);
      }
      NewCallerWaits(live, key);
      var queued := live.(calls := w.calls + 1, waiting := live.waiting[key := (if key in live.waiting then live.waiting[key] else []) + [w.calls]]);
      if key !in w.waiting {
        assert [] + [w.calls] == [w.calls];
        var started := queued.(log := queued.log + [SpawnStarted(key)]);
        QuietlyAccounted(queued, started, [SpawnStarted(key)]);
        EvictionAccounted(cfg, started);
      }
    }
  }

  // ----- the end of a spawn ---------------------------------------------------------------------------------

  /** The block answers exactly the callers of the queue, one after another. */
  predicate AnswersQueue(block: seq<Effect>, queue: seq<nat>) {
    && |block| == |queue| + 1 && !IsAnswer(block[0])
    && forall i :: 0 < i < |block| ==> Answers(block[i], queue[i - 1])
  }

  lemma QueueAnswered(block: seq<Effect>, queue: seq<nat>, c: nat)
    requires AnswersQueue(block, queue)
    ensures Answered(block, c) <==> c in queue
  {
    if c in queue {
      var i :| 0 <= i < |queue| && queue[i] == c;
      assert Answers(block[i + 1], queue[i + 1 - 1]) && block[i + 1] in block;
    }
    if Answered(block, c) {
      var e :| e in block && Answers(e, c);
      var i :| 0 <= i < |block| && block[i] == e;
      assert queue[i - 1] == c;
    }
  }

  lemma QueueAnsweredOnce(w: World, key: Key, block: seq<Effect>)
    requires Queued(w) && key in w.waiting && AnswersQueue(block, w.waiting[key])
    ensures AnsweredOnce(block)
  {
    var queue := w.waiting[key];
    forall i, j | 0 <= i < j < |block| && IsAnswer(block[i]) ensures !Answers(block[j], block[i].caller) {
      assert Answers(block[i], queue[i - 1]) && Answers(block[j], queue[j - 1]);
      assert queue[i - 1] != queue[j - 1];
    }
  }

  lemma SpawnEndsAccounted(w: World, v: World, key: Key, block: seq<Effect>)
    requires Accounted(w) && key in w.waiting && AnswersQueue(block, w.waiting[key])
    requires v.waiting == w.waiting - {key} && v.calls == w.calls && v.log == w.log + block
    ensures Accounted(v)
  {
    var queue := w.waiting[key];
    forall c: nat ensures Answered(v.log, c) <==> Answered(w.log, c) || c in queue {
      AnsweredConcat(w.log, block, c);
      QueueAnswered(block, queue, c);
    }
    QueueAnsweredOnce(w, key, block);
    forall e | e in block && IsAnswer(e) ensures e.caller in queue {
      var i :| 0 <= i < |block| && block[i] == e;
      assert Answers(block[i], queue[i - 1]);
    }
    OnceConcat(w.log, block);
    hide Answered, AnsweredOnce, AnswersQueue;
    forall e | e in v.log && IsAnswer(e) ensures e.caller < v.calls { InConcat(w.log, block, e); }
    SpawnEndsQueued(w, v, key);
    forall c: nat | c < v.calls ensures Answered(v.log, c) || Waits(v, c) {
      if !Answered(w.log, c) {
        var k :| k in w.waiting && c in w.waiting[k];
        assert k != key ==> k in v.waiting && v.waiting[k] == w.waiting[k];
      }
    }
  }

  lemma SpawnEndsQueued(w: World, v: World, key: Key)
    requires Queued(w) && key in w.waiting && v.waiting == w.waiting - {key} && v.calls == w.calls
    requires forall c: nat :: Answered(v.log, c) <==> Answered(w.log, c) || c in w.waiting[key]
    ensures Queued(v)
  {
    hide Answered;
    forall k, i | k in v.waiting && 0 <= i < |v.waiting[k]| ensures v.waiting[k][i] < v.calls && !Answered(v.log, v.waiting[k][i]) {
      assert v.waiting[k] == w.waiting[k];
    }
  }

  // ----- every run --------------------------------------------------------------------------------------------

  lemma StepAccounted(cfg: Config, w: World, e: Event)
    requires Accounted(w)
    ensures Accounted(Step(cfg, w, e))
  {
    hide Accounted, AnswersQueue, GetStep, HousekeepAll, Find, Change, Evicted;
    match e
    case Get(key) => GetAccounted(cfg, w, key);
    case SpawnDone(key, now) =>
      if key in w.waiting {
        var block := [Spawned(key, w.nextId)] + ServeAll(w.waiting[key], key, w.nextId);
        ServedInOrder(w.waiting[key], key, w.nextId);
        assert Step(cfg, w, e).log == w.log + block;
        SpawnEndsAccounted(w, Step(cfg, w, e), key, block);
      }
    case SpawnFails(key) =>
      if key in w.waiting {
        var block := [SpawnFailed(key)] + RefuseAll(w.waiting[key], key);
        ServedInOrder(w.waiting[key], key, 0);
        assert Step(cfg, w, e).log == w.log + block;
        SpawnEndsAccounted(w, Step(cfg, w, e), key, block);
      }
    case Housekeep(now) => HousekeepAccounted(cfg, w, w.workers, now);
    case Evict(key) =>
      if Find(w.workers, key).Some? { EvictedAccounted(w, Entry(key, Find(w.workers, key).value), Manual); }
    case Changes(key, to) =>
      assert w.log + [] == w.log;
      QuietlyAccounted(w, Step(cfg, w, e), []);
  }

  lemma ServedInOrder(queue: seq<nat>, key: Key, id: nat)
    ensures AnswersQueue([Spawned(key, id)] + ServeAll(queue, key, id), queue)
    ensures AnswersQueue([SpawnFailed(key)] + RefuseAll(queue, key), queue)
  {
  }

  /**
   * Over every interleaving each call of get is answered at most once, and while it is not answered it waits at exactly
   * one spawn, in one place of its queue: no caller is lost and none is served twice.
   */
  lemma {:induction false} EveryCallerIsAnsweredOnce(cfg: Config, es: seq<Event>)
    ensures Accounted(After(cfg, es))
    ensures forall c: nat :: c < After(cfg, es).calls ==> Answered(After(cfg, es).log, c) || Waits(After(cfg, es), c)
  {
    if es == [] {
      assert After(cfg, es) == START;
    } else {
      hide Accounted, Step;
      EveryCallerIsAnsweredOnce(cfg, es[..|es| - 1]);
      StepAccounted(cfg, After(cfg, es[..|es| - 1]), es[|es| - 1]);
      AccountedSays(After(cfg, es));
    }
  }

  lemma AccountedSays(w: World)
    requires Accounted(w)
    ensures forall c: nat :: c < w.calls ==> Answered(w.log, c) || Waits(w, c)
  {
  }

  // ----- outstanding spawns ---------------------------------------------------------------------------------------

  /** Spawns started less spawns ended. */
  function Outstanding(log: seq<Effect>, key: Key): int {
    if log == [] then 0
    else
      var e := log[|log| - 1];
      Outstanding(log[..|log| - 1], key)
      + if e == SpawnStarted(key) then 1 else if (e.Spawned? || e.SpawnFailed?) && e.key == key then -1 else 0
  }

  lemma OutstandingSnoc(log: seq<Effect>, e: Effect, key: Key)
    ensures Outstanding(log + [e], key) == Outstanding(log, key)
            + if e == SpawnStarted(key) then 1 else if (e.Spawned? || e.SpawnFailed?) && e.key == key then -1 else 0
  {
    assert (log + [e])[..|log|] == log;
  }

  lemma {:induction false} OutstandingQuiet(log: seq<Effect>, block: seq<Effect>, key: Key)
    requires forall e :: e in block ==> !e.SpawnStarted? && !e.Spawned? && !e.SpawnFailed?
    ensures Outstanding(log + block, key) == Outstanding(log, key)
  {
    if block == [] {
      assert log + block == log;
    } else {
      OutstandingQuiet(log, block[..|block| - 1], key);
      OutstandingSnoc(log + block[..|block| - 1], block[|block| - 1], key);
      assert log + block == log + block[..|block| - 1] + [block[|block| - 1]];
    }
  }

  lemma {:induction false} EvictionStartsNone(cfg: Config, w: World, key: Key)
    ensures Outstanding(EvictOverCap(cfg, w).log, key) == Outstanding(w.log, key)
    ensures EvictOverCap(cfg, w).waiting == w.waiting
    decreases |w.workers|
  {
    hide Victim, Drop, Outstanding;
    var victim := Victim(w.workers);
    if |w.workers| >= cfg.maxWorkers && victim.Some? {
      VictimShrinks(w.workers);
      EvictedStartsNone(w, victim.value, OverCap, key);
      EvictionStartsNone(cfg, Evicted(w, victim.value, OverCap), key);
    }
  }

  lemma EvictedStartsNone(w: World, x: Entry, why: Why, key: Key)
    ensures Outstanding(Evicted(w, x, why).log, key) == Outstanding(w.log, key)
  {
    var block := (if x.worker.run.Some? then [GateRejected(x.worker.run.value)] else []) + [Closed(x.worker.id, x.key, x.worker.busy, why)];
    assert Evicted(w, x, why).log == w.log + block;
    OutstandingQuiet(w.log, block, key);
  }

  lemma {:induction false} HousekeepStartsNone(cfg: Config, w: World, es: seq<Entry>, now: nat, key: Key)
    ensures Outstanding(HousekeepAll(cfg, w, es, now).log, key) == Outstanding(w.log, key)
    ensures HousekeepAll(cfg, w, es, now).waiting == w.waiting
  {
    hide Outstanding, Drop, Expired;
    if es != [] {
      var before, e := HousekeepAll(cfg, w, es[..|es| - 1], now), es[|es| - 1];
      HousekeepStartsNone(cfg, w, es[..|es| - 1], now, key);
      EvictedStartsNone(before, e, Idle, key);
      OutstandingSnoc(before.log, Forgotten(e.worker.id, e.key), key);
    }
  }

  lemma GetStartsOne(cfg: Config, w: World, x: Key, key: Key)
    requires Outstanding(w.log, key) == if key in w.waiting then 1 else 0
    ensures Outstanding(GetStep(cfg, w, x).log, key) == if key in GetStep(cfg, w, x).waiting then 1 else 0
  {
    hide Outstanding, EvictOverCap, Find, Drop;
    var found := Find(w.workers, x);
    if found.Some? && !found.value.dead {
      OutstandingSnoc(w.log, Served(w.calls, x, found.value.id), key);
    } else {
      var live := DropDead(w.(calls := w.calls + 1), x);
      if found.Some? { OutstandingSnoc(w.log, Forgotten(found.value.id, x), key); }
      if x !in live.waiting {
        OutstandingSnoc(live.log, SpawnStarted(x), key);
        EvictionStartsNone(cfg, live.(waiting := live.waiting[x := [w.calls]], log := live.log + [SpawnStarted(x)]), key);
      }
    }
  }

  lemma StepOutstanding(cfg: Config, w: World, e: Event, key: Key)
    requires Outstanding(w.log, key) == if key in w.waiting then 1 else 0
    ensures Outstanding(Step(cfg, w, e).log, key) == if key in Step(cfg, w, e).waiting then 1 else 0
  {
    hide Outstanding, GetStep, HousekeepAll, Find, Change, Evicted;
    match e
    case Get(x) => GetStartsOne(cfg, w, x, key);
    case SpawnDone(x, now) =>
      if x in w.waiting {
        OutstandingSnoc(w.log, Spawned(x, w.nextId), key);
        OutstandingQuiet(w.log + [Spawned(x, w.nextId)], ServeAll(w.waiting[x], x, w.nextId), key);
      }
    case SpawnFails(x) =>
      if x in w.waiting {
        OutstandingSnoc(w.log, SpawnFailed(x), key);
        OutstandingQuiet(w.log + [SpawnFailed(x)], RefuseAll(w.waiting[x], x), key);
      }
    case Housekeep(now) => HousekeepStartsNone(cfg, w, w.workers, now, key);
    case Evict(x) =>
      if Find(w.workers, x).Some? {
        EvictedStartsNone(w, Entry(x, Find(w.workers, x).value), Manual, key);
        EvictedWaits(w, Entry(x, Find(w.workers, x).value), Manual);
      }
    case Changes(x, to) =>
  }

  lemma EvictedWaits(w: World, x: Entry, why: Why)
    ensures Evicted(w, x, why).waiting == w.waiting
  {
  }

  /** A key has one spawn outstanding while callers wait for it, and otherwise none. */
  lemma {:induction false} OneSpawnPerKey(cfg: Config, es: seq<Event>, key: Key)
    ensures Outstanding(After(cfg, es).log, key) == if key in After(cfg, es).waiting then 1 else 0
  {
    if es == [] {
      assert After(cfg, es) == START;
    } else {
      hide Step, Outstanding;
      OneSpawnPerKey(cfg, es[..|es| - 1], key);
      StepOutstanding(cfg, After(cfg, es[..|es| - 1]), es[|es| - 1], key);
    }
  }
}
