/**
 * Where firing once is not kept: what a restart, or a pass beside it, does to a task whose turn is still running.
 */
module CronRestarts {
  import opened Basics
  import opened CronText
  import opened CronScheduling
  import opened CronSafety
  import opened CronFires

  // ----- one task, picked by a tick ---------------------------------------------------------------------------

  /** A tick at that time would pick the task and start its turn at once. */
  predicate Ripe(cfg: Config, t: Task, now: nat) {
    t.status.Active? && !(t.recurring && t.jitter > 0) && Due(cfg, t, now) && !Overdue(cfg, t, now)
  }

  lemma OneRow(t: Task)
    ensures Row([t], t.id) == Some(t) && ActiveRows([t]) == if t.status.Active? then [t] else []
    ensures forall u: Task {:trigger SetRow([t], u)} :: u.id == t.id ==> SetRow([t], u) == [u]
  {
    assert [t][..0] == [] && ActiveRows([]) == [];
  }

  function TickPick(cfg: Config, w: World, wait: nat): World {
    Step(cfg, Step(cfg, w, Tick(wait)), Advance(|w.passes|))
  }

  /** With the task alone in the file, a tick in a new minute starts its turn, whatever else is running. */
  lemma TickPicksTheOnlyTask(cfg: Config, w: World, t: Task, wait: nat)
    requires w.disk == [t] && w.life > 0 && (w.stale || w.cache == [t]) && Ripe(cfg, t, w.clock + wait)
    requires (w.clock + wait) / MINUTE != w.minute || t.id !in w.fired
    ensures var v, now := TickPick(cfg, w, wait), w.clock + wait;
            && v.fires == w.fires + [Fire(t.id, !t.recurring, now, OnTick, w.life)]
            && v.starts == w.starts + [Start(t.id, now / MINUTE, w.life)]
            && v.passes == w.passes + [Pass(Ticking(now), [t], 1, Some(Turn(|w.fires|, t.id, !t.recurring)))]
            && v.disk == [t] && v.clock == now && v.life == w.life && v.lastTick == w.lastTick && v.ended == w.ended
            && v.minute == now / MINUTE
  {
    hide Row, SetRow, ActiveRows, Due, Overdue;
    OneRow(t);
    var ticking := Step(cfg, w, Tick(wait));
    assert ticking.passes == w.passes + [Pass(Ticking(w.clock + wait), [t], 0, None)];
    assert CanAdvance(ticking, |w.passes|);
  }

  // ----- what a lapse costs -------------------------------------------------------------------------------------

  function Steps(cfg: Config, w: World, es: seq<Event>): World {
    if es == [] then w else Step(cfg, Steps(cfg, w, es[..|es| - 1]), es[|es| - 1])
  }

  lemma StepsSnoc(cfg: Config, w: World, es: seq<Event>, e: Event)
    ensures Steps(cfg, w, es + [e]) == Step(cfg, Steps(cfg, w, es), e)
  {
    assert (es + [e])[..|es|] == es;
  }

  /** The pass goes through n tasks, each turn ending at once. */
  function Rounds(p: nat, n: nat): seq<Event> {
    if n == 0 then [] else Rounds(p, n - 1) + [Advance(p)] + [TurnEnds(p, 0)]
  }

  /** A pass of a tick at that time stands, idle, at the n-th of its tasks. */
  predicate Reached(w: World, p: nat, tasks: seq<Task>, n: nat, now: nat) {
    p < |w.passes| && w.passes[p] == Pass(Ticking(now), tasks, n, None)
  }

  /** What the rounds of other tasks leave as it is. */
  predicate Untouched(w: World, v: World, p: nat, id: Id) {
    && Row(v.disk, id) == Row(w.disk, id) && (id in v.fired <==> id in w.fired) && v.clock == w.clock && v.life == w.life
    && OneShots(v.fires, id) == OneShots(w.fires, id)
    && |v.passes| == |w.passes| && forall q :: 0 <= q < |w.passes| && q != p ==> v.passes[q] == w.passes[q]
  }

  lemma VisitOfAnother(cfg: Config, w: World, t: Task, now: nat, id: Id)
    requires t.id != id
    ensures var v := VisitOnTick(cfg, w, t, now).world;
            Row(v.disk, id) == Row(w.disk, id) && (id in v.fired <==> id in w.fired) && OneShots(v.fires, id) == OneShots(w.fires, id)
  {
    hide Row, SetRow, Due, OneShots;
    RowIs(w.disk, t.id);
    if Row(w.disk, t.id).Some? { RowOfSet(w.disk, Row(w.disk, t.id).value.(status := Missed), id); }
    forall f: Fire | f.id == t.id ensures OneShots(w.fires + [f], id) == OneShots(w.fires, id) { OneShotsSnoc(w.fires, f, id); }
  }

  lemma EndOfAnother(w: World, turn: Turn, id: Id)
    requires turn.id != id
    ensures var v := EndTurn(w, turn); Row(v.disk, id) == Row(w.disk, id) && v.fired == w.fired && v.fires == w.fires
    ensures var v := EndTurn(w, turn); v.clock == w.clock && v.life == w.life && v.passes == w.passes
  {
    hide Row, SetRow;
    RowIs(w.disk, turn.id);
    if Row(w.disk, turn.id).Some? { RowOfSet(w.disk, FiredRow(Row(w.disk, turn.id).value, turn.oneShot, w.clock), id); }
  }

  /** One round of another task. */
  lemma RoundOfAnother(cfg: Config, w: World, p: nat, tasks: seq<Task>, n: nat, now: nat, id: Id)
    requires Reached(w, p, tasks, n, now) && n < |tasks| && tasks[n].id != id
    ensures var v := Step(cfg, Step(cfg, w, Advance(p)), TurnEnds(p, 0));
            Reached(v, p, tasks, n + 1, now) && Untouched(w, v, p, id)
  {
    hide Row, VisitOnTick, EndTurn, OneShots;
    VisitOfAnother(cfg, w, tasks[n], now, id);
    VisitDoes(cfg, w, Ticking(now), tasks[n]);
    var a := Step(cfg, w, Advance(p));
    var turn := a.passes[p].turn;
    if turn.Some? { EndOfAnother(a.(passes := a.passes[p := a.passes[p].(turn := None)]), turn.value, id); }
  }

  lemma {:induction false} RoundsOfOthers(cfg: Config, w: World, p: nat, tasks: seq<Task>, n: nat, now: nat, id: Id)
    requires Reached(w, p, tasks, 0, now) && n <= |tasks| && forall k :: 0 <= k < n ==> tasks[k].id != id
    ensures var v := Steps(cfg, w, Rounds(p, n)); Reached(v, p, tasks, n, now) && Untouched(w, v, p, id)
  {
    hide Steps, Row, OneShots, Step, Reached, Untouched, Rounds;
    if n == 0 {
      NoRounds(cfg, w, p);
      UntouchedAtFirst(w, p, id);
    } else {
      RoundsOfOthers(cfg, w, p, tasks, n - 1, now, id);
      var v := Steps(cfg, w, Rounds(p, n - 1));
      OneMoreRound(cfg, w, p, n - 1);
      RoundOfAnother(cfg, v, p, tasks, n - 1, now, id);
      UntouchedAgain(w, v, Steps(cfg, w, Rounds(p, n)), p, id);
    }
  }

  lemma NoRounds(cfg: Config, w: World, p: nat)
    ensures Steps(cfg, w, Rounds(p, 0)) == w
  {
  }

  lemma OneMoreRound(cfg: Config, w: World, p: nat, n: nat)
    ensures Steps(cfg, w, Rounds(p, n + 1)) == Step(cfg, Step(cfg, Steps(cfg, w, Rounds(p, n)), Advance(p)), TurnEnds(p, 0))
  {
    hide Steps, Step;
    StepsSnoc(cfg, w, Rounds(p, n), Advance(p));
    StepsSnoc(cfg, w, Rounds(p, n) + [Advance(p)], TurnEnds(p, 0));
  }

  lemma UntouchedAtFirst(w: World, p: nat, id: Id)
    ensures Untouched(w, w, p, id)
  {
  }

  lemma UntouchedAgain(u: World, v: World, w: World, p: nat, id: Id)
    requires Untouched(u, v, p, id) && Untouched(v, w, p, id)
    ensures Untouched(u, w, p, id)
  {
    hide Row, OneShots;
  }

  /** The tasks a tick works from. */
  function TickTasks(w: World): seq<Task> {
    if w.stale then ActiveRows(w.disk) else w.cache
  }

  /** The events by which a tick, left alone, gets to the n-th of its tasks. */
  function TickReaches(w: World, wait: nat, n: nat): seq<Event> {
    [Tick(wait)] + Rounds(|w.passes|, n)
  }

  lemma {:induction false} StepsFrom(cfg: Config, w: World, e: Event, es: seq<Event>)
    ensures Steps(cfg, w, [e] + es) == Steps(cfg, Step(cfg, w, e), es)
  {
    hide Step, Steps;
    if es == [] {
      NoSteps(cfg, w);
      NoSteps(cfg, Step(cfg, w, e));
      StepsSnoc(cfg, w, [], e);
      assert [e] + es == [] + [e];
    } else {
      var front, last := es[..|es| - 1], es[|es| - 1];
      StepsFrom(cfg, w, e, front);
      StepsSnoc(cfg, w, [e] + front, last);
      StepsSnoc(cfg, Step(cfg, w, e), front, last);
      assert [e] + es == [e] + front + [last] && es == front + [last];
    }
  }

  lemma NoSteps(cfg: Config, w: World)
    ensures Steps(cfg, w, []) == w
  {
  }

  lemma TickReachesTask(cfg: Config, w: World, wait: nat, n: nat, id: Id)
    requires w.life > 0 && n < |TickTasks(w)| && forall k :: 0 <= k < n ==> TickTasks(w)[k].id != id
    requires (w.clock + wait) / MINUTE != w.minute || id !in w.fired
    ensures var v, now := Steps(cfg, w, TickReaches(w, wait, n)), w.clock + wait;
            && Reached(v, |w.passes|, TickTasks(w), n, now) && id !in v.fired && Row(v.disk, id) == Row(w.disk, id)
            && OneShots(v.fires, id) == OneShots(w.fires, id)
            && |v.passes| == |w.passes| + 1 && forall q :: 0 <= q < |w.passes| ==> v.passes[q] == w.passes[q]
  {
    hide Steps, Row, OneShots, ActiveRows, Rounds;
    var ticking := Step(cfg, w, Tick(wait));
    assert ticking.passes == w.passes + [Pass(Ticking(w.clock + wait), TickTasks(w), 0, None)];
    StepsFrom(cfg, w, Tick(wait), Rounds(|w.passes|, n));
    RoundsOfOthers(cfg, ticking, |w.passes|, TickTasks(w), n, w.clock + wait, id);
  }

  /**
   * A tick inside the running turn of a one-shot that is still due, once it reaches its row, fires it again, in any file:
   * the events of the tick are those that bring it there.
   */
  lemma TickInsideATurnFiresAgain(cfg: Config, w: World, t: Task, wait: nat) returns (n: nat)
    requires w.life > 0 && Row(w.disk, t.id) == Some(t) && UniqueIds(TickTasks(w)) && t in TickTasks(w)
    requires !t.recurring && Ripe(cfg, t, w.clock + wait) && Holding(w, t.id)
    requires (w.clock + wait) / MINUTE != w.minute || t.id !in w.fired
    ensures n < |TickTasks(w)|
    ensures var before := Steps(cfg, w, TickReaches(w, wait, n));
            && Lapse(cfg, before, Advance(|w.passes|), t.id)
            && OneShots(Step(cfg, before, Advance(|w.passes|)).fires, t.id) == OneShots(w.fires, t.id) + 1
  {
    hide OneShots, Due, Overdue, Steps, Row, ActiveRows, Rounds, Step, TickTasks, TickReaches, Holding;
    n := FirstOfUnique(TickTasks(w), t);
    TickReachesTask(cfg, w, wait, n, t.id);
    var before := Steps(cfg, w, TickReaches(w, wait, n));
    StillHolding(w, before, t.id);
    RipeIsPicked(cfg, before, |w.passes|, TickTasks(w), n, w.clock + wait, t);
  }

  lemma StillHolding(w: World, v: World, id: Id)
    requires |v.passes| >= |w.passes| && forall q :: 0 <= q < |w.passes| ==> v.passes[q] == w.passes[q]
    ensures Holding(w, id) ==> Holding(v, id)
  {
    if Holding(w, id) {
      var q :| 0 <= q < |w.passes| && w.passes[q].turn.Some? && w.passes[q].turn.value.oneShot && w.passes[q].turn.value.id == id;
      assert v.passes[q] == w.passes[q];
    }
  }

  lemma RipeIsPicked(cfg: Config, w: World, p: nat, tasks: seq<Task>, n: nat, now: nat, t: Task)
    requires Reached(w, p, tasks, n, now) && n < |tasks| && tasks[n] == t && !t.recurring && Ripe(cfg, t, now)
    requires t.id !in w.fired && Row(w.disk, t.id) == Some(t)
    ensures Picks(cfg, w, Advance(p), t.id) && OneShots(Step(cfg, w, Advance(p)).fires, t.id) == OneShots(w.fires, t.id) + 1
    ensures Holding(w, t.id) ==> Lapse(cfg, w, Advance(p), t.id)
  {
    hide OneShots, Due, Overdue, Row, Holding;
    OneShotsSnoc(w.fires, Fire(t.id, true, w.clock, OnTick, w.life), t.id);
  }

  /** After a boot inside its running turn, a one-shot that is still due fires again, in any file: the next tick does it. */
  lemma BootInsideATurnFiresAgain(cfg: Config, w: World, t: Task, wait: nat) returns (n: nat)
    requires UniqueIds(w.disk) && Row(w.disk, t.id) == Some(t) && !t.recurring && Holding(w, t.id) && Ripe(cfg, t, w.clock + wait)
    ensures Lapse(cfg, w, Boot(wait), t.id)
    ensures var booted := Step(cfg, w, Boot(wait));
            && n < |TickTasks(booted)|
            && OneShots(Step(cfg, Steps(cfg, booted, TickReaches(booted, 0, n)), Advance(|booted.passes|)).fires, t.id)
               == OneShots(w.fires, t.id) + 1
  {
    hide OneShots, Due, Overdue, Steps, Row, ActiveRows, Rounds, TickReaches, Holding, CatchUpPasses;
    var booted := Step(cfg, w, Boot(wait));
    RowIs(w.disk, t.id);
    ActiveRowsAre(w.disk, t);
    n := FirstOfUnique(TickTasks(booted), t);
    TickReachesTask(cfg, booted, 0, n, t.id);
    RipeIsPicked(cfg, Steps(cfg, booted, TickReaches(booted, 0, n)), |booted.passes|, TickTasks(booted), n, booted.clock, t);
  }

  lemma FirstOfUnique(tasks: seq<Task>, t: Task) returns (n: nat)
    requires UniqueIds(tasks) && t in tasks
    ensures n < |tasks| && tasks[n] == t && forall k :: 0 <= k < n ==> tasks[k].id != t.id
  {
    n :| 0 <= n < |tasks| && tasks[n] == t;
  }

  /** The catch-up pass fires a wanted one-shot of its snapshot even when its row has been fired, disabled or deleted since. */
  lemma CatchUpIgnoresLaterChanges(cfg: Config, w: World, p: nat)
    requires CanAdvance(w, p) && w.passes[p].job.CatchingUp?
    requires var t := w.passes[p].tasks[w.passes[p].next];
             !t.recurring && Wanted(cfg, t, w.passes[p].job.start, w.passes[p].job.end)
    ensures var id := w.passes[p].tasks[w.passes[p].next].id;
            OneShots(Step(cfg, w, Advance(p)).fires, id) == OneShots(w.fires, id) + 1
  {
    hide OneShots, Wanted;
    var t := w.passes[p].tasks[w.passes[p].next];
    OneShotsSnoc(w.fires, Fire(t.id, true, w.clock, CaughtUp(None), w.life), t.id);
  }

  /** A tick that visits a task after a later minute began starts it again in its own, earlier minute. */
  lemma LateVisitRepeatsAStart(cfg: Config, w: World, p: nat)
    requires CanAdvance(w, p) && w.passes[p].job.Ticking? && Ripe(cfg, w.passes[p].tasks[w.passes[p].next], w.passes[p].job.now)
    requires w.passes[p].tasks[w.passes[p].next].id !in w.fired
    requires Start(w.passes[p].tasks[w.passes[p].next].id, w.passes[p].job.now / MINUTE, w.life) in w.starts
    ensures exists i, j :: 0 <= i < j < |Step(cfg, w, Advance(p)).starts|
                           && Step(cfg, w, Advance(p)).starts[i] == Step(cfg, w, Advance(p)).starts[j]
  {
    hide Due, Overdue, Row;
    var again := Start(w.passes[p].tasks[w.passes[p].next].id, w.passes[p].job.now / MINUTE, w.life);
    var v := Step(cfg, w, Advance(p));
    var i :| 0 <= i < |w.starts| && w.starts[i] == again;
    assert v.starts == w.starts + [again];
    assert v.starts[i] == v.starts[|w.starts|];
  }
}
