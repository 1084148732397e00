/**
 * What ticks, timers and turns do with a task: a task that is due is picked, one that is picked is fired unless its row
 * is gone by then, and every start is accounted for.
 */
module CronMeaning {
  import opened Basics
  import opened CronText
  import opened CronScheduling
  import opened CronSafety
  import opened CronFires

  // ----- counting ---------------------------------------------------------------------------------------------

  /** Starts of a task in one life. */
  function StartsOf(starts: seq<Start>, id: Id, life: nat): nat {
    if starts == [] then 0
    else StartsOf(starts[..|starts| - 1], id, life) + if starts[|starts| - 1].id == id && starts[|starts| - 1].life == life then 1 else 0
  }

  /** Fires of a task in one life that a tick or a timer started. */
  function FiresOf(fires: seq<Fire>, id: Id, life: nat): nat {
    if fires == [] then 0
    else
      var f := fires[|fires| - 1];
      FiresOf(fires[..|fires| - 1], id, life) + if f.id == id && f.life == life && (f.how.OnTick? || f.how.OnTimer?) then 1 else 0
  }

  lemma StartsSnoc(starts: seq<Start>, s: Start, id: Id, life: nat)
    ensures StartsOf(starts + [s], id, life) == StartsOf(starts, id, life) + if s.id == id && s.life == life then 1 else 0
  {
    assert (starts + [s])[..|starts|] == starts;
  }

  lemma FiresSnoc(fires: seq<Fire>, f: Fire, id: Id, life: nat)
    ensures FiresOf(fires + [f], id, life) ==
            FiresOf(fires, id, life) + if f.id == id && f.life == life && (f.how.OnTick? || f.how.OnTimer?) then 1 else 0
  {
    assert (fires + [f])[..|fires|] == fires;
  }

  lemma {:induction false} NoStartsYet(starts: seq<Start>, id: Id, life: nat)
    requires forall s :: s in starts ==> s.life < life
    ensures StartsOf(starts, id, life) == 0
  {
    if starts != [] {
      assert starts[|starts| - 1] in starts;
      NoStartsYet(starts[..|starts| - 1], id, life);
    }
  }

  lemma {:induction false} NoFiresYet(fires: seq<Fire>, id: Id, life: nat)
    requires forall f :: f in fires ==> f.life < life
    ensures FiresOf(fires, id, life) == 0
  {
    if fires != [] {
      assert fires[|fires| - 1] in fires;
      NoFiresYet(fires[..|fires| - 1], id, life);
    }
  }

  // ----- what a tick does with a row -------------------------------------------------------------------------------

  /** A tick that stands at the task finds it active, due, not overdue, and not picked in this minute. */
  predicate TickPicks(cfg: Config, w: World, p: nat, id: Id) {
    && StandsAt(w, p, id) && w.passes[p].job.Ticking? && id !in w.fired
    && var t, now := w.passes[p].tasks[w.passes[p].next], w.passes[p].job.now;
       && t.status.Active? && !Overdue(cfg, t, now) && Due(cfg, t, now)
  }

  /** The task is recurring and spread over time: it is fired a while after it is picked. */
  predicate Delayed(w: World, p: nat)
    requires CanAdvance(w, p)
  {
    var t := w.passes[p].tasks[w.passes[p].next];
    t.recurring && t.jitter > 0
  }

  /** A start comes to nothing: the row is missing or inactive when the tick, or later the timer, reads it. */
  predicate InVain(cfg: Config, w: World, e: Event, id: Id) {
    && !IsActive(w.disk, id)
    && ((e.Advance? && TickPicks(cfg, w, e.pass, id) && !Delayed(w, e.pass)) || (e.TimerFires? && e.id == id && id in w.timers))
  }

  /** How many starts of the task came to nothing since the last boot. */
  function Vain(cfg: Config, es: seq<Event>, id: Id): nat {
    if es == [] || es[|es| - 1].Boot? then 0
    else Vain(cfg, es[..|es| - 1], id) + if InVain(cfg, Run(cfg, es[..|es| - 1]), es[|es| - 1], id) then 1 else 0
  }

  /** Starts, fires and timers belong to lives that have begun. */
  predicate Lived(w: World) {
    (forall s :: s in w.starts ==> s.life <= w.life) && (forall f :: f in w.fires ==> f.life <= w.life)
  }

  lemma StepLives(cfg: Config, w: World, e: Event)
    requires Lived(w)
    ensures Lived(Step(cfg, w, e))
  {
    hide Row, SetRow, Due, Overdue, Wanted, LatestMatch, ActiveRows, Without;
  }

  lemma {:induction false} RunLives(cfg: Config, es: seq<Event>)
    ensures Lived(Run(cfg, es))
  {
    hide Step, Lived;
    if es == [] {
      StartLives();
    } else {
      RunLives(cfg, es[..|es| - 1]);
      StepLives(cfg, Run(cfg, es[..|es| - 1]), es[|es| - 1]);
    }
  }

  lemma StartLives()
    ensures Lived(START)
  {
  }

  // ----- every start is accounted for ------------------------------------------------------------------------------

  /** Starts are fires, pending timers, or starts that came to nothing. */
  predicate Balanced(w: World, id: Id, vain: nat) {
    StartsOf(w.starts, id, w.life) == FiresOf(w.fires, id, w.life) + w.timers[id] + vain
  }

  lemma VisitBalances(cfg: Config, w: World, p: nat, id: Id, vain: nat)
    requires CanAdvance(w, p) && Balanced(w, id, vain)
    ensures Balanced(AdvanceStep(cfg, w, p), id, vain + if InVain(cfg, w, Advance(p), id) then 1 else 0)
  {
    hide StartsOf, FiresOf, VisitOnTick, VisitOnCatchUp, InVain, Balanced;
    var t := w.passes[p].tasks[w.passes[p].next];
    match w.passes[p].job
    case Ticking(now) => TickVisitBalances(cfg, w, p, t, now, id, vain);
    case CatchingUp(start, end) => CatchUpBalances(cfg, w, p, t, start, end, id, vain);
    case Timed =>
      BalancedAlike(w, AdvanceStep(cfg, w, p), id, vain);
      NotInVain(cfg, w, p, id);
  }

  lemma BalancedAlike(w: World, v: World, id: Id, vain: nat)
    requires Balanced(w, id, vain) && v.starts == w.starts && v.fires == w.fires && v.timers == w.timers && v.life == w.life
    ensures Balanced(v, id, vain)
  {
  }

  lemma NotInVain(cfg: Config, w: World, p: nat, id: Id)
    requires CanAdvance(w, p) && !w.passes[p].job.Ticking?
    ensures !InVain(cfg, w, Advance(p), id)
  {
  }

  lemma TickVisitBalances(cfg: Config, w: World, p: nat, t: Task, now: nat, id: Id, vain: nat)
    requires CanAdvance(w, p) && Balanced(w, id, vain) && w.passes[p].job == Ticking(now) && t == w.passes[p].tasks[w.passes[p].next]
    ensures Balanced(AdvanceStep(cfg, w, p), id, vain + if InVain(cfg, w, Advance(p), id) then 1 else 0)
  {
    hide Row, SetRow, Due, Overdue, StartsOf, FiresOf, VisitOnCatchUp;
    RowIs(w.disk, t.id);
    StartsSnoc(w.starts, Start(t.id, now / MINUTE, w.life), id, w.life);
    FiresSnoc(w.fires, Fire(t.id, true, w.clock, OnTick, w.life), id, w.life);
    FiresSnoc(w.fires, Fire(t.id, false, w.clock, OnTick, w.life), id, w.life);
  }

  lemma CatchUpBalances(cfg: Config, w: World, p: nat, t: Task, start: nat, end: nat, id: Id, vain: nat)
    requires CanAdvance(w, p) && Balanced(w, id, vain) && w.passes[p].job == CatchingUp(start, end)
    requires t == w.passes[p].tasks[w.passes[p].next]
    ensures Balanced(AdvanceStep(cfg, w, p), id, vain + if InVain(cfg, w, Advance(p), id) then 1 else 0)
  {
    hide Row, StartsOf, FiresOf, VisitOnTick, Wanted, LatestMatch;
    var how := CaughtUp(if t.recurring then LatestMatch(cfg, t, start, end - MINUTE) else None);
    FiresSnoc(w.fires, Fire(t.id, !t.recurring, w.clock, how, w.life), id, w.life);
  }

  lemma TimerBalances(w: World, x: Id, wait: nat, id: Id, vain: nat)
    requires Balanced(w, id, vain) && x in w.timers
    ensures Balanced(TimerStep(w, x, wait), id, vain + if x == id && !IsActive(w.disk, id) then 1 else 0)
  {
    hide Row, StartsOf, FiresOf;
    RowIs(w.disk, x);
    FiresSnoc(w.fires, Fire(x, true, w.clock + wait, OnTimer, w.life), id, w.life);
    FiresSnoc(w.fires, Fire(x, false, w.clock + wait, OnTimer, w.life), id, w.life);
  }

  lemma BootBalances(cfg: Config, w: World, wait: nat, id: Id)
    requires Lived(w)
    ensures Balanced(BootStep(cfg, w, wait), id, 0)
  {
    hide CatchUpPasses;
    NoStartsYet(w.starts, id, w.life + 1);
    NoFiresYet(w.fires, id, w.life + 1);
  }

  lemma OthersBalance(cfg: Config, w: World, e: Event, id: Id, vain: nat)
    requires Balanced(w, id, vain) && (e.Tick? || e.TurnEnds? || e.Add? || e.Delete? || e.Patch?)
    ensures Balanced(Step(cfg, w, e), id, vain)
  {
    hide Row, SetRow, Without, ActiveRows, StartsOf, FiresOf;
  }

  /**
   * In every run, of each task: the starts of this life are its fires by ticks and timers, its pending timers, and the
   * starts that found its row missing or inactive when it was read.
   */
  lemma {:induction false} StartsAreAccountedFor(cfg: Config, es: seq<Event>, id: Id)
    ensures var w := Run(cfg, es);
            StartsOf(w.starts, id, w.life) == FiresOf(w.fires, id, w.life) + w.timers[id] + Vain(cfg, es, id)
  {
    if es == [] {
      assert Run(cfg, es) == START;
    } else {
      hide Step, StartsOf, FiresOf, InVain, Lived;
      var front, e := es[..|es| - 1], es[|es| - 1];
      var w := Run(cfg, front);
      StartsAreAccountedFor(cfg, front, id);
      RunLives(cfg, front);
      StepBalances(cfg, w, e, id, Vain(cfg, front, id));
    }
  }

  lemma StepBalances(cfg: Config, w: World, e: Event, id: Id, vain: nat)
    requires Lived(w) && Balanced(w, id, vain)
    ensures Balanced(Step(cfg, w, e), id, if e.Boot? then 0 else vain + if InVain(cfg, w, e, id) then 1 else 0)
  {
    hide AdvanceStep, TimerStep, BootStep, TickStep, TurnEndsStep, Balanced, Lived, StartsOf, FiresOf;
    match e
    case Boot(wait) => BootBalances(cfg, w, wait, id);
    case Advance(p) =>
      if CanAdvance(w, p) { VisitBalances(cfg, w, p, id, vain); } else { CannotAdvance(cfg, w, p); }
    case TimerFires(x, wait) => if x in w.timers { TimerBalances(w, x, wait, id, vain); } else { NoSuchTimer(w, x, wait); }
    case _ => OthersBalance(cfg, w, e, id, vain);
  }

  lemma CannotAdvance(cfg: Config, w: World, p: nat)
    requires !CanAdvance(w, p)
    ensures AdvanceStep(cfg, w, p) == w
  {
  }

  lemma NoSuchTimer(w: World, x: Id, wait: nat)
    requires x !in w.timers
    ensures TimerStep(w, x, wait) == w
  {
  }

  // ----- due tasks fire ----------------------------------------------------------------------------------------------

  /** A picked task is remembered for its minute and started, at once or by a timer, and no other task is. */
  lemma PickedTaskStarts(cfg: Config, w: World, p: nat, id: Id)
    requires TickPicks(cfg, w, p, id)
    ensures var v, now := Step(cfg, w, Advance(p)), w.passes[p].job.now;
            && v.fired == w.fired + {id} && v.starts == w.starts + [Start(id, now / MINUTE, w.life)] && v.disk == w.disk
            && (Delayed(w, p) ==> v.timers == w.timers + multiset{id} && v.fires == w.fires && v.passes[p].turn.None?)
            && (!Delayed(w, p) && IsActive(w.disk, id) ==>
                  && v.timers == w.timers && v.fires == w.fires + [Fire(id, !Row(w.disk, id).value.recurring, w.clock, OnTick, w.life)]
                  && v.passes[p].turn == Some(Turn(|w.fires|, id, !Row(w.disk, id).value.recurring)))
            && (!Delayed(w, p) && !IsActive(w.disk, id) ==> v.timers == w.timers && v.fires == w.fires && v.passes[p].turn.None?)
  {
    hide Row, Due, Overdue;
    RowIs(w.disk, id);
  }

  /** A task that is not picked is passed over, unless it is a one-shot too long overdue, which is marked missed. */
  lemma OthersAreNotStarted(cfg: Config, w: World, p: nat, id: Id)
    requires StandsAt(w, p, id) && w.passes[p].job.Ticking? && !TickPicks(cfg, w, p, id)
    ensures var v, t := Step(cfg, w, Advance(p)), w.passes[p].tasks[w.passes[p].next];
            && v.starts == w.starts && v.fires == w.fires && v.timers == w.timers && v.fired == w.fired
            && v.passes == w.passes[p := w.passes[p].(next := w.passes[p].next + 1)]
            && if t.status.Active? && !t.recurring && t.scheduledFor.Some?
                  && w.passes[p].job.now > t.scheduledFor.value + cfg.threshold && Row(w.disk, id).Some?
               then Row(v.disk, id) == Some(Row(w.disk, id).value.(status := Missed))
               else v.disk == w.disk
  {
    hide Row, SetRow, Due;
    RowIs(w.disk, id);
    if Row(w.disk, id).Some? { RowOfSet(w.disk, Row(w.disk, id).value.(status := Missed), id); }
  }

  /** What due and overdue mean: a one-shot by its own time and offset, everything else by its schedule. */
  lemma DueMeans(cfg: Config, t: Task, now: nat)
    ensures Due(cfg, t, now) <==>
            if t.recurring || t.scheduledFor.None? then CronMatches(t.cron, cfg.wall(t.zone, now / MINUTE))
            else t.scheduledFor.value + t.jitter <= now
    ensures Overdue(cfg, t, now) <==>
            t.status == Active && !t.recurring && t.scheduledFor.Some? && t.scheduledFor.value + cfg.threshold < now
  {
  }

  predicate HasTimer(w: World, id: Id) {
    id in w.timers
  }

  lemma TimerStays(cfg: Config, w: World, e: Event, id: Id)
    requires HasTimer(w, id) && !e.Boot? && !(e.TimerFires? && e.id == id)
    ensures HasTimer(Step(cfg, w, e), id) && Step(cfg, w, e).life == w.life
  {
    hide Row, SetRow, Without, ActiveRows, Due, Overdue, Wanted, LatestMatch;
  }

  lemma {:induction false} TimerLasts(cfg: Config, es: seq<Event>, more: seq<Event>, id: Id)
    requires HasTimer(Run(cfg, es), id)
    requires forall k :: 0 <= k < |more| ==> !more[k].Boot? && !(more[k].TimerFires? && more[k].id == id)
    ensures HasTimer(Run(cfg, es + more), id) && Run(cfg, es + more).life == Run(cfg, es).life
  {
    hide Run, Step, HasTimer;
    if more == [] {
      assert es + more == es;
    } else {
      var front := more[..|more| - 1];
      TimerLasts(cfg, es, front, id);
      RunOneMore(cfg, es + front, more[|more| - 1]);
      assert es + more == (es + front) + [more[|more| - 1]];
      TimerStays(cfg, Run(cfg, es + front), more[|more| - 1], id);
    }
  }

  /** A timer fires the task if its row is active then, and is used up. */
  lemma TimerFiresTask(cfg: Config, w: World, id: Id, wait: nat)
    requires HasTimer(w, id)
    ensures var v := Step(cfg, w, TimerFires(id, wait));
            && v.timers == w.timers - multiset{id} && v.clock == w.clock + wait && v.disk == w.disk
            && if IsActive(w.disk, id)
               then v.fires == w.fires + [Fire(id, !Row(w.disk, id).value.recurring, w.clock + wait, OnTimer, w.life)]
               else v.fires == w.fires
  {
    hide Row;
    RowIs(w.disk, id);
  }

  /**
   * A due, active, recurring task with a positive jitter that a tick reaches and has not picked in this minute is fired
   * by the next timer of it, in every run and whatever else happens in between in this life, if its row is active then.
   */
  lemma JitteredTaskFires(cfg: Config, es: seq<Event>, p: nat, id: Id, more: seq<Event>, wait: nat)
    requires TickPicks(cfg, Run(cfg, es), p, id) && Delayed(Run(cfg, es), p)
    requires forall k :: 0 <= k < |more| ==> !more[k].Boot? && !(more[k].TimerFires? && more[k].id == id)
    ensures var w, v := Run(cfg, es + [Advance(p)] + more), Run(cfg, es + [Advance(p)] + more + [TimerFires(id, wait)]);
            IsActive(w.disk, id) ==>
              v.fires == w.fires + [Fire(id, !Row(w.disk, id).value.recurring, w.clock + wait, OnTimer, Run(cfg, es).life)]
  {
    hide Run, Step, TickPicks, Delayed, IsActive;
    var picked := es + [Advance(p)];
    RunOneMore(cfg, es, Advance(p));
    PickArmsTimer(cfg, Run(cfg, es), p, id);
    TimerLasts(cfg, picked, more, id);
    RunOneMore(cfg, picked + more, TimerFires(id, wait));
    TimerFiresTask(cfg, Run(cfg, picked + more), id, wait);
  }

  lemma PickArmsTimer(cfg: Config, w: World, p: nat, id: Id)
    requires TickPicks(cfg, w, p, id) && Delayed(w, p)
    ensures HasTimer(Step(cfg, w, Advance(p)), id) && Step(cfg, w, Advance(p)).life == w.life
  {
    hide Step, TickPicks, Delayed;
    PickedTaskStarts(cfg, w, p, id);
    AdvanceKeepsLife(cfg, w, p);
  }

  lemma AdvanceKeepsLife(cfg: Config, w: World, p: nat)
    ensures Step(cfg, w, Advance(p)).life == w.life
  {
    hide Row, SetRow, Due, Overdue, Wanted, LatestMatch;
  }

  // ----- a tick works on the file as it is -----------------------------------------------------------------------------

  /** Unless something was written since, the cache holds the active rows of the file. */
  predicate CacheFits(w: World) {
    w.life > 0 && !w.stale ==> w.cache == ActiveRows(w.disk)
  }

  lemma StepCaches(cfg: Config, w: World, e: Event)
    requires CacheFits(w)
    ensures CacheFits(Step(cfg, w, e))
  {
    hide Row, SetRow, Without, ActiveRows, Due, Overdue, Wanted, LatestMatch, CatchUpPasses;
  }

  lemma {:induction false} RunCaches(cfg: Config, es: seq<Event>)
    ensures CacheFits(Run(cfg, es))
  {
    hide Step, CacheFits;
    if es == [] {
      StartCaches();
    } else {
      RunCaches(cfg, es[..|es| - 1]);
      StepCaches(cfg, Run(cfg, es[..|es| - 1]), es[|es| - 1]);
    }
  }

  lemma StartCaches()
    ensures CacheFits(START)
  {
  }

  /** In every run a tick goes through exactly the rows active in the file when it begins, and forgets the last minute. */
  lemma TickSeesTheFile(cfg: Config, es: seq<Event>, wait: nat)
    requires Run(cfg, es).life > 0
    ensures var w, v := Run(cfg, es), Run(cfg, es + [Tick(wait)]);
            && v.passes == w.passes + [Pass(Ticking(w.clock + wait), ActiveRows(w.disk), 0, None)]
            && v.clock == w.clock + wait && v.disk == w.disk && v.minute == v.clock / MINUTE
            && v.fired == if v.minute == w.minute then w.fired else {}
  {
    hide Run, ActiveRows;
    RunCaches(cfg, es);
    RunOneMore(cfg, es, Tick(wait));
  }

  // ----- what is written ---------------------------------------------------------------------------------------------

  /** At the end of a turn the row as it is then is marked fired, or counts one more fire, and the tick time is stamped. */
  lemma TurnEndWrites(cfg: Config, w: World, p: nat, wait: nat)
    requires p < |w.passes| && w.passes[p].turn.Some?
    ensures var v, turn := Step(cfg, w, TurnEnds(p, wait)), w.passes[p].turn.value;
            var now := w.clock + wait;
            && v.clock == now && turn.fire in v.ended && v.passes == w.passes[p := w.passes[p].(turn := None)]
            && (forall id :: id != turn.id ==> Row(v.disk, id) == Row(w.disk, id))
            && match Row(w.disk, turn.id)
               case None => v.disk == w.disk && v.lastTick == w.lastTick
               case Some(row) =>
                 && v.lastTick == Some(now) && v.stale && Row(v.disk, turn.id).Some?
                 && var after := Row(v.disk, turn.id).value;
                    && after == row.(status := after.status, lastFired := Some(now), fireCount := after.fireCount)
                    && (turn.oneShot ==> after.status == Fired && after.fireCount == 1)
                    && (!turn.oneShot ==> after.status == row.status && after.fireCount == row.fireCount + 1)
  {
    hide Row, SetRow;
    var turn := w.passes[p].turn.value;
    var row := Row(w.disk, turn.id);
    RowIs(w.disk, turn.id);
    if row.Some? {
      forall id ensures Row(SetRow(w.disk, FiredRow(row.value, turn.oneShot, w.clock + wait)), id) ==
                        if id == turn.id then Some(FiredRow(row.value, turn.oneShot, w.clock + wait)) else Row(w.disk, id)
      {
        RowOfSet(w.disk, FiredRow(row.value, turn.oneShot, w.clock + wait), id);
      }
    }
  }

  /** The window a boot catches up: from the last recorded tick, or the cap before now if that is later. */
  lemma WindowMeans(cfg: Config, previous: nat, now: nat)
    requires previous <= now
    ensures var start := WindowStart(cfg, previous, now);
            && start >= previous && start >= now - cfg.cap && (start == previous || start == now - cfg.cap) && start <= now
    ensures MinuteStart(now) <= now < MinuteStart(now) + 60000 && MinuteStart(now) % 60000 == 0
  {
    MinuteStartIsWhole(now);
  }

  /** A boot takes over the tick time, remembers nothing, and catches up only if a tick was recorded before. */
  lemma BootMeans(cfg: Config, w: World, wait: nat)
    ensures var v, now := Step(cfg, w, Boot(wait)), w.clock + wait;
            && v.lastTick == Some(now) && v.clock == now && v.life == w.life + 1 && v.disk == w.disk && v.stale
            && v.fired == {} && v.timers == multiset{} && v.starts == w.starts && v.fires == w.fires && v.ended == w.ended
            && (v.passes == [] <==> w.lastTick.None? || WindowStart(cfg, w.lastTick.value, now) >= MinuteStart(now))
  {
    hide ActiveRows;
  }

  // ----- edits --------------------------------------------------------------------------------------------------------

  /** An edit changes what it names of the first row with the id: its timing, and whether it is active or cancelled. */
  lemma PatchMeans(cfg: Config, w: World, id: Id, timing: Option<Timing>, enabled: Option<bool>)
    requires Row(w.disk, id).Some?
    ensures var v, row := Step(cfg, w, Patch(id, timing, enabled)), Row(w.disk, id).value;
            && (forall other :: other != id ==> Row(v.disk, other) == Row(w.disk, other)) && Row(v.disk, id).Some? && v.stale
            && var after := Row(v.disk, id).value;
               && after.id == row.id && after.zone == row.zone && after.jitter == row.jitter
               && after.lastFired == row.lastFired && after.fireCount == row.fireCount
               && after.status == (match enabled case None => row.status case Some(on) => if on then Active else Cancelled)
               && Timing(after.cron, after.recurring, after.scheduledFor) ==
                  (match timing case None => Timing(row.cron, row.recurring, row.scheduledFor) case Some(x) => x)
  {
    hide Row, SetRow;
    RowIs(w.disk, id);
    var row := Row(w.disk, id).value;
    forall other ensures Row(SetRow(w.disk, Patched(row, timing, enabled)), other) ==
                         if other == id then Some(Patched(row, timing, enabled)) else Row(w.disk, other)
    {
      RowOfSet(w.disk, Patched(row, timing, enabled), other);
    }
  }

  /** Adding and deleting touch one row. */
  lemma AddAndDeleteMean(cfg: Config, w: World, e: Event, other: Id)
    requires UniqueIds(w.disk) && (e.Add? || e.Delete?)
    ensures var v := Step(cfg, w, e);
            && (e.Add? && Row(w.disk, e.id).None? ==>
                  Row(v.disk, e.id) == Some(Task(e.id, e.timing.recurring, e.timing.cron, e.zone, e.timing.scheduledFor, e.jitter,
                                                 Active, None, 0)))
            && (e.Delete? ==> Row(v.disk, e.id).None?)
            && (other != e.id ==> Row(v.disk, other) == Row(w.disk, other))
  {
    hide Row, Without;
    if e.Add? {
      RowOfAdd(w.disk, NewTask(e), other);
      RowOfAdd(w.disk, NewTask(e), e.id);
    } else {
      RowOfWithout(w.disk, e.id, other);
      RowOfWithout(w.disk, e.id, e.id);
    }
  }
}
