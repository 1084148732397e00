/**
 * How often the scheduler fires: one-shots against the times they were made active, and the catch-up pass against what
 * was missed.
 */
module CronFires {
  import opened Basics
  import opened CronText
  import opened CronScheduling
  import opened CronSafety

  // ----- one-shots ---------------------------------------------------------------------------------------------

  function OneShots(fires: seq<Fire>, id: Id): nat {
    if fires == [] then 0
    else OneShots(fires[..|fires| - 1], id) + if fires[|fires| - 1].id == id && fires[|fires| - 1].oneShot then 1 else 0
  }

  lemma OneShotsSnoc(fires: seq<Fire>, f: Fire, id: Id)
    ensures OneShots(fires + [f], id) == OneShots(fires, id) + if f.id == id && f.oneShot then 1 else 0
  {
    assert (fires + [f])[..|fires|] == fires;
  }

  /** A one-shot turn of the task is running in this process. */
  predicate Holding(w: World, id: Id) {
    exists p :: 0 <= p < |w.passes| && w.passes[p].turn.Some? && w.passes[p].turn.value.oneShot && w.passes[p].turn.value.id == id
  }

  predicate IsActive(disk: seq<Task>, id: Id) {
    Row(disk, id).Some? && Row(disk, id).value.status.Active?
  }

  /** The task is active and no turn is using that up. */
  predicate Free(w: World, id: Id) {
    IsActive(w.disk, id) && !Holding(w, id)
  }

  /** How often a run makes a task active: when it is added, and when an edit enables it. */
  function Activations(es: seq<Event>, id: Id): nat {
    if es == [] then 0
    else
      var e := es[|es| - 1];
      Activations(es[..|es| - 1], id)
      + if e.Add? && e.id == id then 1 else if e.Patch? && e.id == id && e.enabled == Some(true) then 1 else 0
  }

  predicate StartsOneShot(w: World, v: World, id: Id) {
    |v.fires| > |w.fires| && v.fires[|w.fires|].id == id && v.fires[|w.fires|].oneShot
  }

  /** The pass stands at a row of the task. */
  predicate StandsAt(w: World, p: nat, id: Id) {
    CanAdvance(w, p) && w.passes[p].tasks[w.passes[p].next].id == id
  }

  /** The row of the task is an active one-shot. */
  predicate ActiveOneShot(disk: seq<Task>, id: Id) {
    IsActive(disk, id) && !Row(disk, id).value.recurring
  }

  /** What makes a step start the task as a one-shot: a tick and a timer read its row, the catch-up pass its snapshot. */
  predicate Picks(cfg: Config, w: World, e: Event, id: Id) {
    match e
    case Advance(p) =>
      && StandsAt(w, p, id)
      && var t := w.passes[p].tasks[w.passes[p].next];
         (match w.passes[p].job
         case Ticking(now) =>
           && t.status.Active? && !Overdue(cfg, t, now) && id !in w.fired && Due(cfg, t, now)
           && !(t.recurring && t.jitter > 0) && ActiveOneShot(w.disk, id)
         case CatchingUp(start, end) => Wanted(cfg, t, start, end) && !t.recurring
         case Timed => false)
    case TimerFires(x, _) => x == id && id in w.timers && ActiveOneShot(w.disk, id)
    case _ => false
  }

  /** The event advances a catch-up pass. */
  predicate CatchesUp(w: World, e: Event) {
    e.Advance? && CanAdvance(w, e.pass) && w.passes[e.pass].job.CatchingUp?
  }

  /** A boot inside a running one-shot turn of the task, or a pick of it as a one-shot while it is not free. */
  predicate Lapse(cfg: Config, w: World, e: Event, id: Id) {
    if e.Boot? then Holding(w, id) else Picks(cfg, w, e, id) && !Free(w, id)
  }

  function Lapses(cfg: Config, es: seq<Event>, id: Id): nat {
    if es == [] then 0
    else Lapses(cfg, es[..|es| - 1], id) + if Lapse(cfg, Run(cfg, es[..|es| - 1]), es[|es| - 1], id) then 1 else 0
  }

  /** Exactly the picks start one-shot turns. */
  lemma PicksExactly(cfg: Config, w: World, e: Event, id: Id)
    ensures StartsOneShot(w, Step(cfg, w, e), id) <==> Picks(cfg, w, e, id)
  {
    hide Row, SetRow, Without, ActiveRows, Due, Overdue, LatestMatch, CatchUpPasses;
    if e.Advance? && CanAdvance(w, e.pass) { RowIs(w.disk, w.passes[e.pass].tasks[w.passes[e.pass].next].id); }
    if e.TimerFires? { RowIs(w.disk, e.id); }
  }

  /**
   * A pick, by a pass or by a timer, lapses if and only if it falls inside a running turn of the task, or is made by the
   * catch-up pass and the row has been fired, disabled or deleted since the boot.
   */
  lemma PickLapses(cfg: Config, w: World, e: Event, id: Id)
    requires Picks(cfg, w, e, id)
    ensures Lapse(cfg, w, e, id) <==> Holding(w, id) || (CatchesUp(w, e) && !IsActive(w.disk, id))
  {
    hide Row, Wanted, Due, Overdue, Holding;
  }

  /**
   * No boot falls inside a running turn of the task; no tick reaches it there, unless its minute remembers the task; nor
   * does a timer; and the catch-up pass reaches it only while its row is active and no turn of it runs.
   */
  predicate Safe(w: World, e: Event, id: Id) {
    match e
    case Boot(_) => !Holding(w, id)
    case Advance(p) =>
      StandsAt(w, p, id) ==>
        (match w.passes[p].job
        case Ticking(_) => id in w.fired || !Holding(w, id)
        case CatchingUp(_, _) => Free(w, id)
        case Timed => true)
    case TimerFires(x, _) => x == id ==> !Holding(w, id)
    case _ => true
  }

  lemma SafeDoesNotLapse(cfg: Config, w: World, e: Event, id: Id)
    requires Safe(w, e, id)
    ensures !Lapse(cfg, w, e, id)
  {
    hide Row, Wanted, Due, Overdue, Holding;
  }

  predicate SafeRun(cfg: Config, es: seq<Event>, id: Id) {
    forall k :: 0 <= k < |es| ==> Safe(Run(cfg, es[..k]), es[k], id)
  }

  lemma {:induction false} SafeRunHasNoLapse(cfg: Config, es: seq<Event>, id: Id)
    requires SafeRun(cfg, es, id)
    ensures Lapses(cfg, es, id) == 0
  {
    hide Safe, Run, Lapse;
    if es != [] {
      var front := es[..|es| - 1];
      assert forall k :: 0 <= k < |front| ==> es[..k] == front[..k] && es[k] == front[k];
      SafeRunHasNoLapse(cfg, front, id);
      SafeDoesNotLapse(cfg, Run(cfg, es[..|es| - 1]), es[|es| - 1], id);
    }
  }

  function Spent(w: World, id: Id): nat {
    OneShots(w.fires, id) + if Free(w, id) then 1 else 0
  }

  /** What a visit can do: nothing to the file but marking the task missed, or start one turn for the task. */
  predicate VisitOutcome(w: World, v: Visited, t: Task) {
    && v.world.passes == w.passes && v.world.life == w.life && v.world.clock == w.clock
    && match v.turn
       case Some(turn) =>
         v.world.disk == w.disk && turn.id == t.id && |v.world.fires| == |w.fires| + 1
         && v.world.fires == w.fires + [v.world.fires[|w.fires|]]
         && v.world.fires[|w.fires|].id == t.id && v.world.fires[|w.fires|].oneShot == turn.oneShot
       case None =>
         v.world.fires == w.fires
         && (v.world.disk == w.disk
             || (Row(w.disk, t.id).Some? && v.world.disk == SetRow(w.disk, Row(w.disk, t.id).value.(status := Missed))))
  }

  lemma VisitDoes(cfg: Config, w: World, job: Job, t: Task)
    ensures VisitOutcome(w, Visit(cfg, w, job, t), t)
  {
    hide Row, SetRow, Due, Wanted, LatestMatch;
    RowIs(w.disk, t.id);
  }

  lemma AdvanceSpends(cfg: Config, w: World, p: nat, id: Id)
    ensures Spent(AdvanceStep(cfg, w, p), id) <= Spent(w, id) + if Lapse(cfg, w, Advance(p), id) then 1 else 0
  {
    if CanAdvance(w, p) {
      hide Row, SetRow, Visit, OneShots;
      var t := w.passes[p].tasks[w.passes[p].next];
      var v := Visit(cfg, w, w.passes[p].job, t);
      var after := AdvanceStep(cfg, w, p);
      VisitDoes(cfg, w, w.passes[p].job, t);
      assert after.fires == v.world.fires && after.disk == v.world.disk;
      HoldingAt(w, after, p, v.turn, id);
      if v.turn.Some? {
        OneShotsSnoc(w.fires, after.fires[|w.fires|], id);
      } else if after.disk != w.disk {
        RowIs(w.disk, t.id);
        RowOfSet(w.disk, Row(w.disk, t.id).value.(status := Missed), id);
      }
    }
  }

  lemma HoldingAt(w: World, v: World, p: nat, turn: Option<Turn>, id: Id)
    requires p < |w.passes| && w.passes[p].turn.None? && |v.passes| == |w.passes| && v.passes[p].turn == turn
    requires forall q :: 0 <= q < |w.passes| && q != p ==> v.passes[q] == w.passes[q]
    ensures Holding(v, id) <==> Holding(w, id) || (turn.Some? && turn.value.oneShot && turn.value.id == id)
  {
    if Holding(w, id) {
      var q :| 0 <= q < |w.passes| && w.passes[q].turn.Some? && w.passes[q].turn.value.oneShot && w.passes[q].turn.value.id == id;
      assert v.passes[q] == w.passes[q];
    }
  }

  lemma TurnEndsSpends(w: World, p: nat, wait: nat, id: Id)
    ensures Spent(TurnEndsStep(w, p, wait), id) <= Spent(w, id)
  {
    if p < |w.passes| && w.passes[p].turn.Some? {
      hide Row, SetRow, OneShots;
      var t := w.passes[p].turn.value;
      var v := TurnEndsStep(w, p, wait);
      RowIs(w.disk, t.id);
      if Row(w.disk, t.id).Some? { RowOfSet(w.disk, FiredRow(Row(w.disk, t.id).value, t.oneShot, w.clock + wait), id); }
      assert forall q :: 0 <= q < |w.passes| && q != p ==> v.passes[q] == w.passes[q];
      EndedHolding(w, v, p, id);
    }
  }

  /** Only the turn that ended can have held the task. */
  lemma EndedHolding(w: World, v: World, p: nat, id: Id)
    requires p < |w.passes| && w.passes[p].turn.Some? && |v.passes| == |w.passes| && v.passes[p].turn.None?
    requires forall q :: 0 <= q < |w.passes| && q != p ==> v.passes[q] == w.passes[q]
    ensures Holding(v, id) ==> Holding(w, id)
    ensures Holding(w, id) ==> Holding(v, id) || (w.passes[p].turn.value.oneShot && w.passes[p].turn.value.id == id)
  {
    if Holding(w, id) {
      var q :| 0 <= q < |w.passes| && w.passes[q].turn.Some? && w.passes[q].turn.value.oneShot && w.passes[q].turn.value.id == id;
      assert q == p || v.passes[q] == w.passes[q];
    }
    if Holding(v, id) {
      var q :| 0 <= q < |v.passes| && v.passes[q].turn.Some? && v.passes[q].turn.value.oneShot && v.passes[q].turn.value.id == id;
      assert w.passes[q] == v.passes[q];
    }
  }

  lemma TimerSpends(cfg: Config, w: World, x: Id, wait: nat, id: Id)
    ensures Spent(TimerStep(w, x, wait), id) <= Spent(w, id) + if Lapse(cfg, w, TimerFires(x, wait), id) then 1 else 0
  {
    if x in w.timers {
      hide Row, OneShots;
      var v := TimerStep(w, x, wait);
      RowIs(w.disk, x);
      if |v.fires| > |w.fires| { OneShotsSnoc(w.fires, v.fires[|w.fires|], id); }
      assert forall q :: 0 <= q < |w.passes| ==> v.passes[q] == w.passes[q];
      HoldingAdded(w, v, id);
      hide Holding;
    }
  }

  lemma HoldingAdded(w: World, v: World, id: Id)
    requires |v.passes| == |w.passes| + 1 && forall q :: 0 <= q < |w.passes| ==> v.passes[q] == w.passes[q]
    ensures var turn := v.passes[|w.passes|].turn;
            Holding(v, id) <==> Holding(w, id) || (turn.Some? && turn.value.oneShot && turn.value.id == id)
  {
    if Holding(w, id) {
      var q :| 0 <= q < |w.passes| && w.passes[q].turn.Some? && w.passes[q].turn.value.oneShot && w.passes[q].turn.value.id == id;
      assert v.passes[q] == w.passes[q];
    }
  }

  lemma StepSpends(cfg: Config, w: World, e: Event, id: Id)
    requires UniqueIds(w.disk) && Fresh(w, e)
    ensures Spent(Step(cfg, w, e), id) <=
            Spent(w, id) + (if Lapse(cfg, w, e, id) then 1 else 0)
            + if e.Add? && e.id == id then 1 else if e.Patch? && e.id == id && e.enabled == Some(true) then 1 else 0
  {
    hide Row, SetRow, Without, OneShots, AdvanceStep, TurnEndsStep, TimerStep, ActiveRows, CatchUpPasses;
    match e
    case Boot(wait) =>
    case Tick(wait) => if w.life > 0 { HoldingAdded(w, Step(cfg, w, e), id); }
    case Advance(p) => AdvanceSpends(cfg, w, p, id);
    case TurnEnds(p, wait) => TurnEndsSpends(w, p, wait, id);
    case TimerFires(x, wait) => TimerSpends(cfg, w, x, wait, id);
    case Add(_, _, _, _) => RowOfAdd(w.disk, NewTask(e), id);
    case Delete(x) => RowOfWithout(w.disk, x, id);
    case Patch(x, timing, enabled) =>
      var row := Row(w.disk, x);
      RowIs(w.disk, x);
      if row.Some? { RowOfSet(w.disk, Patched(row.value, timing, enabled), id); }
  }

  /**
   * In every run a task starts as a one-shot no more often than it was made active plus once for every lapse, and one
   * activation is still unused while it is free.
   */
  lemma {:induction false} OneShotsAreAccountedFor(cfg: Config, es: seq<Event>, id: Id)
    requires FreshIds(cfg, es)
    ensures OneShots(Run(cfg, es).fires, id) + (if Free(Run(cfg, es), id) then 1 else 0) <= Activations(es, id) + Lapses(cfg, es, id)
  {
    hide Step, Fresh, Kept, OneShots, Lapse;
    if es == [] {
      NothingSpent(id);
    } else {
      OneShotsAreAccountedFor(cfg, es[..|es| - 1], id);
      RunKeeps(cfg, es[..|es| - 1]);
      KeptIsUnique(Run(cfg, es[..|es| - 1]));
      StepSpends(cfg, Run(cfg, es[..|es| - 1]), es[|es| - 1], id);
    }
  }

  lemma NothingSpent(id: Id)
    ensures OneShots([], id) == 0 && !Free(START, id)
  {
  }

  lemma KeptIsUnique(w: World)
    requires Kept(w)
    ensures UniqueIds(w.disk)
  {
  }

  /**
   * A task fires as a one-shot at most once per activation if no boot, tick or timer falls inside its running turn and
   * the catch-up pass reaches it only while it is active and idle.
   */
  lemma OneShotFiresOncePerActivation(cfg: Config, es: seq<Event>, id: Id)
    requires FreshIds(cfg, es) && SafeRun(cfg, es, id)
    ensures OneShots(Run(cfg, es).fires, id) <= Activations(es, id)
  {
    hide SafeRun, Lapses;
    SafeRunHasNoLapse(cfg, es, id);
    OneShotsAreAccountedFor(cfg, es, id);
  }

  // ----- the catch-up pass ------------------------------------------------------------------------------------

  /** Catch-up fires of a task in one life. */
  function CaughtCount(fires: seq<Fire>, life: nat, id: Id): nat {
    if fires == [] then 0
    else
      var f := fires[|fires| - 1];
      CaughtCount(fires[..|fires| - 1], life, id) + if f.how.CaughtUp? && f.life == life && f.id == id then 1 else 0
  }

  lemma CaughtSnoc(fires: seq<Fire>, f: Fire, life: nat, id: Id)
    ensures CaughtCount(fires + [f], life, id) == CaughtCount(fires, life, id) + if f.how.CaughtUp? && f.life == life && f.id == id then 1 else 0
  {
    assert (fires + [f])[..|fires|] == fires;
  }

  lemma {:induction false} NoneCaught(fires: seq<Fire>, life: nat, id: Id)
    requires forall f :: 0 <= f < |fires| ==> fires[f].life != life
    ensures CaughtCount(fires, life, id) == 0
  {
    if fires != [] { NoneCaught(fires[..|fires| - 1], life, id); }
  }

  predicate SomeWanted(cfg: Config, ts: seq<Task>, id: Id, start: nat, end: nat) {
    exists t <- ts :: t.id == id && Wanted(cfg, t, start, end)
  }

  /** The pass has fired exactly the wanted ones of the tasks it has reached, and every fire of this life is after its window. */
  ghost predicate CaughtSoFar(cfg: Config, w: World, pass: Pass)
    requires pass.job.CatchingUp?
  {
    && UniqueIds(pass.tasks) && pass.next <= |pass.tasks|
    && pass.job.end % MINUTE == 0 && pass.job.end <= w.clock
    && (forall f :: 0 <= f < |w.fires| && w.fires[f].life == w.life ==> pass.job.end <= w.fires[f].at)
    && forall id :: CaughtCount(w.fires, w.life, id) ==
                    if SomeWanted(cfg, pass.tasks[..pass.next], id, pass.job.start, pass.job.end) then 1 else 0
  }

  ghost predicate Progress(cfg: Config, w: World) {
    forall p :: 0 <= p < |w.passes| && w.passes[p].job.CatchingUp? ==> p == 0 && CaughtSoFar(cfg, w, w.passes[p])
  }

  /** Steps that start no catch-up fire. */
  lemma OtherFires(cfg: Config, w: World, v: World, pass: Pass)
    requires pass.job.CatchingUp? && CaughtSoFar(cfg, w, pass) && v.life == w.life && v.clock >= w.clock
    requires v.fires == w.fires
             || (|v.fires| == |w.fires| + 1 && v.fires == w.fires + [v.fires[|w.fires|]]
                 && !v.fires[|w.fires|].how.CaughtUp? && v.fires[|w.fires|].at >= w.clock)
    ensures CaughtSoFar(cfg, v, pass)
  {
    hide CaughtCount, SomeWanted;
    if v.fires != w.fires {
      forall id ensures CaughtCount(v.fires, v.life, id) == CaughtCount(w.fires, w.life, id) {
        CaughtSnoc(w.fires, v.fires[|w.fires|], w.life, id);
      }
    }
  }

  lemma OneMoreWanted(cfg: Config, ts: seq<Task>, next: nat, id: Id, start: nat, end: nat)
    requires UniqueIds(ts) && next < |ts|
    ensures SomeWanted(cfg, ts[..next + 1], id, start, end) <==>
            SomeWanted(cfg, ts[..next], id, start, end) || (ts[next].id == id && Wanted(cfg, ts[next], start, end))
    ensures ts[next].id == id ==> !SomeWanted(cfg, ts[..next], id, start, end)
  {
    hide Wanted;
    assert ts[..next + 1] == ts[..next] + [ts[next]];
    if ts[next].id == id {
      forall t | t in ts[..next] ensures t.id != id {
        var k :| 0 <= k < next && ts[k] == t;
      }
    }
  }

  lemma CatchUpAdvances(cfg: Config, w: World, v: World)
    requires CanAdvance(w, 0) && w.passes[0].job.CatchingUp? && CaughtSoFar(cfg, w, w.passes[0]) && v == AdvanceStep(cfg, w, 0)
    ensures v.passes[0].job == w.passes[0].job && CaughtSoFar(cfg, v, v.passes[0])
  {
    hide CaughtCount, SomeWanted, Wanted, LatestMatch;
    var pass := w.passes[0];
    var t := pass.tasks[pass.next];
    forall id ensures CaughtCount(v.fires, v.life, id) ==
                      if SomeWanted(cfg, pass.tasks[..pass.next + 1], id, pass.job.start, pass.job.end) then 1 else 0
    {
      OneMoreWanted(cfg, pass.tasks, pass.next, id, pass.job.start, pass.job.end);
      if Wanted(cfg, t, pass.job.start, pass.job.end) { CaughtSnoc(w.fires, v.fires[|w.fires|], w.life, id); }
    }
  }

  lemma TickVisitFires(cfg: Config, w: World, job: Job, t: Task)
    requires !job.CatchingUp?
    ensures var v := Visit(cfg, w, job, t).world;
            && v.life == w.life && v.clock == w.clock && v.passes == w.passes
            && (v.fires == w.fires || (|v.fires| == |w.fires| + 1 && v.fires == w.fires + [v.fires[|w.fires|]]
                                       && !v.fires[|w.fires|].how.CaughtUp? && v.fires[|w.fires|].at == w.clock))
  {
    hide Row, SetRow, Due;
  }

  lemma AdvanceProgress(cfg: Config, w: World, p: nat)
    requires Progress(cfg, w)
    ensures Progress(cfg, AdvanceStep(cfg, w, p))
  {
    if CanAdvance(w, p) {
      var v := AdvanceStep(cfg, w, p);
      if w.passes[p].job.CatchingUp? {
        CatchUpAdvances(cfg, w, v);
        hide CaughtSoFar, Visit;
        assert forall q :: 0 < q < |v.passes| ==> v.passes[q] == w.passes[q] by { hide Progress; AdvanceOthers(cfg, w, p); }
      } else {
        var t := w.passes[p].tasks[w.passes[p].next];
        TickVisitFires(cfg, w, w.passes[p].job, t);
        AdvanceOthers(cfg, w, p);
        hide Visit, CaughtSoFar;
        forall q | 0 <= q < |v.passes| && v.passes[q].job.CatchingUp? ensures q == 0 && CaughtSoFar(cfg, v, v.passes[q]) {
          assert q != p && v.passes[q] == w.passes[q];
          OtherFires(cfg, w, v, w.passes[q]);
        }
      }
    }
  }

  lemma AdvanceOthers(cfg: Config, w: World, p: nat)
    requires CanAdvance(w, p)
    ensures var v := AdvanceStep(cfg, w, p);
            && |v.passes| == |w.passes| && v.passes[p].job == w.passes[p].job && v.passes[p].tasks == w.passes[p].tasks
            && v.life == w.life && forall q :: 0 <= q < |w.passes| && q != p ==> v.passes[q] == w.passes[q]
  {
    var t := w.passes[p].tasks[w.passes[p].next];
    VisitDoes(cfg, w, w.passes[p].job, t);
    hide Visit;
  }

  lemma BootProgress(cfg: Config, w: World, wait: nat)
    requires Kept(w)
    ensures Progress(cfg, BootStep(cfg, w, wait))
  {
    hide ActiveRows, Row, CaughtCount;
    var v := BootStep(cfg, w, wait);
    MinuteStartIsWhole(v.clock);
    forall id ensures CaughtCount(v.fires, v.life, id) == 0 { NoneCaught(v.fires, v.life, id); }
    ActiveRowsAre(w.disk, Task("", true, "", "", None, 0, Active, None, 0));
    if v.passes != [] { assert v.passes[0].tasks[..0] == []; }
  }

  /** Steps that leave every catch-up pass as it is and start no catch-up fire. */
  lemma QuietProgress(cfg: Config, w: World, v: World)
    requires Progress(cfg, w) && v.life == w.life && v.clock >= w.clock
    requires forall q :: 0 <= q < |v.passes| && v.passes[q].job.CatchingUp? ==>
               q < |w.passes| && v.passes[q].job == w.passes[q].job && v.passes[q].tasks == w.passes[q].tasks && v.passes[q].next == w.passes[q].next
    requires v.fires == w.fires
             || (|v.fires| == |w.fires| + 1 && v.fires == w.fires + [v.fires[|w.fires|]]
                 && !v.fires[|w.fires|].how.CaughtUp? && v.fires[|w.fires|].at >= w.clock)
    ensures Progress(cfg, v)
  {
    forall q | 0 <= q < |v.passes| && v.passes[q].job.CatchingUp? ensures q == 0 && CaughtSoFar(cfg, v, v.passes[q]) {
      OtherFires(cfg, w, v, w.passes[q]);
    }
  }

  lemma StepProgress(cfg: Config, w: World, e: Event)
    requires Progress(cfg, w) && Kept(w)
    ensures Progress(cfg, Step(cfg, w, e))
  {
    hide Progress, Kept, Row, SetRow, Without, ActiveRows, AdvanceStep;
    match e
    case Boot(wait) => BootProgress(cfg, w, wait);
    case Advance(p) => AdvanceProgress(cfg, w, p);
    case _ => QuietProgress(cfg, w, Step(cfg, w, e));
  }

  lemma {:induction false} RunProgress(cfg: Config, es: seq<Event>)
    requires FreshIds(cfg, es)
    ensures Progress(cfg, Run(cfg, es))
  {
    if es == [] {
      assert Run(cfg, es) == START;
    } else {
      hide Step, Fresh, Kept, Progress;
      RunProgress(cfg, es[..|es| - 1]);
      RunKeeps(cfg, es[..|es| - 1]);
      StepProgress(cfg, Run(cfg, es[..|es| - 1]), es[|es| - 1]);
    }
  }

  // ----- from one boot to the next --------------------------------------------------------------------------------

  predicate NoBoot(es: seq<Event>) {
    forall i :: 0 <= i < |es| ==> !es[i].Boot?
  }

  lemma PassesStay(cfg: Config, w: World, e: Event)
    requires !e.Boot? && w.passes != []
    ensures var v := Step(cfg, w, e);
            v.passes != [] && v.passes[0].job == w.passes[0].job && v.passes[0].tasks == w.passes[0].tasks && v.life == w.life
  {
    hide Row, SetRow, Without, ActiveRows, Visit;
    if e.Advance? && CanAdvance(w, e.pass) { AdvanceOthers(cfg, w, e.pass); }
  }

  /** The pass a boot starts works on the active rows of the file at that boot for the rest of the life. */
  lemma {:induction false} CatchUpPassStays(cfg: Config, before: seq<Event>, wait: nat, after: seq<Event>)
    requires NoBoot(after)
    requires CatchUpPasses(cfg, Run(cfg, before).disk, Run(cfg, before).lastTick, Run(cfg, before).clock + wait) != []
    ensures var pass := CatchUpPasses(cfg, Run(cfg, before).disk, Run(cfg, before).lastTick, Run(cfg, before).clock + wait)[0];
            var w := Run(cfg, before + [Boot(wait)] + after);
            w.passes != [] && w.passes[0].job == pass.job && w.passes[0].tasks == pass.tasks && w.life == Run(cfg, before).life + 1
    decreases |after|
  {
    hide CatchUpPasses, Run, Step, ActiveRows;
    var booted := before + [Boot(wait)];
    if after == [] {
      assert booted + after == booted;
      RunOneMore(cfg, before, Boot(wait));
      BootStarts(cfg, Run(cfg, before), wait);
    } else {
      var front, e := after[..|after| - 1], after[|after| - 1];
      assert booted + after == booted + front + [e];
      CatchUpPassStays(cfg, before, wait, front);
      RunOneMore(cfg, booted + front, e);
      PassesStay(cfg, Run(cfg, booted + front), e);
    }
  }

  lemma RunOneMore(cfg: Config, es: seq<Event>, e: Event)
    ensures Run(cfg, es + [e]) == Step(cfg, Run(cfg, es), e)
    ensures FreshIds(cfg, es + [e]) <==> FreshIds(cfg, es) && Fresh(Run(cfg, es), e)
  {
    assert (es + [e])[..|es|] == es;
  }

  lemma BootStarts(cfg: Config, w: World, wait: nat)
    ensures var v := Step(cfg, w, Boot(wait));
            v.passes == CatchUpPasses(cfg, w.disk, w.lastTick, w.clock + wait) && v.life == w.life + 1
  {
  }

  /** The task missed its time in the window: by the rows and the schedule alone. */
  ghost predicate MissedIn(cfg: Config, t: Task, start: nat, end: nat) {
    && t.status.Active?
    && if t.recurring then
         exists m: nat :: start <= m < end && WholeMinute(m) && MatchesAt(cfg, t, m) && (t.lastFired.None? || t.lastFired.value < m)
       else t.scheduledFor.Some? && start <= t.scheduledFor.value < end
  }

  lemma WantedIsMissed(cfg: Config, t: Task, start: nat, end: nat)
    requires end % MINUTE == 0
    ensures Wanted(cfg, t, start, end) <==> MissedIn(cfg, t, start, end)
  {
    hide MatchesAt, LatestMatch;
    if t.recurring && t.status.Active? { RecurringWantedExactly(cfg, t, start, end); }
  }

  /**
   * For every run up to a boot and every run from it to the next: once the catch-up pass is through, it has fired each
   * task of the file exactly once if it missed its time in the window from the last recorded tick, or the cap, to the
   * start of the current minute, and otherwise not at all, whatever ticks, edits and turns came in between.
   */
  lemma CatchUpFiresExactlyWhatWasMissed(cfg: Config, before: seq<Event>, wait: nat, after: seq<Event>, t: Task)
    requires FreshIds(cfg, before + [Boot(wait)] + after) && FreshIds(cfg, before) && NoBoot(after) && t in Run(cfg, before).disk
    requires Run(cfg, before).lastTick.Some?
    requires var now := Run(cfg, before).clock + wait;
             WindowStart(cfg, Run(cfg, before).lastTick.value, now) < MinuteStart(now)
    ensures var now := Run(cfg, before).clock + wait;
            var w := Run(cfg, before + [Boot(wait)] + after);
            w.passes != [] && (w.passes[0].next == |w.passes[0].tasks| ==>
              CaughtCount(w.fires, Run(cfg, before).life + 1, t.id) ==
              if MissedIn(cfg, t, WindowStart(cfg, Run(cfg, before).lastTick.value, now), MinuteStart(now)) then 1 else 0)
  {
    hide Run, Progress, Kept, CaughtCount, Wanted, MissedIn, ActiveRows, FreshIds;
    var w0, w := Run(cfg, before), Run(cfg, before + [Boot(wait)] + after);
    var now := w0.clock + wait;
    var start, end := WindowStart(cfg, w0.lastTick.value, now), MinuteStart(now);
    CatchUpPassStays(cfg, before, wait, after);
    RunProgress(cfg, before + [Boot(wait)] + after);
    RunKeeps(cfg, before);
    KeptIsUnique(w0);
    MinuteStartIsWhole(now);
    WantedIsMissed(cfg, t, start, end);
    PassIsThrough(cfg, w, w0.disk, t, start, end);
  }

  lemma PassIsThrough(cfg: Config, w: World, disk: seq<Task>, t: Task, start: nat, end: nat)
    requires Progress(cfg, w) && UniqueIds(disk) && t in disk && w.passes != []
    requires w.passes[0].job == CatchingUp(start, end) && w.passes[0].tasks == ActiveRows(disk)
    ensures w.passes[0].next == |w.passes[0].tasks| ==> CaughtCount(w.fires, w.life, t.id) == if Wanted(cfg, t, start, end) then 1 else 0
  {
    hide CaughtCount, LatestMatch, ActiveRows;
    var pass := w.passes[0];
    if pass.next == |pass.tasks| {
      assert pass.tasks[..pass.next] == pass.tasks;
      ActiveRowsAre(disk, t);
      forall x | x in ActiveRows(disk) && x.id == t.id ensures x == t {
        ActiveRowsAre(disk, x);
        RowOfMember(disk, x);
        RowOfMember(disk, t);
      }
      assert t.status.Active? ==> t in pass.tasks;
    }
  }

  /** Once a turn of this life has ended, the recurring row it wrote is not wanted for the window any more. */
  lemma CatchUpSettles(cfg: Config, es: seq<Event>, f: nat)
    requires FreshIds(cfg, es) && Run(cfg, es).passes != [] && Run(cfg, es).passes[0].job.CatchingUp?
    requires f in Run(cfg, es).ended && f < |Run(cfg, es).fires| && Run(cfg, es).fires[f].life == Run(cfg, es).life
    requires Row(Run(cfg, es).disk, Run(cfg, es).fires[f].id).Some?
    ensures var w := Run(cfg, es);
            var row := Row(w.disk, w.fires[f].id).value;
            row.recurring ==> !Wanted(cfg, row, w.passes[0].job.start, w.passes[0].job.end)
  {
    hide Run, FreshIds, LatestMatch, MatchesAt, Row, CaughtCount;
    RunKeeps(cfg, es);
    RunProgress(cfg, es);
    var w := Run(cfg, es);
    var row := Row(w.disk, w.fires[f].id).value;
    assert FiredBy(w.fires[f].at, row);
    LatestMatchIsLatest(cfg, row, w.passes[0].job.start, w.passes[0].job.end - MINUTE);
  }
}
