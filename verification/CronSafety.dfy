/**
 * What every run of the scheduler keeps, over any interleaving of passes, turns, edits and restarts: ticks pick a task
 * once a minute while they stay in their minute, and a catch-up fire is never for a minute the task has fired in, or
 * after, in a turn that ended before the restart.
 */
module CronSafety {
  import opened Basics
  import opened CronText
  import opened CronScheduling

  // ----- one start per task and minute -------------------------------------------------------------------

  /** No start is repeated, and those of the current minute are remembered. */
  ghost predicate StartsKept(w: World) {
    && w.minute <= w.clock / MINUTE
    && (forall i, j :: 0 <= i < j < |w.starts| ==> w.starts[i] != w.starts[j])
    && (forall s :: s in w.starts ==> s.life <= w.life)
    && (forall s :: s in w.starts && s.life == w.life ==> s.minute <= w.minute)
    && (forall s :: s in w.starts && s.life == w.life && s.minute == w.minute ==> s.id in w.fired)
  }

  predicate SameStarts(v: World, w: World) {
    v.starts == w.starts && v.fired == w.fired && v.minute == w.minute && v.life == w.life && v.clock <= w.clock
  }

  lemma DivMono(a: nat, b: nat)
    requires a <= b
    ensures a / MINUTE <= b / MINUTE
  {
  }

  lemma LaterKeepsStarts(v: World, w: World)
    requires StartsKept(v) && SameStarts(v, w)
    ensures StartsKept(w)
  {
    DivMono(v.clock, w.clock);
  }

  lemma VisitStarts(cfg: Config, w: World, job: Job, t: Task)
    requires StartsKept(w) && (job.Ticking? ==> job.now / MINUTE == w.minute)
    ensures StartsKept(Visit(cfg, w, job, t).world)
  {
    hide Due, Wanted, LatestMatch, Row, SetRow;
    var v := Visit(cfg, w, job, t).world;
    if job.Ticking? && t.status.Active? && !Overdue(cfg, t, job.now) && t.id !in w.fired && Due(cfg, t, job.now) {
      var s := w.(fired := w.fired + {t.id}, starts := w.starts + [Start(t.id, job.now / MINUTE, w.life)]);
      assert StartsKept(s);
      LaterKeepsStarts(s, v);
    } else {
      LaterKeepsStarts(w, v);
    }
  }

  /** A tick is in its minute when no later minute has begun: always so when ticks do not overlap. */
  predicate InItsMinute(w: World, e: Event) {
    e.Advance? && CanAdvance(w, e.pass) && w.passes[e.pass].job.Ticking? ==> w.passes[e.pass].job.now / MINUTE == w.minute
  }

  predicate TicksInTheirMinute(cfg: Config, es: seq<Event>) {
    forall k :: 0 <= k < |es| ==> InItsMinute(Run(cfg, es[..k]), es[k])
  }

  lemma StepStarts(cfg: Config, w: World, e: Event)
    requires StartsKept(w) && InItsMinute(w, e)
    ensures StartsKept(Step(cfg, w, e))
  {
    hide Visit, Row, SetRow, Without, ActiveRows, CatchUpPasses;
    match e
    case Tick(wait) => DivMono(w.clock, w.clock + wait);
    case Boot(wait) => assert StartsKept(Step(cfg, w, e));
    case Advance(p) =>
      if CanAdvance(w, p) {
        VisitStarts(cfg, w, w.passes[p].job, w.passes[p].tasks[w.passes[p].next]);
        LaterKeepsStarts(Visit(cfg, w, w.passes[p].job, w.passes[p].tasks[w.passes[p].next]).world, Step(cfg, w, e));
      }
    case _ => LaterKeepsStarts(w, Step(cfg, w, e));
  }

  /** In one lifetime, ticks that stay in their minute never start a task twice in the same minute. */
  lemma {:induction false} TicksStartOncePerMinute(cfg: Config, es: seq<Event>)
    requires TicksInTheirMinute(cfg, es)
    ensures StartsKept(Run(cfg, es))
    ensures forall i, j :: 0 <= i < j < |Run(cfg, es).starts| ==> Run(cfg, es).starts[i] != Run(cfg, es).starts[j]
  {
    hide Step, InItsMinute;
    if es != [] {
      var front := es[..|es| - 1];
      forall k | 0 <= k < |front| ensures InItsMinute(Run(cfg, front[..k]), front[k]) {
        assert front[..k] == es[..k] && front[k] == es[k];
      }
      TicksStartOncePerMinute(cfg, front);
      StepStarts(cfg, Run(cfg, front), es[|es| - 1]);
    }
  }

  /** The pass of a tick that still has tasks to visit. */
  predicate Unfinished(pass: Pass) {
    pass.job.Ticking? && pass.next < |pass.tasks|
  }

  ghost predicate InStep(w: World) {
    forall p :: 0 <= p < |w.passes| && Unfinished(w.passes[p]) ==> w.passes[p].job.now / MINUTE == w.minute
  }

  /** A tick begins only when the ticks before it have visited all their tasks. */
  predicate NoOverlap(cfg: Config, es: seq<Event>) {
    forall k :: 0 <= k < |es| && es[k].Tick? ==> forall pass <- Run(cfg, es[..k]).passes :: !Unfinished(pass)
  }

  lemma StepInStep(cfg: Config, w: World, e: Event)
    requires InStep(w) && (e.Tick? ==> forall pass <- w.passes :: !Unfinished(pass))
    ensures InStep(Step(cfg, w, e))
  {
    hide Row, SetRow, Without, ActiveRows, Due, Wanted, LatestMatch, Overdue;
    if e.Tick? {
      forall p | 0 <= p < |w.passes| ensures !Unfinished(w.passes[p]) { assert w.passes[p] in w.passes; }
    }
  }

  lemma NoOverlapBefore(cfg: Config, es: seq<Event>, n: nat)
    requires NoOverlap(cfg, es) && n <= |es|
    ensures NoOverlap(cfg, es[..n])
  {
    hide Run, Unfinished;
    forall k | 0 <= k < n ensures es[..n][..k] == es[..k] && es[..n][k] == es[k] {}
  }

  lemma {:induction false} RunInStep(cfg: Config, es: seq<Event>)
    requires NoOverlap(cfg, es)
    ensures InStep(Run(cfg, es))
  {
    if es == [] {
      assert Run(cfg, es) == START;
    } else {
      hide Step, Unfinished, InStep, NoOverlap;
      NoOverlapBefore(cfg, es, |es| - 1);
      RunInStep(cfg, es[..|es| - 1]);
      NoOverlapLast(cfg, es);
      StepInStep(cfg, Run(cfg, es[..|es| - 1]), es[|es| - 1]);
    }
  }

  lemma NoOverlapLast(cfg: Config, es: seq<Event>)
    requires NoOverlap(cfg, es) && es != []
    ensures es[|es| - 1].Tick? ==> forall pass <- Run(cfg, es[..|es| - 1]).passes :: !Unfinished(pass)
  {
    hide Run, Unfinished;
  }

  /** Ticks that do not overlap stay in their minute, so no task is started twice in one. */
  lemma TicksThatDoNotOverlap(cfg: Config, es: seq<Event>)
    requires NoOverlap(cfg, es)
    ensures TicksInTheirMinute(cfg, es)
  {
    hide Run, InStep, InItsMinute, NoOverlap;
    forall k | 0 <= k < |es| ensures InItsMinute(Run(cfg, es[..k]), es[k]) {
      NoOverlapBefore(cfg, es, k);
      RunInStep(cfg, es[..k]);
      InStepIsInMinute(Run(cfg, es[..k]), es[k]);
    }
  }

  lemma InStepIsInMinute(w: World, e: Event)
    requires InStep(w)
    ensures InItsMinute(w, e)
  {
  }

  // ----- turns and rows ----------------------------------------------------------------------------------------

  /** Fires are dated and belong to a life; running turns are fires of this life that have not ended. */
  ghost predicate TurnsOk(w: World) {
    && (forall f :: f in w.ended ==> f < |w.fires|)
    && (forall f :: 0 <= f < |w.fires| ==> w.fires[f].life <= w.life && w.fires[f].at <= w.clock)
    && (forall p :: 0 <= p < |w.passes| && w.passes[p].turn.Some? ==> TurnOk(w, w.passes[p].turn.value))
    && (forall p, q :: 0 <= p < q < |w.passes| && w.passes[p].turn.Some? && w.passes[q].turn.Some? ==>
          w.passes[p].turn.value.fire != w.passes[q].turn.value.fire)
  }

  predicate TurnOk(w: World, t: Turn) {
    && t.fire < |w.fires| && t.fire !in w.ended
    && w.fires[t.fire].id == t.id && w.fires[t.fire].oneShot == t.oneShot && w.fires[t.fire].life == w.life
  }

  /** Rows are unique and remember every fire whose turn ended. */
  ghost predicate Remembered(w: World) {
    && UniqueIds(w.disk)
    && (forall f :: f in w.ended && f < |w.fires| && Row(w.disk, w.fires[f].id).Some? ==>
          FiredBy(w.fires[f].at, Row(w.disk, w.fires[f].id).value))
  }

  predicate FiredBy(at: nat, t: Task) {
    t.lastFired.Some? && at <= t.lastFired.value
  }

  /** The rows a catch-up pass works from remember every fire whose turn ended in an earlier life. */
  ghost predicate SnapshotsOk(w: World) {
    forall p, t, f :: 0 <= p < |w.passes| && w.passes[p].job.CatchingUp? && t in w.passes[p].tasks ==>
      f in w.ended && f < |w.fires| && w.fires[f].life < w.life && w.fires[f].id == t.id ==> FiredBy(w.fires[f].at, t)
  }

  /** A catch-up fire comes after no fire in or after the minute it makes up for, of those that ended in an earlier life. */
  ghost predicate MadeUp(w: World) {
    forall i, j :: 0 <= i < j < |w.fires| && i in w.ended && w.fires[i].life < w.fires[j].life && w.fires[i].id == w.fires[j].id ==>
      w.fires[j].how.CaughtUp? && w.fires[j].how.minute.Some? ==> w.fires[i].at < w.fires[j].how.minute.value
  }

  ghost predicate Kept(w: World) {
    TurnsOk(w) && Remembered(w) && SnapshotsOk(w) && MadeUp(w)
  }

  lemma SetRowUnique(disk: seq<Task>, t: Task)
    requires UniqueIds(disk)
    ensures UniqueIds(SetRow(disk, t))
  {
    RowOfSet(disk, t, t.id);
  }

  /** The file part of a step: rows keep or raise their last fire. */
  ghost predicate RowsRemember(disk: seq<Task>, after: seq<Task>) {
    && UniqueIds(after)
    && forall id :: Row(after, id).Some? && Row(disk, id).Some? && Row(disk, id).value.lastFired.Some? ==>
         FiredBy(Row(disk, id).value.lastFired.value, Row(after, id).value)
  }

  lemma SetRowRemembers(disk: seq<Task>, t: Task)
    requires UniqueIds(disk)
    requires Row(disk, t.id).Some? && Row(disk, t.id).value.lastFired.Some? ==> FiredBy(Row(disk, t.id).value.lastFired.value, t)
    ensures RowsRemember(disk, SetRow(disk, t))
  {
    hide Row, SetRow;
    SetRowUnique(disk, t);
    forall id ensures Row(SetRow(disk, t), id) == if id == t.id && Row(disk, id).Some? then Some(t) else Row(disk, id) {
      RowOfSet(disk, t, id);
    }
  }

  /** Nothing fired and nothing ended; rows and passes may have changed in harmless ways. */
  lemma QuietKeeps(w: World, v: World)
    requires Kept(w) && v.fires == w.fires && v.ended == w.ended && v.life == w.life && v.clock >= w.clock && v.passes == w.passes
    requires RowsRemember(w.disk, v.disk)
    requires forall id :: Row(v.disk, id).Some? && Row(w.disk, id).None? ==> forall f :: 0 <= f < |w.fires| ==> w.fires[f].id != id
    ensures Kept(v)
  {
    hide Row;
    assert TurnsOk(v) by { hide MadeUp, SnapshotsOk; }
  }

  /** The pass p starts a turn for the task, or moves on without one. */
  lemma PassMoves(w: World, v: World, p: nat, next: nat)
    requires Kept(w) && p < |w.passes| && w.passes[p].turn.None?
    requires v == w.(passes := w.passes[p := w.passes[p].(next := next)])
    ensures Kept(v)
  {
  }

  lemma PassAdded(w: World, v: World, job: Job, tasks: seq<Task>)
    requires Kept(w) && !job.CatchingUp? && v == w.(passes := w.passes + [Pass(job, tasks, 0, None)])
    ensures Kept(v)
  {
    forall p | 0 <= p < |v.passes| && v.passes[p].turn.Some? ensures p < |w.passes| && v.passes[p] == w.passes[p] {}
    forall p | 0 <= p < |v.passes| && v.passes[p].job.CatchingUp? ensures p < |w.passes| && v.passes[p] == w.passes[p] {}
  }

  /** A turn begins in a waiting place of the pass p. */
  lemma TurnBegins(w: World, p: nat, t: Task, how: How)
    requires Kept(w) && p < |w.passes| && w.passes[p].turn.None?
    requires how.CaughtUp? && how.minute.Some? ==>
               forall f :: f in w.ended && f < |w.fires| && w.fires[f].life < w.life && w.fires[f].id == t.id ==> w.fires[f].at < how.minute.value
    ensures var v := BeginTurn(w, t, how);
            Kept(v.world.(passes := w.passes[p := w.passes[p].(turn := v.turn)]))
  {
    var b := BeginTurn(w, t, how);
    var v := b.world.(passes := w.passes[p := w.passes[p].(turn := b.turn)]);
    assert TurnsOk(v) by { hide MadeUp, Remembered, SnapshotsOk; }
    assert MadeUp(v) by { hide Remembered, SnapshotsOk; }
    assert Remembered(v) by { hide MadeUp, SnapshotsOk, Row; }
    assert SnapshotsOk(v) by { hide MadeUp, Remembered; }
  }

  lemma RowsStay(disk: seq<Task>)
    requires UniqueIds(disk)
    ensures RowsRemember(disk, disk)
  {
  }

  lemma RewriteKeeps(w: World, t: Task, at: nat)
    requires Kept(w)
    requires Row(w.disk, t.id).Some? ==> t.lastFired == Row(w.disk, t.id).value.lastFired
    ensures Kept(Rewrite(w, t, at)) && Rewrite(w, t, at).passes == w.passes
  {
    hide Row, SetRow, MadeUp, SnapshotsOk, TurnsOk;
    if Row(w.disk, t.id).Some? {
      SetRowRemembers(w.disk, t);
      forall id ensures Row(SetRow(w.disk, t), id).Some? ==> Row(w.disk, id).Some? { RowOfSet(w.disk, t, id); }
      QuietKeeps(w, Rewrite(w, t, at));
    }
  }

  /** Memory that no promise about fires depends on. */
  lemma MemoryKeeps(w: World, v: World)
    requires Kept(w) && v == w.(lastTick := v.lastTick, cache := v.cache, stale := v.stale, fired := v.fired, minute := v.minute,
                                timers := v.timers, starts := v.starts, clock := v.clock) && v.clock >= w.clock
    ensures Kept(v)
  {
    RowsStay(w.disk);
    QuietKeeps(w, v);
  }

  // ----- advancing --------------------------------------------------------------------------------------------------

  lemma CatchUpPickIsLate(cfg: Config, w: World, p: nat, t: Task, start: nat, end: nat, f: nat)
    requires SnapshotsOk(w) && p < |w.passes| && w.passes[p].job.CatchingUp? && t in w.passes[p].tasks
    requires t.recurring && Wanted(cfg, t, start, end)
    requires f in w.ended && f < |w.fires| && w.fires[f].life < w.life && w.fires[f].id == t.id
    ensures LatestMatch(cfg, t, start, end - MINUTE).Some? && w.fires[f].at < LatestMatch(cfg, t, start, end - MINUTE).value
  {
    hide LatestMatch;
    assert FiredBy(w.fires[f].at, t);
  }

  lemma AdvanceKeeps(cfg: Config, w: World, p: nat)
    requires Kept(w)
    ensures Kept(AdvanceStep(cfg, w, p))
  {
    if CanAdvance(w, p) {
      var pass := w.passes[p];
      var t := pass.tasks[pass.next];
      var moved := w.(passes := w.passes[p := pass.(next := pass.next + 1)]);
      PassMoves(w, moved, p, pass.next + 1);
      match pass.job
      case Ticking(now) => TickVisitKeeps(cfg, w, moved, p, t, now);
      case CatchingUp(start, end) =>
        hide Kept, Wanted, LatestMatch;
        if Wanted(cfg, t, start, end) { CatchUpVisitKeeps(cfg, w, moved, p, t, start, end); }
      case Timed =>
    }
  }

  lemma CatchUpVisitKeeps(cfg: Config, w: World, moved: World, p: nat, t: Task, start: nat, end: nat)
    requires Kept(moved) && CanAdvance(w, p) && t == w.passes[p].tasks[w.passes[p].next] && w.passes[p].job == CatchingUp(start, end)
    requires moved == w.(passes := w.passes[p := w.passes[p].(next := w.passes[p].next + 1)]) && Wanted(cfg, t, start, end)
    ensures Kept(AdvanceStep(cfg, w, p))
  {
    hide Wanted, LatestMatch, TurnsOk, Remembered, MadeUp, SnapshotsOk;
    var how := CaughtUp(if t.recurring then LatestMatch(cfg, t, start, end - MINUTE) else None);
    forall f | t.recurring && f in moved.ended && f < |moved.fires| && moved.fires[f].life < moved.life && moved.fires[f].id == t.id
      ensures how.minute.Some? && moved.fires[f].at < how.minute.value
    {
      CatchUpPickIsLate(cfg, moved, p, t, start, end, f);
    }
    TurnBegins(moved, p, t, how);
    var b := BeginTurn(moved, t, how);
    assert AdvanceStep(cfg, w, p) == b.world.(passes := moved.passes[p := moved.passes[p].(turn := b.turn)]);
  }

  lemma TickVisitKeeps(cfg: Config, w: World, moved: World, p: nat, t: Task, now: nat)
    requires Kept(moved) && CanAdvance(w, p) && t == w.passes[p].tasks[w.passes[p].next] && w.passes[p].job == Ticking(now)
    requires moved == w.(passes := w.passes[p := w.passes[p].(next := w.passes[p].next + 1)])
    ensures Kept(AdvanceStep(cfg, w, p))
  {
    hide Kept, Due, Row, SetRow;
    var v := AdvanceStep(cfg, w, p);
    if t.status.Active? && Overdue(cfg, t, now) {
      var row := Row(w.disk, t.id);
      RowIs(w.disk, t.id);
      if row.Some? {
        RewriteKeeps(moved, row.value.(status := Missed), now);
        assert v == Rewrite(moved, row.value.(status := Missed), now);
      }
    } else if t.status.Active? && t.id !in w.fired && Due(cfg, t, now) {
      var s := moved.(fired := w.fired + {t.id}, starts := w.starts + [Start(t.id, now / MINUTE, w.life)]);
      MemoryKeeps(moved, s);
      if t.recurring && t.jitter > 0 {
        MemoryKeeps(s, v);
      } else {
        PickKeeps(s, p, t.id, OnTick);
        var picked := DoFire(s, t.id, OnTick);
        assert v == picked.world.(passes := s.passes[p := s.passes[p].(turn := picked.turn)]);
      }
    }
  }

  /** doFire in the place of pass p. */
  lemma PickKeeps(s: World, p: nat, id: Id, how: How)
    requires Kept(s) && p < |s.passes| && s.passes[p].turn.None? && !how.CaughtUp?
    ensures Kept(DoFire(s, id, how).world.(passes := s.passes[p := s.passes[p].(turn := DoFire(s, id, how).turn)]))
  {
    hide Kept, Row;
    var row := Row(s.disk, id);
    if row.Some? && row.value.status.Active? {
      TurnBegins(s, p, row.value, how);
    } else {
      assert s.passes[p := s.passes[p].(turn := None)] == s.passes;
    }
  }

  // ----- ends of turns, boots, edits -------------------------------------------------------------------------------------

  lemma TurnEndsKeeps(w: World, p: nat, wait: nat)
    requires Kept(w)
    ensures Kept(TurnEndsStep(w, p, wait))
  {
    if p < |w.passes| && w.passes[p].turn.Some? {
      var t := w.passes[p].turn.value;
      var v := TurnEndsStep(w, p, wait);
      assert TurnOk(w, t);
      RowIs(w.disk, t.id);
      EndRows(w, w.clock + wait, t, v);
      EndFires(w, p, t, v);
    }
  }

  lemma EndFires(w: World, p: nat, t: Turn, v: World)
    requires TurnsOk(w) && SnapshotsOk(w) && MadeUp(w) && p < |w.passes| && w.passes[p].turn == Some(t)
    requires v.fires == w.fires && v.ended == w.ended + {t.fire} && v.life == w.life && v.clock >= w.clock
    requires v.passes == w.passes[p := w.passes[p].(turn := None)]
    ensures TurnsOk(v) && SnapshotsOk(v) && MadeUp(v)
  {
    assert TurnOk(w, t);
    assert TurnsOk(v) by { hide MadeUp, SnapshotsOk; }
    assert SnapshotsOk(v) by { hide MadeUp; }
    assert MadeUp(v) by { hide SnapshotsOk; }
  }

  lemma EndRows(w: World, at: nat, t: Turn, v: World)
    requires TurnsOk(w) && Remembered(w) && TurnOk(w, t) && at >= w.clock && v.fires == w.fires && v.ended == w.ended + {t.fire}
    requires v.disk == if Row(w.disk, t.id).None? then w.disk else SetRow(w.disk, FiredRow(Row(w.disk, t.id).value, t.oneShot, at))
    ensures Remembered(v)
  {
    hide Row, SetRow;
    RowIs(w.disk, t.id);
    if Row(w.disk, t.id).Some? {
      var row := FiredRow(Row(w.disk, t.id).value, t.oneShot, at);
      SetRowUnique(w.disk, row);
      forall f | f in v.ended && f < |v.fires| && Row(v.disk, v.fires[f].id).Some?
        ensures FiredBy(v.fires[f].at, Row(v.disk, v.fires[f].id).value)
      {
        RowOfSet(w.disk, row, v.fires[f].id);
      }
    }
  }

  lemma BootKeeps(cfg: Config, w: World, wait: nat)
    requires Kept(w)
    ensures Kept(BootStep(cfg, w, wait))
  {
    hide Row, ActiveRows, MadeUp;
    var v := BootStep(cfg, w, wait);
    forall t, f | t in ActiveRows(w.disk) && f in w.ended && f < |w.fires| && w.fires[f].id == t.id ensures FiredBy(w.fires[f].at, t) {
      ActiveRowsAre(w.disk, t);
      RowOfMember(w.disk, t);
    }
    MadeUpSame(w, v);
  }

  lemma MadeUpSame(w: World, v: World)
    requires MadeUp(w) && v.fires == w.fires && v.ended == w.ended
    ensures MadeUp(v)
  {
  }

  lemma AddKeeps(w: World, e: Event)
    requires Kept(w) && e.Add? && Fresh(w, e)
    ensures Kept(w.(disk := w.disk + [NewTask(e)], stale := true))
  {
    hide Row, TurnsOk, MadeUp, SnapshotsOk;
    RowIs(w.disk, e.id);
    ConcatUnique(w.disk, [NewTask(e)]);
    forall id ensures Row(w.disk + [NewTask(e)], id) ==
                      if Row(w.disk, id).Some? then Row(w.disk, id) else if id == e.id then Some(NewTask(e)) else None
    {
      RowOfAdd(w.disk, NewTask(e), id);
    }
    forall f | 0 <= f < |w.fires| ensures w.fires[f].id != e.id { assert w.fires[f] in w.fires; }
    QuietKeeps(w, w.(disk := w.disk + [NewTask(e)], stale := true));
  }

  lemma DeleteKeeps(w: World, id: Id)
    requires Kept(w)
    ensures Kept(w.(disk := Without(w.disk, id), stale := true))
  {
    hide Row, Without, TurnsOk, MadeUp, SnapshotsOk;
    RowOfWithout(w.disk, id, id);
    forall x ensures Row(Without(w.disk, id), x) == if x == id then None else Row(w.disk, x) { RowOfWithout(w.disk, id, x); }
    QuietKeeps(w, w.(disk := Without(w.disk, id), stale := true));
  }

  lemma PatchKeeps(w: World, id: Id, timing: Option<Timing>, enabled: Option<bool>)
    requires Kept(w) && Row(w.disk, id).Some?
    ensures Kept(w.(disk := SetRow(w.disk, Patched(Row(w.disk, id).value, timing, enabled)), stale := true))
  {
    hide Kept, Row, SetRow;
    RowIs(w.disk, id);
    var t := Patched(Row(w.disk, id).value, timing, enabled);
    RewriteKeeps(w, t, 0);
    var v := w.(disk := SetRow(w.disk, t), stale := true);
    assert v == Rewrite(w, t, 0).(lastTick := w.lastTick);
    MemoryKeeps(Rewrite(w, t, 0), v);
  }

  lemma TickKeeps(w: World, wait: nat)
    requires Kept(w)
    ensures Kept(TickStep(w, wait))
  {
    hide Kept, ActiveRows;
    var turned := Turned(w, w.clock + wait);
    MemoryKeeps(w, turned);
    PassAdded(turned, TickStep(w, wait), Ticking(w.clock + wait), turned.cache);
  }

  lemma TimerKeeps(w: World, id: Id, wait: nat)
    requires Kept(w)
    ensures Kept(TimerStep(w, id, wait))
  {
    hide Kept, Row;
    if id in w.timers {
      var later := w.(clock := w.clock + wait, timers := w.timers - multiset{id});
      MemoryKeeps(w, later);
      var placed := later.(passes := later.passes + [Pass(Timed, [], 0, None)]);
      PassAdded(later, placed, Timed, []);
      PickKeeps(placed, |w.passes|, id, OnTimer);
      assert TimerStep(w, id, wait) ==
             DoFire(placed, id, OnTimer).world.(passes := placed.passes[|w.passes| := Pass(Timed, [], 0, DoFire(placed, id, OnTimer).turn)]);
    }
  }

  lemma StepKeeps(cfg: Config, w: World, e: Event)
    requires Kept(w) && Fresh(w, e)
    ensures Kept(Step(cfg, w, e))
  {
    hide Kept, Fresh, Row, SetRow, Without, BootStep, TickStep, AdvanceStep, TurnEndsStep, TimerStep;
    match e
    case Boot(wait) => BootKeeps(cfg, w, wait);
    case Tick(wait) => TickKeeps(w, wait);
    case Advance(p) => AdvanceKeeps(cfg, w, p);
    case TurnEnds(p, wait) => TurnEndsKeeps(w, p, wait);
    case TimerFires(id, wait) => TimerKeeps(w, id, wait);
    case Add(_, _, _, _) => AddKeeps(w, e);
    case Delete(id) => DeleteKeeps(w, id);
    case Patch(id, timing, enabled) => if Row(w.disk, id).Some? { PatchKeeps(w, id, timing, enabled); }
  }

  lemma {:induction false} RunKeeps(cfg: Config, es: seq<Event>)
    requires FreshIds(cfg, es)
    ensures Kept(Run(cfg, es))
  {
    if es == [] {
      assert Run(cfg, es) == START;
    } else {
      hide Step, Fresh, Kept;
      RunKeeps(cfg, es[..|es| - 1]);
      StepKeeps(cfg, Run(cfg, es[..|es| - 1]), es[|es| - 1]);
    }
  }

  /**
   * In every run, over any number of restarts at any moment: when the catch-up pass fires a recurring task for a minute,
   * a fire of that task in an earlier life that was in or after this minute belongs to a turn that never ended.
   */
  lemma CatchUpRepeatsOnlyBrokenTurns(cfg: Config, es: seq<Event>, i: nat, j: nat)
    requires FreshIds(cfg, es)
    requires i < j < |Run(cfg, es).fires| && Run(cfg, es).fires[i].id == Run(cfg, es).fires[j].id
    requires Run(cfg, es).fires[i].life < Run(cfg, es).fires[j].life
    requires Run(cfg, es).fires[j].how.CaughtUp? && Run(cfg, es).fires[j].how.minute.Some?
    ensures Run(cfg, es).fires[i].at >= Run(cfg, es).fires[j].how.minute.value ==> i !in Run(cfg, es).ended
  {
    RunKeeps(cfg, es);
  }
}
