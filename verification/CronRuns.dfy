/** Runs the program can go through in which a task is fired again, or started twice in a minute. */
module CronRuns {
  import opened Basics
  import opened CronText
  import opened CronScheduling
  import opened CronSafety
  import opened CronFires
  import opened CronRestarts

  const EVERY_MINUTE: string := "* * * * *"
  const ALWAYS: Config := Config(300000, 3600000, (zone, m) => Moment(m % 60, m / 60 % 24, 1, 1, 0))

  lemma EveryMinuteMatches(m: Moment)
    ensures CronMatches(EVERY_MINUTE, m)
  {
    hide CronMatches, ValidCron;
    TextMeans(Schedule(Any, Any, Any, Any, Any), m);
    EveryMinuteText();
  }

  lemma EveryMinuteText()
    ensures Text(Schedule(Any, Any, Any, Any, Any)) == EVERY_MINUTE
  {
  }

  lemma RunOf(cfg: Config, es: seq<Event>, k: nat)
    requires k < |es|
    ensures Run(cfg, es[..k + 1]) == Step(cfg, Run(cfg, es[..k]), es[k])
    ensures FreshIds(cfg, es[..k + 1]) <==> FreshIds(cfg, es[..k]) && Fresh(Run(cfg, es[..k]), es[k])
    ensures Run(cfg, es[..0]) == START && FreshIds(cfg, es[..0])
  {
    assert es[..k + 1][..k] == es[..k] && es[..0] == [];
  }

  /** Added in a fresh process and picked by its first tick, a turn of the task runs. */
  function FirstPick(timing: Timing, wait: nat): seq<Event> {
    [Boot(0), Add("t", timing, "", 0), Tick(wait), Advance(0)]
  }

  lemma FirstPickRuns(timing: Timing, wait: nat)
    requires Ripe(ALWAYS, NewTask(Add("t", timing, "", 0)), wait)
    ensures FreshIds(ALWAYS, FirstPick(timing, wait))
    ensures var w, t := Run(ALWAYS, FirstPick(timing, wait)), NewTask(Add("t", timing, "", 0));
            && w.disk == [t] && w.fires == [Fire("t", !t.recurring, wait, OnTick, 1)] && w.starts == [Start("t", wait / MINUTE, 1)]
            && w.passes == [Pass(Ticking(wait), [t], 1, Some(Turn(0, "t", !t.recurring)))]
            && w.clock == wait && w.life == 1 && w.lastTick == Some(0) && w.ended == {}
  {
    hide Run, FreshIds, Ripe, Fresh, Step;
    var es, t := FirstPick(timing, wait), NewTask(Add("t", timing, "", 0));
    RunOf(ALWAYS, es, 0);
    RunOf(ALWAYS, es, 1);
    RunOf(ALWAYS, es, 2);
    RunOf(ALWAYS, es, 3);
    assert es[..4] == es;
    var w2 := Run(ALWAYS, es[..2]);
    FirstAdd(timing, Run(ALWAYS, es[..1]), w2);
    NotAdds();
    TickPicksTheOnlyTask(ALWAYS, w2, t, wait);
  }

  lemma NotAdds()
    ensures forall w, e: Event {:trigger Fresh(w, e)} :: !e.Add? ==> Fresh(w, e)
  {
  }

  lemma FirstAdd(timing: Timing, w1: World, w2: World)
    requires w1 == Step(ALWAYS, START, Boot(0)) && w2 == Step(ALWAYS, w1, Add("t", timing, "", 0))
    ensures Fresh(w1, Add("t", timing, "", 0)) && w2.disk == [NewTask(Add("t", timing, "", 0))]
    ensures w2 == START.(lastTick := Some(0), stale := true, life := 1, disk := w2.disk)
  {
  }

  const ONE_SHOT: Timing := Timing("", false, Some(0))
  const RECURRING: Timing := Timing(EVERY_MINUTE, true, None)

  const BROKEN: seq<Event> := FirstPick(ONE_SHOT, 1000) + [Boot(1000), Tick(0), Advance(0)]

  /** A one-shot, added once and never enabled again, fires twice: the process died inside its turn. */
  lemma BrokenOneShotFiresTwice()
    ensures FreshIds(ALWAYS, BROKEN) && Activations(BROKEN, "t") == 1 && OneShots(Run(ALWAYS, BROKEN).fires, "t") == 2
  {
    hide Run, FreshIds, Step, Activations, OneShots;
    var first := FirstPick(ONE_SHOT, 1000);
    FirstPickRuns(ONE_SHOT, 1000);
    RunOneMore(ALWAYS, first, Boot(1000));
    RunOneMore(ALWAYS, first + [Boot(1000)], Tick(0));
    RunOneMore(ALWAYS, first + [Boot(1000)] + [Tick(0)], Advance(0));
    assert BROKEN == first + [Boot(1000)] + [Tick(0)] + [Advance(0)];
    var w, t := Run(ALWAYS, first), NewTask(Add("t", ONE_SHOT, "", 0));
    assert w.passes[0].turn.Some?;
    OnlyTaskAfterBoot(ALWAYS, w, t, 1000);
    OneShotsSnoc(w.fires, Fire("t", true, 2000, OnTick, 2), "t");
    NothingMissedYet(w);
    OneFire(w.fires);
    OneActivation();
  }

  lemma OnlyTaskAfterBoot(cfg: Config, w: World, t: Task, wait: nat)
    requires w.disk == [t] && Ripe(cfg, t, w.clock + wait)
    ensures TickPick(cfg, Step(cfg, w, Boot(wait)), 0).fires ==
            w.fires + [Fire(t.id, !t.recurring, w.clock + wait, OnTick, w.life + 1)]
  {
    hide TickPick, Due, Overdue, CatchUpPasses;
    TickPicksTheOnlyTask(cfg, Step(cfg, w, Boot(wait)), t, 0);
  }

  lemma NothingMissedYet(w: World)
    requires w.lastTick == Some(0) && w.clock == 1000
    ensures Step(ALWAYS, w, Boot(1000)).passes == []
  {
  }

  lemma OneFire(fires: seq<Fire>)
    requires |fires| == 1 && fires[0].id == "t" && fires[0].oneShot
    ensures OneShots(fires, "t") == 1
  {
    assert fires[..0] == [] && OneShots([], "t") == 0;
  }

  lemma {:induction false} ActivationsConcat(a: seq<Event>, b: seq<Event>, id: Id)
    ensures Activations(a + b, id) == Activations(a, id) + Activations(b, id)
  {
    if b == [] {
      assert a + b == a;
    } else {
      ActivationsConcat(a, b[..|b| - 1], id);
      assert (a + b)[..|a + b| - 1] == a + b[..|b| - 1];
    }
  }

  lemma ActivationOf(e: Event, id: Id)
    ensures Activations([e], id) == if e.Add? && e.id == id then 1 else if e.Patch? && e.id == id && e.enabled == Some(true) then 1 else 0
  {
    assert [e][..0] == [] && Activations([], id) == 0;
  }

  lemma OneActivation()
    ensures Activations(BROKEN, "t") == 1
  {
    hide Activations;
    var add := Add("t", ONE_SHOT, "", 0);
    assert BROKEN == [Boot(0)] + ([add] + ([Tick(1000)] + ([Advance(0)] + ([Boot(1000)] + ([Tick(0)] + [Advance(0)])))));
    ActivationsConcat([Boot(0)], [add] + ([Tick(1000)] + ([Advance(0)] + ([Boot(1000)] + ([Tick(0)] + [Advance(0)])))), "t");
    ActivationsConcat([add], [Tick(1000)] + ([Advance(0)] + ([Boot(1000)] + ([Tick(0)] + [Advance(0)]))), "t");
    ActivationsConcat([Tick(1000)], [Advance(0)] + ([Boot(1000)] + ([Tick(0)] + [Advance(0)])), "t");
    ActivationsConcat([Advance(0)], [Boot(1000)] + ([Tick(0)] + [Advance(0)]), "t");
    ActivationsConcat([Boot(1000)], [Tick(0)] + [Advance(0)], "t");
    ActivationsConcat([Tick(0)], [Advance(0)], "t");
    ActivationOf(Boot(0), "t");
    ActivationOf(add, "t");
    ActivationOf(Tick(1000), "t");
    ActivationOf(Advance(0), "t");
    ActivationOf(Boot(1000), "t");
    ActivationOf(Tick(0), "t");
  }

  const REPEATED: seq<Event> := FirstPick(RECURRING, 60000) + [Boot(60000), Advance(0)]

  /** Catch-up fires a recurring task for the very minute it had fired in: the process died inside that turn. */
  lemma CatchUpRepeatsABrokenMinute()
    ensures FreshIds(ALWAYS, REPEATED)
    ensures Run(ALWAYS, REPEATED).fires == [Fire("t", false, 60000, OnTick, 1), Fire("t", false, 120000, CaughtUp(Some(60000)), 2)]
  {
    hide Run, FreshIds, Step, Ripe;
    var first, t := FirstPick(RECURRING, 60000), NewTask(Add("t", RECURRING, "", 0));
    RipeFirst(60000);
    FirstPickRuns(RECURRING, 60000);
    RunOneMore(ALWAYS, first, Boot(60000));
    RunOneMore(ALWAYS, first + [Boot(60000)], Advance(0));
    assert REPEATED == first + [Boot(60000)] + [Advance(0)];
    CatchUpPicks(Run(ALWAYS, first), t);
  }

  lemma DueEveryMinute(t: Task, now: nat)
    requires t.recurring && t.cron == EVERY_MINUTE
    ensures Due(ALWAYS, t, now) && MatchesAt(ALWAYS, t, now)
  {
    EveryMinuteMatches(ALWAYS.wall(t.zone, now / MINUTE));
  }

  lemma RipeFirst(now: nat)
    ensures Ripe(ALWAYS, NewTask(Add("t", RECURRING, "", 0)), now)
  {
    hide Due, Overdue;
    DueEveryMinute(NewTask(Add("t", RECURRING, "", 0)), now);
    RecurringIsNotOverdue(NewTask(Add("t", RECURRING, "", 0)), now);
  }

  lemma CatchUpPicks(w: World, t: Task)
    requires w.disk == [t] && t.recurring && t.cron == EVERY_MINUTE && t.status.Active? && t.lastFired.None? && t.id == "t"
    requires w.clock == 60000 && w.lastTick == Some(0) && w.life == 1 && w.fires == [Fire("t", false, 60000, OnTick, 1)]
    ensures Step(ALWAYS, Step(ALWAYS, w, Boot(60000)), Advance(0)).fires == w.fires + [Fire("t", false, 120000, CaughtUp(Some(60000)), 2)]
  {
    hide Step, Wanted, LatestMatch, MatchesAt;
    var booted := Step(ALWAYS, w, Boot(60000));
    BootCatchesUp(w, t);
    DueEveryMinute(t, 60000);
    MissedTheFirst(t);
    CatchUpStarts(ALWAYS, booted, t, 0, 120000);
  }

  lemma BootCatchesUp(w: World, t: Task)
    requires w.disk == [t] && t.status.Active? && w.clock == 60000 && w.lastTick == Some(0) && w.life == 1
    ensures var booted := Step(ALWAYS, w, Boot(60000));
            && booted.passes == [Pass(CatchingUp(0, 120000), [t], 0, None)]
            && booted.fires == w.fires && booted.clock == 120000 && booted.life == 2
  {
    hide ActiveRows;
    OneRow(t);
  }

  lemma MissedTheFirst(t: Task)
    requires t.recurring && t.status.Active? && t.lastFired.None? && MatchesAt(ALWAYS, t, 60000)
    ensures Wanted(ALWAYS, t, 0, 120000) && LatestMatch(ALWAYS, t, 0, 60000) == Some(60000)
  {
    hide MatchesAt;
  }

  lemma CatchUpStarts(cfg: Config, w: World, t: Task, start: nat, end: nat)
    requires w.passes == [Pass(CatchingUp(start, end), [t], 0, None)] && Wanted(cfg, t, start, end) && t.recurring
    ensures Step(cfg, w, Advance(0)).fires ==
            w.fires + [Fire(t.id, false, w.clock, CaughtUp(LatestMatch(cfg, t, start, end - MINUTE)), w.life)]
  {
    hide Wanted, LatestMatch;
    assert CanAdvance(w, 0);
  }

  const AGAIN: seq<Event> := FirstPick(RECURRING, 1000) + [TurnEnds(0, 0), Boot(1000), Tick(0), Advance(0)]

  /** The memory of the minute is not persisted: a restart within a minute starts the task a second time in it. */
  lemma RestartRepeatsTheMinute()
    ensures FreshIds(ALWAYS, AGAIN)
    ensures Run(ALWAYS, AGAIN).starts == [Start("t", 0, 1), Start("t", 0, 2)]
  {
    hide Run, FreshIds, Step, Ripe;
    var first, t := FirstPick(RECURRING, 1000), NewTask(Add("t", RECURRING, "", 0));
    RipeFirst(1000);
    FirstPickRuns(RECURRING, 1000);
    RunOneMore(ALWAYS, first, TurnEnds(0, 0));
    RunOneMore(ALWAYS, first + [TurnEnds(0, 0)], Boot(1000));
    RunOneMore(ALWAYS, first + [TurnEnds(0, 0)] + [Boot(1000)], Tick(0));
    RunOneMore(ALWAYS, first + [TurnEnds(0, 0)] + [Boot(1000)] + [Tick(0)], Advance(0));
    assert AGAIN == first + [TurnEnds(0, 0)] + [Boot(1000)] + [Tick(0)] + [Advance(0)];
    SecondLife(Run(ALWAYS, first), t);
  }

  lemma SecondLife(w: World, t: Task)
    requires w.disk == [t] && t.recurring && t.cron == EVERY_MINUTE && t.status.Active? && t.jitter == 0 && t.id == "t"
    requires w.passes == [Pass(Ticking(1000), [t], 1, Some(Turn(0, "t", false)))] && w.clock == 1000 && w.life == 1
    requires w.starts == [Start("t", 0, 1)]
    ensures TickPick(ALWAYS, Step(ALWAYS, Step(ALWAYS, w, TurnEnds(0, 0)), Boot(1000)), 0).starts == [Start("t", 0, 1), Start("t", 0, 2)]
    ensures Step(ALWAYS, Step(ALWAYS, w, TurnEnds(0, 0)), Boot(1000)).passes == []
  {
    hide Step, Ripe, FiredRow, TickPick;
    TurnEndsFirst(w, t);
    var booted := Step(ALWAYS, Step(ALWAYS, w, TurnEnds(0, 0)), Boot(1000));
    RipeAgain(t);
    TickPicksTheOnlyTask(ALWAYS, booted, FiredRow(t, false, 1000), 0);
  }

  lemma RipeAgain(t: Task)
    requires t.recurring && t.cron == EVERY_MINUTE && t.status.Active? && t.jitter == 0
    ensures var row := FiredRow(t, false, 1000); row.recurring && row.id == t.id && Ripe(ALWAYS, row, 2000)
  {
    hide Due, Overdue;
    DueEveryMinute(FiredRow(t, false, 1000), 2000);
    RecurringIsNotOverdue(FiredRow(t, false, 1000), 2000);
  }

  lemma TurnEndsFirst(w: World, t: Task)
    requires w.disk == [t] && w.clock == 1000 && w.life == 1
    requires w.passes == [Pass(Ticking(1000), [t], 1, Some(Turn(0, t.id, false)))]
    ensures var booted := Step(ALWAYS, Step(ALWAYS, w, TurnEnds(0, 0)), Boot(1000));
            && booted.disk == [FiredRow(t, false, 1000)] && booted.passes == [] && booted.starts == w.starts
            && booted.clock == 2000 && booted.life == 2 && booted.fired == {} && booted.stale
  {
    hide Row, SetRow, ActiveRows;
    OneRow(t);
    var ended := Step(ALWAYS, w, TurnEnds(0, 0));
    assert ended.disk == [FiredRow(t, false, 1000)] && ended.lastTick == Some(1000) && ended.clock == 1000;
  }

  lemma RecurringIsNotOverdue(t: Task, now: nat)
    requires t.recurring
    ensures !Overdue(ALWAYS, t, now)
  {
  }

  // ----- a run without any pick inside a turn ----------------------------------------------------------------------

  const EACH: Task := Task("a", true, EVERY_MINUTE, "", None, 0, Active, None, 0)
  const ONCE: Task := Task("b", false, "", "", Some(60000), 0, Active, None, 0)

  const SNAPSHOT: seq<Event> := [
    Boot(0), Add("a", RECURRING, "", 0), Add("b", Timing("", false, Some(60000)), "", 0), Boot(120000), Advance(0),
    Tick(0), Advance(1), TurnEnds(1, 0), Advance(1), TurnEnds(1, 0), TurnEnds(0, 0), Advance(0)]

  function CatchingPass(next: nat, turn: Option<Turn>): Pass {
    Pass(CatchingUp(0, 120000), [EACH, ONCE], next, turn)
  }

  function TickingPass(next: nat, turn: Option<Turn>): Pass {
    Pass(Ticking(120000), [EACH, ONCE], next, turn)
  }

  const CAUGHT: Fire := Fire("a", false, 120000, CaughtUp(Some(60000)), 2)
  const TICKED: Fire := Fire("a", false, 120000, OnTick, 2)
  const DUE_ONCE: Fire := Fire("b", true, 120000, OnTick, 2)
  const ONCE_MORE: Fire := Fire("b", true, 120000, CaughtUp(None), 2)

  /** A world of the run after its second boot. */
  predicate Stage(w: World, disk: seq<Task>, fired: set<Id>, passes: seq<Pass>, fires: seq<Fire>) {
    && w.disk == disk && w.fired == fired && w.passes == passes && w.fires == fires
    && w.clock == 120000 && w.minute == 2 && w.life == 2 && w.timers == multiset{}
  }

  lemma RowsOf(x: Task, y: Task)
    requires x.id == "a" && y.id == "b"
    ensures Row([x, y], "a") == Some(x) && Row([x, y], "b") == Some(y)
    ensures ActiveRows([x, y]) == (if x.status.Active? then [x] else []) + if y.status.Active? then [y] else []
    ensures forall u: Task {:trigger SetRow([x, y], u)} :: (u.id == "a" ==> SetRow([x, y], u) == [u, y])
                                                           && (u.id == "b" ==> SetRow([x, y], u) == [x, u])
  {
    assert [x, y][1..] == [y] && [x, y][..1] == [x];
    OneRow(x);
    OneRow(y);
  }

  lemma TwoFreshRows(w: World)
    requires w.fires == []
    ensures w.disk == [] ==> Fresh(w, SNAPSHOT[1])
    ensures w.disk == [EACH] ==> Fresh(w, SNAPSHOT[2])
  {
  }

  lemma BootsWithTwo()
    ensures FreshIds(ALWAYS, SNAPSHOT[..4])
    ensures Stage(Run(ALWAYS, SNAPSHOT[..4]), [EACH, ONCE], {}, [CatchingPass(0, None)], []) && Run(ALWAYS, SNAPSHOT[..4]).stale
    ensures forall k :: 0 <= k < 4 ==> Run(ALWAYS, SNAPSHOT[..k]).passes == []
  {
    hide Run, FreshIds, ActiveRows, Fresh;
    RunOf(ALWAYS, SNAPSHOT, 0);
    RunOf(ALWAYS, SNAPSHOT, 1);
    RunOf(ALWAYS, SNAPSHOT, 2);
    RunOf(ALWAYS, SNAPSHOT, 3);
    RowsOf(EACH, ONCE);
    NotAdds();
    TwoFreshRows(Run(ALWAYS, SNAPSHOT[..1]));
    TwoFreshRows(Run(ALWAYS, SNAPSHOT[..2]));
    var w := START.(lastTick := Some(0), stale := true, life := 1);
    assert Run(ALWAYS, SNAPSHOT[..1]) == w;
    assert Run(ALWAYS, SNAPSHOT[..2]) == w.(disk := [EACH]);
    assert Run(ALWAYS, SNAPSHOT[..3]) == w.(disk := [EACH, ONCE]);
  }

  lemma Advances(w: World, p: nat, v: Visited)
    requires CanAdvance(w, p) && v == Visit(ALWAYS, w, w.passes[p].job, w.passes[p].tasks[w.passes[p].next])
    ensures Step(ALWAYS, w, Advance(p)) ==
            v.world.(passes := w.passes[p := w.passes[p].(next := w.passes[p].next + 1, turn := v.turn)])
  {
    hide Visit;
  }

  lemma EachIsCaughtUp(w: World)
    requires w.fires == [] && w.clock == 120000 && w.life == 2
    ensures VisitOnCatchUp(ALWAYS, w, EACH, 0, 120000) == Visited(w.(fires := [CAUGHT]), Some(Turn(0, "a", false)))
  {
    hide Wanted, LatestMatch, MatchesAt, Due, CronMatches;
    DueEveryMinute(EACH, 60000);
    MissedTheFirst(EACH);
    CatchUpVisit(ALWAYS, w, EACH, 0, 120000);
  }

  lemma CatchUpVisit(cfg: Config, w: World, t: Task, start: nat, end: nat)
    requires t.recurring && Wanted(cfg, t, start, end)
    ensures VisitOnCatchUp(cfg, w, t, start, end) == BeginTurn(w, t, CaughtUp(LatestMatch(cfg, t, start, end - MINUTE)))
  {
    hide Wanted, LatestMatch;
  }

  /** The catch-up pass starts the turn of the first row. */
  lemma CatchUpBegins(w: World)
    requires Stage(w, [EACH, ONCE], {}, [CatchingPass(0, None)], [])
    ensures var v := Step(ALWAYS, w, Advance(0));
            Stage(v, [EACH, ONCE], {}, [CatchingPass(1, Some(Turn(0, "a", false)))], [CAUGHT]) && v.stale == w.stale
  {
    hide Step, VisitOnCatchUp, VisitOnTick;
    EachIsCaughtUp(w);
    Advances(w, 0, VisitOnCatchUp(ALWAYS, w, EACH, 0, 120000));
  }

  /** A tick goes through both rows. */
  lemma TickBegins(w: World, turn: Turn)
    requires Stage(w, [EACH, ONCE], {}, [CatchingPass(1, Some(turn))], [CAUGHT]) && w.stale
    ensures Stage(Step(ALWAYS, w, Tick(0)), [EACH, ONCE], {}, [CatchingPass(1, Some(turn)), TickingPass(0, None)], [CAUGHT])
  {
    hide ActiveRows;
    RowsOf(EACH, ONCE);
    assert [EACH] + [ONCE] == [EACH, ONCE];
    assert w.passes + [TickingPass(0, None)] == [CatchingPass(1, Some(turn)), TickingPass(0, None)];
  }

  lemma EachIsDue(w: World)
    requires Row(w.disk, "a") == Some(EACH) && w.fired == {} && w.clock == 120000 && w.life == 2 && |w.fires| == 1
    ensures var s := w.(fired := {"a"}, starts := w.starts + [Start("a", 2, 2)]);
            VisitOnTick(ALWAYS, w, EACH, 120000) == Visited(s.(fires := w.fires + [TICKED]), Some(Turn(1, "a", false)))
  {
    hide Due, Row, Overdue;
    DueEveryMinute(EACH, 120000);
    RecurringIsNotOverdue(EACH, 120000);
    assert w.fired + {"a"} == {"a"};
  }

  lemma TickPicksEach(w: World, turn: Turn)
    requires Stage(w, [EACH, ONCE], {}, [CatchingPass(1, Some(turn)), TickingPass(0, None)], [CAUGHT])
    ensures Stage(Step(ALWAYS, w, Advance(1)), [EACH, ONCE], {"a"},
                  [CatchingPass(1, Some(turn)), TickingPass(1, Some(Turn(1, "a", false)))], [CAUGHT, TICKED])
  {
    hide Step, VisitOnCatchUp, VisitOnTick, Row;
    RowsOf(EACH, ONCE);
    EachIsDue(w);
    Advances(w, 1, VisitOnTick(ALWAYS, w, EACH, 120000));
  }

  lemma TickPicksOnce(w: World, turn: Turn, x: Task)
    requires Stage(w, [x, ONCE], {"a"}, [CatchingPass(1, Some(turn)), TickingPass(1, None)], [CAUGHT, TICKED]) && x.id == "a"
    ensures Stage(Step(ALWAYS, w, Advance(1)), [x, ONCE], {"a", "b"},
                  [CatchingPass(1, Some(turn)), TickingPass(2, Some(Turn(2, "b", true)))], [CAUGHT, TICKED, DUE_ONCE])
  {
    hide Row;
    RowsOf(x, ONCE);
    assert CanAdvance(w, 1);
    assert {"a"} + {"b"} == {"a", "b"};
  }

  lemma TurnOfTwoEnds(w: World, x: Task, y: Task, fired: set<Id>, passes: seq<Pass>, fires: seq<Fire>, p: nat)
    requires Stage(w, [x, y], fired, passes, fires) && x.id == "a" && y.id == "b" && p < |passes| && passes[p].turn.Some?
    requires passes[p].turn.value.id == "a" || passes[p].turn.value.id == "b"
    ensures var turn := passes[p].turn.value;
            var x' := if turn.id == "a" then FiredRow(x, turn.oneShot, 120000) else x;
            var y' := if turn.id == "b" then FiredRow(y, turn.oneShot, 120000) else y;
            Stage(Step(ALWAYS, w, TurnEnds(p, 0)), [x', y'], fired, passes[p := passes[p].(turn := None)], fires)
  {
    hide Row, SetRow;
    RowsOf(x, y);
  }

  /** The catch-up pass fires the one-shot of its snapshot, whose row has long been fired. */
  lemma CatchUpGoesOn(w: World, disk: seq<Task>, fired: set<Id>, other: Pass)
    requires Stage(w, disk, fired, [CatchingPass(1, None), other], [CAUGHT, TICKED, DUE_ONCE])
    ensures Step(ALWAYS, w, Advance(0)).fires == [CAUGHT, TICKED, DUE_ONCE, ONCE_MORE]
  {
    assert CanAdvance(w, 0);
  }

  /** The run, stage by stage. */
  lemma SnapshotStages()
    ensures var x, y := FiredRow(EACH, false, 120000), FiredRow(ONCE, true, 120000);
            var waiting, ready := CatchingPass(1, Some(Turn(0, "a", false))), CatchingPass(1, None);
            && Stage(Run(ALWAYS, SNAPSHOT[..5]), [EACH, ONCE], {}, [waiting], [CAUGHT])
            && Stage(Run(ALWAYS, SNAPSHOT[..6]), [EACH, ONCE], {}, [waiting, TickingPass(0, None)], [CAUGHT])
            && Stage(Run(ALWAYS, SNAPSHOT[..8]), [x, ONCE], {"a"}, [waiting, TickingPass(1, None)], [CAUGHT, TICKED])
            && Stage(Run(ALWAYS, SNAPSHOT[..11]), [FiredRow(x, false, 120000), y], {"a", "b"}, [ready, TickingPass(2, None)],
                     [CAUGHT, TICKED, DUE_ONCE])
  {
    hide Run, Step, Stage, FreshIds, CatchingPass, TickingPass, FiredRow;
    var turn := Turn(0, "a", false);
    var waiting := CatchingPass(1, Some(turn));
    BootsWithTwo();
    RunOf(ALWAYS, SNAPSHOT, 4);
    CatchUpBegins(Run(ALWAYS, SNAPSHOT[..4]));
    RunOf(ALWAYS, SNAPSHOT, 5);
    TickBegins(Run(ALWAYS, SNAPSHOT[..5]), turn);
    RunOf(ALWAYS, SNAPSHOT, 6);
    TickPicksEach(Run(ALWAYS, SNAPSHOT[..6]), turn);
    RunOf(ALWAYS, SNAPSHOT, 7);
    EndsInSecond(Run(ALWAYS, SNAPSHOT[..7]), EACH, ONCE, {"a"}, waiting, 1, Turn(1, "a", false), [CAUGHT, TICKED]);
    FiredKeepsId(EACH);
    FiredKeepsId(ONCE);
    var x, y := FiredRow(EACH, false, 120000), FiredRow(ONCE, true, 120000);
    RunOf(ALWAYS, SNAPSHOT, 8);
    TickPicksOnce(Run(ALWAYS, SNAPSHOT[..8]), turn, x);
    RunOf(ALWAYS, SNAPSHOT, 9);
    EndsInSecond(Run(ALWAYS, SNAPSHOT[..9]), x, ONCE, {"a", "b"}, waiting, 2, Turn(2, "b", true), [CAUGHT, TICKED, DUE_ONCE]);
    RunOf(ALWAYS, SNAPSHOT, 10);
    EndsInFirst(Run(ALWAYS, SNAPSHOT[..10]), x, y, {"a", "b"}, TickingPass(2, None), [CAUGHT, TICKED, DUE_ONCE]);
  }

  lemma FiredKeepsId(t: Task)
    ensures forall once, at :: FiredRow(t, once, at).id == t.id
  {
  }

  lemma EndsInSecond(w: World, x: Task, y: Task, fired: set<Id>, first: Pass, next: nat, turn: Turn, fires: seq<Fire>)
    requires Stage(w, [x, y], fired, [first, TickingPass(next, Some(turn))], fires) && x.id == "a" && y.id == "b"
    requires turn.id == "a" || turn.id == "b"
    ensures var x' := if turn.id == "a" then FiredRow(x, turn.oneShot, 120000) else x;
            var y' := if turn.id == "b" then FiredRow(y, turn.oneShot, 120000) else y;
            Stage(Step(ALWAYS, w, TurnEnds(1, 0)), [x', y'], fired, [first, TickingPass(next, None)], fires)
  {
    hide Stage, FiredRow, Step;
    TurnOfTwoEnds(w, x, y, fired, [first, TickingPass(next, Some(turn))], fires, 1);
    assert [first, TickingPass(next, Some(turn))][1 := TickingPass(next, None)] == [first, TickingPass(next, None)];
  }

  lemma EndsInFirst(w: World, x: Task, y: Task, fired: set<Id>, second: Pass, fires: seq<Fire>)
    requires Stage(w, [x, y], fired, [CatchingPass(1, Some(Turn(0, "a", false))), second], fires) && x.id == "a" && y.id == "b"
    ensures Stage(Step(ALWAYS, w, TurnEnds(0, 0)), [FiredRow(x, false, 120000), y], fired, [CatchingPass(1, None), second], fires)
  {
    hide Stage, FiredRow, Step;
    var passes := [CatchingPass(1, Some(Turn(0, "a", false))), second];
    TurnOfTwoEnds(w, x, y, fired, passes, fires, 0);
    assert passes[0 := CatchingPass(1, None)] == [CatchingPass(1, None), second];
  }

  /**
   * A one-shot, added once and never enabled again, fires twice although no boot, tick, timer or catch-up pick falls
   * inside its running turn: the catch-up pass waited for another turn while a tick fired it, and then fired its snapshot.
   */
  lemma CatchUpFiresAnEndedOneShot()
    ensures FreshIds(ALWAYS, SNAPSHOT) && Activations(SNAPSHOT, "b") == 1 && OneShots(Run(ALWAYS, SNAPSHOT).fires, "b") == 2
    ensures forall k :: 0 <= k < |SNAPSHOT| && !SNAPSHOT[k].TurnEnds? ==> !Holding(Run(ALWAYS, SNAPSHOT[..k]), "b")
  {
    hide Run, Step, FreshIds, FiredRow, Activations, OneShots;
    BootsWithTwo();
    SnapshotStages();
    var x, y := FiredRow(EACH, false, 120000), FiredRow(ONCE, true, 120000);
    CatchUpGoesOn(Run(ALWAYS, SNAPSHOT[..11]), [FiredRow(x, false, 120000), y], {"a", "b"}, TickingPass(2, None));
    RunOf(ALWAYS, SNAPSHOT, 11);
    assert SNAPSHOT[..12] == SNAPSHOT;
    SnapshotIsFresh();
    TwoOneShots();
    SnapshotActivates();
  }

  lemma SnapshotIsFresh()
    ensures FreshIds(ALWAYS, SNAPSHOT)
  {
    hide Run, FreshIds, Fresh, Step;
    BootsWithTwo();
    NotAdds();
    RunOf(ALWAYS, SNAPSHOT, 4);
    RunOf(ALWAYS, SNAPSHOT, 5);
    RunOf(ALWAYS, SNAPSHOT, 6);
    RunOf(ALWAYS, SNAPSHOT, 7);
    RunOf(ALWAYS, SNAPSHOT, 8);
    RunOf(ALWAYS, SNAPSHOT, 9);
    RunOf(ALWAYS, SNAPSHOT, 10);
    RunOf(ALWAYS, SNAPSHOT, 11);
    assert SNAPSHOT[..12] == SNAPSHOT;
  }

  lemma TwoOneShots()
    ensures OneShots([CAUGHT, TICKED, DUE_ONCE, ONCE_MORE], "b") == 2
  {
    hide OneShots;
    NothingSpent("b");
    OneShotsSnoc([], CAUGHT, "b");
    OneShotsSnoc([CAUGHT], TICKED, "b");
    OneShotsSnoc([CAUGHT, TICKED], DUE_ONCE, "b");
    OneShotsSnoc([CAUGHT, TICKED, DUE_ONCE], ONCE_MORE, "b");
    assert [] + [CAUGHT] == [CAUGHT] && [CAUGHT] + [TICKED] == [CAUGHT, TICKED];
    assert [CAUGHT, TICKED] + [DUE_ONCE] == [CAUGHT, TICKED, DUE_ONCE];
    assert [CAUGHT, TICKED, DUE_ONCE] + [ONCE_MORE] == [CAUGHT, TICKED, DUE_ONCE, ONCE_MORE];
  }

  lemma {:induction false} NoActivation(es: seq<Event>, id: Id)
    requires forall e :: e in es ==> !e.Add? && !e.Patch?
    ensures Activations(es, id) == 0
  {
    if es != [] {
      assert es[|es| - 1] in es;
      NoActivation(es[..|es| - 1], id);
    }
  }

  lemma SnapshotActivates()
    ensures Activations(SNAPSHOT, "b") == 1
  {
    hide Activations;
    var rest := SNAPSHOT[3..];
    assert SNAPSHOT == [Boot(0)] + ([SNAPSHOT[1]] + ([SNAPSHOT[2]] + rest));
    ActivationsConcat([Boot(0)], [SNAPSHOT[1]] + ([SNAPSHOT[2]] + rest), "b");
    ActivationsConcat([SNAPSHOT[1]], [SNAPSHOT[2]] + rest, "b");
    ActivationsConcat([SNAPSHOT[2]], rest, "b");
    ActivationOf(Boot(0), "b");
    ActivationOf(SNAPSHOT[1], "b");
    ActivationOf(SNAPSHOT[2], "b");
    NoActivation(rest, "b");
  }
}
