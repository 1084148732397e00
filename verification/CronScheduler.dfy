/**
 * The scheduler in place: the reads and writes of the task file, what a tick, the catch-up pass and a timer do with one
 * task, the backward minute search, and the ends of turns. Each method takes the step of the state machine; the loops
 * over tasks, which wait for every turn, are driven by `RunPass`.
 */
module CronScheduler {
  import opened Basics
  import opened CronText
  import opened CronScheduling
  import opened CronFires

  class Scheduler {
    const cfg: Config
    var disk: seq<Task>
    var lastTick: Option<nat>
    var cache: seq<Task>
    var stale: bool
    var fired: set<Id>
    var minute: nat
    var timers: multiset<Id>
    var passes: seq<Pass>
    var life: nat
    var clock: nat
    var starts: seq<Start>
    var fires: seq<Fire>
    var ended: set<nat>
    ghost var trace: seq<Event>

    function View(): World
      reads this
    {
      World(disk, lastTick, cache, stale, fired, minute, timers, passes, life, clock, starts, fires, ended)
    }

    ghost predicate Valid()
      reads this
    {
      View() == Run(cfg, trace)
    }

    constructor (cfg: Config)
      ensures Valid() && trace == [] && this.cfg == cfg
    {
      this.cfg := cfg;
      disk, lastTick, cache, stale, fired, minute := [], None, [], false, {}, 0;
      timers, passes, life, clock, starts, fires, ended, trace := multiset{}, [], 0, 0, [], [], {}, [];
    }

    ghost method Extend(w: World, e: Event)
      requires w == Run(cfg, trace) && View() == Step(cfg, w, e)
      modifies `trace
      ensures trace == old(trace) + [e] && Valid()
    {
      assert (trace + [e])[..|trace|] == trace;
      trace := trace + [e];
    }

    // ----- the task file ------------------------------------------------------------------------------

    method GetTask(id: Id) returns (row: Option<Task>)
      ensures row == Row(disk, id)
    {
      for i := 0 to |disk|
        invariant Row(disk, id) == Row(disk[i..], id)
      {
        if disk[i].id == id { return Some(disk[i]); }
        assert disk[i..][1..] == disk[i + 1..];
      }
      row := None;
    }

    method GetActiveTasks() returns (active: seq<Task>)
      ensures active == ActiveRows(disk)
    {
      active := [];
      for i := 0 to |disk|
        invariant active == ActiveRows(disk[..i])
      {
        assert disk[..i + 1][..i] == disk[..i];
        if disk[i].status.Active? { active := active + [disk[i]]; }
      }
      assert disk[..|disk|] == disk;
    }

    method WriteRow(t: Task) returns (found: bool)
      modifies `disk
      ensures disk == SetRow(old(disk), t) && found == Row(old(disk), t.id).Some?
    {
      hide Row, SetRow;
      for i := 0 to |disk|
        invariant disk == old(disk) && forall k :: 0 <= k < i ==> disk[k].id != t.id
      {
        if disk[i].id == t.id {
          SetRowAt(disk, t, i);
          disk := disk[i := t];
          return true;
        }
      }
      found := false;
      RowIs(disk, t.id);
      NoRowNoChange(disk, t);
    }

    /** updateTaskAndTickTime: the row and the tick time go out in the same write. */
    method UpdateTaskAndTickTime(t: Task, at: nat)
      modifies `disk, `lastTick, `stale
      ensures View() == Rewrite(old(View()), t, at)
    {
      hide Row, SetRow;
      RowIs(disk, t.id);
      if Row(disk, t.id).None? { NoRowNoChange(disk, t); }
      var found := WriteRow(t);
      if found { lastTick, stale := Some(at), true; }
    }

    // ----- firing ----------------------------------------------------------------------------------------

    method StartTurn(t: Task, how: How) returns (turn: Option<Turn>)
      modifies this`fires
      ensures Visited(View(), turn) == BeginTurn(old(View()), t, how)
    {
      turn := Some(Turn(|fires|, t.id, !t.recurring));
      fires := fires + [Fire(t.id, !t.recurring, clock, how, life)];
    }

    /** doFire up to its await: the row is read again, and nothing happens unless it is active. */
    method FireIfActive(id: Id, how: How) returns (turn: Option<Turn>)
      modifies this`fires
      ensures Visited(View(), turn) == DoFire(old(View()), id, how)
    {
      hide Row;
      var row := GetTask(id);
      if row.None? || !row.value.status.Active? { return None; }
      turn := StartTurn(row.value, how);
    }

    /** doFire after its await: the row as it is now is written. */
    method WriteFired(turn: Turn)
      modifies this`disk, this`lastTick, this`stale, this`ended
      ensures View() == EndTurn(old(View()), turn)
    {
      hide Row, SetRow;
      var row := GetTask(turn.id);
      RowIs(disk, turn.id);
      if row.Some? { UpdateTaskAndTickTime(FiredRow(row.value, turn.oneShot, clock), clock); }
      stale, ended := true, ended + {turn.fire};
    }

    // ----- a tick ---------------------------------------------------------------------------------------------

    method HandleMissedOneShot(t: Task, now: nat) returns (missed: bool)
      modifies this`disk, this`lastTick, this`stale
      ensures missed == Overdue(cfg, t, now)
      ensures View() == if missed && Row(old(disk), t.id).Some?
                        then Rewrite(old(View()), Row(old(disk), t.id).value.(status := Missed), now) else old(View())
    {
      hide Row, SetRow;
      if t.recurring || t.scheduledFor.None? { return false; }
      if now > t.scheduledFor.value + cfg.threshold && t.status.Active? {
        var row := GetTask(t.id);
        if row.Some? { UpdateTaskAndTickTime(row.value.(status := Missed), now); }
        return true;
      }
      return false;
    }

    method VisitOnTickOf(t: Task, now: nat) returns (turn: Option<Turn>)
      modifies this`disk, this`lastTick, this`stale, this`fires, this`fired, this`starts, this`timers
      ensures Visited(View(), turn) == VisitOnTick(cfg, old(View()), t, now)
      ensures t.status.Active? && !Overdue(cfg, t, now) && t.id !in old(fired) && Due(cfg, t, now) ==>
                if t.recurring && t.jitter > 0 then timers == old(timers) + multiset{t.id} && turn.None?
                else timers == old(timers) && (turn.Some? <==> IsActive(disk, t.id))
    {
      hide Row, Rewrite, Due;
      turn := None;
      if !t.status.Active? { return; }
      var missed := HandleMissedOneShot(t, now);
      if missed { return; }
      if t.id in fired { return; }
      if !Due(cfg, t, now) { return; }
      fired, starts := fired + {t.id}, starts + [Start(t.id, now / MINUTE, life)];
      if t.recurring && t.jitter > 0 {
        timers := timers + multiset{t.id};
      } else {
        turn := FireIfActive(t.id, OnTick);
      }
    }

    method TurnMinute(now: nat)
      modifies this`clock, this`fired, this`minute, this`cache, this`stale
      ensures View() == Turned(old(View()), now)
    {
      clock := now;
      if now / MINUTE != minute {
        fired, minute := {}, now / MINUTE;
      }
      if stale {
        cache := GetActiveTasks();
        stale := false;
      }
    }

    /** A tick begins: the minute turns, the cache is refreshed, and the loop over it stands at its first task. */
    method BeginTick(wait: nat) returns (p: nat)
      requires Valid() && life > 0
      modifies this
      ensures Valid() && trace == old(trace) + [Tick(wait)]
      ensures p == |old(passes)| && p < |passes| && passes[p].turn.None? && passes[p].next == 0 && passes[p].job.Ticking?
    {
      hide Run, ActiveRows, Turned;
      ghost var w := View();
      var now := clock + wait;
      TurnMinute(now);
      assert Turned(w, now).passes == w.passes by { TurnedPasses(w, now); }
      p := |passes|;
      passes := passes + [Pass(Ticking(now), cache, 0, None)];
      Extend(w, Tick(wait));
    }

    // ----- catch-up ----------------------------------------------------------------------------------------------

    method FindLatestMatch(t: Task, start: nat, end: nat) returns (latest: Option<nat>)
      ensures latest == LatestMatch(cfg, t, start, end - MINUTE)
    {
      var m: int := end - MINUTE;
      while m >= start
        invariant LatestMatch(cfg, t, start, m) == LatestMatch(cfg, t, start, end - MINUTE)
        decreases m
      {
        if CronMatches(t.cron, cfg.wall(t.zone, m / MINUTE)) { return Some(m); }
        m := m - MINUTE;
      }
      latest := None;
    }

    method VisitOnCatchUpOf(t: Task, start: nat, end: nat) returns (turn: Option<Turn>)
      modifies this`fires
      ensures Visited(View(), turn) == VisitOnCatchUp(cfg, old(View()), t, start, end)
    {
      hide LatestMatch;
      turn := None;
      if !t.status.Active? { return; }
      if !t.recurring && t.scheduledFor.Some? {
        if start <= t.scheduledFor.value < end { turn := StartTurn(t, CaughtUp(None)); }
        return;
      }
      if t.recurring {
        var latest := FindLatestMatch(t, start, end);
        if latest.None? { return; }
        if t.lastFired.Some? && t.lastFired.value >= latest.value { return; }
        turn := StartTurn(t, CaughtUp(latest));
      }
    }

    /** The window, and the rows the catch-up pass will work from. */
    method PlanCatchUp(previous: Option<nat>, now: nat) returns (plan: seq<Pass>)
      ensures plan == CatchUpPasses(cfg, disk, previous, now)
    {
      if previous.None? { return []; }
      var windowStart := if now - cfg.cap > previous.value then now - cfg.cap else previous.value;
      var minuteStart := now / MINUTE * MINUTE;
      if windowStart >= minuteStart { return []; }
      var tasks := GetActiveTasks();
      plan := [Pass(CatchingUp(windowStart, minuteStart), tasks, 0, None)];
    }

    /** A fresh process has an empty memory of the file and of the minute. */
    method FreshMemory(now: nat)
      modifies this`cache, this`stale, this`fired, this`minute, this`timers
      ensures View() == old(View()).(cache := [], stale := true, fired := {}, minute := now / MINUTE, timers := multiset{})
    {
      cache, stale, fired, minute, timers := [], true, {}, now / MINUTE, multiset{};
    }

    /** startCronScheduler in a new process: whatever the old one was running is lost. */
    method StartScheduler(wait: nat)
      requires Valid()
      modifies this
      ensures Valid() && trace == old(trace) + [Boot(wait)]
    {
      hide Run, CatchUpPasses, Step, BootStep;
      ghost var w := View();
      var now := clock + wait;
      var plan := PlanCatchUp(lastTick, now);
      FreshMemory(now);
      ghost var cleared := View();
      lastTick, passes, life, clock := Some(now), plan, life + 1, now;
      assert View() == cleared.(lastTick := Some(now), passes := plan, life := w.life + 1, clock := now);
      BootLeaves(cfg, w, wait, View());
      Extend(w, Boot(wait));
    }

    // ----- passes ------------------------------------------------------------------------------------------------------

    /** The next round of a loop, up to the await of the turn it starts. */
    method AdvancePass(p: nat)
      requires Valid() && CanAdvance(View(), p)
      modifies this
      ensures Valid() && trace == old(trace) + [Advance(p)] && |passes| == |old(passes)|
      ensures passes[p].next == old(passes)[p].next + 1 && passes[p].tasks == old(passes)[p].tasks
    {
      hide Run, VisitOnTick, VisitOnCatchUp;
      ghost var w := View();
      var pass := passes[p];
      var t, turn := pass.tasks[pass.next], None;
      match pass.job {
        case Ticking(now) => turn := VisitOnTickOf(t, now);
        case CatchingUp(start, end) => turn := VisitOnCatchUpOf(t, start, end);
        case Timed =>
      }
      VisitDoes(cfg, w, pass.job, t);
      passes := passes[p := pass.(next := pass.next + 1, turn := turn)];
      Extend(w, Advance(p));
    }

    /** The turn a pass waits for ends. */
    method FinishTurn(p: nat, wait: nat)
      requires Valid() && p < |passes| && passes[p].turn.Some?
      modifies this
      ensures Valid() && trace == old(trace) + [TurnEnds(p, wait)] && passes == old(passes)[p := old(passes)[p].(turn := None)]
    {
      hide Run, Row, SetRow;
      ghost var w := View();
      var turn := passes[p].turn.value;
      clock, passes := clock + wait, passes[p := passes[p].(turn := None)];
      WriteFired(turn);
      Extend(w, TurnEnds(p, wait));
    }

    method TimerExpires(id: Id, wait: nat)
      requires Valid() && id in timers
      modifies this
      ensures Valid() && trace == old(trace) + [TimerFires(id, wait)]
    {
      hide Run, DoFire, Step;
      ghost var w := View();
      clock, timers := clock + wait, timers - multiset{id};
      assert View() == w.(clock := w.clock + wait, timers := w.timers - multiset{id});
      var turn := FireIfActive(id, OnTimer);
      ghost var picked := View();
      passes := passes + [Pass(Timed, [], 0, turn)];
      assert View() == picked.(passes := picked.passes + [Pass(Timed, [], 0, turn)]);
      TimerLeaves(cfg, w, id, wait, Visited(picked, turn), View());
      Extend(w, TimerFires(id, wait));
    }

    /** A whole loop over tasks when nothing comes in between: every turn is awaited before the next task. */
    method RunPass(p: nat, length: nat)
      requires Valid() && p < |passes| && passes[p].next <= |passes[p].tasks|
      modifies this
      ensures Valid() && |passes| == |old(passes)| && passes[p].next == |passes[p].tasks| && passes[p].turn.None?
      ensures old(trace) <= trace && OnlyPass(trace[|old(trace)|..], p)
    {
      hide Run, Visit;
      while passes[p].next < |passes[p].tasks| || passes[p].turn.Some?
        invariant Valid() && |passes| == |old(passes)| && passes[p].next <= |passes[p].tasks|
        invariant old(trace) <= trace && OnlyPass(trace[|old(trace)|..], p)
        decreases |passes[p].tasks| - passes[p].next, if passes[p].turn.Some? then 1 else 0
      {
        ghost var done := trace;
        if passes[p].turn.Some? { FinishTurn(p, length); } else { AdvancePass(p); }
        assert trace[|old(trace)|..] == done[|old(trace)|..] + [trace[|done|]];
      }
    }

    // ----- edits ----------------------------------------------------------------------------------------------------

    method AddTask(id: Id, timing: Timing, zone: string, jitter: int)
      requires Valid()
      modifies this
      ensures Valid() && trace == old(trace) + [Add(id, timing, zone, jitter)]
    {
      hide Run;
      ghost var w := View();
      disk, stale := disk + [Task(id, timing.recurring, timing.cron, zone, timing.scheduledFor, jitter, Active, None, 0)], true;
      Extend(w, Add(id, timing, zone, jitter));
    }

    method PatchTask(id: Id, timing: Option<Timing>, enabled: Option<bool>) returns (found: bool)
      requires Valid()
      modifies this
      ensures Valid() && trace == old(trace) + [Patch(id, timing, enabled)]
      ensures found == Row(old(disk), id).Some?
    {
      hide Run, Row, SetRow;
      ghost var w := View();
      var row := GetTask(id);
      found := row.Some?;
      if found {
        RowKeepsId(disk, id);
        var _ := WriteRow(Patched(row.value, timing, enabled));
        stale := true;
      }
      Extend(w, Patch(id, timing, enabled));
    }

    method DeleteTask(id: Id) returns (found: bool)
      requires Valid()
      modifies this
      ensures Valid() && trace == old(trace) + [Delete(id)] && found == Row(old(disk), id).Some?
    {
      hide Run;
      ghost var w := View();
      hide Row, Without;
      found := false;
      for i := 0 to |disk|
        invariant disk == w.disk && View() == w && trace == old(trace) && forall k :: 0 <= k < i ==> disk[k].id != id
      {
        if disk[i].id == id {
          WithoutAt(disk, id, i);
          disk, stale := disk[..i] + disk[i + 1..], true;
          Extend(w, Delete(id));
          return true;
        }
      }
      RowIs(disk, id);
      Extend(w, Delete(id));
    }
  }

  /** Steps of one pass only. */
  predicate OnlyPass(es: seq<Event>, p: nat) {
    forall i :: 0 <= i < |es| ==> (es[i].Advance? || es[i].TurnEnds?) && es[i].pass == p
  }

  lemma BootLeaves(cfg: Config, w: World, wait: nat, v: World)
    requires var now := w.clock + wait;
             v == w.(lastTick := Some(now), cache := [], stale := true, fired := {}, minute := now / MINUTE, timers := multiset{},
                     passes := CatchUpPasses(cfg, w.disk, w.lastTick, now), life := w.life + 1, clock := now)
    ensures v == Step(cfg, w, Boot(wait))
  {
    hide CatchUpPasses;
  }

  lemma TimerLeaves(cfg: Config, w: World, id: Id, wait: nat, picked: Visited, v: World)
    requires id in w.timers && picked == DoFire(w.(clock := w.clock + wait, timers := w.timers - multiset{id}), id, OnTimer)
    requires v == picked.world.(passes := picked.world.passes + [Pass(Timed, [], 0, picked.turn)])
    ensures v == Step(cfg, w, TimerFires(id, wait))
  {
    hide DoFire;
  }

  lemma TurnedPasses(w: World, now: nat)
    ensures Turned(w, now).passes == w.passes && Turned(w, now).life == w.life
  {
  }

  lemma {:induction false} NoRowNoChange(disk: seq<Task>, t: Task)
    requires forall k :: 0 <= k < |disk| ==> disk[k].id != t.id
    ensures SetRow(disk, t) == disk && Row(disk, t.id).None?
  {
    if disk != [] { NoRowNoChange(disk[1..], t); }
  }

  lemma {:induction false} SetRowAt(disk: seq<Task>, t: Task, i: nat)
    requires i < |disk| && disk[i].id == t.id && forall k :: 0 <= k < i ==> disk[k].id != t.id
    ensures SetRow(disk, t) == disk[i := t] && Row(disk, t.id).Some?
  {
    if i > 0 {
      SetRowAt(disk[1..], t, i - 1);
      assert [disk[0]] + disk[1..][i - 1 := t] == disk[i := t];
    }
  }

  lemma {:induction false} WithoutAt(disk: seq<Task>, id: Id, i: nat)
    requires i < |disk| && disk[i].id == id && forall k :: 0 <= k < i ==> disk[k].id != id
    ensures Without(disk, id) == disk[..i] + disk[i + 1..] && Row(disk, id).Some?
  {
    if i > 0 {
      WithoutAt(disk[1..], id, i - 1);
      assert [disk[0]] + (disk[1..][..i - 1] + disk[1..][i..]) == disk[..i] + disk[i + 1..];
    }
  }

  lemma RowKeepsId(disk: seq<Task>, id: Id)
    ensures Row(disk, id).Some? ==> Row(disk, id).value.id == id
  {
    RowIs(disk, id);
  }
}
