/**
 * The scheduler as a state machine: ticks with their per-minute memory, jitter timers, the catch-up pass at boot, and
 * edits of the task file. A tick, the catch-up pass and a timer are passes that run side by side: a pass waits while
 * the turn it started runs, and the row of a task is written only when its turn ends. A boot may fall anywhere. The
 * clock never goes back: events say how long they wait.
 */
module CronScheduling {
  import opened Basics
  import opened CronText

  type Id = string

  const MINUTE: nat := 60000

  datatype Status = Active | Fired | Missed | Cancelled

  /** A row of the task file; jitter is an offset in milliseconds, for one-shots possibly negative. */
  datatype Task = Task(id: Id, recurring: bool, cron: string, zone: string, scheduledFor: Option<nat>, jitter: int,
                       status: Status, lastFired: Option<nat>, fireCount: nat)

  /** The missed threshold, the catch-up cap, and the local time of each whole minute in each zone. */
  datatype Config = Config(threshold: nat, cap: nat, wall: (string, nat) -> Moment)

  /** A catch-up fire of a recurring task names the minute it makes up for. */
  datatype How = OnTick | OnTimer | CaughtUp(minute: Option<nat>)

  /** A turn was started for a task. */
  datatype Fire = Fire(id: Id, oneShot: bool, at: nat, how: How, life: nat)

  /** A tick picked the task in this minute of this lifetime of the scheduler. */
  datatype Start = Start(id: Id, minute: nat, life: nat)

  /** A running turn: which fire it is, and how its row will be written. */
  datatype Turn = Turn(fire: nat, id: Id, oneShot: bool)

  datatype Job = Ticking(now: nat) | CatchingUp(start: nat, end: nat) | Timed

  /** A loop over tasks that has reached the task numbered next, waiting while a turn runs. */
  datatype Pass = Pass(job: Job, tasks: seq<Task>, next: nat, turn: Option<Turn>)

  /** The task file, the memory of the process, its passes, and what has been done; ended lists the fires whose turn ended. */
  datatype World = World(
    disk: seq<Task>, lastTick: Option<nat>,
    cache: seq<Task>, stale: bool, fired: set<Id>, minute: nat, timers: multiset<Id>, passes: seq<Pass>, life: nat,
    clock: nat, starts: seq<Start>, fires: seq<Fire>, ended: set<nat>)

  datatype Timing = Timing(cron: string, recurring: bool, scheduledFor: Option<nat>)

  datatype Event =
    | Boot(wait: nat)
    | Tick(wait: nat)
    | Advance(pass: nat)
    | TurnEnds(pass: nat, wait: nat)
    | TimerFires(id: Id, wait: nat)
    | Add(id: Id, timing: Timing, zone: string, jitter: int)
    | Delete(id: Id)
    | Patch(id: Id, retimed: Option<Timing>, enabled: Option<bool>)

  const START: World := World([], None, [], false, {}, 0, multiset{}, [], 0, 0, [], [], {})

  // ----- the task file -----------------------------------------------------------------------------

  function Row(disk: seq<Task>, id: Id): Option<Task> {
    if disk == [] then None else if disk[0].id == id then Some(disk[0]) else Row(disk[1..], id)
  }

  function SetRow(disk: seq<Task>, t: Task): seq<Task> {
    if disk == [] then []
    else if disk[0].id == t.id then [t] + disk[1..]
    else [disk[0]] + SetRow(disk[1..], t)
  }

  function Without(disk: seq<Task>, id: Id): seq<Task> {
    if disk == [] then [] else if disk[0].id == id then disk[1..] else [disk[0]] + Without(disk[1..], id)
  }

  /** getActiveTasks */
  function ActiveRows(disk: seq<Task>): seq<Task> {
    if disk == [] then []
    else if disk[|disk| - 1].status.Active? then ActiveRows(disk[..|disk| - 1]) + [disk[|disk| - 1]]
    else ActiveRows(disk[..|disk| - 1])
  }

  predicate UniqueIds(ts: seq<Task>) {
    forall i, j :: 0 <= i < j < |ts| ==> ts[i].id != ts[j].id
  }

  // ----- firing --------------------------------------------------------------------------------------

  predicate Due(cfg: Config, t: Task, now: nat) {
    if !t.recurring && t.scheduledFor.Some? then t.scheduledFor.value + t.jitter <= now
    else CronMatches(t.cron, cfg.wall(t.zone, now / MINUTE))
  }

  predicate Overdue(cfg: Config, t: Task, now: nat) {
    !t.recurring && t.scheduledFor.Some? && now > t.scheduledFor.value + cfg.threshold && t.status.Active?
  }

  function FiredRow(d: Task, oneShot: bool, at: nat): Task {
    if oneShot then d.(status := Fired, lastFired := Some(at), fireCount := 1)
    else d.(lastFired := Some(at), fireCount := d.fireCount + 1)
  }

  /** Rewrite one row, if it is still there, and stamp last_tick_at in the same write. */
  function Rewrite(w: World, t: Task, at: nat): World {
    if Row(w.disk, t.id).None? then w else w.(disk := SetRow(w.disk, t), lastTick := Some(at), stale := true)
  }

  /** What visiting a task leaves, and the turn it started. */
  datatype Visited = Visited(world: World, turn: Option<Turn>)

  function BeginTurn(w: World, t: Task, how: How): Visited {
    Visited(w.(fires := w.fires + [Fire(t.id, !t.recurring, w.clock, how, w.life)]), Some(Turn(|w.fires|, t.id, !t.recurring)))
  }

  /** doFire: nothing happens unless the row read afresh is still active. */
  function DoFire(w: World, id: Id, how: How): Visited {
    var row := Row(w.disk, id);
    if row.None? || !row.value.status.Active? then Visited(w, None) else BeginTurn(w, row.value, how)
  }

  /** The row as it stands is rewritten at the end of the turn, if it is still there. */
  function EndTurn(w: World, t: Turn): World {
    var row := Row(w.disk, t.id);
    var done := if row.None? then w else Rewrite(w, FiredRow(row.value, t.oneShot, w.clock), w.clock);
    done.(stale := true, ended := w.ended + {t.fire})
  }

  // ----- a tick ------------------------------------------------------------------------------------------

  function VisitOnTick(cfg: Config, w: World, t: Task, now: nat): Visited {
    if !t.status.Active? then Visited(w, None)
    else if Overdue(cfg, t, now) then
      var row := Row(w.disk, t.id);
      Visited(if row.None? then w else Rewrite(w, row.value.(status := Missed), now), None)
    else if t.id in w.fired || !Due(cfg, t, now) then Visited(w, None)
    else
      var s := w.(fired := w.fired + {t.id}, starts := w.starts + [Start(t.id, now / MINUTE, w.life)]);
      if t.recurring && t.jitter > 0 then Visited(s.(timers := s.timers + multiset{t.id}), None) else DoFire(s, t.id, OnTick)
  }

  /** The minute's memory is cleared when the minute changes, and the cache refreshed when the file changed. */
  function Turned(w: World, now: nat): World {
    w.(clock := now,
       fired := if now / MINUTE != w.minute then {} else w.fired, minute := now / MINUTE,
       cache := if w.stale then ActiveRows(w.disk) else w.cache, stale := false)
  }

  function TickStep(w: World, wait: nat): World {
    var turned := Turned(w, w.clock + wait);
    turned.(passes := turned.passes + [Pass(Ticking(w.clock + wait), turned.cache, 0, None)])
  }

  // ----- catch-up -----------------------------------------------------------------------------------------

  predicate MatchesAt(cfg: Config, t: Task, m: nat) {
    CronMatches(t.cron, cfg.wall(t.zone, m / MINUTE))
  }

  /** The backward minute loop, from m down to the start of the window. */
  function LatestMatch(cfg: Config, t: Task, start: nat, m: int): Option<nat>
    decreases m
  {
    if m < start then None
    else if MatchesAt(cfg, t, m) then Some(m)
    else LatestMatch(cfg, t, start, m - MINUTE)
  }

  /** The catch-up pass fires the task: end is the start of the current minute, which the tick will handle. */
  predicate Wanted(cfg: Config, t: Task, start: nat, end: nat) {
    && t.status.Active?
    && if t.recurring then
         var latest := LatestMatch(cfg, t, start, end - MINUTE);
         latest.Some? && !(t.lastFired.Some? && t.lastFired.value >= latest.value)
       else t.scheduledFor.Some? && start <= t.scheduledFor.value < end
  }

  /** The pass uses the rows read at its start and does not read them again. */
  function VisitOnCatchUp(cfg: Config, w: World, t: Task, start: nat, end: nat): Visited {
    if !Wanted(cfg, t, start, end) then Visited(w, None)
    else BeginTurn(w, t, CaughtUp(if t.recurring then LatestMatch(cfg, t, start, end - MINUTE) else None))
  }

  function WindowStart(cfg: Config, previous: nat, now: nat): nat {
    if now - cfg.cap > previous then now - cfg.cap else previous
  }

  function MinuteStart(now: nat): nat {
    now / MINUTE * MINUTE
  }

  function CatchUpPasses(cfg: Config, disk: seq<Task>, previous: Option<nat>, now: nat): seq<Pass> {
    if previous.None? || WindowStart(cfg, previous.value, now) >= MinuteStart(now) then []
    else [Pass(CatchingUp(WindowStart(cfg, previous.value, now), MinuteStart(now)), ActiveRows(disk), 0, None)]
  }

  /** A new process claims the lease, knows nothing but the file, and starts its catch-up pass. */
  function BootStep(cfg: Config, w: World, wait: nat): World {
    var now := w.clock + wait;
    w.(lastTick := Some(now), cache := [], stale := true, fired := {}, minute := now / MINUTE, timers := multiset{},
       passes := CatchUpPasses(cfg, w.disk, w.lastTick, now), life := w.life + 1, clock := now)
  }

  // ----- passes ---------------------------------------------------------------------------------------------

  function Visit(cfg: Config, w: World, job: Job, t: Task): Visited {
    match job
    case Ticking(now) => VisitOnTick(cfg, w, t, now)
    case CatchingUp(start, end) => VisitOnCatchUp(cfg, w, t, start, end)
    case Timed => Visited(w, None)
  }

  predicate CanAdvance(w: World, p: nat) {
    p < |w.passes| && w.passes[p].turn.None? && w.passes[p].next < |w.passes[p].tasks|
  }

  function AdvanceStep(cfg: Config, w: World, p: nat): World {
    if !CanAdvance(w, p) then w
    else
      var pass := w.passes[p];
      var v := Visit(cfg, w, pass.job, pass.tasks[pass.next]);
      v.world.(passes := w.passes[p := pass.(next := pass.next + 1, turn := v.turn)])
  }

  function TurnEndsStep(w: World, p: nat, wait: nat): World {
    if p >= |w.passes| || w.passes[p].turn.None? then w
    else
      EndTurn(w.(clock := w.clock + wait, passes := w.passes[p := w.passes[p].(turn := None)]), w.passes[p].turn.value)
  }

  function TimerStep(w: World, id: Id, wait: nat): World {
    if id !in w.timers then w
    else
      var v := DoFire(w.(clock := w.clock + wait, timers := w.timers - multiset{id}), id, OnTimer);
      v.world.(passes := v.world.passes + [Pass(Timed, [], 0, v.turn)])
  }

  // ----- runs -----------------------------------------------------------------------------------------------

  function Patched(t: Task, timing: Option<Timing>, enabled: Option<bool>): Task {
    var timed := match timing
      case None => t
      case Some(x) => t.(cron := x.cron, recurring := x.recurring, scheduledFor := x.scheduledFor);
    match enabled
    case None => timed
    case Some(on) => timed.(status := if on then Active else Cancelled)
  }

  function NewTask(e: Event): Task
    requires e.Add?
  {
    Task(e.id, e.timing.recurring, e.timing.cron, e.zone, e.timing.scheduledFor, e.jitter, Active, None, 0)
  }

  function Step(cfg: Config, w: World, e: Event): World {
    match e
    case Boot(wait) => BootStep(cfg, w, wait)
    case Tick(wait) => if w.life == 0 then w else TickStep(w, wait)
    case Advance(p) => AdvanceStep(cfg, w, p)
    case TurnEnds(p, wait) => TurnEndsStep(w, p, wait)
    case TimerFires(id, wait) => TimerStep(w, id, wait)
    case Add(_, _, _, _) => w.(disk := w.disk + [NewTask(e)], stale := true)
    case Delete(id) => if Row(w.disk, id).None? then w else w.(disk := Without(w.disk, id), stale := true)
    case Patch(id, timing, enabled) =>
      var row := Row(w.disk, id);
      if row.None? then w else w.(disk := SetRow(w.disk, Patched(row.value, timing, enabled)), stale := true)
  }

  function Run(cfg: Config, es: seq<Event>): World {
    if es == [] then START else Step(cfg, Run(cfg, es[..|es| - 1]), es[|es| - 1])
  }

  /** Task ids are random: an added id is on no row and was never fired. */
  predicate Fresh(w: World, e: Event) {
    e.Add? ==> Row(w.disk, e.id).None? && forall f <- w.fires :: f.id != e.id
  }

  predicate FreshIds(cfg: Config, es: seq<Event>) {
    es == [] || (FreshIds(cfg, es[..|es| - 1]) && Fresh(Run(cfg, es[..|es| - 1]), es[|es| - 1]))
  }

  // ----- the task file: lemmas --------------------------------------------------------------------------------

  lemma {:induction false} RowIs(disk: seq<Task>, id: Id)
    ensures Row(disk, id).Some? ==> Row(disk, id).value in disk && Row(disk, id).value.id == id
    ensures Row(disk, id).None? ==> forall t :: t in disk ==> t.id != id
  {
    if disk != [] { RowIs(disk[1..], id); }
  }

  lemma {:induction false} RowOfSet(disk: seq<Task>, t: Task, id: Id)
    ensures Row(SetRow(disk, t), id) == if id == t.id && Row(disk, id).Some? then Some(t) else Row(disk, id)
    ensures |SetRow(disk, t)| == |disk|
    ensures forall i :: 0 <= i < |disk| ==> SetRow(disk, t)[i].id == disk[i].id
  {
    if disk != [] {
      RowOfSet(disk[1..], t, id);
      assert SetRow(disk, t)[1..] == if disk[0].id == t.id then disk[1..] else SetRow(disk[1..], t);
    }
  }

  lemma ConcatUnique(a: seq<Task>, b: seq<Task>)
    requires UniqueIds(a) && UniqueIds(b) && forall x, y :: x in a && y in b ==> x.id != y.id
    ensures UniqueIds(a + b)
  {
    forall i, j | 0 <= i < j < |a + b| ensures (a + b)[i].id != (a + b)[j].id {
      if i < |a| <= j { assert a[i] in a && b[j - |a|] in b; }
    }
  }

  lemma {:induction false} RowOfWithout(disk: seq<Task>, d: Id, id: Id)
    requires UniqueIds(disk)
    ensures Row(Without(disk, d), id) == if id == d then None else Row(disk, id)
    ensures UniqueIds(Without(disk, d)) && forall t :: t in Without(disk, d) ==> t in disk
  {
    if disk != [] {
      RowOfWithout(disk[1..], d, id);
      if disk[0].id == d {
        RowIs(disk[1..], d);
      } else {
        var rest := Without(disk[1..], d);
        assert Without(disk, d)[1..] == rest;
        forall x | x in rest ensures x.id != disk[0].id {
          var k :| 0 <= k < |disk[1..]| && disk[1..][k] == x;
          assert disk[k + 1] == x;
        }
        ConcatUnique([disk[0]], rest);
      }
    }
  }

  lemma {:induction false} RowOfAdd(disk: seq<Task>, t: Task, id: Id)
    ensures Row(disk + [t], id) == if Row(disk, id).Some? then Row(disk, id) else if t.id == id then Some(t) else None
  {
    if disk == [] {
      assert disk + [t] == [t];
    } else {
      assert (disk + [t])[1..] == disk[1..] + [t];
      RowOfAdd(disk[1..], t, id);
    }
  }

  lemma {:induction false} RowOfMember(disk: seq<Task>, t: Task)
    requires UniqueIds(disk) && t in disk
    ensures Row(disk, t.id) == Some(t)
  {
    if disk[0] != t {
      RowOfMember(disk[1..], t);
    }
  }

  lemma {:induction false} ActiveRowsAre(disk: seq<Task>, t: Task)
    requires UniqueIds(disk)
    ensures t in ActiveRows(disk) <==> t in disk && t.status.Active?
    ensures UniqueIds(ActiveRows(disk))
    ensures forall x :: x in ActiveRows(disk) ==> x in disk
  {
    if disk != [] {
      var front, last := disk[..|disk| - 1], disk[|disk| - 1];
      ActiveRowsAre(front, t);
      assert disk == front + [last];
      forall x | x in ActiveRows(front) ensures x.id != last.id {
        var k :| 0 <= k < |front| && front[k] == x;
        assert disk[k] == x;
      }
      ConcatUnique(ActiveRows(front), [last]);
    }
  }

  // ----- the backward search ----------------------------------------------------------------------------------

  predicate WholeMinute(m: nat) {
    m % MINUTE == 0
  }

  /** The loop finds the latest matching minute of the window, if there is one. */
  lemma {:induction false} LatestMatchIsLatest(cfg: Config, t: Task, start: nat, m: int)
    requires m % MINUTE == 0
    ensures LatestMatch(cfg, t, start, m).Some? ==>
              var best := LatestMatch(cfg, t, start, m).value;
              start <= best <= m && WholeMinute(best) && MatchesAt(cfg, t, best)
              && forall n: nat :: best < n <= m && WholeMinute(n) ==> !MatchesAt(cfg, t, n)
    ensures LatestMatch(cfg, t, start, m).None? ==>
              forall n: nat :: start <= n <= m && WholeMinute(n) ==> !MatchesAt(cfg, t, n)
    decreases m
  {
    hide MatchesAt;
    if m >= start && !MatchesAt(cfg, t, m) {
      LatestMatchIsLatest(cfg, t, start, m - MINUTE);
      forall n: nat | m - MINUTE < n <= m && WholeMinute(n) ensures n == m { OneInAMinute(n, m); }
    }
  }

  lemma OneInAMinute(n: nat, m: nat)
    requires m - MINUTE < n <= m && n % MINUTE == 0 && m % MINUTE == 0
    ensures n == m
  {
  }

  lemma MinuteStartIsWhole(now: nat)
    ensures MinuteStart(now) % MINUTE == 0 && MinuteStart(now) <= now < MinuteStart(now) + MINUTE
  {
  }

  /**
   * A recurring task is caught up exactly when some whole minute of the window matches its schedule and it has not
   * fired since that minute.
   */
  lemma RecurringWantedExactly(cfg: Config, t: Task, start: nat, end: nat)
    requires t.recurring && t.status.Active? && end % MINUTE == 0
    ensures Wanted(cfg, t, start, end) <==>
            exists m: nat :: start <= m < end && WholeMinute(m) && MatchesAt(cfg, t, m)
                             && (t.lastFired.None? || t.lastFired.value < m)
  {
    hide MatchesAt, LatestMatch;
    LatestMatchIsLatest(cfg, t, start, end - MINUTE);
    forall n: nat | n < end && WholeMinute(n) ensures n <= end - MINUTE { BeforeTheMinute(n, end); }
    var latest := LatestMatch(cfg, t, start, end - MINUTE);
    if m: nat :| start <= m < end && WholeMinute(m) && MatchesAt(cfg, t, m) && (t.lastFired.None? || t.lastFired.value < m) {
      assert latest.Some? && m <= latest.value;
    }
  }

  lemma BeforeTheMinute(n: nat, end: nat)
    requires n < end && n % MINUTE == 0 && end % MINUTE == 0
    ensures n <= end - MINUTE
  {
  }
}
