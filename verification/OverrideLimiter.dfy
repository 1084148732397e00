/**
 * The limiter of fork overrides: per-turn and per-hour counters with a rotating hour window, kept per agent and
 * conversation, and the bound they enforce on any span of one hour.
 */
module OverrideLimiter {

  type Key = string

  const HOUR: nat := 3600000

  datatype Limits = Limits(perTurn: nat, perHour: nat)

  datatype RateState = RateState(countThisTurn: nat, countThisHour: nat, hourStart: nat, turnStart: nat)

  /** An accepted override: when, in which hour window, and in which turn of its key. */
  datatype Accepted = Accepted(key: Key, at: nat, window: nat, turn: nat)

  datatype Verdict = Allowed | TurnLimit | HourLimit

  /** Attempt checks and, if allowed, records a little later; waits are what the clock advances before each event. */
  datatype Event = NewTurn(key: Key, wait: nat) | Attempt(key: Key, wait: nat, lag: nat)

  /** The limiter's map, the turns started per key, the accepted overrides, and the clock. */
  datatype World = World(states: map<Key, RateState>, turns: map<Key, nat>, accepted: seq<Accepted>, clock: nat)

  const START: World := World(map[], map[], [], 0)

  function TurnOf(w: World, key: Key): nat {
    if key in w.turns then w.turns[key] else 0
  }

  /** getOverrideRateState: created on first use, and rotated when more than an hour has passed. */
  function StateAt(states: map<Key, RateState>, key: Key, now: nat): RateState {
    if key !in states then RateState(0, 0, now, now)
    else if now - states[key].hourStart > HOUR then states[key].(countThisHour := 0, hourStart := now)
    else states[key]
  }

  function Check(lim: Limits, s: RateState): Verdict {
    if s.countThisTurn >= lim.perTurn then TurnLimit
    else if s.countThisHour >= lim.perHour then HourLimit
    else Allowed
  }

  function Recorded(w: World, key: Key, now: nat): World {
    var s := StateAt(w.states, key, now);
    w.(states := w.states[key := s.(countThisTurn := s.countThisTurn + 1, countThisHour := s.countThisHour + 1)],
       accepted := w.accepted + [Accepted(key, now, s.hourStart, TurnOf(w, key))], clock := now)
  }

  function AttemptStep(lim: Limits, w: World, key: Key, wait: nat, lag: nat): World {
    var now := w.clock + wait;
    var s := StateAt(w.states, key, now);
    var checked := w.(states := w.states[key := s], clock := now);
    if Check(lim, s) == Allowed then Recorded(checked, key, now + lag) else checked
  }

  function NewTurnStep(w: World, key: Key, wait: nat): World {
    var now := w.clock + wait;
    var s := if key in w.states then w.states[key] else RateState(0, 0, now, now);
    w.(states := w.states[key := s.(countThisTurn := 0, turnStart := now)], turns := w.turns[key := TurnOf(w, key) + 1], clock := now)
  }

  function Step(lim: Limits, w: World, e: Event): World {
    match e
    case NewTurn(key, wait) => NewTurnStep(w, key, wait)
    case Attempt(key, wait, lag) => AttemptStep(lim, w, key, wait, lag)
  }

  function Run(lim: Limits, es: seq<Event>): World {
    if es == [] then START else Step(lim, Run(lim, es[..|es| - 1]), es[|es| - 1])
  }

  // ----- counting -------------------------------------------------------------------------------------------

  /** Accepted overrides of a key in one hour window, in one turn, and in a span of time. */
  function InWindow(acc: seq<Accepted>, key: Key, window: nat): nat {
    if acc == [] then 0
    else InWindow(acc[..|acc| - 1], key, window) + if acc[|acc| - 1].key == key && acc[|acc| - 1].window == window then 1 else 0
  }

  function InTurn(acc: seq<Accepted>, key: Key, turn: nat): nat {
    if acc == [] then 0
    else InTurn(acc[..|acc| - 1], key, turn) + if acc[|acc| - 1].key == key && acc[|acc| - 1].turn == turn then 1 else 0
  }

  predicate InSpan(a: Accepted, key: Key, from: nat, to: nat) {
    a.key == key && from <= a.at <= to
  }

  function Within(acc: seq<Accepted>, key: Key, from: nat, to: nat): nat {
    if acc == [] then 0
    else Within(acc[..|acc| - 1], key, from, to) + if InSpan(acc[|acc| - 1], key, from, to) then 1 else 0
  }

  lemma InWindowSnoc(acc: seq<Accepted>, a: Accepted, key: Key, window: nat)
    ensures InWindow(acc + [a], key, window) == InWindow(acc, key, window) + if a.key == key && a.window == window then 1 else 0
  {
    assert (acc + [a])[..|acc|] == acc;
  }

  lemma InTurnSnoc(acc: seq<Accepted>, a: Accepted, key: Key, turn: nat)
    ensures InTurn(acc + [a], key, turn) == InTurn(acc, key, turn) + if a.key == key && a.turn == turn then 1 else 0
  {
    assert (acc + [a])[..|acc|] == acc;
  }

  lemma {:induction false} NoneInWindow(acc: seq<Accepted>, key: Key, window: nat)
    requires forall a :: a in acc ==> !(a.key == key && a.window == window)
    ensures InWindow(acc, key, window) == 0
  {
    if acc != [] {
      assert acc[|acc| - 1] in acc;
      NoneInWindow(acc[..|acc| - 1], key, window);
    }
  }

  lemma {:induction false} NoneInTurn(acc: seq<Accepted>, key: Key, turn: nat)
    requires forall a :: a in acc ==> !(a.key == key && a.turn == turn)
    ensures InTurn(acc, key, turn) == 0
  {
    if acc != [] {
      assert acc[|acc| - 1] in acc;
      NoneInTurn(acc[..|acc| - 1], key, turn);
    }
  }

  // ----- the invariant ------------------------------------------------------------------------------------------

  /** Each accepted override lies within an hour of its window's start, and windows of a key are over an hour apart. */
  ghost predicate Windowed(w: World) {
    && (forall k :: k in w.states ==> w.states[k].hourStart <= w.clock)
    && (forall a :: a in w.accepted ==> a.at <= w.clock && a.window <= a.at <= a.window + HOUR)
    && (forall a :: a in w.accepted ==> a.key in w.states && (a.window == w.states[a.key].hourStart || Follows(a, w.states[a.key].hourStart)))
    && (forall a, b :: a in w.accepted && b in w.accepted && a.key == b.key && a.window < b.window ==> Follows(a, b.window))
  }

  predicate Follows(a: Accepted, window: nat) {
    a.at <= window && a.window + HOUR < window
  }

  /** The counters count the accepted overrides of the current window and turn, and never exceed their limits. */
  ghost predicate Counted(lim: Limits, w: World) {
    && (forall k :: k in w.states ==> w.states[k].countThisHour == InWindow(w.accepted, k, w.states[k].hourStart))
    && (forall k :: k in w.states ==> w.states[k].countThisTurn == InTurn(w.accepted, k, TurnOf(w, k)))
    && (forall k, h :: InWindow(w.accepted, k, h) <= lim.perHour)
    && (forall k, t :: InTurn(w.accepted, k, t) <= lim.perTurn)
    && (forall a :: a in w.accepted ==> a.turn <= TurnOf(w, a.key))
  }

  ghost predicate Kept(lim: Limits, w: World) {
    Windowed(w) && Counted(lim, w)
  }

  /** Looking a state up, with its creation or rotation, keeps the invariant. */
  lemma LookupKeeps(lim: Limits, w: World, key: Key, now: nat)
    requires Kept(lim, w) && w.clock <= now
    ensures Kept(lim, w.(states := w.states[key := StateAt(w.states, key, now)], clock := now))
    ensures now - StateAt(w.states, key, now).hourStart <= HOUR && StateAt(w.states, key, now).hourStart <= now
  {
    hide InWindow, InTurn;
    if key !in w.states {
      NoneInTurn(w.accepted, key, TurnOf(w, key));
      NoneInWindow(w.accepted, key, now);
    } else if now - w.states[key].hourStart > HOUR {
      NoneInWindow(w.accepted, key, now);
    }
  }

  lemma RecordWindowed(w: World, key: Key, now: nat)
    requires Windowed(w) && key in w.states && w.clock <= now
    requires StateAt(w.states, key, now) == w.states[key]
    ensures Windowed(Recorded(w, key, now))
  {
    var a := Accepted(key, now, w.states[key].hourStart, TurnOf(w, key));
    var v := Recorded(w, key, now);
    forall x ensures x in v.accepted <==> x in w.accepted || x == a { assert v.accepted == w.accepted + [a]; }
  }

  lemma RecordCounted(lim: Limits, w: World, key: Key, now: nat)
    requires Counted(lim, w) && key in w.states && StateAt(w.states, key, now) == w.states[key]
    requires w.states[key].countThisTurn < lim.perTurn && w.states[key].countThisHour < lim.perHour
    ensures Counted(lim, Recorded(w, key, now))
  {
    hide InWindow, InTurn;
    var a := Accepted(key, now, w.states[key].hourStart, TurnOf(w, key));
    var v := Recorded(w, key, now);
    assert v.accepted == w.accepted + [a];
    forall k, h ensures InWindow(v.accepted, k, h) == InWindow(w.accepted, k, h) + if k == key && h == a.window then 1 else 0 {
      InWindowSnoc(w.accepted, a, k, h);
    }
    forall k, t ensures InTurn(v.accepted, k, t) == InTurn(w.accepted, k, t) + if k == key && t == a.turn then 1 else 0 {
      InTurnSnoc(w.accepted, a, k, t);
    }
  }

  lemma AttemptKeeps(lim: Limits, w: World, key: Key, wait: nat, lag: nat)
    requires Kept(lim, w)
    ensures Kept(lim, AttemptStep(lim, w, key, wait, lag))
  {
    hide Windowed, Counted;
    var now := w.clock + wait;
    var s := StateAt(w.states, key, now);
    var checked := w.(states := w.states[key := s], clock := now);
    LookupKeeps(lim, w, key, now);
    if Check(lim, s) == Allowed {
      var later := StateAt(checked.states, key, now + lag);
      var again := checked.(states := checked.states[key := later], clock := now + lag);
      LookupKeeps(lim, checked, key, now + lag);
      assert StateAt(again.states, key, now + lag) == later;
      assert Recorded(checked, key, now + lag) == Recorded(again, key, now + lag);
      RecordWindowed(again, key, now + lag);
      RecordCounted(lim, again, key, now + lag);
    }
  }

  lemma NewTurnKeeps(lim: Limits, w: World, key: Key, wait: nat)
    requires Kept(lim, w)
    ensures Kept(lim, NewTurnStep(w, key, wait))
  {
    hide InWindow, InTurn;
    var v := NewTurnStep(w, key, wait);
    NoneInTurn(w.accepted, key, TurnOf(w, key) + 1);
    if key !in w.states { NoneInWindow(w.accepted, key, v.clock); }
  }

  lemma {:induction false} RunKeeps(lim: Limits, es: seq<Event>)
    ensures Kept(lim, Run(lim, es))
  {
    if es == [] {
      assert Run(lim, es) == START;
    } else {
      hide Kept, AttemptStep, NewTurnStep;
      RunKeeps(lim, es[..|es| - 1]);
      var w := Run(lim, es[..|es| - 1]);
      match es[|es| - 1]
      case NewTurn(key, wait) => NewTurnKeeps(lim, w, key, wait);
      case Attempt(key, wait, lag) => AttemptKeeps(lim, w, key, wait, lag);
    }
  }

  // ----- any hour ---------------------------------------------------------------------------------------------------

  lemma {:induction false} SpanIsTwoWindows(acc: seq<Accepted>, key: Key, from: nat, to: nat, v: nat, u: nat)
    requires forall a :: a in acc && InSpan(a, key, from, to) ==> a.window == v || a.window == u
    ensures Within(acc, key, from, to) <= InWindow(acc, key, v) + InWindow(acc, key, u)
  {
    if acc != [] {
      assert acc[|acc| - 1] in acc;
      SpanIsTwoWindows(acc[..|acc| - 1], key, from, to, v, u);
    }
  }

  /** A span of one hour meets at most two windows: a third would start more than an hour after the second. */
  lemma {:induction false} TwoWindows(w: World, acc: seq<Accepted>, key: Key, from: nat, to: nat) returns (v: nat, u: nat)
    requires Windowed(w) && to - from <= HOUR && forall a :: a in acc ==> a in w.accepted
    ensures forall a :: a in acc && InSpan(a, key, from, to) ==> a.window == v || a.window == u
    ensures (v == u && forall a :: a in acc ==> !InSpan(a, key, from, to))
            || (exists a, b :: a in acc && b in acc && InSpan(a, key, from, to) && InSpan(b, key, from, to) && a.window == v && b.window == u && v <= u)
  {
    if acc == [] {
      v, u := 0, 0;
    } else {
      var last := acc[|acc| - 1];
      v, u := TwoWindows(w, acc[..|acc| - 1], key, from, to);
      assert acc == acc[..|acc| - 1] + [last];
      if InSpan(last, key, from, to) {
        if forall a :: a in acc[..|acc| - 1] ==> !InSpan(a, key, from, to) {
          v, u := last.window, last.window;
        } else {
          var a, b :| a in acc[..|acc| - 1] && b in acc[..|acc| - 1] && InSpan(a, key, from, to) && InSpan(b, key, from, to)
                      && a.window == v && b.window == u && v <= u;
          NoThird(w, key, from, to, a, b, last);
          if last.window < v { v := last.window; } else if last.window > u { u := last.window; }
        }
      }
    }
  }

  lemma NoThird(w: World, key: Key, from: nat, to: nat, a: Accepted, b: Accepted, c: Accepted)
    requires Windowed(w) && to - from <= HOUR && a in w.accepted && b in w.accepted && c in w.accepted
    requires InSpan(a, key, from, to) && InSpan(b, key, from, to) && InSpan(c, key, from, to)
    ensures a.window == b.window || b.window == c.window || a.window == c.window
  {
    Apart(w, a, b);
    Apart(w, a, c);
    Apart(w, b, a);
    Apart(w, b, c);
    Apart(w, c, a);
    Apart(w, c, b);
  }

  lemma Apart(w: World, x: Accepted, y: Accepted)
    requires Windowed(w) && x in w.accepted && y in w.accepted && x.key == y.key
    ensures x.window < y.window ==> x.at <= y.window && x.window + HOUR < y.window <= y.at
  {
  }

  /**
   * For every sequence of turns and attempts under a non-decreasing clock, any span of at most one hour holds at most
   * twice the hourly limit of accepted overrides per key, and every turn at most its limit.
   */
  lemma AnyHourHoldsTwiceTheLimit(lim: Limits, es: seq<Event>, key: Key, from: nat, to: nat, turn: nat)
    requires to - from <= HOUR
    ensures Within(Run(lim, es).accepted, key, from, to) <= 2 * lim.perHour
    ensures InTurn(Run(lim, es).accepted, key, turn) <= lim.perTurn
  {
    RunKeeps(lim, es);
    hide Run, InWindow, InTurn, Within;
    var w := Run(lim, es);
    var v, u := TwoWindows(w, w.accepted, key, from, to);
    SpanIsTwoWindows(w.accepted, key, from, to, v, u);
    assert InWindow(w.accepted, key, v) <= lim.perHour && InWindow(w.accepted, key, u) <= lim.perHour;
  }

  /** n times a new turn with one attempt, all at the present instant. */
  function Burst(key: Key, n: nat): seq<Event> {
    if n == 0 then [] else Burst(key, n - 1) + [NewTurn(key, 0), Attempt(key, 0, 0)]
  }

  /** A window is opened at time 0, a burst falls on its last instant, and another on the instant after. */
  function TwoBursts(key: Key, n: nat): seq<Event> {
    [NewTurn(key, 0), NewTurn(key, HOUR)] + Burst(key, n) + [NewTurn(key, 1)] + Burst(key, n)
  }

  lemma RunSnoc(lim: Limits, es: seq<Event>, e: Event)
    ensures Run(lim, es + [e]) == Step(lim, Run(lim, es), e)
  {
    assert (es + [e])[..|es|] == es;
  }

  function Headroom(lim: Limits, w: World, key: Key): int {
    lim.perHour - StateAt(w.states, key, w.clock).countThisHour
  }

  /** With room in the hour, a new turn and an attempt at the same instant accept one more. */
  lemma RoundAccepts(lim: Limits, w: World, key: Key, from: nat, to: nat)
    requires lim.perTurn >= 1 && Headroom(lim, w, key) > 0 && from <= w.clock <= to && key in w.states
    ensures var v := Step(lim, Step(lim, w, NewTurn(key, 0)), Attempt(key, 0, 0));
            && v.clock == w.clock && key in v.states && Headroom(lim, v, key) == Headroom(lim, w, key) - 1
            && Within(v.accepted, key, from, to) == Within(w.accepted, key, from, to) + 1
            && StateAt(v.states, key, v.clock).hourStart == StateAt(w.states, key, w.clock).hourStart
  {
    var v := Step(lim, Step(lim, w, NewTurn(key, 0)), Attempt(key, 0, 0));
    assert |v.accepted| == |w.accepted| + 1 && v.accepted[..|w.accepted|] == w.accepted;
  }

  lemma {:induction false} BurstAccepts(lim: Limits, es: seq<Event>, key: Key, n: nat, from: nat, to: nat)
    requires var w := Run(lim, es);
             lim.perTurn >= 1 && Headroom(lim, w, key) >= n && from <= w.clock <= to && key in w.states
    ensures var w, v := Run(lim, es), Run(lim, es + Burst(key, n));
            && v.clock == w.clock && key in v.states && Headroom(lim, v, key) == Headroom(lim, w, key) - n
            && Within(v.accepted, key, from, to) == Within(w.accepted, key, from, to) + n
            && StateAt(v.states, key, v.clock).hourStart == StateAt(w.states, key, w.clock).hourStart
  {
    hide Run, Step, StateAt, Within;
    if n == 0 {
      assert es + Burst(key, n) == es;
    } else {
      var front := es + Burst(key, n - 1);
      BurstAccepts(lim, es, key, n - 1, from, to);
      RunSnoc(lim, front, NewTurn(key, 0));
      RunSnoc(lim, front + [NewTurn(key, 0)], Attempt(key, 0, 0));
      assert es + Burst(key, n) == front + [NewTurn(key, 0)] + [Attempt(key, 0, 0)];
      RoundAccepts(lim, Run(lim, front), key, from, to);
    }
  }

  lemma WindowOpens(lim: Limits, key: Key)
    ensures var w := Run(lim, [NewTurn(key, 0), NewTurn(key, HOUR)]);
            w.clock == HOUR && w.accepted == [] && key in w.states && w.states[key] == RateState(0, 0, 0, HOUR)
  {
    RunSnoc(lim, [], NewTurn(key, 0));
    RunSnoc(lim, [] + [NewTurn(key, 0)], NewTurn(key, HOUR));
    assert [] + [NewTurn(key, 0)] + [NewTurn(key, HOUR)] == [NewTurn(key, 0), NewTurn(key, HOUR)];
  }

  lemma NextWindow(lim: Limits, w: World, key: Key)
    requires w.clock == HOUR && key in w.states && StateAt(w.states, key, HOUR).hourStart == 0
    ensures var v := Step(lim, w, NewTurn(key, 1));
            v.clock == HOUR + 1 && v.accepted == w.accepted && key in v.states && Headroom(lim, v, key) == lim.perHour
  {
  }

  /** The bound is reached under all limits that allow an override per turn, by two bursts a millisecond apart. */
  lemma TwiceIsReached(lim: Limits, key: Key)
    requires lim.perTurn >= 1
    ensures Within(Run(lim, TwoBursts(key, lim.perHour)).accepted, key, HOUR, HOUR + 1) == 2 * lim.perHour
  {
    hide Run, Step, Burst;
    var start, n := [NewTurn(key, 0), NewTurn(key, HOUR)], lim.perHour;
    WindowOpens(lim, key);
    BurstAccepts(lim, start, key, n, HOUR, HOUR + 1);
    var first := start + Burst(key, n);
    NextWindow(lim, Run(lim, first), key);
    RunSnoc(lim, first, NewTurn(key, 1));
    BurstAccepts(lim, first + [NewTurn(key, 1)], key, n, HOUR, HOUR + 1);
    assert TwoBursts(key, n) == first + [NewTurn(key, 1)] + Burst(key, n);
  }

  /** What the check reports, in terms of the overrides accepted in this turn and in this window. */
  lemma CheckCounts(lim: Limits, w: World, key: Key, now: nat)
    requires Kept(lim, w) && w.clock <= now
    ensures var s := StateAt(w.states, key, now);
            var turn, hour := InTurn(w.accepted, key, TurnOf(w, key)), InWindow(w.accepted, key, s.hourStart);
            && (Check(lim, s) == TurnLimit <==> turn == lim.perTurn)
            && (Check(lim, s) == HourLimit <==> turn < lim.perTurn && hour == lim.perHour)
            && (Check(lim, s) == Allowed <==> turn < lim.perTurn && hour < lim.perHour)
  {
    hide InWindow, InTurn, Windowed;
    LookupKeeps(lim, w, key, now);
    var s := StateAt(w.states, key, now);
    assert InTurn(w.accepted, key, TurnOf(w, key)) <= lim.perTurn && InWindow(w.accepted, key, s.hourStart) <= lim.perHour;
    assert key in w.states[key := s];
  }

  /** A limit of zero allows nothing at all. */
  lemma {:induction false} ZeroAllowsNothing(lim: Limits, es: seq<Event>)
    requires lim.perTurn == 0 || lim.perHour == 0
    ensures Run(lim, es).accepted == []
  {
    if es != [] { ZeroAllowsNothing(lim, es[..|es| - 1]); }
  }

  // ----- what each step does ------------------------------------------------------------------------------------------

  /** A key's counters start at zero when it is first seen, and the hourly one again when more than 3600000 ms have passed. */
  lemma StateMeans(states: map<Key, RateState>, key: Key, now: nat)
    ensures key !in states ==> StateAt(states, key, now) == RateState(0, 0, now, now)
    ensures key in states ==>
              var s, t := states[key], StateAt(states, key, now);
              && t.countThisTurn == s.countThisTurn && t.turnStart == s.turnStart
              && if now > s.hourStart + 3600000 then t.countThisHour == 0 && t.hourStart == now
                 else t.countThisHour == s.countThisHour && t.hourStart == s.hourStart
  {
  }

  /** The same bound, in milliseconds. */
  lemma AnySixtyMinutes(lim: Limits, es: seq<Event>, key: Key, from: nat, to: nat)
    requires to <= from + 3600000
    ensures Within(Run(lim, es).accepted, key, from, to) <= 2 * lim.perHour
  {
    AnyHourHoldsTwiceTheLimit(lim, es, key, from, to, 0);
  }

  /**
   * In every run an attempt is accepted exactly when fewer than the limits were accepted in this turn and in this
   * window, under this turn, and at the time it is recorded; other keys and all turns stay as they are.
   */
  lemma AttemptMeans(lim: Limits, es: seq<Event>, key: Key, wait: nat, lag: nat)
    ensures var w, v := Run(lim, es), Run(lim, es + [Attempt(key, wait, lag)]);
            var window := StateAt(w.states, key, w.clock + wait).hourStart;
            var turn := if key in w.turns then w.turns[key] else 0;
            && v.turns == w.turns && key in v.states
            && (forall k :: k != key ==> (k in v.states <==> k in w.states) && (k in w.states ==> v.states[k] == w.states[k]))
            && if InTurn(w.accepted, key, turn) < lim.perTurn && InWindow(w.accepted, key, window) < lim.perHour
               then v.clock == w.clock + wait + lag
                    && v.accepted == w.accepted + [Accepted(key, w.clock + wait + lag, v.states[key].hourStart, turn)]
               else v.clock == w.clock + wait && v.accepted == w.accepted
  {
    hide InTurn, InWindow, StateAt, Kept, Run;
    RunSnoc(lim, es, Attempt(key, wait, lag));
    RunKeeps(lim, es);
    CheckCounts(lim, Run(lim, es), key, Run(lim, es).clock + wait);
  }

  /** A new turn clears the turn counter of its key and only that; an unknown key starts with counters at zero. */
  lemma NewTurnMeans(lim: Limits, es: seq<Event>, key: Key, wait: nat)
    ensures var w, v := Run(lim, es), Run(lim, es + [NewTurn(key, wait)]);
            && v.accepted == w.accepted && v.clock == w.clock + wait && key in v.states
            && v.turns == w.turns[key := (if key in w.turns then w.turns[key] else 0) + 1]
            && (forall k :: k != key ==> (k in v.states <==> k in w.states) && (k in w.states ==> v.states[k] == w.states[k]))
            && v.states[key].countThisTurn == 0 && v.states[key].turnStart == v.clock
            && (key in w.states ==> v.states[key].countThisHour == w.states[key].countThisHour
                                    && v.states[key].hourStart == w.states[key].hourStart)
            && (key !in w.states ==> v.states[key].countThisHour == 0 && v.states[key].hourStart == v.clock)
  {
    hide Run;
    RunSnoc(lim, es, NewTurn(key, wait));
  }
}
