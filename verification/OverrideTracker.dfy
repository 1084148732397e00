/**
 * The limiter's code in place: its state map, the check and record calls, the reset at the start of a turn, and the
 * bounded audit log.
 */
module OverrideTracker {
  import opened Basics
  import opened OverrideLimiter

  const AUDIT_MAX: nat := 1000

  datatype AuditEntry = AuditEntry(key: Key, tool: string, rule: string, justification: string)

  class Tracker {
    const limits: Limits
    var states: map<Key, RateState>
    var turns: map<Key, nat>
    var accepted: seq<Accepted>
    var clock: nat
    var auditLog: seq<AuditEntry>
    ghost var trace: seq<Event>
    ghost var audited: seq<AuditEntry>

    function View(): World
      reads this
    {
      World(states, turns, accepted, clock)
    }

    /** The state is that of the events so far, and the audit log is the newest part of all entries. */
    ghost predicate Valid()
      reads this
    {
      View() == Run(limits, trace) && auditLog == Newest(audited, AUDIT_MAX)
    }

    constructor (limits: Limits)
      ensures Valid() && trace == [] && audited == [] && this.limits == limits
    {
      this.limits := limits;
      states, turns, accepted, clock, auditLog, trace, audited := map[], map[], [], 0, [], [], [];
    }

    ghost method Extend(w: World, e: Event)
      requires w == Run(limits, trace) && View() == Step(limits, w, e)
      modifies `trace
      ensures trace == old(trace) + [e] && View() == Run(limits, trace)
    {
      assert (trace + [e])[..|trace|] == trace;
      trace := trace + [e];
    }

    /** getOverrideRateState */
    method GetState(key: Key) returns (s: RateState)
      modifies `states
      ensures s == StateAt(old(states), key, clock) && states == old(states)[key := s]
    {
      if key !in states { states := states[key := RateState(0, 0, clock, clock)]; }
      s := states[key];
      if clock - s.hourStart > HOUR {
        s := s.(countThisHour := 0, hourStart := clock);
      }
      states := states[key := s];
    }

    method CheckRateLimit(key: Key) returns (verdict: Verdict)
      modifies `states
      ensures states == old(states)[key := StateAt(old(states), key, clock)]
      ensures verdict == Check(limits, StateAt(old(states), key, clock))
      ensures Kept(limits, old(View())) ==>
                (verdict == Allowed <==> && InTurn(accepted, key, TurnOf(View(), key)) < limits.perTurn
                                         && InWindow(accepted, key, states[key].hourStart) < limits.perHour)
    {
      if Kept(limits, View()) { CheckCounts(limits, View(), key, clock); }
      var s := GetState(key);
      if s.countThisTurn >= limits.perTurn { return TurnLimit; }
      if s.countThisHour >= limits.perHour { return HourLimit; }
      return Allowed;
    }

    method RecordOverride(key: Key)
      modifies `states, `accepted
      ensures View() == Recorded(old(View()), key, clock)
      ensures |accepted| == |old(accepted)| + 1
    {
      var s := GetState(key);
      states := states[key := s.(countThisTurn := s.countThisTurn + 1, countThisHour := s.countThisHour + 1)];
      accepted := accepted + [Accepted(key, clock, s.hourStart, if key in turns then turns[key] else 0)];
    }

    method AppendAudit(entry: AuditEntry)
      requires auditLog == Newest(audited, AUDIT_MAX)
      modifies `auditLog, `audited
      ensures audited == old(audited) + [entry] && auditLog == Newest(audited, 1000)
    {
      auditLog, audited := auditLog + [entry], audited + [entry];
      if |auditLog| > AUDIT_MAX {
        auditLog := auditLog[|auditLog| - AUDIT_MAX..];
      }
    }

    /** The adapter's use: check, and when nothing is hit, record and audit. */
    method TryOverride(entry: AuditEntry, wait: nat, lag: nat) returns (allowed: bool)
      requires Valid()
      modifies this
      ensures Valid() && trace == old(trace) + [Attempt(entry.key, wait, lag)]
      ensures var hour := StateAt(old(states), entry.key, old(clock) + wait).hourStart;
              allowed <==> && InTurn(old(accepted), entry.key, TurnOf(old(View()), entry.key)) < limits.perTurn
                           && InWindow(old(accepted), entry.key, hour) < limits.perHour
      ensures |accepted| == |old(accepted)| + if allowed then 1 else 0
      ensures audited == if allowed then old(audited) + [entry] else old(audited)
    {
      hide Run, Recorded, StateAt, Check, Kept, InTurn, InWindow, Newest;
      ghost var w := View();
      RunKeeps(limits, trace);
      CheckCounts(limits, w, entry.key, clock + wait);
      clock := clock + wait;
      var verdict := CheckRateLimit(entry.key);
      allowed := verdict == Allowed;
      if allowed {
        clock := clock + lag;
        ClockIsFree(w.(states := states, clock := w.clock + wait), entry.key, clock);
        RecordOverride(entry.key);
        AppendAudit(entry);
      }
      Extend(w, Attempt(entry.key, wait, lag));
    }

    /** resetOverrideTurnCounter */
    method ResetTurnCounter(key: Key, wait: nat)
      requires Valid()
      modifies this
      ensures Valid() && trace == old(trace) + [NewTurn(key, wait)] && audited == old(audited)
    {
      hide Run, Newest;
      ghost var w := View();
      clock := clock + wait;
      if key !in states { states := states[key := RateState(0, 0, clock, clock)]; }
      states := states[key := states[key].(countThisTurn := 0, turnStart := clock)];
      turns := turns[key := (if key in turns then turns[key] else 0) + 1];
      Extend(w, NewTurn(key, wait));
    }
  }

  lemma ClockIsFree(w: World, key: Key, now: nat)
    ensures Recorded(w, key, now) == Recorded(w.(clock := now), key, now)
  {
  }
}
