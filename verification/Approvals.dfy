/**
 * Approval requests: the durable record of a waiting turn, the in-memory gate it is parked on, the single funnel all
 * decisions go through, and the sweep at boot, as one state machine over every interleaving of their steps.
 */
module Approvals {
  import opened Basics

  type Run = string

  datatype Scope = Once | Session | Forever | Deny

  datatype Decision = Decision(approve: bool, scope: Option<Scope>)

  datatype Status = Pending | Approved | Denied | Expired

  /** pending-approval.json; call is the synthetic tool call id, fresh for every request. */
  datatype Record = Record(call: nat, status: Status)

  /** How the promise a turn is parked on settles. */
  datatype Outcome = Decided(decision: Decision) | Failed(timedOut: bool)

  /** A parked turn; durable says whether its record was written. A settled turn has yet to run on. */
  datatype Turn = Waiting(call: nat, durable: bool) | Settled(call: nat, durable: bool, outcome: Outcome)

  datatype Effect =
    | Opened(run: Run, call: nat)
    | Wrote(run: Run, call: nat, status: Status)
    | Audited(run: Run, call: nat, approve: bool)
    | PolicySaved(run: Run, call: nat, scope: Scope)
    | Told(run: Run, call: nat, status: Status)
    | Cleared(run: Run, call: nat, was: Status)
    | TurnAudited(run: Run, call: nat, outcome: Outcome)
    | Released(run: Run, call: nat, durable: bool, outcome: Outcome)

  datatype World = World(records: map<Run, Record>, gates: map<Run, nat>, turns: map<Run, Turn>, next: nat, log: seq<Effect>)

  datatype Event =
    | Ask(run: Run, durable: bool)
    | WsDecision(run: Run, decision: Decision)
    | RestDecision(run: Run, decision: Decision)
    | ShimRestart(run: Run)
    | GateTimeout(run: Run)
    | Evict(run: Run)
    | Resume(run: Run)
    | Crash
    | BootSweep(runs: seq<Run>)

  const START: World := World(map[], map[], map[], 0, [])

  // ----- the gate -------------------------------------------------------------------------------------

  function StatusOf(d: Decision): Status {
    if d.approve then Approved else Denied
  }

  /** resolveApprovalGate and rejectApprovalGate: the gate is consumed, so only the first call settles the turn. */
  function SettleGate(w: World, run: Run, outcome: Outcome): World {
    if run !in w.gates then w
    else
      w.(gates := w.gates - {run},
         turns := if run in w.turns && w.turns[run].Waiting?
                  then w.turns[run := Settled(w.turns[run].call, w.turns[run].durable, outcome)] else w.turns)
  }

  // ----- the funnel -------------------------------------------------------------------------------------

  function ScopeOf(d: Decision): Scope {
    if d.scope.Some? then d.scope.value else if d.approve then Once else Deny
  }

  predicate SavesPolicy(d: Decision) {
    d.approve && (ScopeOf(d) == Session || ScopeOf(d) == Forever)
  }

  function Recorded(run: Run, call: nat, d: Decision): seq<Effect> {
    [Wrote(run, call, StatusOf(d)), Audited(run, call, d.approve)]
    + (if SavesPolicy(d) then [PolicySaved(run, call, ScopeOf(d))] else [])
  }

  predicate IsPending(w: World, run: Run) {
    run in w.records && w.records[run].status == Pending
  }

  /** resolveApproval: record, audit, policy, gate, broadcast, in that order, and only from a pending record. */
  function Funnel(w: World, run: Run, d: Decision): World {
    if !IsPending(w, run) then w
    else
      var call := w.records[run].call;
      var recorded := w.(records := w.records[run := Record(call, StatusOf(d))], log := w.log + Recorded(run, call, d));
      var settled := SettleGate(recorded, run, Decided(d));
      settled.(log := settled.log + [Told(run, call, StatusOf(d))])
  }

  const RESTART_APPROVAL: Decision := Decision(true, Some(Once))

  // ----- the turn -----------------------------------------------------------------------------------------

  /** The record is written before the turn parks. A run has one turn, and a turn asks for one tool at a time. */
  function AskStep(w: World, run: Run, durable: bool): World {
    if run in w.turns then w
    else
      World(if durable then w.records[run := Record(w.next, Pending)] else w.records,
            w.gates[run := w.next], w.turns[run := Waiting(w.next, durable)], w.next + 1, w.log + [Opened(run, w.next)])
  }

  /** The parked code runs on: it audits a failure, or a decision that came without a record, and clears the record. */
  function ResumeStep(w: World, run: Run): World {
    if run !in w.turns || w.turns[run].Waiting? then w
    else
      var t := w.turns[run];
      var audit := if t.outcome.Failed? || !t.durable then [TurnAudited(run, t.call, t.outcome)] else [];
      var cleared := if t.durable && run in w.records then [Cleared(run, w.records[run].call, w.records[run].status)] else [];
      w.(records := if t.durable then w.records - {run} else w.records, turns := w.turns - {run},
         log := w.log + audit + cleared + [Released(run, t.call, t.durable, t.outcome)])
  }

  // ----- boot -----------------------------------------------------------------------------------------------

  function SweepRun(w: World, run: Run): World {
    if !IsPending(w, run) then w
    else
      var call := w.records[run].call;
      var expired := w.(records := w.records[run := Record(call, Expired)], log := w.log + [Wrote(run, call, Expired)]);
      var settled := SettleGate(expired, run, Failed(false));
      settled.(log := settled.log + [Told(run, call, Expired)])
  }

  function Sweep(w: World, runs: seq<Run>): World {
    if runs == [] then w else SweepRun(Sweep(w, runs[..|runs| - 1]), runs[|runs| - 1])
  }

  // ----- runs of the machine ----------------------------------------------------------------------------------

  function Step(w: World, e: Event): World {
    match e
    case Ask(run, durable) => AskStep(w, run, durable)
    case WsDecision(run, d) => if run in w.records then Funnel(w, run, d) else SettleGate(w, run, Decided(d))
    case RestDecision(run, d) => Funnel(w, run, d)
    case ShimRestart(run) => Funnel(SettleGate(w, run, Decided(RESTART_APPROVAL)), run, RESTART_APPROVAL)
    case GateTimeout(run) => SettleGate(w, run, Failed(true))
    case Evict(run) => SettleGate(w, run, Failed(false))
    case Resume(run) => ResumeStep(w, run)
    case Crash => w.(gates := map[], turns := map[])
    case BootSweep(runs) => Sweep(w, runs)
  }

  function After(es: seq<Event>): World {
    if es == [] then START else Step(After(es[..|es| - 1]), es[|es| - 1])
  }

  // ----- what happens at most once ------------------------------------------------------------------------------

  /** Things that may happen once per request. */
  datatype Key = Opening | Leaving | Auditing | Saving | Telling | TurnAuditing | Releasing

  /** A record leaves "pending" when another status is written, or when it is removed while pending. */
  function KeyOf(e: Effect): Option<Key> {
    match e
    case Opened(_, _) => Some(Opening)
    case Wrote(_, _, s) => if s == Pending then None else Some(Leaving)
    case Audited(_, _, _) => Some(Auditing)
    case PolicySaved(_, _, _) => Some(Saving)
    case Told(_, _, _) => Some(Telling)
    case Cleared(_, _, was) => if was == Pending then Some(Leaving) else None
    case TurnAudited(_, _, _) => Some(TurnAuditing)
    case Released(_, _, _, _) => Some(Releasing)
  }

  predicate Same(e: Effect, f: Effect) {
    e.call == f.call && KeyOf(e).Some? && KeyOf(e) == KeyOf(f)
  }

  predicate AtMostOnce(log: seq<Effect>) {
    forall i, j :: 0 <= i < j < |log| ==> !Same(log[i], log[j])
  }

  predicate Apart(log: seq<Effect>, e: Effect) {
    forall f <- log :: !Same(f, e)
  }

  lemma OnceMore(log: seq<Effect>, e: Effect)
    requires AtMostOnce(log) && Apart(log, e)
    ensures AtMostOnce(log + [e])
  {
    forall i, j | 0 <= i < j < |log + [e]| ensures !Same((log + [e])[i], (log + [e])[j]) {
      if j == |log| { assert log[i] in log; }
    }
  }

  // ----- the invariant -----------------------------------------------------------------------------------------------

  /** Request ids are fresh, and no two runs share one. */
  ghost predicate Numbered(w: World) {
    && (forall r :: r in w.records ==> w.records[r].call < w.next)
    && (forall r :: r in w.turns ==> w.turns[r].call < w.next)
    && (forall e :: e in w.log ==> e.call < w.next)
    && (forall r, s :: r in w.records && s in w.records && w.records[r].call == w.records[s].call ==> r == s)
    && (forall r, s :: r in w.turns && s in w.turns && w.turns[r].call == w.turns[s].call ==> r == s)
  }

  /** A gate is open exactly for the runs whose turn is still waiting. */
  ghost predicate Gated(w: World) {
    && (forall r :: r in w.gates <==> r in w.turns && w.turns[r].Waiting?)
    && (forall r :: r in w.gates ==> w.gates[r] == w.turns[r].call)
  }

  predicate OfTheRecord(e: Effect) {
    e.Wrote? || e.Audited? || e.PolicySaved? || e.Told? || e.Cleared?
  }

  predicate OfTheTurn(e: Effect) {
    e.TurnAudited? || e.Released?
  }

  /** Nothing has happened yet to a pending record, or to a parked turn. */
  ghost predicate Untouched(w: World) {
    && (forall r, e :: r in w.records && w.records[r].status == Pending && e in w.log && e.call == w.records[r].call ==> !OfTheRecord(e))
    && (forall r, e :: r in w.turns && e in w.log && e.call == w.turns[r].call ==> !OfTheTurn(e))
  }

  /** The record of a durable turn is its own: pending while it waits, and decided as it was decided. */
  ghost predicate Backed(w: World) {
    forall r :: r in w.turns && w.turns[r].durable ==>
      && r in w.records && w.records[r].call == w.turns[r].call
      && (w.turns[r].Waiting? ==> w.records[r].status == Pending)
      && (w.turns[r].Settled? && w.turns[r].outcome.Decided? ==>
            Wrote(r, w.turns[r].call, StatusOf(w.turns[r].outcome.decision)) in w.log)
  }

  /** Releases agree with what was written, and decisions written with what was audited. */
  ghost predicate Agreed(log: seq<Effect>) {
    && (forall e :: e in log && e.Released? && e.durable && e.outcome.Decided? ==>
          Wrote(e.run, e.call, StatusOf(e.outcome.decision)) in log)
    && (forall r, c, a :: Audited(r, c, a) in log <==> Wrote(r, c, if a then Approved else Denied) in log)
  }

  ghost predicate Kept(w: World) {
    Numbered(w) && Gated(w) && Untouched(w) && Backed(w) && Agreed(w.log) && AtMostOnce(w.log)
  }
}
