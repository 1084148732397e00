/**
 * The approval code in place: the gate map, the record files, the funnel, the parked turns and the boot sweep with its
 * loop, each method proved to take the step of the state machine.
 */
module ApprovalDesk {
  import opened Basics
  import opened Approvals
  import ApprovalSafety

  /** What resolveApproval reports. */
  datatype ResolveResult = ResolveResult(status: Status, alreadyResolved: bool, found: bool)

  function ResultOf(w: World, run: Run, d: Decision): ResolveResult {
    if run !in w.records then ResolveResult(Expired, false, false)
    else if w.records[run].status != Pending then ResolveResult(w.records[run].status, true, true)
    else ResolveResult(StatusOf(d), false, true)
  }

  function PendingAmong(w: World, runs: seq<Run>): nat {
    if runs == [] then 0
    else PendingAmong(w, runs[..|runs| - 1]) + if IsPending(Sweep(w, runs[..|runs| - 1]), runs[|runs| - 1]) then 1 else 0
  }

  class Desk {
    var records: map<Run, Record>
    var gates: map<Run, nat>
    var turns: map<Run, Turn>
    var next: nat
    var log: seq<Effect>
    ghost var trace: seq<Event>

    function View(): World
      reads this
    {
      World(records, gates, turns, next, log)
    }

    ghost predicate Valid()
      reads this
    {
      View() == After(trace)
    }

    constructor ()
      ensures Valid() && trace == []
    {
      records, gates, turns, next, log, trace := map[], map[], map[], 0, [], [];
    }

    ghost method Extend(w: World, e: Event)
      requires w == After(trace) && View() == Step(w, e)
      modifies `trace
      ensures trace == old(trace) + [e] && Valid()
    {
      assert (trace + [e])[..|trace|] == trace;
      trace := trace + [e];
    }

    // ----- the gate -----------------------------------------------------------------------------------

    /** resolveApprovalGate, and with a failure rejectApprovalGate: true if a gate was there to consume. */
    method ConsumeGate(run: Run, outcome: Outcome) returns (consumed: bool)
      modifies `gates, `turns
      ensures View() == SettleGate(old(View()), run, outcome) && consumed == (run in old(gates))
    {
      if run !in gates { return false; }
      gates := gates - {run};
      if run in turns && turns[run].Waiting? {
        turns := turns[run := Settled(turns[run].call, turns[run].durable, outcome)];
      }
      return true;
    }

    // ----- the funnel ------------------------------------------------------------------------------------

    method ResolveApproval(run: Run, d: Decision) returns (result: ResolveResult)
      modifies `records, `gates, `turns, `log
      ensures View() == Funnel(old(View()), run, d) && result == ResultOf(old(View()), run, d)
      ensures result.found == (run in old(records)) && result.alreadyResolved == (result.found && old(records)[run].status != Pending)
      ensures result.status == if !result.found then Expired
                               else if result.alreadyResolved then old(records)[run].status
                               else if d.approve then Approved else Denied
      ensures result.found && !result.alreadyResolved ==>
                var call := old(records)[run].call;
                log == old(log) + [Wrote(run, call, result.status), Audited(run, call, d.approve)]
                       + (if d.approve && (d.scope == Some(Session) || d.scope == Some(Forever)) then [PolicySaved(run, call, d.scope.value)] else [])
                       + [Told(run, call, result.status)]
    {
      hide SettleGate;
      if run !in records { return ResolveResult(Expired, false, false); }
      var existing := records[run];
      if existing.status != Pending { return ResolveResult(existing.status, true, true); }
      var status := if d.approve then Approved else Denied;
      var scope := if d.scope.Some? then d.scope.value else if d.approve then Once else Deny;
      records := records[run := Record(existing.call, status)];
      log := log + [Wrote(run, existing.call, status), Audited(run, existing.call, d.approve)];
      if d.approve && (scope == Session || scope == Forever) {
        log := log + [PolicySaved(run, existing.call, scope)];
      }
      assert log == old(log) + Recorded(run, existing.call, d);
      var _ := ConsumeGate(run, Decided(d));
      log := log + [Told(run, existing.call, status)];
      result := ResolveResult(status, false, true);
    }

    /** A decision over the socket: through the funnel when a record exists, else straight to the gate. */
    method HandleUserAction(run: Run, d: Decision) returns (matched: bool)
      requires Valid()
      modifies this
      ensures Valid() && trace == old(trace) + [WsDecision(run, d)]
      ensures matched == (run in old(records) || run in old(gates))
    {
      hide After, Funnel, SettleGate;
      ghost var w := View();
      if run in records {
        var result := ResolveApproval(run, d);
        matched := result.found;
      } else {
        matched := ConsumeGate(run, Decided(d));
      }
      Extend(w, WsDecision(run, d));
    }

    method HandleRestDecision(run: Run, d: Decision) returns (result: ResolveResult)
      requires Valid()
      modifies this
      ensures Valid() && trace == old(trace) + [RestDecision(run, d)] && result == ResultOf(old(View()), run, d)
    {
      hide After, Funnel;
      ghost var w := View();
      result := ResolveApproval(run, d);
      Extend(w, RestDecision(run, d));
    }

    method ResolveShimRestart(run: Run)
      requires Valid()
      modifies this
      ensures Valid() && trace == old(trace) + [ShimRestart(run)]
    {
      hide After, SettleGate;
      ghost var w := View();
      var _ := ConsumeGate(run, Decided(RESTART_APPROVAL));
      if run in records && records[run].status == Pending {
        var _ := ResolveApproval(run, RESTART_APPROVAL);
      }
      Extend(w, ShimRestart(run));
    }

    // ----- the turn ------------------------------------------------------------------------------------------

    method AskAndPark(run: Run, durable: bool)
      requires Valid() && run !in turns
      modifies this
      ensures Valid() && trace == old(trace) + [Ask(run, durable)]
    {
      hide After;
      ghost var w := View();
      if durable { records := records[run := Record(next, Pending)]; }
      log := log + [Opened(run, next)];
      gates, turns := gates[run := next], turns[run := Waiting(next, durable)];
      next := next + 1;
      Extend(w, Ask(run, durable));
    }

    method FailGate(run: Run, timedOut: bool)
      requires Valid()
      modifies this
      ensures Valid() && trace == old(trace) + [if timedOut then GateTimeout(run) else Evict(run)]
    {
      hide After, SettleGate;
      ghost var w := View();
      var _ := ConsumeGate(run, Failed(timedOut));
      Extend(w, if timedOut then GateTimeout(run) else Evict(run));
    }

    /** The code after the await: it answers whether the tool may run. */
    method RunOn(run: Run) returns (allow: bool)
      requires Valid() && run in turns && turns[run].Settled?
      modifies this
      ensures Valid() && trace == old(trace) + [Resume(run)]
      ensures allow <==> old(turns)[run].outcome.Decided? && old(turns)[run].outcome.decision.approve
    {
      hide After;
      ghost var w := View();
      var t := turns[run];
      if t.outcome.Failed? || !t.durable { log := log + [TurnAudited(run, t.call, t.outcome)]; }
      if t.durable {
        if run in records { log := log + [Cleared(run, records[run].call, records[run].status)]; }
        records := records - {run};
      }
      log := log + [Released(run, t.call, t.durable, t.outcome)];
      turns := turns - {run};
      allow := t.outcome.Decided? && t.outcome.decision.approve;
      Extend(w, Resume(run));
    }

    // ----- boot ----------------------------------------------------------------------------------------------

    method ExpireOne(run: Run) returns (expired: bool)
      modifies `records, `gates, `turns, `log
      ensures View() == SweepRun(old(View()), run) && expired == IsPending(old(View()), run)
    {
      hide SettleGate;
      if run !in records || records[run].status != Pending { return false; }
      var call := records[run].call;
      records := records[run := Record(call, Expired)];
      log := log + [Wrote(run, call, Expired)];
      var _ := ConsumeGate(run, Failed(false));
      log := log + [Told(run, call, Expired)];
      return true;
    }

    method SweepOnBoot(runs: seq<Run>) returns (expired: nat)
      requires Valid()
      modifies this
      ensures Valid() && trace == old(trace) + [BootSweep(runs)]
      ensures expired == PendingAmong(old(View()), runs)
    {
      hide After, SweepRun;
      ghost var w := View();
      expired := 0;
      for i := 0 to |runs|
        invariant View() == Sweep(w, runs[..i]) && trace == old(trace)
        invariant expired == PendingAmong(w, runs[..i])
      {
        assert runs[..i + 1][..i] == runs[..i];
        var swept := ExpireOne(runs[i]);
        if swept { expired := expired + 1; }
      }
      assert runs[..|runs|] == runs;
      Extend(w, BootSweep(runs));
    }
  }

  /** Each pending run is expired once, however often the listing repeats it: the count is that of distinct pending runs. */
  lemma {:induction false} SweepCountsEachOnce(w: World, runs: seq<Run>)
    ensures PendingAmong(w, runs) == |PendingSet(w, runs)|
  {
    if runs != [] {
      var front, last := runs[..|runs| - 1], runs[|runs| - 1];
      SweepCountsEachOnce(w, front);
      ApprovalSafety.SweptStaysSwept(w, front, last);
      assert runs == front + [last];
      if IsPending(w, last) && last !in front {
        assert PendingSet(w, runs) == PendingSet(w, front) + {last};
      } else {
        assert PendingSet(w, runs) == PendingSet(w, front);
      }
    }
  }

  function PendingSet(w: World, runs: seq<Run>): set<Run> {
    set r | r in runs && IsPending(w, r)
  }
}
