/**
 * What decisions, timeouts and restarts do, in terms of decisions and effects alone: which verdict is written, when a
 * reusable policy is saved, and how the parked turn goes on.
 */
module ApprovalMeaning {
  import opened Basics
  import opened Approvals
  import opened ApprovalSafety

  // ----- one decision ---------------------------------------------------------------------------------------

  /** The decision is an approval for the session or for ever. */
  predicate ForLonger(d: Decision) {
    d.approve && (d.scope == Some(Session) || d.scope == Some(Forever))
  }

  function Verdict(d: Decision): Status {
    if d.approve then Approved else Denied
  }

  /** A turn that waits is settled with this outcome; any other stays as it is. */
  ghost predicate SettledWith(w: World, v: World, run: Run, outcome: Outcome) {
    && v.gates == w.gates - {run}
    && forall r :: (r in v.turns <==> r in w.turns)
                   && (r in w.turns ==> v.turns[r] == if r == run && run in w.gates && w.turns[r].Waiting?
                                                      then Settled(w.turns[r].call, w.turns[r].durable, outcome) else w.turns[r])
  }

  lemma SettleMeans(w: World, run: Run, outcome: Outcome)
    ensures var v := SettleGate(w, run, outcome);
            SettledWith(w, v, run, outcome) && v.records == w.records && v.log == w.log && v.next == w.next
  {
  }

  /** A decision on a pending record: the verdict, the audit, a policy if it is for longer, the turn, and the news of it. */
  lemma DecisionMeans(w: World, run: Run, d: Decision)
    requires run in w.records && w.records[run].status == Pending
    ensures var v, call := Step(w, RestDecision(run, d)), w.records[run].call;
            && v.records == w.records[run := Record(call, Verdict(d))] && v.next == w.next && SettledWith(w, v, run, Decided(d))
            && v.log == w.log + [Wrote(run, call, Verdict(d)), Audited(run, call, d.approve)]
                        + (if ForLonger(d) then [PolicySaved(run, call, d.scope.value)] else [])
                        + [Told(run, call, Verdict(d))]
  {
    hide SettleGate, SettledWith;
    var call := w.records[run].call;
    var recorded := w.(records := w.records[run := Record(call, Verdict(d))], log := w.log + Recorded(run, call, d));
    SettleMeans(recorded, run, Decided(d));
    SettledAlike(w, recorded, SettleGate(recorded, run, Decided(d)), Step(w, RestDecision(run, d)), run, Decided(d));
    assert w.log + Recorded(run, call, d) == w.log + [Wrote(run, call, Verdict(d)), Audited(run, call, d.approve)]
                                             + (if ForLonger(d) then [PolicySaved(run, call, d.scope.value)] else []);
  }

  lemma SettledAlike(w: World, w': World, v: World, v': World, run: Run, outcome: Outcome)
    requires w.gates == w'.gates && w.turns == w'.turns && v.gates == v'.gates && v.turns == v'.turns
    requires SettledWith(w', v, run, outcome)
    ensures SettledWith(w, v', run, outcome)
  {
  }

  /** A policy with a scope is saved by a decision exactly when it approves with just that scope, session or for ever. */
  lemma PolicyExactly(w: World, run: Run, d: Decision, s: Scope)
    requires Kept(w) && run in w.records && w.records[run].status == Pending
    ensures PolicySaved(run, w.records[run].call, s) in Step(w, RestDecision(run, d)).log <==>
            d.approve && d.scope == Some(s) && (s == Session || s == Forever)
  {
    hide Step, SettledWith, Gated, Numbered, Backed, Agreed, AtMostOnce;
    DecisionMeans(w, run, d);
    var policy := PolicySaved(run, w.records[run].call, s);
    assert policy !in w.log;
  }

  /** A decision where nothing is pending changes nothing, over REST and, when there is a record, over the socket. */
  lemma LateDecisionIsIgnored(w: World, run: Run, d: Decision)
    requires run !in w.records || w.records[run].status != Pending
    ensures Step(w, RestDecision(run, d)) == w
    ensures run in w.records ==> Step(w, WsDecision(run, d)) == w
  {
  }

  /** Over the socket a record is decided as over REST; without one only the gate is settled. */
  lemma SocketMeans(w: World, run: Run, d: Decision)
    ensures run in w.records ==> Step(w, WsDecision(run, d)) == Step(w, RestDecision(run, d))
    ensures run !in w.records ==>
              var v := Step(w, WsDecision(run, d));
              SettledWith(w, v, run, Decided(d)) && v.records == w.records && v.log == w.log && v.next == w.next
  {
    hide SettleGate, SettledWith;
    SettleMeans(w, run, Decided(d));
  }

  /** A timeout or an eviction settles the gate with a failure and writes nothing. */
  lemma FailureMeans(w: World, run: Run)
    ensures var v := Step(w, GateTimeout(run));
            SettledWith(w, v, run, Failed(true)) && v.records == w.records && v.log == w.log && v.next == w.next
    ensures var v := Step(w, Evict(run));
            SettledWith(w, v, run, Failed(false)) && v.records == w.records && v.log == w.log && v.next == w.next
  {
    hide SettleGate, SettledWith;
    SettleMeans(w, run, Failed(true));
    SettleMeans(w, run, Failed(false));
  }

  /** A shim restart approves once: the turn goes on, a pending record is approved, and no policy is saved. */
  lemma ShimRestartMeans(w: World, run: Run)
    ensures var v, once := Step(w, ShimRestart(run)), Decision(true, Some(Once));
            && SettledWith(w, v, run, Decided(once)) && v.next == w.next
            && if run in w.records && w.records[run].status == Pending
               then var call := w.records[run].call;
                    && v.records == w.records[run := Record(call, Approved)]
                    && v.log == w.log + [Wrote(run, call, Approved), Audited(run, call, true), Told(run, call, Approved)]
               else v.records == w.records && v.log == w.log
  {
    hide Step, SettledWith;
    var once := Decision(true, Some(Once));
    var settled := SettleGate(w, run, Decided(once));
    SettleMeans(w, run, Decided(once));
    RestartIsDecision(w, run);
    if run in w.records && w.records[run].status == Pending {
      DecisionMeans(settled, run, once);
      SettledTwice(w, settled, Step(settled, RestDecision(run, once)), run, Decided(once));
      assert [Wrote(run, w.records[run].call, Approved), Audited(run, w.records[run].call, true)] + [] + [Told(run, w.records[run].call, Approved)]
             == [Wrote(run, w.records[run].call, Approved), Audited(run, w.records[run].call, true), Told(run, w.records[run].call, Approved)];
    } else {
      LateDecisionIsIgnored(settled, run, once);
    }
  }

  lemma RestartIsDecision(w: World, run: Run)
    ensures var once := Decision(true, Some(Once));
            Step(w, ShimRestart(run)) == Step(SettleGate(w, run, Decided(once)), RestDecision(run, once))
  {
  }

  lemma SettledTwice(w: World, v: World, u: World, run: Run, outcome: Outcome)
    requires SettledWith(w, v, run, outcome) && SettledWith(v, u, run, outcome)
    ensures SettledWith(w, u, run, outcome)
  {
  }

  // ----- asking and going on -----------------------------------------------------------------------------------

  /** Asking, in a run without a turn, opens a request under a fresh number: the record, if it is durable, then the gate, and the turn waits. */
  lemma AskMeans(w: World, run: Run, durable: bool)
    ensures var v := Step(w, Ask(run, durable));
            if run in w.turns then v == w
            else
              && v.next == w.next + 1 && v.log == w.log + [Opened(run, w.next)]
              && v.records == (if durable then w.records[run := Record(w.next, Pending)] else w.records)
              && v.gates == w.gates[run := w.next] && v.turns == w.turns[run := Waiting(w.next, durable)]
  {
  }

  /** The turn goes on with its outcome, once settled; its record is cleared, and failures and other decisions audited. */
  lemma ResumeMeans(w: World, run: Run)
    ensures var v := Step(w, Resume(run));
            if run !in w.turns || w.turns[run].Waiting? then v == w
            else
              var t := w.turns[run];
              && v.turns == w.turns - {run} && v.gates == w.gates && v.next == w.next
              && v.records == (if t.durable then w.records - {run} else w.records)
              && (Released(run, t.call, t.durable, t.outcome) in v.log)
              && (t.outcome.Failed? || !t.durable ==> TurnAudited(run, t.call, t.outcome) in v.log)
              && |v.log| <= |w.log| + 3 && w.log <= v.log
  {
    if run in w.turns && w.turns[run].Settled? {
      var v, t := Step(w, Resume(run)), w.turns[run];
      assert v.log[|v.log| - 1] == Released(run, t.call, t.durable, t.outcome);
      if t.outcome.Failed? || !t.durable { assert v.log[|w.log|] == TurnAudited(run, t.call, t.outcome); }
    }
  }

  /** A crash takes the gates and the parked turns and leaves what is on disk. */
  lemma CrashMeans(w: World)
    ensures var v := Step(w, Crash);
            v.gates == map[] && v.turns == map[] && v.records == w.records && v.log == w.log && v.next == w.next
  {
  }

  lemma {:induction false} SweptMeans(w: World, runs: seq<Run>, run: Run)
    ensures var v := Sweep(w, runs);
            && (run in v.records <==> run in w.records)
            && (run in w.records ==>
                  v.records[run] == if run in runs && w.records[run].status == Pending then Record(w.records[run].call, Expired) else w.records[run])
    ensures var v := Sweep(w, runs);
            run in w.records && run in runs && w.records[run].status == Pending && run in w.turns && w.turns[run].Waiting? && run in w.gates
            ==> run in v.turns && v.turns[run] == Settled(w.turns[run].call, w.turns[run].durable, Failed(false))
    ensures var v := Sweep(w, runs);
            (run !in w.records || run !in runs || w.records[run].status != Pending) ==>
              (run in v.turns <==> run in w.turns) && (run in w.turns ==> v.turns[run] == w.turns[run])
              && (run in v.gates <==> run in w.gates)
  {
    if runs != [] {
      var front, last := runs[..|runs| - 1], runs[|runs| - 1];
      SweptMeans(w, front, run);
      assert runs == front + [last];
    }
  }

  /** A sweep makes every pending record of its list expired, fails the turn that waits for it, and touches no other. */
  lemma SweepMeans(w: World, runs: seq<Run>, run: Run)
    ensures var v := Step(w, BootSweep(runs));
            && (run in v.records <==> run in w.records)
            && (run in w.records ==>
                  v.records[run] == if run in runs && w.records[run].status == Pending then Record(w.records[run].call, Expired) else w.records[run])
    ensures var v := Step(w, BootSweep(runs));
            run in w.records && run in runs && w.records[run].status == Pending && run in w.turns && w.turns[run].Waiting? && run in w.gates
            ==> run in v.turns && v.turns[run] == Settled(w.turns[run].call, w.turns[run].durable, Failed(false))
    ensures var v := Step(w, BootSweep(runs));
            (run !in w.records || run !in runs || w.records[run].status != Pending) ==>
              (run in v.turns <==> run in w.turns) && (run in w.turns ==> v.turns[run] == w.turns[run])
              && (run in v.gates <==> run in w.gates)
  {
    hide Sweep;
    SweptMeans(w, runs, run);
  }

  // ----- over every run --------------------------------------------------------------------------------------------

  /** A policy has been saved only for the session or for ever, and only for an approval written to the record. */
  ghost predicate PoliciesOk(log: seq<Effect>) {
    forall run, call, s :: PolicySaved(run, call, s) in log ==> (s == Session || s == Forever) && Wrote(run, call, Approved) in log
  }

  lemma LongerLogKeepsPolicies(log: seq<Effect>, more: seq<Effect>)
    requires PoliciesOk(log)
    requires forall run, call, s :: PolicySaved(run, call, s) in more ==> (s == Session || s == Forever) && Wrote(run, call, Approved) in more
    ensures PoliciesOk(log + more)
  {
  }

  lemma FunnelPolicies(w: World, run: Run, d: Decision)
    requires PoliciesOk(w.log)
    ensures PoliciesOk(Funnel(w, run, d).log)
  {
    hide SettleGate, SettledWith;
    if run in w.records && w.records[run].status == Pending {
      DecisionMeans(w, run, d);
      var call := w.records[run].call;
      var more := [Wrote(run, call, Verdict(d)), Audited(run, call, d.approve)]
                  + (if ForLonger(d) then [PolicySaved(run, call, d.scope.value)] else []) + [Told(run, call, Verdict(d))];
      assert more[0] == Wrote(run, call, Verdict(d));
      LongerLogKeepsPolicies(w.log, more);
      assert Funnel(w, run, d).log == w.log + more;
    }
  }

  lemma {:induction false} SweepPolicies(w: World, runs: seq<Run>)
    requires PoliciesOk(w.log)
    ensures PoliciesOk(Sweep(w, runs).log)
  {
    if runs != [] {
      var front, last := runs[..|runs| - 1], runs[|runs| - 1];
      SweepPolicies(w, front);
      var u := Sweep(w, front);
      if IsPending(u, last) {
        var call := u.records[last].call;
        LongerLogKeepsPolicies(u.log, [Wrote(last, call, Expired), Told(last, call, Expired)]);
        assert Sweep(w, runs).log == u.log + [Wrote(last, call, Expired), Told(last, call, Expired)];
      }
    }
  }

  lemma StepPolicies(w: World, e: Event)
    requires PoliciesOk(w.log)
    ensures PoliciesOk(Step(w, e).log)
  {
    hide PoliciesOk, Funnel, Sweep;
    match e
    case WsDecision(run, d) => FunnelPolicies(w, run, d);
    case RestDecision(run, d) => FunnelPolicies(w, run, d);
    case ShimRestart(run) => FunnelPolicies(SettleGate(w, run, Decided(RESTART_APPROVAL)), run, RESTART_APPROVAL);
    case BootSweep(runs) => SweepPolicies(w, runs);
    case Ask(run, durable) => LogGrowsWithout(w.log, Step(w, e).log);
    case Resume(run) => LogGrowsWithout(w.log, Step(w, e).log);
    case _ =>
  }

  lemma LogGrowsWithout(log: seq<Effect>, longer: seq<Effect>)
    requires PoliciesOk(log) && log <= longer && forall k :: |log| <= k < |longer| ==> !longer[k].PolicySaved?
    ensures PoliciesOk(longer)
  {
    assert longer == log + longer[|log|..];
    LongerLogKeepsPolicies(log, longer[|log|..]);
  }

  /** Over every interleaving a reusable policy is saved only with an approval for the session or for ever. */
  lemma {:induction false} PoliciesFollowApprovals(es: seq<Event>)
    ensures PoliciesOk(After(es).log)
  {
    hide Step;
    if es != [] {
      PoliciesFollowApprovals(es[..|es| - 1]);
      StepPolicies(After(es[..|es| - 1]), es[|es| - 1]);
    }
  }

  /** A waiting turn whose record a decision reaches goes on with just that decision, and the record says so. */
  lemma DecisionReachesTheTurn(es: seq<Event>, run: Run, d: Decision)
    requires run in After(es).turns && After(es).turns[run].Waiting? && After(es).turns[run].durable
    ensures var call := After(es).turns[run].call;
            var log := After(es + [RestDecision(run, d), Resume(run)]).log;
            && Released(run, call, true, Decided(d)) in log && Wrote(run, call, Verdict(d)) in log
            && Audited(run, call, d.approve) in log
  {
    hide Step, SettledWith, Numbered, Untouched, Agreed, AtMostOnce;
    var all := es + [RestDecision(run, d), Resume(run)];
    RunKeeps(es);
    AfterSnoc(all, |es|);
    AfterSnoc(all, |es| + 1);
    assert all[..|es|] == es && all[..|es| + 2] == all;
    var w := After(es);
    DecisionMeans(w, run, d);
    DecidedTurn(w, Step(w, RestDecision(run, d)), run, Decided(d));
    ResumeMeans(Step(w, RestDecision(run, d)), run);
    var call := w.turns[run].call;
    var decided := Step(w, RestDecision(run, d));
    assert decided.log[|w.log|] == Wrote(run, call, Verdict(d)) && decided.log[|w.log| + 1] == Audited(run, call, d.approve);
    var log := After(all).log;
    assert log[|w.log|] == Wrote(run, call, Verdict(d)) && log[|w.log| + 1] == Audited(run, call, d.approve);
  }

  lemma DecidedTurn(w: World, v: World, run: Run, outcome: Outcome)
    requires SettledWith(w, v, run, outcome) && run in w.turns && run in w.gates && w.turns[run].Waiting?
    ensures run in v.turns && v.turns[run] == Settled(w.turns[run].call, w.turns[run].durable, outcome)
  {
  }
}
