/**
 * What every interleaving of asks, decisions, timeouts, evictions, resumptions, crashes and boot sweeps keeps.
 */
module ApprovalSafety {
  import opened Basics
  import opened Approvals

  // ----- the gate alone ---------------------------------------------------------------------------------

  /** Settling keeps everything, provided a durable turn is not settled by a decision its record does not carry. */
  lemma SettleKeeps(w: World, run: Run, outcome: Outcome)
    requires Kept(w)
    requires outcome.Decided? ==> !IsPending(w, run) || !(run in w.turns && w.turns[run].durable)
    ensures Kept(SettleGate(w, run, outcome))
  {
    hide Agreed, AtMostOnce;
  }

  // ----- the funnel ----------------------------------------------------------------------------------------

  /** The record's part of the funnel and of the sweep: a pending record takes its final status, and the log grows. */
  lemma PendingIsApart(w: World, run: Run, e: Effect)
    requires Untouched(w) && IsPending(w, run) && e.call == w.records[run].call && OfTheRecord(e)
    ensures Apart(w.log, e)
  {
    forall f | f in w.log ensures !Same(f, e) {
      if f.call == e.call { assert !OfTheRecord(f); }
    }
  }

  /** The effects of the funnel, in order. */
  function FunnelLog(run: Run, call: nat, d: Decision): seq<Effect> {
    Recorded(run, call, d) + [Told(run, call, StatusOf(d))]
  }

  /** A pending record takes a final status, its gate settles, and the log grows: the funnel and the sweep do this. */
  function Close(w: World, run: Run, status: Status, outcome: Outcome, block: seq<Effect>): World
    requires run in w.records
  {
    SettleGate(w, run, outcome).(records := w.records[run := Record(w.records[run].call, status)], log := w.log + block)
  }

  lemma FunnelIs(w: World, run: Run, d: Decision)
    requires IsPending(w, run)
    ensures Funnel(w, run, d) == Close(w, run, StatusOf(d), Decided(d), FunnelLog(run, w.records[run].call, d))
  {
    var call := w.records[run].call;
    assert w.log + FunnelLog(run, call, d) == w.log + Recorded(run, call, d) + [Told(run, call, StatusOf(d))];
  }

  lemma FunnelLogOnce(w: World, run: Run, d: Decision)
    requires Untouched(w) && IsPending(w, run) && AtMostOnce(w.log)
    ensures AtMostOnce(w.log + FunnelLog(run, w.records[run].call, d))
  {
    var call := w.records[run].call;
    var a, b, p, t := Wrote(run, call, StatusOf(d)), Audited(run, call, d.approve), PolicySaved(run, call, ScopeOf(d)), Told(run, call, StatusOf(d));
    OnceAgain(w, run, w.log, a, []);
    OnceAgain(w, run, w.log + [a], b, [a]);
    if SavesPolicy(d) {
      OnceAgain(w, run, w.log + [a] + [b], p, [a, b]);
      OnceAgain(w, run, w.log + [a] + [b] + [p], t, [a, b, p]);
      assert w.log + FunnelLog(run, call, d) == w.log + [a] + [b] + [p] + [t];
    } else {
      OnceAgain(w, run, w.log + [a] + [b], t, [a, b]);
      assert w.log + FunnelLog(run, call, d) == w.log + [a] + [b] + [t];
    }
  }

  /** One more effect on a pending record's request, different in kind from those just appended. */
  lemma OnceAgain(w: World, run: Run, log: seq<Effect>, e: Effect, block: seq<Effect>)
    requires Untouched(w) && IsPending(w, run) && e.call == w.records[run].call && OfTheRecord(e)
    requires log == w.log + block && AtMostOnce(log) && forall f :: f in block ==> !Same(f, e)
    ensures AtMostOnce(log + [e])
  {
    PendingIsApart(w, run, e);
    forall f | f in log ensures !Same(f, e) { InConcat(w.log, block, f); }
    OnceMore(log, e);
  }

  lemma FunnelAgrees(w: World, run: Run, d: Decision)
    requires Untouched(w) && IsPending(w, run) && Agreed(w.log)
    ensures Agreed(w.log + FunnelLog(run, w.records[run].call, d))
  {
    var call := w.records[run].call;
    var block := FunnelLog(run, call, d);
    var log := w.log + block;
    assert block[0] == Wrote(run, call, StatusOf(d)) && block[1] == Audited(run, call, d.approve);
    forall r, c, a ensures Audited(r, c, a) in log <==> Wrote(r, c, if a then Approved else Denied) in log {
      InConcat(w.log, block, Audited(r, c, a));
      InConcat(w.log, block, Wrote(r, c, if a then Approved else Denied));
      BlockPair(run, call, d, r, c, a);
    }
    forall e | e in log && e.Released? && e.durable && e.outcome.Decided?
      ensures Wrote(e.run, e.call, StatusOf(e.outcome.decision)) in log
    {
      InConcat(w.log, block, e);
      InConcat(w.log, block, Wrote(e.run, e.call, StatusOf(e.outcome.decision)));
    }
  }

  lemma BlockPair(run: Run, call: nat, d: Decision, r: Run, c: nat, a: bool)
    ensures Audited(r, c, a) in FunnelLog(run, call, d) <==> r == run && c == call && a == d.approve
    ensures Wrote(r, c, if a then Approved else Denied) in FunnelLog(run, call, d) <==> r == run && c == call && a == d.approve
    ensures forall e :: e in FunnelLog(run, call, d) ==> !e.Released? && e.call == call && OfTheRecord(e)
  {
    var block := FunnelLog(run, call, d);
    assert block[0] == Wrote(run, call, StatusOf(d)) && block[1] == Audited(run, call, d.approve);
  }

  lemma FunnelKeeps(w: World, run: Run, d: Decision)
    requires Kept(w)
    ensures Kept(Funnel(w, run, d))
  {
    if IsPending(w, run) {
      hide Agreed, AtMostOnce;
      var call := w.records[run].call;
      var block := FunnelLog(run, call, d);
      var v := Funnel(w, run, d);
      FunnelIs(w, run, d);
      FunnelLogOnce(w, run, d);
      FunnelAgrees(w, run, d);
      BlockPair(run, call, d, run, call, d.approve);
      CloseKeeps(w, run, StatusOf(d), Decided(d), block);
    }
  }

  predicate Closing(w: World, run: Run, outcome: Outcome, block: seq<Effect>)
    requires run in w.records
  {
    && (forall e <- block :: e.call == w.records[run].call && OfTheRecord(e))
    && (outcome.Decided? ==> Wrote(run, w.records[run].call, StatusOf(outcome.decision)) in block)
  }

  lemma CloseKeeps(w: World, run: Run, status: Status, outcome: Outcome, block: seq<Effect>)
    requires Numbered(w) && Gated(w) && Untouched(w) && Backed(w) && IsPending(w, run) && status != Pending
    requires Closing(w, run, outcome, block)
    ensures var v := Close(w, run, status, outcome, block);
            Numbered(v) && Gated(v) && Untouched(v) && Backed(v)
  {
    hide Numbered, Gated, Untouched, Backed, Close;
    CloseNumbered(w, run, status, outcome, block);
    CloseUntouched(w, run, status, outcome, block);
    CloseBacked(w, run, status, outcome, block);
  }

  lemma CloseNumbered(w: World, run: Run, status: Status, outcome: Outcome, block: seq<Effect>)
    requires Numbered(w) && Gated(w) && IsPending(w, run) && Closing(w, run, outcome, block)
    ensures Numbered(Close(w, run, status, outcome, block)) && Gated(Close(w, run, status, outcome, block))
  {
    var v := Close(w, run, status, outcome, block);
    forall e | e in v.log ensures e.call < v.next { InConcat(w.log, block, e); }
  }

  lemma CloseUntouched(w: World, run: Run, status: Status, outcome: Outcome, block: seq<Effect>)
    requires Numbered(w) && Gated(w) && Untouched(w) && IsPending(w, run) && status != Pending
    requires Closing(w, run, outcome, block)
    ensures Untouched(Close(w, run, status, outcome, block))
  {
    var v := Close(w, run, status, outcome, block);
    forall r, e | r in v.records && v.records[r].status == Pending && e in v.log && e.call == v.records[r].call ensures !OfTheRecord(e) {
      assert r != run;
      InConcat(w.log, block, e);
    }
    forall r, e | r in v.turns && e in v.log && e.call == v.turns[r].call ensures !OfTheTurn(e) {
      InConcat(w.log, block, e);
      assert v.turns[r].call == w.turns[r].call;
    }
  }

  lemma CloseBacked(w: World, run: Run, status: Status, outcome: Outcome, block: seq<Effect>)
    requires Numbered(w) && Gated(w) && Backed(w) && IsPending(w, run) && Closing(w, run, outcome, block)
    ensures Backed(Close(w, run, status, outcome, block))
  {
  }

  // ----- the sweep -------------------------------------------------------------------------------------------

  function SweepLog(run: Run, call: nat): seq<Effect> {
    [Wrote(run, call, Expired), Told(run, call, Expired)]
  }

  lemma SweepIs(w: World, run: Run)
    requires IsPending(w, run)
    ensures SweepRun(w, run) == Close(w, run, Expired, Failed(false), SweepLog(run, w.records[run].call))
  {
    var call := w.records[run].call;
    assert w.log + SweepLog(run, call) == w.log + [Wrote(run, call, Expired)] + [Told(run, call, Expired)];
  }

  lemma SweepLogOnce(w: World, run: Run)
    requires Untouched(w) && IsPending(w, run) && AtMostOnce(w.log)
    ensures AtMostOnce(w.log + SweepLog(run, w.records[run].call))
  {
    var a, b := Wrote(run, w.records[run].call, Expired), Told(run, w.records[run].call, Expired);
    OnceAgain(w, run, w.log, a, []);
    OnceAgain(w, run, w.log + [a], b, [a]);
    assert w.log + SweepLog(run, w.records[run].call) == w.log + [a] + [b];
  }

  lemma SweepAgrees(log: seq<Effect>, run: Run, call: nat)
    requires Agreed(log)
    ensures Agreed(log + SweepLog(run, call))
  {
    var block := SweepLog(run, call);
    forall e ensures e in log + block <==> e in log || e in block { InConcat(log, block, e); }
  }

  lemma SweepRunKeeps(w: World, run: Run)
    requires Kept(w)
    ensures Kept(SweepRun(w, run))
  {
    if IsPending(w, run) {
      hide AtMostOnce, Agreed, Numbered, Gated, Untouched, Backed;
      SweepIs(w, run);
      SweepLogOnce(w, run);
      SweepAgrees(w.log, run, w.records[run].call);
      CloseKeeps(w, run, Expired, Failed(false), SweepLog(run, w.records[run].call));
    }
  }

  lemma {:induction false} SweepKeeps(w: World, runs: seq<Run>)
    requires Kept(w)
    ensures Kept(Sweep(w, runs))
  {
    hide Kept, SweepRun;
    if runs != [] {
      SweepKeeps(w, runs[..|runs| - 1]);
      SweepRunKeeps(Sweep(w, runs[..|runs| - 1]), runs[|runs| - 1]);
    }
  }

  // ----- asking and running on ----------------------------------------------------------------------------------

  lemma AskKeeps(w: World, run: Run, durable: bool)
    requires Kept(w)
    ensures Kept(AskStep(w, run, durable))
  {
    if run !in w.turns {
      AskLog(w, run, durable);
      AskNumbered(w, run, durable);
      AskUntouched(w, run, durable);
      AskBacked(w, run, durable);
    }
  }

  lemma AskLog(w: World, run: Run, durable: bool)
    requires Numbered(w) && Agreed(w.log) && AtMostOnce(w.log) && run !in w.turns
    ensures Agreed(AskStep(w, run, durable).log) && AtMostOnce(AskStep(w, run, durable).log)
  {
    var e0 := Opened(run, w.next);
    OnceMore(w.log, e0);
    forall e ensures e in w.log + [e0] <==> e in w.log || e == e0 { InConcat(w.log, [e0], e); }
  }

  lemma AskNumbered(w: World, run: Run, durable: bool)
    requires Numbered(w) && Gated(w) && run !in w.turns
    ensures Numbered(AskStep(w, run, durable)) && Gated(AskStep(w, run, durable))
  {
    AskIds(w, run, durable);
  }

  lemma AskIds(w: World, run: Run, durable: bool)
    requires Numbered(w) && run !in w.turns
    ensures Numbered(AskStep(w, run, durable))
  {
    forall e ensures e in w.log + [Opened(run, w.next)] <==> e in w.log || e == Opened(run, w.next) {
      InConcat(w.log, [Opened(run, w.next)], e);
    }
  }

  lemma AskUntouched(w: World, run: Run, durable: bool)
    requires Numbered(w) && Untouched(w) && run !in w.turns
    ensures Untouched(AskStep(w, run, durable))
  {
    var v := AskStep(w, run, durable);
    forall r, e | r in v.records && v.records[r].status == Pending && e in v.log && e.call == v.records[r].call ensures !OfTheRecord(e) {
      InConcat(w.log, [Opened(run, w.next)], e);
    }
    forall r, e | r in v.turns && e in v.log && e.call == v.turns[r].call ensures !OfTheTurn(e) {
      InConcat(w.log, [Opened(run, w.next)], e);
    }
  }

  lemma AskBacked(w: World, run: Run, durable: bool)
    requires Backed(w) && run !in w.turns
    ensures Backed(AskStep(w, run, durable))
  {
  }

  function ResumeLog(w: World, run: Run): seq<Effect>
    requires run in w.turns && w.turns[run].Settled?
  {
    var t := w.turns[run];
    (if t.outcome.Failed? || !t.durable then [TurnAudited(run, t.call, t.outcome)] else [])
    + (if t.durable && run in w.records then [Cleared(run, w.records[run].call, w.records[run].status)] else [])
    + [Released(run, t.call, t.durable, t.outcome)]
  }

  lemma ResumeLogOnce(w: World, run: Run)
    requires Kept(w) && run in w.turns && w.turns[run].Settled?
    ensures AtMostOnce(w.log + ResumeLog(w, run))
  {
    var t := w.turns[run];
    var a, r := TurnAudited(run, t.call, t.outcome), Released(run, t.call, t.durable, t.outcome);
    forall f | f in w.log ensures !Same(f, a) && !Same(f, r) {
      if f.call == t.call { assert !OfTheTurn(f); }
    }
    var log := w.log;
    if t.outcome.Failed? || !t.durable {
      OnceMore(log, a);
      log := log + [a];
    }
    if t.durable && run in w.records {
      var c := Cleared(run, w.records[run].call, w.records[run].status);
      if c.was == Pending { PendingIsApart(w, run, c); }
      assert Apart(log, c);
      OnceMore(log, c);
      log := log + [c];
    }
    assert Apart(log, r);
    OnceMore(log, r);
    assert w.log + ResumeLog(w, run) == log + [r];
  }

  lemma ResumeAgrees(w: World, run: Run)
    requires Backed(w) && Agreed(w.log) && run in w.turns && w.turns[run].Settled?
    ensures Agreed(w.log + ResumeLog(w, run))
  {
    var block := ResumeLog(w, run);
    var log := w.log + block;
    forall e ensures e in log <==> e in w.log || e in block { InConcat(w.log, block, e); }
  }

  lemma ResumeKeeps(w: World, run: Run)
    requires Kept(w)
    ensures Kept(ResumeStep(w, run))
  {
    if run in w.turns && w.turns[run].Settled? {
      var block := ResumeLog(w, run);
      assert ResumeStep(w, run).log == w.log + block;
      ResumeLogOnce(w, run);
      ResumeAgrees(w, run);
      hide AtMostOnce, Agreed;
      ResumeNumbered(w, run);
      ResumeUntouched(w, run);
      ResumeBacked(w, run);
    }
  }

  lemma ResumeLogCalls(w: World, run: Run)
    requires Backed(w) && run in w.turns && w.turns[run].Settled?
    ensures ResumeStep(w, run).log == w.log + ResumeLog(w, run)
    ensures forall e :: e in ResumeStep(w, run).log <==> e in w.log || e in ResumeLog(w, run)
    ensures forall e :: e in ResumeLog(w, run) ==> e.call == w.turns[run].call && (OfTheRecord(e) ==> w.turns[run].durable)
  {
    assert ResumeStep(w, run).log == w.log + ResumeLog(w, run);
    forall e ensures e in ResumeStep(w, run).log <==> e in w.log || e in ResumeLog(w, run) { InConcat(w.log, ResumeLog(w, run), e); }
  }

  lemma ResumeNumbered(w: World, run: Run)
    requires Numbered(w) && Gated(w) && Backed(w) && run in w.turns && w.turns[run].Settled?
    ensures Numbered(ResumeStep(w, run)) && Gated(ResumeStep(w, run))
  {
    ResumeLogCalls(w, run);
    hide ResumeLog;
  }

  lemma ResumeUntouched(w: World, run: Run)
    requires Numbered(w) && Untouched(w) && Backed(w) && run in w.turns && w.turns[run].Settled?
    ensures Untouched(ResumeStep(w, run))
  {
    ResumeLogCalls(w, run);
    hide ResumeLog;
    var v := ResumeStep(w, run);
    forall r, e | r in v.records && v.records[r].status == Pending && e in v.log && e.call == v.records[r].call ensures !OfTheRecord(e) {
      assert v.records[r] == w.records[r];
    }
    forall r, e | r in v.turns && e in v.log && e.call == v.turns[r].call ensures !OfTheTurn(e) {
      assert r != run && v.turns[r] == w.turns[r];
    }
  }

  lemma ResumeBacked(w: World, run: Run)
    requires Numbered(w) && Backed(w) && run in w.turns && w.turns[run].Settled?
    ensures Backed(ResumeStep(w, run))
  {
    ResumeLogCalls(w, run);
    hide ResumeLog;
  }

  // ----- every run of the machine -----------------------------------------------------------------------------------

  /** A shim restart settles the gate first and then goes through the funnel; the end is the same. */
  lemma RestartIsFunnel(w: World, run: Run, d: Decision)
    requires IsPending(w, run)
    ensures Funnel(SettleGate(w, run, Decided(d)), run, d) == Funnel(w, run, d)
  {
  }

  lemma StepKeeps(w: World, e: Event)
    requires Kept(w)
    ensures Kept(Step(w, e))
  {
    hide Kept, Funnel, SettleGate, AskStep, ResumeStep, Sweep;
    match e
    case Ask(run, durable) => AskKeeps(w, run, durable);
    case WsDecision(run, d) =>
      if run in w.records { FunnelKeeps(w, run, d); } else { SettleKeeps(w, run, Decided(d)); }
    case RestDecision(run, d) => FunnelKeeps(w, run, d);
    case ShimRestart(run) =>
      if IsPending(w, run) {
        RestartIsFunnel(w, run, RESTART_APPROVAL);
        FunnelKeeps(w, run, RESTART_APPROVAL);
      } else {
        SettleKeeps(w, run, Decided(RESTART_APPROVAL));
        FunnelKeeps(SettleGate(w, run, Decided(RESTART_APPROVAL)), run, RESTART_APPROVAL);
      }
    case GateTimeout(run) => SettleKeeps(w, run, Failed(true));
    case Evict(run) => SettleKeeps(w, run, Failed(false));
    case Resume(run) => ResumeKeeps(w, run);
    case Crash => CrashKeeps(w);
    case BootSweep(runs) => SweepKeeps(w, runs);
  }

  lemma CrashKeeps(w: World)
    requires Kept(w)
    ensures Kept(w.(gates := map[], turns := map[]))
  {
    hide Agreed, AtMostOnce;
  }

  lemma {:induction false} RunKeeps(es: seq<Event>)
    ensures Kept(After(es))
  {
    if es == [] {
      assert After(es) == START;
    } else {
      hide Kept, Step;
      RunKeeps(es[..|es| - 1]);
      StepKeeps(After(es[..|es| - 1]), es[|es| - 1]);
    }
  }

  /**
   * Over every interleaving, for every request: its record leaves "pending" at most once, the funnel audits and
   * broadcasts it at most once, and its turn is released at most once.
   */
  lemma EachThingHappensOnce(es: seq<Event>, i: nat, j: nat)
    requires i < j < |After(es).log| && After(es).log[i].call == After(es).log[j].call && KeyOf(After(es).log[i]).Some?
    ensures KeyOf(After(es).log[i]) != KeyOf(After(es).log[j])
  {
    RunKeeps(es);
    assert !Same(After(es).log[i], After(es).log[j]);
  }

  /** A turn released with a decision was decided so in its record, and in no other way. */
  lemma ReleaseAgreesWithRecord(es: seq<Event>, run: Run, call: nat, d: Decision)
    requires Released(run, call, true, Decided(d)) in After(es).log
    ensures Wrote(run, call, StatusOf(d)) in After(es).log
    ensures forall s :: s != Pending && Wrote(run, call, s) in After(es).log ==> s == StatusOf(d)
    ensures Audited(run, call, d.approve) in After(es).log && Audited(run, call, !d.approve) !in After(es).log
  {
    RunKeeps(es);
    var log := After(es).log;
    forall s | s != Pending && Wrote(run, call, s) in log ensures s == StatusOf(d) { OnlyOneStatus(log, run, call, s, StatusOf(d)); }
    assert Wrote(run, call, if d.approve then Approved else Denied) in log;
    forall a | Audited(run, call, a) in log ensures a == d.approve {
      assert Wrote(run, call, if a then Approved else Denied) in log;
    }
  }

  lemma OnlyOneStatus(log: seq<Effect>, run: Run, call: nat, s: Status, t: Status)
    requires AtMostOnce(log) && s != Pending && t != Pending && Wrote(run, call, s) in log && Wrote(run, call, t) in log
    ensures s == t
  {
    var i :| 0 <= i < |log| && log[i] == Wrote(run, call, s);
    var j :| 0 <= j < |log| && log[j] == Wrote(run, call, t);
    assert Same(log[i], log[j]) && Same(log[j], log[i]);
  }

  /** The funnel writes one audit entry for each record it decides, with its verdict, and none for any other. */
  lemma AuditedExactlyWhenDecided(es: seq<Event>, run: Run, call: nat, approve: bool)
    ensures Audited(run, call, approve) in After(es).log <==>
            Wrote(run, call, if approve then Approved else Denied) in After(es).log
  {
    RunKeeps(es);
  }

  // ----- failures agree too, when the parked code runs on at once --------------------------------------------------

  predicate IsVerdict(e: Effect, call: nat) {
    e.Wrote? && e.call == call && (e.status == Approved || e.status == Denied)
  }

  ghost predicate NoVerdict(log: seq<Effect>, call: nat) {
    forall e :: e in log ==> !IsVerdict(e, call)
  }

  /** No promise is settled with its turn still to run on. */
  ghost predicate Quiet(w: World) {
    forall r :: r in w.turns ==> w.turns[r].Waiting?
  }

  /** Pending callbacks run before the next event, as the event loop has it. */
  ghost predicate Prompt(es: seq<Event>) {
    forall k :: 0 <= k < |es| && !es[k].Resume? ==> Quiet(After(es[..k]))
  }

  /** A released durable turn has no record left; a failed one was never given a verdict. */
  ghost predicate FailedClean(w: World) {
    && (forall e, r :: e in w.log && e.Released? && e.durable && r in w.records ==> w.records[r].call != e.call)
    && (forall e :: e in w.log && e.Released? && e.durable && e.outcome.Failed? ==> NoVerdict(w.log, e.call))
    && (forall r :: r in w.turns && w.turns[r].Settled? && w.turns[r].durable && w.turns[r].outcome.Failed? ==> NoVerdict(w.log, w.turns[r].call))
  }

  lemma NoVerdictGrows(log: seq<Effect>, block: seq<Effect>, call: nat)
    requires NoVerdict(log, call) && forall e :: e in block ==> !IsVerdict(e, call)
    ensures NoVerdict(log + block, call)
  {
    forall e | e in log + block ensures !IsVerdict(e, call) { InConcat(log, block, e); }
  }

  lemma SettleClean(w: World, run: Run, outcome: Outcome)
    requires Kept(w) && FailedClean(w)
    ensures FailedClean(SettleGate(w, run, outcome))
  {
    hide AtMostOnce, Agreed, NoVerdict;
    if run in w.gates && w.turns[run].durable {
      PendingHasNoVerdict(w, run);
    }
  }

  lemma PendingHasNoVerdict(w: World, run: Run)
    requires Untouched(w) && IsPending(w, run)
    ensures NoVerdict(w.log, w.records[run].call)
  {
  }

  lemma CloseClean(w: World, run: Run, status: Status, outcome: Outcome, block: seq<Effect>)
    requires Kept(w) && FailedClean(w) && IsPending(w, run) && Closing(w, run, outcome, block)
    requires (Quiet(w) && outcome.Decided?) || (outcome.Failed? && forall e :: e in block ==> !IsVerdict(e, w.records[run].call))
    ensures FailedClean(Close(w, run, status, outcome, block))
  {
    var v := Close(w, run, status, outcome, block);
    var s := SettleGate(w, run, outcome);
    SettleClean(w, run, outcome);
    hide Kept, Untouched, AtMostOnce, Agreed, NoVerdict;
    assert v.turns == s.turns && v.log == w.log + block && s.log == w.log;
    forall e ensures e in v.log <==> e in w.log || e in block { InConcat(w.log, block, e); }
    forall call | NoVerdict(w.log, call) && (call != w.records[run].call || outcome.Failed?) ensures NoVerdict(v.log, call) {
      NoVerdictGrows(w.log, block, call);
    }
    forall r | r in v.turns && v.turns[r].Settled? && v.turns[r].durable && v.turns[r].outcome.Failed?
      ensures NoVerdict(v.log, v.turns[r].call)
    {
      assert outcome.Failed?;
    }
  }

  lemma FunnelClean(w: World, run: Run, d: Decision)
    requires Kept(w) && FailedClean(w) && Quiet(w)
    ensures FailedClean(Funnel(w, run, d))
  {
    if IsPending(w, run) {
      FunnelIs(w, run, d);
      BlockPair(run, w.records[run].call, d, run, w.records[run].call, d.approve);
      hide Kept, FailedClean, Quiet, Close, Funnel, FunnelLog;
      CloseClean(w, run, StatusOf(d), Decided(d), FunnelLog(run, w.records[run].call, d));
    }
  }

  lemma SweepRunClean(w: World, run: Run)
    requires Kept(w) && FailedClean(w)
    ensures FailedClean(SweepRun(w, run))
  {
    assert !IsPending(w, run) ==> SweepRun(w, run) == w;
    hide Kept, FailedClean, Close, SweepRun;
    if IsPending(w, run) {
      SweepIs(w, run);
      CloseClean(w, run, Expired, Failed(false), SweepLog(run, w.records[run].call));
    }
  }

  lemma {:induction false} SweepClean(w: World, runs: seq<Run>)
    requires Kept(w) && FailedClean(w)
    ensures FailedClean(Sweep(w, runs))
  {
    hide Kept, FailedClean, SweepRun;
    if runs != [] {
      SweepClean(w, runs[..|runs| - 1]);
      SweepKeeps(w, runs[..|runs| - 1]);
      SweepRunClean(Sweep(w, runs[..|runs| - 1]), runs[|runs| - 1]);
    }
  }

  lemma AskClean(w: World, run: Run, durable: bool)
    requires Numbered(w) && FailedClean(w)
    ensures FailedClean(AskStep(w, run, durable))
  {
    if run !in w.turns {
      var block := [Opened(run, w.next)];
      forall e ensures e in w.log + block <==> e in w.log || e in block { InConcat(w.log, block, e); }
      forall call | NoVerdict(w.log, call) ensures NoVerdict(w.log + block, call) { NoVerdictGrows(w.log, block, call); }
      hide NoVerdict;
    }
  }

  lemma ResumeClean(w: World, run: Run)
    requires Kept(w) && FailedClean(w)
    ensures FailedClean(ResumeStep(w, run))
  {
    hide NoVerdict, ResumeLog, Untouched, AtMostOnce, Agreed;
    if run in w.turns && w.turns[run].Settled? {
      var block := ResumeLog(w, run);
      ResumeLogCalls(w, run);
      ResumeLogVerdicts(w, run);
      forall call | NoVerdict(w.log, call) ensures NoVerdict(w.log + block, call) { NoVerdictGrows(w.log, block, call); }
    }
  }

  lemma ResumeLogVerdicts(w: World, run: Run)
    requires run in w.turns && w.turns[run].Settled?
    ensures var t := w.turns[run];
            forall e :: e in ResumeLog(w, run) ==> !e.Wrote? && (e.Released? ==> e == Released(run, t.call, t.durable, t.outcome))
  {
  }

  lemma StepClean(w: World, e: Event)
    requires Kept(w) && FailedClean(w) && (!e.Resume? ==> Quiet(w))
    ensures FailedClean(Step(w, e))
  {
    hide FailedClean, Funnel, SettleGate, AskStep, ResumeStep, Sweep, Numbered, Gated, Untouched, Backed, Agreed, AtMostOnce;
    match e
    case Ask(run, durable) => AskClean(w, run, durable);
    case WsDecision(run, d) => if run in w.records { FunnelClean(w, run, d); } else { SettleClean(w, run, Decided(d)); }
    case RestDecision(run, d) => FunnelClean(w, run, d);
    case ShimRestart(run) =>
      if IsPending(w, run) {
        RestartIsFunnel(w, run, RESTART_APPROVAL);
        FunnelClean(w, run, RESTART_APPROVAL);
      } else {
        SettleClean(w, run, Decided(RESTART_APPROVAL));
        NotPendingStays(w, run);
      }
    case GateTimeout(run) => SettleClean(w, run, Failed(true));
    case Evict(run) => SettleClean(w, run, Failed(false));
    case Resume(run) => ResumeClean(w, run);
    case Crash => CrashClean(w);
    case BootSweep(runs) => SweepClean(w, runs);
  }

  lemma NotPendingStays(w: World, run: Run)
    requires !IsPending(w, run)
    ensures Funnel(SettleGate(w, run, Decided(RESTART_APPROVAL)), run, RESTART_APPROVAL) == SettleGate(w, run, Decided(RESTART_APPROVAL))
  {
  }

  lemma CrashClean(w: World)
    requires FailedClean(w)
    ensures FailedClean(w.(gates := map[], turns := map[]))
  {
  }

  /**
   * When parked code runs on before the next event, failures agree as well: a turn released by timeout, eviction or
   * sweep has a record that nobody approved or denied, before or after.
   */
  lemma {:induction false} FailureAgreesWhenPrompt(es: seq<Event>)
    requires Prompt(es)
    ensures FailedClean(After(es))
    ensures forall e :: e in After(es).log && e.Released? && e.durable && e.outcome.Failed? ==> NoVerdict(After(es).log, e.call)
  {
    if es == [] {
      assert After(es) == START;
    } else {
      var front := es[..|es| - 1];
      forall k | 0 <= k < |front| && !front[k].Resume? ensures Quiet(After(front[..k])) {
        assert front[..k] == es[..k] && front[k] == es[k];
      }
      FailureAgreesWhenPrompt(front);
      RunKeeps(front);
      hide Kept, FailedClean, Step, Quiet;
      StepClean(After(front), es[|es| - 1]);
      FailedCleanSays(After(es));
    }
  }

  lemma FailedCleanSays(w: World)
    requires FailedClean(w)
    ensures forall e :: e in w.log && e.Released? && e.durable && e.outcome.Failed? ==> NoVerdict(w.log, e.call)
  {
  }

  /**
   * Without promptness the record and a failure disagree, whatever the turn and the decision: after every run in which
   * a durable turn waits, a decision between the timeout of its gate and its resumption is written although it failed.
   */
  lemma LateDecisionDisagrees(es: seq<Event>, run: Run, d: Decision)
    requires run in After(es).turns && After(es).turns[run].Waiting? && After(es).turns[run].durable
    ensures var call := After(es).turns[run].call;
            var log := After(es + [GateTimeout(run), RestDecision(run, d), Resume(run)]).log;
            Released(run, call, true, Failed(true)) in log && Wrote(run, call, StatusOf(d)) in log
  {
    var late := es + [GateTimeout(run), RestDecision(run, d), Resume(run)];
    RunKeeps(es);
    AfterSnoc(late, |es|);
    AfterSnoc(late, |es| + 1);
    AfterSnoc(late, |es| + 2);
    assert late[..|es|] == es && late[..|es| + 3] == late;
    LateSteps(After(es), run, d);
  }

  lemma LateSteps(w: World, run: Run, d: Decision)
    requires Kept(w) && run in w.turns && w.turns[run].Waiting? && w.turns[run].durable
    ensures var call := w.turns[run].call;
            var log := Step(Step(Step(w, GateTimeout(run)), RestDecision(run, d)), Resume(run)).log;
            Released(run, call, true, Failed(true)) in log && Wrote(run, call, StatusOf(d)) in log
  {
    hide Numbered, Untouched, Agreed, AtMostOnce;
    var call := w.turns[run].call;
    var timedOut := Step(w, GateTimeout(run));
    FunnelIs(timedOut, run, d);
    var decided := Step(timedOut, RestDecision(run, d));
    assert FunnelLog(run, call, d)[0] == Wrote(run, call, StatusOf(d));
    assert Wrote(run, call, StatusOf(d)) in decided.log;
    assert decided.turns[run] == Settled(call, true, Failed(true));
  }

  lemma AfterSnoc(es: seq<Event>, k: nat)
    requires k < |es|
    ensures After(es[..k + 1]) == Step(After(es[..k]), es[k])
  {
    assert es[..k + 1][..k] == es[..k];
  }

  // ----- the sweep is complete -----------------------------------------------------------------------------------------

  lemma {:induction false} SweptStaysSwept(w: World, runs: seq<Run>, run: Run)
    ensures IsPending(Sweep(w, runs), run) <==> IsPending(w, run) && run !in runs
    ensures run in Sweep(w, runs).records <==> run in w.records
  {
    if runs != [] {
      var front, last := runs[..|runs| - 1], runs[|runs| - 1];
      SweptStaysSwept(w, front, run);
      assert runs == front + [last];
    }
  }

  /** After a sweep over the runs on disk no record is pending, and a second sweep changes nothing. */
  lemma SweepLeavesNonePending(w: World, runs: seq<Run>, again: seq<Run>)
    requires forall r :: r in w.records ==> r in runs
    ensures forall r :: !IsPending(Sweep(w, runs), r)
    ensures Sweep(Sweep(w, runs), again) == Sweep(w, runs)
  {
    forall r ensures !IsPending(Sweep(w, runs), r) { SweptStaysSwept(w, runs, r); }
    NothingToSweep(Sweep(w, runs), again);
  }

  lemma {:induction false} NothingToSweep(w: World, runs: seq<Run>)
    requires forall r :: !IsPending(w, r)
    ensures Sweep(w, runs) == w
  {
    if runs != [] { NothingToSweep(w, runs[..|runs| - 1]); }
  }
}
