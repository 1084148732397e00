/**
 * What holds of subscriptions in every run, orderly or not, and runs of the program that lose lines.
 */
module RunDisorder {
  import opened Basics
  import opened RunFrameLog
  import opened RunDelivery

  /** A stopped subscription neither listens nor drains. */
  predicate Quiet(s: Sub) {
    (s.done.Some? ==> s.stopped) && (s.stopped ==> !s.listening && s.draining.None?)
  }

  /** Nothing delivered is taken back, and nothing follows the end. */
  predicate Onward(s: Sub, s': Sub) {
    && s.delivered <= s'.delivered && s'.cursor == s.cursor
    && (s.done.Some? ==> s'.done == s.done && s'.delivered == s.delivered)
  }

  lemma SubscribedIsQuiet(w: World, cursor: int)
    ensures Quiet(Subscribed(w, cursor))
  {
    hide EmitAll, Rises;
    var s := NewSub(cursor);
    EmitsRising(s, w.log);
    EmitsRising(ReadAndEmit(s, w.log), w.log);
  }

  lemma AttachedIsQuiet(w: World, s: Sub)
    requires Quiet(s)
    ensures Quiet(Attached(w, s)) && Onward(s, Attached(w, s))
  {
    hide EmitAll, Above, Rises;
    var live := s.(phase := Live, listening := true);
    var ring := Above(w.ring, s.lastSent);
    EmitsRising(live, w.log);
    var bridged := if ring != [] && ring[0].seqNo > s.lastSent + 1 then ReadAndEmit(live, w.log) else live;
    EmitsRising(bridged, ring);
    EmitsRising(EmitAll(bridged, ring), w.log);
  }

  lemma StepIsQuiet(w: World, e: Event)
    requires forall k :: 0 <= k < |w.subs| ==> Quiet(w.subs[k])
    ensures var v := Step(w, e);
            && |w.subs| <= |v.subs| && (forall k :: 0 <= k < |v.subs| ==> Quiet(v.subs[k]))
            && forall k :: 0 <= k < |w.subs| ==> Onward(w.subs[k], v.subs[k])
  {
    hide EmitAll, Rises, Newest, Attached, Subscribed;
    match e
    case Subscribe(cursor) => SubscribedIsQuiet(w, cursor);
    case Attach(i) => if i < |w.subs| { AttachedIsQuiet(w, w.subs[i]); }
    case DrainFires(i) => if i < |w.subs| { EmitsRising(w.subs[i], w.log); }
    case WatchFires(i) =>
      if i < |w.subs| {
        EmitsRising(w.subs[i], w.log);
        EmitsRising(ReadAndEmit(w.subs[i], w.log), w.log);
      }
    case _ =>
  }

  lemma {:induction false} RunIsQuiet(es: seq<Event>)
    ensures forall k :: 0 <= k < |Run(es).subs| ==> Quiet(Run(es).subs[k])
  {
    hide Step, Quiet;
    if es != [] {
      RunIsQuiet(es[..|es| - 1]);
      StepIsQuiet(Run(es[..|es| - 1]), es[|es| - 1]);
    }
  }

  /**
   * Whatever happens next, in orderly runs and others, nothing delivered is taken back, and nothing follows the end:
   * done is reported once.
   */
  lemma {:induction false} NothingAfterDone(es: seq<Event>, more: seq<Event>, i: nat)
    requires i < |Run(es).subs|
    ensures i < |Run(es + more).subs| && Onward(Run(es).subs[i], Run(es + more).subs[i])
  {
    hide Step, Quiet;
    if more == [] {
      assert es + more == es;
    } else {
      var front := more[..|more| - 1];
      assert (es + more)[..|es + more| - 1] == es + front;
      NothingAfterDone(es, front, i);
      RunIsQuiet(es + front);
      StepIsQuiet(Run(es + front), more[|more| - 1]);
    }
  }

  /** Only lines of the log, above the cursor, in the order of their numbers and so each once. */
  predicate Climbs(s: Sub, log: seq<Entry>) {
    && (forall e :: e in s.delivered ==> e in log && s.cursor < e.seqNo <= s.lastSent) && s.cursor <= s.lastSent
    && forall i, j :: 0 <= i < j < |s.delivered| ==> s.delivered[i].seqNo < s.delivered[j].seqNo
  }

  predicate AllClimb(w: World) {
    (forall e :: e in w.ring ==> e in w.log) && forall k :: 0 <= k < |w.subs| ==> Climbs(w.subs[k], w.log)
  }

  lemma EmitClimbs(s: Sub, e: Entry, log: seq<Entry>)
    requires Climbs(s, log) && e in log
    ensures Climbs(Emit(s, e), log)
  {
    forall x ensures x in s.delivered + [e] <==> x in s.delivered || x == e { InConcat(s.delivered, [e], x); }
    assert forall i :: 0 <= i < |s.delivered| ==> s.delivered[i] in s.delivered;
  }

  lemma {:induction false} EmitAllClimbs(s: Sub, es: seq<Entry>, log: seq<Entry>)
    requires Climbs(s, log) && forall e :: e in es ==> e in log
    ensures Climbs(EmitAll(s, es), log)
  {
    hide Climbs, Emit;
    if es != [] {
      var front := es[..|es| - 1];
      assert es == front + [es[|es| - 1]];
      EmitAllClimbs(s, front, log);
      EmitClimbs(EmitAll(s, front), es[|es| - 1], log);
    }
  }

  lemma FieldsDoNotMatter(s: Sub, r: Sub, log: seq<Entry>)
    requires Climbs(s, log) && r.delivered == s.delivered && r.cursor == s.cursor && r.lastSent == s.lastSent
    ensures Climbs(r, log)
  {
  }

  lemma FinishClimbs(s: Sub, log: seq<Entry>, status: string)
    requires Climbs(s, log)
    ensures Climbs(ReadAndEmit(s, log), log) && Climbs(Finish(s, log, status), log)
  {
    hide Climbs, EmitAll;
    EmitAllClimbs(s, log, log);
    FieldsDoNotMatter(ReadAndEmit(s, log), Finish(s, log, status), log);
  }

  lemma CheckClimbs(s: Sub, log: seq<Entry>, status: Status)
    requires Climbs(s, log)
    ensures Climbs(CheckTerminal(s, log, status), log)
  {
    hide Climbs, Finish;
    if status.Terminal? { FinishClimbs(s, log, status.name); }
  }

  lemma SubscribedClimbs(w: World, cursor: int)
    ensures Climbs(Subscribed(w, cursor), w.log)
  {
    hide Climbs, ReadAndEmit, CheckTerminal;
    var s := NewSub(cursor);
    assert Climbs(s, w.log) by { NewClimbs(cursor, w.log); }
    FinishClimbs(s, w.log, "");
    CheckClimbs(ReadAndEmit(s, w.log), w.log, w.status);
    var stopped := Subscribed(w, cursor);
    if stopped.delivered == s.delivered && stopped.cursor == s.cursor && stopped.lastSent == s.lastSent {
      FieldsDoNotMatter(s, stopped, w.log);
    }
  }

  lemma NewClimbs(cursor: int, log: seq<Entry>)
    ensures Climbs(NewSub(cursor), log)
  {
  }

  lemma {:induction false} AboveIsPart(es: seq<Entry>, n: nat)
    ensures forall e :: e in Above(es, n) ==> e in es
  {
    if es != [] {
      AboveIsPart(es[..|es| - 1], n);
      assert es == es[..|es| - 1] + [es[|es| - 1]];
    }
  }

  lemma AttachedClimbs(w: World, s: Sub)
    requires Climbs(s, w.log) && forall e :: e in w.ring ==> e in w.log
    ensures Climbs(Attached(w, s), w.log)
  {
    hide Climbs, EmitAll, Above, Finish, CheckTerminal, ReadAndEmit;
    var live := s.(phase := Live, listening := true);
    FieldsDoNotMatter(s, live, w.log);
    FieldsDoNotMatter(s, s.(phase := Watching), w.log);
    FinishClimbs(live, w.log, "");
    var ring := Above(w.ring, s.lastSent);
    AboveIsPart(w.ring, s.lastSent);
    var bridged := if ring != [] && ring[0].seqNo > s.lastSent + 1 then ReadAndEmit(live, w.log) else live;
    EmitAllClimbs(bridged, ring, w.log);
    CheckClimbs(EmitAll(bridged, ring), w.log, w.status);
  }

  lemma LongerLogClimbs(s: Sub, log: seq<Entry>, e: Entry)
    requires Climbs(s, log)
    ensures Climbs(s, log + [e])
  {
  }

  lemma AppendClimbs(w: World, frame: Frame)
    requires AllClimb(w)
    ensures AllClimb(Step(w, Append(frame)))
  {
    hide Climbs, Emit;
    if !w.handle.Gone? {
      var e := Entry(w.count + 1, frame);
      var v := Step(w, Append(frame));
      forall k | 0 <= k < |w.subs| ensures Climbs(Heard(w.subs[k], e), w.log + [e]) {
        LongerLogClimbs(w.subs[k], w.log, e);
        EmitClimbs(w.subs[k], e, w.log + [e]);
      }
      forall x | x in v.ring ensures x in v.log { assert x in w.ring || x == e; }
    }
  }

  lemma StepClimbs(w: World, e: Event)
    requires AllClimb(w)
    ensures AllClimb(Step(w, e))
  {
    hide Climbs, EmitAll, Newest, Attached, Subscribed, CheckTerminal, ReadAndEmit, Finish, Emit;
    match e
    case Append(frame) => AppendClimbs(w, frame);
    case AppendOnDisk(frame) =>
      forall k | 0 <= k < |w.subs| ensures Climbs(w.subs[k], Step(w, e).log) {
        LongerLogClimbs(w.subs[k], w.log, Entry(|w.log| + 1, frame));
      }
    case AppendAs(seqNo, frame) =>
      forall k | 0 <= k < |w.subs| ensures Climbs(w.subs[k], Step(w, e).log) {
        LongerLogClimbs(w.subs[k], w.log, Entry(seqNo, frame));
      }
    case Subscribe(cursor) => SubscribedClimbs(w, cursor);
    case Attach(i) => if i < |w.subs| { AttachedClimbs(w, w.subs[i]); }
    case DrainFires(i) => if i < |w.subs| && w.subs[i].draining.Some? { FinishClimbs(w.subs[i], w.log, w.subs[i].draining.value); }
    case WatchFires(i) =>
      if i < |w.subs| {
        FinishClimbs(w.subs[i], w.log, "");
        CheckClimbs(ReadAndEmit(w.subs[i], w.log), w.log, w.status);
      }
    case _ =>
      forall k | 0 <= k < |w.subs| && k < |Step(w, e).subs| ensures Climbs(Step(w, e).subs[k], w.log) {
        FieldsDoNotMatter(w.subs[k], Step(w, e).subs[k], w.log);
      }
  }

  /** In every run, orderly or not, a subscription gets only lines of the log above its cursor, none twice, by rising numbers. */
  lemma {:induction false} EveryRunClimbs(es: seq<Event>)
    ensures AllClimb(Run(es))
  {
    hide Step, Climbs;
    if es == [] {
      assert Run(es) == START;
    } else {
      EveryRunClimbs(es[..|es| - 1]);
      StepClimbs(Run(es[..|es| - 1]), es[|es| - 1]);
    }
  }

  // ----- runs that lose lines ------------------------------------------------------------------------------

  lemma EmitNone(s: Sub)
    ensures EmitAll(s, []) == s
  {
  }

  const SHUTDOWN: seq<Event> := [
    Append("a"), Subscribe(0), Attach(0), AppendOnDisk("stop"), FinalizeOnDisk("failed"), Append("late"), DrainFires(0)]

  /** The log of the run and its one subscription before the late frame. */
  lemma BeforeLateFrame()
    ensures var w := Run(SHUTDOWN[..5]);
            && w.log == [Entry(1, "a"), Entry(2, "stop")] && w.count == 1 && w.ring == [Entry(1, "a")]
            && w.handle == Grace && w.status == Terminal("failed", false)
            && w.subs == [Sub(0, 1, Live, true, Some("failed"), false, [Entry(1, "a")], None, false)]
  {
    hide Run, EmitAll, Above;
    RunSnoc(SHUTDOWN, 0);
    RunSnoc(SHUTDOWN, 1);
    RunSnoc(SHUTDOWN, 2);
    RunSnoc(SHUTDOWN, 3);
    RunSnoc(SHUTDOWN, 4);
    var a := Entry(1, "a");
    EmitNone(NewSub(0));
    EmitSnoc(NewSub(0), [], a);
    assert [] + [a] == [a];
    var w1 := World([a], 1, [a], Active, Running, []);
    var s := Sub(0, 1, CaughtUp, false, None, false, [a], None, false);
    assert Run(SHUTDOWN[..1]) == w1;
    assert Run(SHUTDOWN[..2]) == w1.(subs := [s]);
    AboveNone([a], 1);
    EmitNone(s.(phase := Live, listening := true));
    assert Run(SHUTDOWN[..3]) == w1.(subs := [s.(phase := Live, listening := true)]);
  }

  /**
   * The shutdown finalizer writes past a live handle: a late frame of the stopping worker takes the number of a line
   * already written, and a subscriber that is told it is done at that number never gets the line.
   */
  lemma ShutdownLosesALine()
    ensures !Orderly(SHUTDOWN) && Run(SHUTDOWN).log == [Entry(1, "a"), Entry(2, "stop"), Entry(2, "late")]
    ensures |Run(SHUTDOWN).subs| == 1
    ensures var s := Run(SHUTDOWN).subs[0];
            s.delivered == [Entry(1, "a"), Entry(2, "late")] && s.done == Some(Done(2, "failed", false))
  {
    hide Run, EmitAll;
    BeforeLateFrame();
    RunSnoc(SHUTDOWN, 5);
    RunSnoc(SHUTDOWN, 6);
    assert SHUTDOWN[..7] == SHUTDOWN;
    assert !InOrder(Run(SHUTDOWN[..5]), SHUTDOWN[5]);
    var s := Sub(0, 2, Live, true, Some("failed"), false, [Entry(1, "a"), Entry(2, "late")], None, false);
    assert [Entry(1, "a")] + [Entry(2, "late")] == s.delivered;
    assert Run(SHUTDOWN[..6]).subs[0] == s && |Run(SHUTDOWN[..6]).subs| == 1;
    NothingNew(s, Run(SHUTDOWN[..6]).log);
  }

  const SYNTHESIZED: seq<Event> := [
    Append("a"), Finalize("completed", false), AppendAs(900001, "result"), Append("stop"), Subscribe(0)]

  lemma BeforeSubscribe()
    ensures var w := Run(SYNTHESIZED[..4]);
            && w.log == [Entry(1, "a"), Entry(900001, "result"), Entry(2, "stop")]
            && w.status == Terminal("completed", false) && w.subs == []
    ensures !InOrder(Run(SYNTHESIZED[..3]), SYNTHESIZED[3])
  {
    hide Run;
    RunSnoc(SYNTHESIZED, 0);
    RunSnoc(SYNTHESIZED, 1);
    RunSnoc(SYNTHESIZED, 2);
    RunSnoc(SYNTHESIZED, 3);
    var a, result := Entry(1, "a"), Entry(900001, "result");
    var w := World([a], 1, [a], Grace, Terminal("completed", false), []);
    assert Run(SYNTHESIZED[..2]) == w;
    assert Run(SYNTHESIZED[..3]) == w.(log := [a, result]);
  }

  lemma ReadsPast()
    ensures var s, log := NewSub(0), [Entry(1, "a"), Entry(900001, "result"), Entry(2, "stop")];
            EmitAll(s, log) == s.(delivered := [Entry(1, "a"), Entry(900001, "result")], lastSent := 900001)
  {
    hide EmitAll;
    var s, a, result, stop := NewSub(0), Entry(1, "a"), Entry(900001, "result"), Entry(2, "stop");
    EmitNone(s);
    EmitSnoc(s, [], a);
    EmitSnoc(s, [a], result);
    EmitSnoc(s, [a, result], stop);
    assert [] + [a] == [a] && [a] + [result] == [a, result] && [a, result] + [stop] == [a, result, stop];
  }

  /**
   * A synthesized tool result stands in the file under a number above all others before the last frames of the turn
   * are appended: a subscriber that comes after it is told that it is done and never gets those.
   */
  lemma SynthesizedHidesTheTail()
    ensures !Orderly(SYNTHESIZED)
    ensures Run(SYNTHESIZED).log == [Entry(1, "a"), Entry(900001, "result"), Entry(2, "stop")]
    ensures |Run(SYNTHESIZED).subs| == 1
    ensures var s := Run(SYNTHESIZED).subs[0];
            s.delivered == [Entry(1, "a"), Entry(900001, "result")] && s.done == Some(Done(900001, "completed", false))
  {
    hide Run, EmitAll, InOrder;
    BeforeSubscribe();
    RunSnoc(SYNTHESIZED, 4);
    assert SYNTHESIZED[..5] == SYNTHESIZED;
    ReadsPast();
    ReadAgain(NewSub(0), Run(SYNTHESIZED[..4]).log);
  }
}
