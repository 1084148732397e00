/**
 * How a run ends for its subscribers, in every run, orderly or not: who listens when the run is finalized is told so,
 * who comes later is told at once, and who has been told, or has left, gets nothing more.
 */
module RunEnding {
  import opened Basics
  import opened RunFrameLog
  import opened RunDelivery
  import opened RunSafety
  import opened RunDisorder

  // ----- one end, and one status --------------------------------------------------------------------------

  /** A run that has ended keeps its status for good. */
  lemma {:induction false} StatusIsFinal(es: seq<Event>, more: seq<Event>)
    requires Run(es).status.Terminal?
    ensures Run(es + more).status == Run(es).status
  {
    hide Run, HeardAll, Subscribed, Attached, Finish, CheckTerminal, Newest, ReadAndEmit;
    RunFits(es);
    if more == [] {
      assert es + more == es;
    } else {
      var front := more[..|more| - 1];
      StatusIsFinal(es, front);
      RunFits(es + front);
      RunMore(es + front, more[|more| - 1]);
      assert es + more == (es + front) + [more[|more| - 1]];
    }
  }

  lemma RunMore(es: seq<Event>, e: Event)
    ensures Run(es + [e]) == Step(Run(es), e)
  {
    assert (es + [e])[..|es|] == es;
  }

  /** In every run a handle in use means a running run, and one in its grace window an ended one. */
  predicate HandleFits(w: World) {
    |w.ring| <= RING_MAX && (w.handle.Active? ==> w.status.Running?) && (w.handle.Grace? ==> w.status.Terminal?)
  }

  lemma StepFits(w: World, e: Event)
    requires HandleFits(w)
    ensures HandleFits(Step(w, e))
  {
    hide Attached, Subscribed, Finish, CheckTerminal;
  }

  lemma {:induction false} RunFits(es: seq<Event>)
    ensures HandleFits(Run(es))
  {
    hide Step, HandleFits;
    if es == [] {
      StartFits();
    } else {
      RunFits(es[..|es| - 1]);
      StepFits(Run(es[..|es| - 1]), es[|es| - 1]);
    }
  }

  lemma StartFits()
    ensures HandleFits(START)
  {
  }

  /** Only a live handle is finalized: it enters its grace window, under the status given, and everything else stays. */
  lemma FinalizeMeans(w: World, name: string, userStopped: bool)
    ensures var v := Step(w, Finalize(name, userStopped));
            if w.handle != Active then v == w
            else v == w.(handle := Grace, status := Terminal(name, userStopped), subs := v.subs) && |v.subs| == |w.subs|
  {
  }

  /** By its record a run without a live handle is finalized if it still reads as running, and that is all that changes. */
  lemma FinalizeOnDiskMeans(w: World, name: string)
    ensures var v := Step(w, FinalizeOnDisk(name));
            if w.handle == Active then v == Step(w, Finalize(name, false))
            else if w.status == Running then v == w.(status := Terminal(name, false))
            else v == w
  {
  }

  /** When the grace window ends the handle goes, with its ring and its listeners; at no other time does a timer do that. */
  lemma GraceMeans(w: World)
    ensures var v := Step(w, GraceExpires);
            if w.handle != Grace then v == w
            else
              && v == w.(handle := Gone, ring := [], subs := v.subs) && |v.subs| == |w.subs|
              && forall k :: 0 <= k < |w.subs| ==> v.subs[k] == w.subs[k].(listening := false)
  {
  }

  /** A new process has no handle and no ring, and every subscription of the old one has stopped; the files stay. */
  lemma RestartMeans(w: World)
    ensures var v := Step(w, Restart);
            && v == w.(handle := Gone, ring := [], subs := v.subs) && |v.subs| == |w.subs|
            && forall k :: 0 <= k < |w.subs| ==> v.subs[k] == w.subs[k].(stopped := true, listening := false, draining := None)
  {
  }

  // ----- listening and draining ----------------------------------------------------------------------------

  /** A listener is live, and it drains if and only if the run has ended, and then under its status. */
  predicate DrainsRightly(s: Sub, w: World) {
    s.listening ==>
      && !s.stopped && s.phase.Live? && !w.handle.Gone?
      && s.draining == if w.handle.Grace? && w.status.Terminal? then Some(w.status.name) else None
  }

  /** One that has only caught up neither listens nor drains. */
  predicate WaitsRightly(s: Sub) {
    s.phase.CaughtUp? ==> !s.listening && s.draining.None?
  }

  predicate AllDrainRightly(w: World) {
    forall k :: 0 <= k < |w.subs| ==> DrainsRightly(w.subs[k], w) && WaitsRightly(w.subs[k])
  }

  lemma AttachedDrains(w: World, s: Sub)
    requires HandleFits(w) && DrainsRightly(s, w) && WaitsRightly(s)
    ensures DrainsRightly(Attached(w, s), w) && WaitsRightly(Attached(w, s))
  {
    hide EmitAll, Above, Rises;
    var live := s.(phase := Live, listening := true);
    var ring := Above(w.ring, s.lastSent);
    EmitsRising(live, w.log);
    var bridged := if ring != [] && ring[0].seqNo > s.lastSent + 1 then ReadAndEmit(live, w.log) else live;
    EmitsRising(bridged, ring);
    EmitsRising(EmitAll(bridged, ring), w.log);
  }

  lemma SubscribedWaits(w: World, cursor: int)
    ensures DrainsRightly(Subscribed(w, cursor), w) && WaitsRightly(Subscribed(w, cursor))
  {
    hide EmitAll, Rises;
    var s := NewSub(cursor);
    EmitsRising(s, w.log);
    EmitsRising(ReadAndEmit(s, w.log), w.log);
  }

  lemma ReadingDrains(w: World, s: Sub)
    requires DrainsRightly(s, w) && WaitsRightly(s)
    ensures DrainsRightly(Finish(s, w.log, ""), w)
    ensures var r := CheckTerminal(ReadAndEmit(s, w.log), w.log, w.status); DrainsRightly(r, w) && WaitsRightly(r)
  {
    hide EmitAll, Rises;
    EmitsRising(s, w.log);
    EmitsRising(ReadAndEmit(s, w.log), w.log);
  }

  lemma FinishedIsSilent(s: Sub, log: seq<Entry>, status: string, w: World)
    ensures DrainsRightly(Finish(s, log, status), w) && WaitsRightly(Finish(s, log, status))
  {
    hide ReadAndEmit;
  }

  lemma StepDrains(w: World, e: Event)
    requires HandleFits(w) && AllDrainRightly(w)
    ensures AllDrainRightly(Step(w, e))
  {
    hide EmitAll, Newest, Subscribed, Attached, Finish, CheckTerminal, ReadAndEmit;
    match e
    case Subscribe(cursor) => SubscribedWaits(w, cursor);
    case Attach(i) => if i < |w.subs| { AttachedDrains(w, w.subs[i]); }
    case DrainFires(i) =>
      if i < |w.subs| && w.subs[i].draining.Some? { FinishedIsSilent(w.subs[i], w.log, w.subs[i].draining.value, w); }
    case WatchFires(i) => if i < |w.subs| { ReadingDrains(w, w.subs[i]); }
    case _ =>
  }

  /** In every run: who listens is live, and drains exactly when the run has ended. */
  lemma {:induction false} RunDrains(es: seq<Event>)
    ensures AllDrainRightly(Run(es))
  {
    hide Step, HandleFits, DrainsRightly, WaitsRightly;
    if es == [] {
      assert Run(es) == START;
    } else {
      RunDrains(es[..|es| - 1]);
      RunFits(es[..|es| - 1]);
      StepDrains(Run(es[..|es| - 1]), es[|es| - 1]);
    }
  }

  // ----- a listener is told ---------------------------------------------------------------------------------

  predicate Drains(w: World, i: nat, name: string) {
    i < |w.subs| && !w.subs[i].stopped && w.subs[i].phase.Live? && w.subs[i].draining == Some(name)
  }

  /** An event that ends the run through its handle. */
  predicate Ends(e: Event, name: string) {
    (e.Finalize? && e.name == name) || (e.FinalizeOnDisk? && e.name == name)
  }

  lemma EndArmsDrain(w: World, e: Event, name: string, i: nat)
    requires AllDrainRightly(w) && w.handle.Active? && i < |w.subs| && w.subs[i].listening && Ends(e, name)
    ensures Drains(Step(w, e), i, name)
  {
  }

  /** What takes a draining subscription away before its timer fires. */
  predicate Leaves(e: Event, i: nat) {
    e == Unsubscribe(i) || e == DrainFires(i) || e.Restart?
  }

  lemma DrainStays(w: World, e: Event, i: nat, name: string)
    requires Drains(w, i, name) && !Leaves(e, i)
    ensures Drains(Step(w, e), i, name)
  {
    hide EmitAll, Newest, Subscribed, Finish, CheckTerminal, ReadAndEmit;
  }

  lemma {:induction false} DrainLasts(es: seq<Event>, more: seq<Event>, i: nat, name: string)
    requires Drains(Run(es), i, name) && forall k :: 0 <= k < |more| ==> !Leaves(more[k], i)
    ensures Drains(Run(es + more), i, name)
  {
    hide Run, Step, Drains, Leaves;
    if more == [] {
      assert es + more == es;
    } else {
      var front := more[..|more| - 1];
      DrainLasts(es, front, i, name);
      RunMore(es + front, more[|more| - 1]);
      assert es + more == (es + front) + [more[|more| - 1]];
      DrainStays(Run(es + front), more[|more| - 1], i, name);
    }
  }

  lemma DrainReports(w: World, i: nat, name: string)
    requires Drains(w, i, name)
    ensures var s := Step(w, DrainFires(i)).subs[i];
            s.stopped && s.done.Some? && s.done.value.status == name && !s.done.value.userStopped
  {
    hide ReadAndEmit;
  }

  /**
   * Whoever listens when the run is finalized is told so by the drain timer, under the status given, whatever happens
   * in between short of its leaving or the end of the process; and in an orderly run it has by then been delivered
   * every line above its cursor, those appended after the end included.
   */
  lemma ListenersAreTold(es: seq<Event>, e: Event, name: string, more: seq<Event>, i: nat)
    requires Run(es).handle.Active? && i < |Run(es).subs| && Run(es).subs[i].listening && Ends(e, name)
    requires forall k :: 0 <= k < |more| ==> !Leaves(more[k], i)
    ensures var all := es + [e] + more + [DrainFires(i)];
            && i < |Run(all).subs|
            && var w, s := Run(all), Run(all).subs[i];
               && s.stopped && s.done.Some? && s.done.value.status == name && !s.done.value.userStopped
               && (Orderly(all) ==> s.delivered == Above(w.log, s.cursor))
  {
    hide Run, Step, Leaves, Orderly, Above, Rises, Drains, LastNumber, Quiet;
    RunDrains(es);
    RunMore(es, e);
    EndArmsDrain(Run(es), e, name, i);
    DrainLasts(es + [e], more, i, name);
    var before, all := es + [e] + more, es + [e] + more + [DrainFires(i)];
    RunMore(before, DrainFires(i));
    DrainReports(Run(before), i, name);
    assert all[..|all| - 1] == before;
    RunIsQuiet(before);
    StillThere(Run(before), i, name);
    if Orderly(all) { DoneIsComplete(all, i); }
  }

  lemma StillThere(w: World, i: nat, name: string)
    requires Drains(w, i, name) && forall k :: 0 <= k < |w.subs| ==> Quiet(w.subs[k])
    ensures i < |w.subs| == |Step(w, DrainFires(i)).subs| && w.subs[i].done.None?
  {
  }

  // ----- who comes later, and who has left -----------------------------------------------------------------------

  /** A subscription to a run that has ended is told at once, and nothing is delivered if the user stopped the run. */
  lemma LatecomersAreTold(w: World, cursor: int)
    requires w.status.Terminal? && w.log != []
    ensures var s := Subscribed(w, cursor);
            && s.stopped && s.done.Some? && s.done.value.status == w.status.name
            && s.done.value.userStopped == w.status.userStopped && !s.notFound
            && (w.status.userStopped ==> s.delivered == [])
  {
    hide EmitAll, Rises;
    EmitsRising(NewSub(cursor), w.log);
    EmitsRising(ReadAndEmit(NewSub(cursor), w.log), w.log);
  }

  /** A run without a line is reported as not found, and only such a run. */
  lemma NotFoundExactly(w: World, cursor: int)
    ensures var s := Subscribed(w, cursor);
            && (s.notFound <==> w.log == [])
            && (s.notFound ==> s.stopped && s.delivered == [] && s.done.None?)
            && (!s.stopped ==> s.phase.CaughtUp? && s.done.None?)
  {
    hide EmitAll, Rises;
    var s := NewSub(cursor);
    EmitsRising(s, w.log);
    EmitsRising(ReadAndEmit(s, w.log), w.log);
  }

  /** Attaching connects: to the handle if there is one, else to the file. */
  lemma AttachConnects(w: World, i: nat)
    requires i < |w.subs| && w.subs[i].phase.CaughtUp? && !w.subs[i].stopped
    ensures var s := Step(w, Attach(i)).subs[i];
            if w.handle.Gone? then s.phase.Watching? && !s.stopped
            else if w.status.Terminal? then s.stopped && s.done.Some? && s.done.value.status == w.status.name
            else s.listening && !s.stopped
  {
    hide EmitAll, Above, Rises;
    var s := w.subs[i];
    var live := s.(phase := Live, listening := true);
    var ring := Above(w.ring, s.lastSent);
    EmitsRising(live, w.log);
    var bridged := if ring != [] && ring[0].seqNo > s.lastSent + 1 then ReadAndEmit(live, w.log) else live;
    EmitsRising(bridged, ring);
    EmitsRising(EmitAll(bridged, ring), w.log);
  }

  /** A watched file that changes after the end of the run brings the news of it. */
  lemma WatchersAreTold(w: World, i: nat)
    requires i < |w.subs| && w.subs[i].phase.Watching? && !w.subs[i].stopped && w.status.Terminal?
    ensures var s := Step(w, WatchFires(i)).subs[i];
            s.stopped && s.done.Some? && s.done.value.status == w.status.name
  {
    hide EmitAll, Rises;
    EmitsRising(w.subs[i], w.log);
  }

  /** Leaving, or the end of the process, stops a subscription. */
  lemma LeavingStops(w: World, e: Event, i: nat)
    requires i < |w.subs| && (e == Unsubscribe(i) || e.Restart?)
    ensures i < |Step(w, e).subs| && Step(w, e).subs[i] == w.subs[i].(stopped := true, listening := false, draining := None)
  {
  }

  lemma StoppedIsSilent(w: World, e: Event, i: nat)
    requires i < |w.subs| && w.subs[i].stopped && Quiet(w.subs[i])
    ensures i < |Step(w, e).subs| && Step(w, e).subs[i] == w.subs[i]
  {
    hide Newest, Subscribed, Finish, ReadAndEmit;
  }

  /** One that has stopped stays as it is for good. */
  lemma {:induction false} NothingAfterStop(es: seq<Event>, more: seq<Event>, i: nat)
    requires i < |Run(es).subs| && Run(es).subs[i].stopped
    ensures i < |Run(es + more).subs| && Run(es + more).subs[i] == Run(es).subs[i]
  {
    hide Run, Step, Quiet;
    if more == [] {
      assert es + more == es;
    } else {
      var front := more[..|more| - 1];
      NothingAfterStop(es, front, i);
      RunIsQuiet(es + front);
      RunMore(es + front, more[|more| - 1]);
      assert es + more == (es + front) + [more[|more| - 1]];
      StoppedIsSilent(Run(es + front), more[|more| - 1], i);
    }
  }
}
