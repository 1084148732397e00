/**
 * What every run keeps whose frames enter the file by rising numbers: at every moment a subscription has been delivered
 * exactly the lines above its cursor but for those above its position, and the ring holds the handle's newest lines.
 */
module RunSafety {
  import opened Basics
  import opened RunFrameLog
  import opened RunDelivery

  /** The lines above the cursor are those delivered and then those above the position. */
  predicate Whole(s: Sub, log: seq<Entry>) {
    && s.cursor <= s.lastSent && Above(log, s.cursor) == s.delivered + Above(log, s.lastSent)
    && (s.lastSent > s.cursor ==> s.lastSent <= LastNumber(log))
  }

  predicate SubOk(s: Sub, log: seq<Entry>, count: nat) {
    && Whole(s, log)
    && (s.listening ==> !s.stopped && Max(s.cursor, count) <= s.lastSent)
    && (s.draining.Some? ==> !s.stopped)
    && (s.done.Some? ==> s.stopped && s.done.value.lastSeq == s.lastSent)
  }

  /** A live handle numbered the first lines of the file, and its ring holds the newest of them. */
  predicate HandleOk(w: World) {
    !w.handle.Gone? ==> w.count <= |w.log| && Numbered(w.log[..w.count]) && w.ring == Newest(w.log[..w.count], RING_MAX)
  }

  predicate Inv(w: World) {
    && Rises(w.log) && HandleOk(w)
    && (w.handle.Active? ==> w.status.Running?) && (w.handle.Grace? ==> w.status.Terminal?)
    && forall k :: 0 <= k < |w.subs| ==> SubOk(w.subs[k], w.log, w.count) && (w.handle.Gone? ==> !w.subs[k].listening)
  }

  // ----- readings ----------------------------------------------------------------------------------------

  /** A reading brings a subscription to the last line. */
  lemma ReadBringsUpToDate(s: Sub, log: seq<Entry>)
    requires Rises(log) && !s.stopped && Whole(s, log)
    ensures var r := ReadAndEmit(s, log);
            && r == s.(delivered := Above(log, s.cursor), lastSent := Max(s.cursor, LastNumber(log)))
            && Whole(r, log) && s.delivered <= r.delivered && s.lastSent <= r.lastSent
  {
    hide Rises, Above, EmitAll, LastNumber;
    AboveRises(log, s.lastSent);
    EmitsAllAbove(s, log);
    EmitsRising(s, log);
    LastAbove(log, s.lastSent);
    LastOfNone();
    NothingAboveTheLast(log, Max(s.cursor, LastNumber(log)));
  }

  lemma LastOfNone()
    ensures LastNumber([]) == 0
  {
  }

  lemma FinishIsComplete(s: Sub, log: seq<Entry>, count: nat, status: string)
    requires Rises(log) && !s.stopped && Whole(s, log)
    ensures var r := Finish(s, log, status);
            && SubOk(r, log, count) && r.done == Some(Done(Max(s.cursor, LastNumber(log)), status, false))
            && r.delivered == Above(log, s.cursor) && s.delivered <= r.delivered && r.cursor == s.cursor && !r.listening
  {
    hide Rises, Above, ReadAndEmit, LastNumber;
    ReadBringsUpToDate(s, log);
  }

  /** What one step may do to one subscription. */
  predicate Evolves(s: Sub, s': Sub, log': seq<Entry>) {
    && s'.cursor == s.cursor && s.delivered <= s'.delivered
    && (s.done.Some? ==> s'.done == s.done && s'.delivered == s.delivered)
    && (s.done.None? && s'.done.Some? ==>
          !s'.done.value.userStopped && s'.delivered == Above(log', s.cursor) && s'.lastSent == Max(s.cursor, LastNumber(log')))
  }

  lemma CheckIsOk(s: Sub, log: seq<Entry>, count: nat, status: Status)
    requires Rises(log) && SubOk(s, log, count) && s.done.None?
    ensures var r := CheckTerminal(s, log, status);
            SubOk(r, log, count) && Evolves(s, r, log) && (r.listening ==> s.listening)
  {
    hide Rises, Above, Finish, LastNumber, Whole;
    if !s.stopped && status.Terminal? { FinishIsComplete(s, log, count, status.name); }
  }

  lemma NewIsWhole(cursor: int, log: seq<Entry>)
    ensures Whole(NewSub(cursor), log)
  {
  }

  lemma SubscribedIsOk(w: World, cursor: int)
    requires Inv(w)
    ensures var s := Subscribed(w, cursor);
            && SubOk(s, w.log, w.count) && !s.listening
            && (s.done.Some? && !s.done.value.userStopped ==>
                  s.delivered == Above(w.log, s.cursor) && s.lastSent == Max(s.cursor, LastNumber(w.log)))
            && (s.done.Some? && s.done.value.userStopped ==>
                  s.delivered == [] && w.status.Terminal? && w.status.userStopped)
  {
    hide Finish, ReadAndEmit, Rises, Above, Whole, HandleOk, CheckTerminal, LastNumber;
    var s := NewSub(cursor);
    NewIsWhole(cursor, w.log);
    WholeWhenStopped(s, w.log);
    ReadBringsUpToDate(s, w.log);
    CheckIsOk(ReadAndEmit(s, w.log), w.log, w.count, w.status);
  }

  lemma WholeWhenStopped(s: Sub, log: seq<Entry>)
    requires Whole(s, log)
    ensures forall r: Sub :: r.cursor == s.cursor && r.lastSent == s.lastSent && r.delivered == s.delivered ==> Whole(r, log)
  {
  }

  // ----- the ring --------------------------------------------------------------------------------------------

  /** The ring above a cursor is the end of what the handle appended: what it lacks, its oldest entry shows. */
  lemma RingBridges(log: seq<Entry>, ring: seq<Entry>, n: nat) returns (a: nat)
    requires Numbered(log) && ring == Newest(log, RING_MAX)
    ensures a <= |log| && Above(ring, n) == log[a..]
    ensures a < |log| ==> a >= n
    ensures a == |log| ==> n >= |log|
  {
    hide Above;
    var start := if |log| <= RING_MAX then 0 else |log| - RING_MAX;
    var k := if n <= start then 0 else if n - start <= |ring| then n - start else |ring|;
    a := start + k;
    var low, high := ring[..k], ring[k..];
    assert high == log[a..];
    assert forall i :: 0 <= i < k ==> low[i] == log[start + i];
    assert forall i :: 0 <= i < |high| ==> high[i] == log[a + i];
    AboveNone(low, n);
    AboveAll(high, n);
    AboveConcat(low, high, n);
    assert low + high == ring;
  }

  /** Unless it shows a gap, the ring above a cursor is all that the handle appended above it. */
  lemma RingIsWhole(own: seq<Entry>, ring: seq<Entry>, n: nat)
    requires Numbered(own) && ring == Newest(own, RING_MAX)
    ensures var above := Above(ring, n);
            (above == [] || above[0].seqNo <= n + 1) ==> above == Above(own, n)
    ensures forall k :: 0 <= k < |Above(ring, n)| ==> Above(ring, n)[k] in own
  {
    hide Above, Newest;
    var a := RingBridges(own, ring, n);
    NumberedAbove(own, n);
    if Above(ring, n) != [] { assert own[a..][0] == own[a]; }
  }

  /** The handle's own lines above a position, and those written past it. */
  lemma OwnAndPast(log: seq<Entry>, count: nat, n: nat)
    requires Rises(log) && count <= |log| && Numbered(log[..count])
    ensures Above(log, n) == Above(log[..count], n) + Above(log[count..], n)
    ensures Above(log, Max(n, count)) == if n >= count then Above(log, n) else Above(log[count..], n)
  {
    hide Above, Rises;
    var own, past := log[..count], log[count..];
    assert own + past == log;
    RisesByOne(log);
    AboveConcat(own, past, n);
    AboveConcat(own, past, count);
    AboveNone(own, count);
    if n < count {
      AboveAll(past, count);
      AboveAll(past, n);
    }
  }

  /** Bridging from disk and ring brings a subscription at least to the handle's count. */
  lemma BridgeIsComplete(w: World, s: Sub)
    requires Rises(w.log) && HandleOk(w) && !w.handle.Gone? && !s.stopped && Whole(s, w.log)
    ensures var ring := Above(w.ring, s.lastSent);
            var bridged := if ring != [] && ring[0].seqNo > s.lastSent + 1 then ReadAndEmit(s, w.log) else s;
            var r := EmitAll(bridged, ring);
            && r == s.(delivered := r.delivered, lastSent := r.lastSent) && s.delivered <= r.delivered
            && Whole(r, w.log) && r.lastSent >= Max(s.cursor, w.count)
  {
    hide ReadAndEmit, EmitAll, Above, Newest, Rises;
    var own := w.log[..w.count];
    var ring := Above(w.ring, s.lastSent);
    RingIsWhole(own, w.ring, s.lastSent);
    RisesByOne(w.log);
    if ring != [] && ring[0].seqNo > s.lastSent + 1 {
      ReadBringsUpToDate(s, w.log);
      var bridged := ReadAndEmit(s, w.log);
      forall k | 0 <= k < |ring| ensures ring[k].seqNo <= bridged.lastSent {
        assert ring[k] in w.log;
        LastIsGreatest(w.log, ring[k]);
      }
      NothingNew(bridged, ring);
    } else {
      EmitsOwn(w, s);
    }
  }

  lemma EmitsOwn(w: World, s: Sub)
    requires Rises(w.log) && w.count <= |w.log| && Numbered(w.log[..w.count]) && !s.stopped && Whole(s, w.log)
    ensures var r := EmitAll(s, Above(w.log[..w.count], s.lastSent));
            && r == s.(delivered := r.delivered, lastSent := Max(s.lastSent, w.count)) && s.delivered <= r.delivered
            && Whole(r, w.log)
  {
    hide EmitAll, Above, Rises, Whole, Numbered, LastNumber;
    var own, n := w.log[..w.count], s.lastSent;
    var above := Above(own, n);
    NumberedRises(own);
    AboveRises(own, n);
    AboveAll(above, n);
    EmitsAllAbove(s, above);
    EmitsRising(s, above);
    LastAbove(own, n);
    LastOfNone();
    OwnIsWhole(w, s, EmitAll(s, above));
  }

  lemma OwnIsWhole(w: World, s: Sub, r: Sub)
    requires Rises(w.log) && w.count <= |w.log| && Numbered(w.log[..w.count]) && Whole(s, w.log)
    requires r.cursor == s.cursor && r.delivered == s.delivered + Above(w.log[..w.count], s.lastSent)
    requires r.lastSent == Max(s.lastSent, w.count)
    ensures Whole(r, w.log)
  {
    hide Above, Rises, Numbered;
    var n := s.lastSent;
    var own, past := Above(w.log[..w.count], n), Above(w.log[w.count..], n);
    OwnAndPast(w.log, w.count, n);
    RisesByOne(w.log);
    NumberedAbove(w.log[..w.count], n);
    assert (s.delivered + own) + past == s.delivered + (own + past);
    assert n >= w.count ==> own == [] && s.delivered + own == s.delivered;
  }

  lemma AttachedIsOk(w: World, s: Sub)
    requires Inv(w) && SubOk(s, w.log, w.count) && (w.handle.Gone? ==> !s.listening)
    ensures var r := Attached(w, s);
            SubOk(r, w.log, w.count) && Evolves(s, r, w.log) && (w.handle.Gone? ==> !r.listening)
  {
    hide ReadAndEmit, EmitAll, CheckTerminal, Above, Rises, HandleOk, LastNumber, Whole;
    WholeWhenStopped(s, w.log);
    if !s.stopped && s.phase == CaughtUp && !w.handle.Gone? {
      var live := s.(phase := Live, listening := true);
      BridgeIsComplete(w, live);
      var ring := Above(w.ring, s.lastSent);
      var bridged := if ring != [] && ring[0].seqNo > s.lastSent + 1 then ReadAndEmit(live, w.log) else live;
      CheckIsOk(EmitAll(bridged, ring), w.log, w.count, w.status);
    }
  }

  // ----- every step ----------------------------------------------------------------------------------------------

  lemma NewestOfMore(es: seq<Entry>, e: Entry, n: nat)
    requires n > 0
    ensures Newest(Newest(es, n) + [e], n) == Newest(es + [e], n)
  {
    if |es| >= n {
      assert Newest(es, n) + [e] == (es + [e])[|es| - n..];
      assert (es + [e])[|es| - n..][1..] == (es + [e])[|es| + 1 - n..];
    }
  }

  /** A line with a number above the last is above every position that is not a cursor ahead of the log. */
  lemma LongerLog(s: Sub, log: seq<Entry>, count: nat, e: Entry)
    requires SubOk(s, log, count) && e.seqNo > LastNumber(log)
    ensures SubOk(s, log + [e], count)
  {
    hide Above;
    AboveSnoc(log, e, s.cursor);
    AboveSnoc(log, e, s.lastSent);
    assert s.delivered + (Above(log, s.lastSent) + [e]) == (s.delivered + Above(log, s.lastSent)) + [e];
  }

  /** A listener of a handle that no other line is ahead of hears the next line. */
  lemma HearsNext(s: Sub, log: seq<Entry>, e: Entry)
    requires Rises(log) && e.seqNo > LastNumber(log) && e.seqNo > 0 && SubOk(s, log, e.seqNo - 1)
    ensures SubOk(Heard(s, e), log + [e], e.seqNo) && s.delivered <= Heard(s, e).delivered
  {
    hide Above, Rises;
    AboveSnoc(log, e, s.cursor);
    AboveSnoc(log, e, s.lastSent);
    LongerLog(s, log, e.seqNo - 1, e);
    if s.listening && e.seqNo > s.lastSent {
      NothingAboveTheLast(log, s.lastSent);
      RisesSnoc(log, e);
      NothingAboveTheLast(log + [e], e.seqNo);
      assert s.delivered + [] == s.delivered;
    }
  }

  lemma DoneDoesNotListen(s: Sub, log: seq<Entry>, count: nat)
    requires SubOk(s, log, count)
    ensures s.done.Some? ==> s.stopped && !s.listening && s.draining.None?
  {
  }

  /** While no line is ahead of it, a live handle numbered the whole file. */
  lemma OwnIsAll(w: World)
    requires Rises(w.log) && HandleOk(w) && !w.handle.Gone? && w.count + 1 > LastNumber(w.log)
    ensures w.count == |w.log| && w.log[..w.count] == w.log
  {
    RisesByOne(w.log);
  }

  lemma AppendKeepsHandle(w: World, frame: Frame)
    requires Rises(w.log) && HandleOk(w) && InOrder(w, Append(frame)) && !w.handle.Gone?
    ensures HandleOk(Step(w, Append(frame))) && Rises(Step(w, Append(frame)).log)
  {
    hide Rises, Newest, HeardAll;
    var e := Entry(w.count + 1, frame);
    OwnIsAll(w);
    RisesSnoc(w.log, e);
    NewestOfMore(w.log, e, RING_MAX);
    assert (w.log + [e])[..w.count + 1] == w.log + [e];
  }

  lemma AppendKeeps(w: World, frame: Frame)
    requires Inv(w) && InOrder(w, Append(frame))
    ensures Inv(Step(w, Append(frame)))
    ensures forall k :: 0 <= k < |w.subs| ==> Evolves(w.subs[k], Step(w, Append(frame)).subs[k], Step(w, Append(frame)).log)
  {
    hide SubOk, Newest, Rises, HandleOk;
    if !w.handle.Gone? {
      var e := Entry(w.count + 1, frame);
      AppendKeepsHandle(w, frame);
      forall k | 0 <= k < |w.subs|
        ensures SubOk(Heard(w.subs[k], e), w.log + [e], w.count + 1) && Evolves(w.subs[k], Heard(w.subs[k], e), w.log + [e])
      {
        HearsNext(w.subs[k], w.log, e);
        DoneDoesNotListen(w.subs[k], w.log, w.count);
      }
    }
  }

  lemma WritePastKeeps(w: World, e: Entry)
    requires Inv(w) && e.seqNo > LastNumber(w.log)
    ensures Inv(w.(log := w.log + [e]))
  {
    hide SubOk, Newest, Rises, LastNumber;
    RisesSnoc(w.log, e);
    if w.count <= |w.log| { assert (w.log + [e])[..w.count] == w.log[..w.count]; }
    forall k | 0 <= k < |w.subs| ensures SubOk(w.subs[k], w.log + [e], w.count) {
      LongerLog(w.subs[k], w.log, w.count, e);
    }
  }

  /** A step on one subscription. */
  lemma SubStepKeeps(w: World, e: Event)
    requires Inv(w) && (e.Attach? || e.DrainFires? || e.WatchFires? || e.Unsubscribe?) && e.i < |w.subs|
    ensures var s' := Step(w, e).subs[e.i];
            SubOk(s', w.log, w.count) && Evolves(w.subs[e.i], s', w.log) && (w.handle.Gone? ==> !s'.listening)
  {
    hide ReadAndEmit, Attached, Finish, CheckTerminal, Rises, Above, HandleOk, LastNumber, Whole;
    var s := w.subs[e.i];
    DoneDoesNotListen(s, w.log, w.count);
    WholeWhenStopped(s, w.log);
    match e
    case Attach(i) => AttachedIsOk(w, s);
    case DrainFires(i) => if s.draining.Some? && !s.stopped { FinishIsComplete(s, w.log, w.count, s.draining.value); }
    case WatchFires(i) =>
      if s.phase.Watching? && !s.stopped {
        ReadBringsUpToDate(s, w.log);
        ReadIsOk(s, w.log, w.count);
        CheckIsOk(ReadAndEmit(s, w.log), w.log, w.count, w.status);
      }
    case _ =>
  }

  lemma ReadIsOk(s: Sub, log: seq<Entry>, count: nat)
    requires Rises(log) && SubOk(s, log, count) && !s.stopped
    ensures SubOk(ReadAndEmit(s, log), log, count)
  {
    hide ReadAndEmit, Rises, Above, LastNumber;
    ReadBringsUpToDate(s, log);
  }

  /** Every step that puts frames into the file by rising numbers keeps the invariant, and subscriptions only move forward. */
  lemma StepKeeps(w: World, e: Event)
    requires Inv(w) && InOrder(w, e)
    ensures Inv(Step(w, e)) && |w.subs| <= |Step(w, e).subs|
    ensures forall k :: 0 <= k < |w.subs| ==> Evolves(w.subs[k], Step(w, e).subs[k], Step(w, e).log)
  {
    hide Newest, Attached, Subscribed, ReadAndEmit, Finish, Rises, Above, CheckTerminal, LastNumber;
    match e
    case Append(frame) => AppendKeeps(w, frame);
    case AppendOnDisk(frame) => WritePastKeeps(w, Entry(|w.log| + 1, frame));
    case AppendAs(seqNo, frame) => WritePastKeeps(w, Entry(seqNo, frame));
    case Subscribe(cursor) => SubscribedIsOk(w, cursor);
    case Finalize(_, _) =>
    case FinalizeOnDisk(_) =>
    case GraceExpires =>
    case Restart =>
    case _ => if e.i < |w.subs| { SubStepKeeps(w, e); }
  }

  /** Along every orderly run, from the start, the invariant holds. */
  lemma {:induction false} RunKeeps(es: seq<Event>)
    requires Orderly(es)
    ensures Inv(Run(es))
  {
    hide Inv, Step, Orderly, InOrder;
    if es == [] {
      StartIsOk();
    } else {
      OrderlyFront(es);
      RunKeeps(es[..|es| - 1]);
      StepKeeps(Run(es[..|es| - 1]), es[|es| - 1]);
    }
  }

  lemma StartIsOk()
    ensures Inv(START)
  {
  }

  // ----- what a subscriber sees over a whole run ------------------------------------------------------

  /**
   * At any point of any orderly run each subscription has been delivered exactly the lines above its cursor but for
   * those above its position, once each and in order; while it listens it has those of its handle, and all of them if no
   * line is ahead of the handle; and the ring holds the newest of the handle's lines.
   */
  lemma DeliveredExactlyOnce(es: seq<Event>, i: nat)
    requires Orderly(es) && i < |Run(es).subs|
    ensures var w, s := Run(es), Run(es).subs[i];
            && Rises(w.log) && Above(w.log, s.cursor) == s.delivered + Above(w.log, s.lastSent)
            && (s.listening ==> !w.handle.Gone? && Max(s.cursor, w.count) <= s.lastSent)
            && (s.listening && w.count >= LastNumber(w.log) ==> s.delivered == Above(w.log, s.cursor))
            && (s.done.Some? ==> s.done.value.lastSeq == s.lastSent)
            && (!w.handle.Gone? ==>
                  w.count <= |w.log| && Numbered(w.log[..w.count]) && w.ring == Newest(w.log[..w.count], 256))
  {
    hide Run, Rises, Newest, LastNumber, Above, Orderly;
    RunKeeps(es);
    var w, s := Run(es), Run(es).subs[i];
    if s.listening && w.count >= LastNumber(w.log) { NothingAboveTheLast(w.log, s.lastSent); }
  }

  /** Exactly the lines from+1 .. to, in order. */
  predicate ExactlyTheFrames(delivered: seq<Entry>, log: seq<Entry>, from: nat, to: nat) {
    && (from < to ==> to <= |log| && delivered == log[from..to])
    && (to <= from ==> delivered == [])
  }

  /** With line numbers for numbers, those are the lines from the cursor to the position; a listener has them all. */
  lemma DeliveredByLine(es: seq<Event>, i: nat)
    requires ByLine(es) && i < |Run(es).subs|
    ensures var w, s := Run(es), Run(es).subs[i];
            && Numbered(w.log) && ExactlyTheFrames(s.delivered, w.log, s.cursor, s.lastSent)
            && (s.listening && !Behind(w) ==> s.lastSent == Max(s.cursor, |w.log|))
  {
    hide Run, Newest, Above, Orderly, ByLine, Numbered, Rises, LastNumber;
    NumberedExactly(es);
    RunKeeps(es);
    var w, s := Run(es), Run(es).subs[i];
    NumberedRises(w.log);
    NumberedAbove(w.log, s.cursor);
    NumberedAbove(w.log, s.lastSent);
    if s.cursor < s.lastSent { assert w.log[s.cursor..] == w.log[s.cursor..s.lastSent] + w.log[s.lastSent..]; }
  }

  /** The step that makes a subscription done has delivered every line above its cursor, unless the user stopped the run. */
  lemma DoneIsComplete(es: seq<Event>, i: nat)
    requires Orderly(es) && es != [] && i < |Run(es[..|es| - 1]).subs| && Run(es[..|es| - 1]).subs[i].done.None?
    ensures i < |Run(es).subs|
    ensures var w, s := Run(es), Run(es).subs[i];
            s.done.Some? ==> s.delivered == Above(w.log, s.cursor) && s.lastSent == Max(s.cursor, LastNumber(w.log))
  {
    hide Step, Inv, Orderly, InOrder, Above, LastNumber;
    OrderlyFront(es);
    RunKeeps(es[..|es| - 1]);
    StepKeeps(Run(es[..|es| - 1]), es[|es| - 1]);
  }

  /** A subscription that is done at once got everything logged, or nothing because the user had stopped the run. */
  lemma DoneAtOnce(es: seq<Event>, cursor: int)
    requires Orderly(es)
    ensures var w, s := Run(es), Subscribed(Run(es), cursor);
            s.done.Some? ==>
              if s.done.value.userStopped then w.status.Terminal? && w.status.userStopped && s.delivered == []
              else s.delivered == Above(w.log, s.cursor) && s.lastSent == Max(s.cursor, LastNumber(w.log))
  {
    hide Run, Subscribed, Inv, Above, LastNumber;
    RunKeeps(es);
    SubscribedIsOk(Run(es), cursor);
  }
}
