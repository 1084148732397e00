/**
 * What a subscription is delivered: exactly when a reading of the file delivers every line above a position, and, in runs
 * whose frames enter the file by rising numbers, what every subscription has at every moment.
 */
module RunDelivery {
  import opened Basics
  import opened RunFrameLog

  // ----- the lines above a number --------------------------------------------------------------------

  lemma {:induction false} AboveConcat(a: seq<Entry>, b: seq<Entry>, n: nat)
    ensures Above(a + b, n) == Above(a, n) + Above(b, n)
  {
    if b == [] {
      assert a + b == a;
    } else {
      assert (a + b)[..|a + b| - 1] == a + b[..|b| - 1];
      AboveConcat(a, b[..|b| - 1], n);
    }
  }

  lemma {:induction false} AboveAll(es: seq<Entry>, n: nat)
    requires forall k :: 0 <= k < |es| ==> es[k].seqNo > n
    ensures Above(es, n) == es
  {
    if es != [] {
      AboveAll(es[..|es| - 1], n);
      assert es == es[..|es| - 1] + [es[|es| - 1]];
    }
  }

  lemma {:induction false} AboveNone(es: seq<Entry>, n: nat)
    requires forall k :: 0 <= k < |es| ==> es[k].seqNo <= n
    ensures Above(es, n) == []
  {
    if es != [] { AboveNone(es[..|es| - 1], n); }
  }

  lemma {:induction false} AboveRises(es: seq<Entry>, n: nat)
    requires Rises(es)
    ensures Rises(Above(es, n)) && forall k :: 0 <= k < |Above(es, n)| ==> Above(es, n)[k] in es && Above(es, n)[k].seqNo > n
  {
    hide Rises, Above;
    if es != [] {
      var front, last := es[..|es| - 1], es[|es| - 1];
      assert es == front + [last];
      RisesSnoc(front, last);
      AboveRises(front, n);
      var low := Above(front, n);
      if low != [] { LastIsGreatest(front, low[|low| - 1]); }
      RisesSnoc(low, last);
      AboveSnoc(front, last, n);
    } else {
      AboveNone(es, n);
      NoneRises();
    }
  }

  lemma AboveSnoc(es: seq<Entry>, e: Entry, n: nat)
    ensures Above(es + [e], n) == if e.seqNo > n then Above(es, n) + [e] else Above(es, n)
  {
    assert (es + [e])[..|es|] == es;
  }

  lemma NoneRises()
    ensures Rises([])
  {
  }

  lemma LastIsGreatest(es: seq<Entry>, e: Entry)
    requires Rises(es) && e in es
    ensures e.seqNo <= LastNumber(es)
  {
    var k :| 0 <= k < |es| && es[k] == e;
    if k < |es| - 1 { assert es[k].seqNo < es[|es| - 1].seqNo; }
  }

  lemma NothingAboveTheLast(es: seq<Entry>, n: nat)
    requires Rises(es) && n >= LastNumber(es)
    ensures Above(es, n) == []
  {
    forall k | 0 <= k < |es| ensures es[k].seqNo <= n { LastIsGreatest(es, es[k]); }
    AboveNone(es, n);
  }

  lemma {:induction false} LastAbove(es: seq<Entry>, n: nat)
    requires Rises(es)
    ensures Above(es, n) == [] ==> LastNumber(es) <= n
    ensures Above(es, n) != [] ==> LastNumber(Above(es, n)) == LastNumber(es) > n
  {
    if es != [] && es[|es| - 1].seqNo <= n { NothingAboveTheLast(es, n); }
  }

  /** With line numbers for numbers, the lines above n are those behind the first n. */
  lemma NumberedAbove(log: seq<Entry>, n: nat)
    requires Numbered(log)
    ensures Above(log, n) == if n <= |log| then log[n..] else []
  {
    if n <= |log| {
      AboveNone(log[..n], n);
      AboveAll(log[n..], n);
      AboveConcat(log[..n], log[n..], n);
      assert log[..n] + log[n..] == log;
    } else {
      AboveNone(log, n);
    }
  }

  // ----- one reading ----------------------------------------------------------------------------------

  lemma EmitSnoc(s: Sub, es: seq<Entry>, e: Entry)
    ensures EmitAll(s, es + [e]) == Emit(EmitAll(s, es), e)
  {
    assert (es + [e])[..|es|] == es;
  }

  /** What emitting adds rises, starts above the position, and ends at the new one. */
  lemma {:induction false} EmitsRising(s: Sub, es: seq<Entry>)
    ensures var r := EmitAll(s, es);
            && s.delivered <= r.delivered && r == s.(delivered := r.delivered, lastSent := r.lastSent)
            && Rises(r.delivered[|s.delivered|..]) && (s.stopped ==> r == s)
            && r.lastSent == Max(s.lastSent, LastNumber(r.delivered[|s.delivered|..]))
  {
    hide Rises;
    if es == [] {
      NoneRises();
      assert s.delivered[|s.delivered|..] == [];
    } else {
      var r := EmitAll(s, es[..|es| - 1]);
      var e := es[|es| - 1];
      EmitsRising(s, es[..|es| - 1]);
      if !s.stopped && e.seqNo > r.lastSent {
        RisesSnoc(r.delivered[|s.delivered|..], e);
        assert (r.delivered + [e])[|s.delivered|..] == r.delivered[|s.delivered|..] + [e];
      }
    }
  }

  /** No frame that was emitted or passed by is above the position. */
  lemma {:induction false} NothingLeftAbove(s: Sub, es: seq<Entry>)
    requires !s.stopped
    ensures forall k :: 0 <= k < |es| ==> es[k].seqNo <= EmitAll(s, es).lastSent
    ensures s.lastSent <= EmitAll(s, es).lastSent
  {
    hide Rises;
    if es != [] {
      NothingLeftAbove(s, es[..|es| - 1]);
      EmitsRising(s, es[..|es| - 1]);
    }
  }

  lemma {:induction false} NothingNew(s: Sub, es: seq<Entry>)
    requires forall k :: 0 <= k < |es| ==> es[k].seqNo <= s.lastSent
    ensures EmitAll(s, es) == s
  {
    if es != [] { NothingNew(s, es[..|es| - 1]); }
  }

  lemma {:induction false} EmitsAllAbove(s: Sub, es: seq<Entry>)
    requires !s.stopped && Rises(Above(es, s.lastSent))
    ensures EmitAll(s, es).delivered == s.delivered + Above(es, s.lastSent)
    ensures EmitAll(s, es).lastSent == Max(s.lastSent, LastNumber(Above(es, s.lastSent)))
  {
    if es != [] {
      hide Rises, Above, EmitAll, Emit, LastNumber, Max;
      var front, e := es[..|es| - 1], es[|es| - 1];
      assert es == front + [e];
      AboveSnoc(front, e, s.lastSent);
      EmitSnoc(s, front, e);
      RisesSnoc(Above(front, s.lastSent), e);
      EmitsAllAbove(s, front);
      StoppedStays(s, front);
      EmitsOneAbove(s, EmitAll(s, front), Above(front, s.lastSent), e);
    }
  }

  lemma StoppedStays(s: Sub, es: seq<Entry>)
    ensures EmitAll(s, es).stopped == s.stopped
  {
    hide Rises;
    EmitsRising(s, es);
  }

  lemma EmitsOneAbove(s: Sub, r: Sub, above: seq<Entry>, e: Entry)
    requires !r.stopped && r.delivered == s.delivered + above && r.lastSent == Max(s.lastSent, LastNumber(above))
    requires e.seqNo > s.lastSent ==> e.seqNo > LastNumber(above)
    ensures var more := if e.seqNo > s.lastSent then above + [e] else above;
            Emit(r, e).delivered == s.delivered + more && Emit(r, e).lastSent == Max(s.lastSent, LastNumber(more))
  {
    assert s.delivered + (above + [e]) == (s.delivered + above) + [e];
  }

  /** A reading delivers every line above the position if and only if the numbers of those lines rise. */
  lemma ReadIsWholeExactly(s: Sub, log: seq<Entry>)
    requires !s.stopped
    ensures ReadAndEmit(s, log).delivered == s.delivered + Above(log, s.lastSent) <==> Rises(Above(log, s.lastSent))
  {
    hide Rises;
    EmitsRising(s, log);
    var r := ReadAndEmit(s, log);
    if Rises(Above(log, s.lastSent)) { EmitsAllAbove(s, log); }
    if r.delivered == s.delivered + Above(log, s.lastSent) {
      assert r.delivered[|s.delivered|..] == Above(log, s.lastSent);
    }
  }

  /** Reading the same file again adds nothing. */
  lemma ReadAgain(s: Sub, log: seq<Entry>)
    requires !s.stopped
    ensures ReadAndEmit(ReadAndEmit(s, log), log) == ReadAndEmit(s, log)
  {
    NothingLeftAbove(s, log);
    NothingNew(ReadAndEmit(s, log), log);
  }

  /** The last reading, at the end of a drain, makes a subscription done with every line above its position, exactly then. */
  lemma DrainIsWholeExactly(w: World, i: nat)
    requires i < |w.subs| && w.subs[i].draining.Some? && !w.subs[i].stopped
    ensures var s, s' := w.subs[i], Step(w, DrainFires(i)).subs[i];
            s'.done.Some? && (s'.delivered == s.delivered + Above(w.log, s.lastSent) <==> Rises(Above(w.log, s.lastSent)))
  {
    hide ReadAndEmit, Rises, Above;
    ReadIsWholeExactly(w.subs[i], w.log);
  }

  /** So does a change of a watched file. */
  lemma WatchIsWholeExactly(w: World, i: nat)
    requires i < |w.subs| && w.subs[i].phase.Watching? && !w.subs[i].stopped
    ensures var s, s' := w.subs[i], Step(w, WatchFires(i)).subs[i];
            s'.delivered == s.delivered + Above(w.log, s.lastSent) <==> Rises(Above(w.log, s.lastSent))
  {
    hide ReadAndEmit, Rises, Above;
    ReadIsWholeExactly(w.subs[i], w.log);
    ReadAgain(w.subs[i], w.log);
  }

  /** A new subscription gets every line above its cursor at once, exactly then, unless the user had stopped the run. */
  lemma SubscribeIsWholeExactly(w: World, cursor: int)
    requires w.log != [] && !(w.status.Terminal? && w.status.userStopped)
    ensures var s := Subscribed(w, cursor);
            && (s.delivered == Above(w.log, s.cursor) <==> Rises(Above(w.log, s.cursor)))
            && (s.done.Some? <==> w.status.Terminal?)
  {
    hide ReadAndEmit, Rises, Above;
    var s := NewSub(cursor);
    ReadIsWholeExactly(s, w.log);
    ReadAgain(s, w.log);
    assert [] + Above(w.log, s.cursor) == Above(w.log, s.cursor);
    KeepsTheRest(s, w.log);
  }

  lemma KeepsTheRest(s: Sub, log: seq<Entry>)
    ensures var r := ReadAndEmit(s, log); r == s.(delivered := r.delivered, lastSent := r.lastSent)
  {
    hide Rises;
    EmitsRising(s, log);
  }

  /**
   * In every run: who subscribes from the beginning gets the whole log at once if and only if every frame entered the
   * file above the number of the last line, and then so does everyone, from any cursor.
   */
  lemma WholeLogExactly(es: seq<Event>, cursor: int)
    requires var w := Run(es); w.log != [] && !(w.status.Terminal? && w.status.userStopped)
    ensures var w := Run(es);
            && (Subscribed(w, 0).delivered == w.log <==> Orderly(es))
            && (Orderly(es) ==> Subscribed(w, cursor).delivered == Above(w.log, NewSub(cursor).cursor))
  {
    hide Run, Rises, Orderly, Above, CheckTerminal, ReadAndEmit;
    var w := Run(es);
    RisesExactly(es);
    SubscribeIsWholeExactly(w, 0);
    SubscribeIsWholeExactly(w, cursor);
    AboveAll(w.log, 0);
    CursorStays(w, 0);
    CursorStays(w, cursor);
    if Orderly(es) { AboveRises(w.log, if cursor < 0 then 0 else cursor); }
  }

  lemma CursorStays(w: World, cursor: int)
    ensures Subscribed(w, cursor).cursor == if cursor < 0 then 0 else cursor
  {
    hide ReadAndEmit;
    KeepsTheRest(NewSub(cursor), w.log);
    KeepsTheRest(ReadAndEmit(NewSub(cursor), w.log), w.log);
  }
}
