/**
 * What a client of the cursors gets, said in terms of its own requests alone: the frames it stamped, the numbers it
 * acknowledged and asked for, and the clock.
 */
module CursorMeaning {
  import opened Basics
  import opened ReplayLog
  import opened ConversationCursors

  // ----- the stamped frames and the acknowledgements of a run --------------------------------------------

  /** The stamps of a conversation, in order. */
  function Stamps(es: seq<Event>, c: ConvId): (stamps: seq<Event>)
    ensures forall k :: 0 <= k < |stamps| ==> stamps[k].Stamp? && stamps[k].c == c
  {
    if es == [] then []
    else
      var e := es[|es| - 1];
      Stamps(es[..|es| - 1], c) + (if e.Stamp? && e.c == c then [e] else [])
  }

  lemma {:induction false} StampsAre(es: seq<Event>, c: ConvId)
    ensures |History(es, c)| == |Stamps(es, c)|
    ensures forall k :: 0 <= k < |Stamps(es, c)| ==>
              History(es, c)[k].payload == Stamps(es, c)[k].payload && History(es, c)[k].tsMs == Stamps(es, c)[k].now
  {
    if es != [] {
      StampsAre(es[..|es| - 1], c);
    }
  }

  /** Some request of the run acknowledges the n-th frame of the conversation, or a later one. */
  predicate AckedBy(es: seq<Event>, c: ConvId, n: nat) {
    exists i :: 0 <= i < |es| && es[i].Ack? && es[i].c == c && es[i].raw.Finite? && es[i].raw.value >= n as real
  }

  /** The recorded ack is at or above a number exactly when the number is 0 or some request acknowledged it. */
  lemma {:induction false} AckedMeans(es: seq<Event>, c: ConvId, n: nat)
    ensures n <= Acked(es, c) <==> n == 0 || AckedBy(es, c, n)
  {
    if es != [] {
      var front, last := es[..|es| - 1], es[|es| - 1];
      AckedMeans(front, c, n);
      assert AckedBy(es, c, n) <==>
             AckedBy(front, c, n) || (last.Ack? && last.c == c && last.raw.Finite? && last.raw.value >= n as real)
      by {
        if AckedBy(front, c, n) {
          var i :| 0 <= i < |front| && front[i].Ack? && front[i].c == c && front[i].raw.Finite? && front[i].raw.value >= n as real;
          assert es[i] == front[i];
        }
      }
      if last.Ack? { NormalizedReaches(last.raw, n); }
    }
  }

  lemma NormalizedReaches(raw: RawSeq, n: nat)
    ensures n <= NormalizeSeq(raw) <==> n == 0 || (raw.Finite? && raw.value >= n as real)
  {
  }

  /** Every ack is answered with the numbers assigned and acknowledged by then, this request included. */
  lemma AckAnswers(cfg: Config, es: seq<Event>, i: nat, start: int, n: nat)
    requires InOrder(es, start) && i < |es| && es[i].Ack? && NoCrash(es[..i])
    ensures var r := ReplyAt(cfg, es, i);
            && r.Recorded? && r.sidecar.lastAssigned == |Stamps(es[..i], es[i].c)|
            && (n <= r.sidecar.lastAck <==> n == 0 || AckedBy(es[..i + 1], es[i].c, n))
  {
    var before, c := es[..i], es[i].c;
    RepliesAreIdeal(cfg, es, i, start);
    SequencesAreDense(before, c);
    StampsAre(before, c);
    assert es[..i + 1][..i] == before;
    AckedMeans(es[..i + 1], c, n);
  }

  // ----- resume ------------------------------------------------------------------------------------------

  /** Frame k (from 0) of a conversation: not acknowledged, not older than the time to live, and among the newest. */
  predicate Available(cfg: Config, before: seq<Event>, c: ConvId, now: int, k: nat)
    requires k < |Stamps(before, c)|
  {
    && !AckedBy(before, c, k + 1)
    && Stamps(before, c)[k].now >= now - cfg.ttlMs
    && (cfg.maxFrames == 0 || k + cfg.maxFrames >= |Stamps(before, c)|)
  }

  lemma DeadIsUnavailable(cfg: Config, before: seq<Event>, c: ConvId, now: int, k: nat)
    requires NoCrash(before) && k < |Stamps(before, c)|
    ensures |History(before, c)| == |Stamps(before, c)|
    ensures Dead(History(before, c), k, Acked(before, c), now, cfg) <==> !Available(cfg, before, c, now, k)
  {
    StampsAre(before, c);
    SequencesAreDense(before, c);
    AckedMeans(before, c, k + 1);
  }

  /** The frames stamped number n+1 and on, as replayed. */
  predicate AllAfter(frames: seq<Stamped>, stamps: seq<Event>, c: ConvId, n: nat) {
    && |frames| == (if n <= |stamps| then |stamps| - n else 0)
    && forall k :: 0 <= k < |frames| ==>
         stamps[n + k].Stamp? && frames[k] == Stamped(c, n + k + 1, stamps[n + k].payload, true)
  }

  /**
   * The whole of resume, without a failed write: the number asked for is taken down to a whole one; the caller is told
   * how many frames there are and which is the oldest available; it gets all frames after its number if it has them all
   * or the next one is available, and is told to start over otherwise.
   */
  lemma ResumeMeans(cfg: Config, es: seq<Event>, i: nat, start: int, n: nat)
    requires InOrder(es, start) && i < |es| && es[i].Resume? && NoCrash(es[..i]) && StandsFor(es[i].raw, n)
    ensures ReplyAt(cfg, es, i).Resumed?
    ensures var r, c, now, before := ReplyAt(cfg, es, i).result, es[i].c, es[i].now, es[..i];
            var stamps := Stamps(before, c);
            && r.afterSeq == n && r.lastSeq == |stamps|
            && (r.ok <==> n >= |stamps| || Available(cfg, before, c, now, n))
            && (r.ok ==> !r.cursorExpired && AllAfter(r.frames, stamps, c, n))
            && (!r.ok ==> r.cursorExpired && r.frames == [])
            && (r.oldestSeq.None? ==> forall k :: 0 <= k < |stamps| ==> !Available(cfg, before, c, now, k))
            && (r.oldestSeq.Some? ==>
                  && 1 <= r.oldestSeq.value <= |stamps|
                  && forall k :: 0 <= k < |stamps| ==> (Available(cfg, before, c, now, k) <==> k + 1 >= r.oldestSeq.value))
  {
    hide Available, Replayable, Dead, InOrder;
    var c, now, before := es[i].c, es[i].now, es[..i];
    NormalizedStandsFor(es[i].raw);
    ResumeNeverSkips(cfg, es, i, start);
    ResumeIsExact(cfg, es, i, start);
    ResumeRefusedExactly(cfg, es, i, start);
    StampsAre(before, c);
    if n < |Stamps(before, c)| { DeadIsUnavailable(cfg, before, c, now, n); }
    OldestMeans(cfg, es, i, start);
  }

  lemma OldestMeans(cfg: Config, es: seq<Event>, i: nat, start: int)
    requires InOrder(es, start) && i < |es| && es[i].Resume? && NoCrash(es[..i])
    ensures ReplyAt(cfg, es, i).Resumed?
    ensures var r, c, now, before := ReplyAt(cfg, es, i).result, es[i].c, es[i].now, es[..i];
            var stamps := Stamps(before, c);
            && (r.oldestSeq.None? ==> forall k :: 0 <= k < |stamps| ==> !Available(cfg, before, c, now, k))
            && (r.oldestSeq.Some? ==>
                  && 1 <= r.oldestSeq.value <= |stamps|
                  && forall k :: 0 <= k < |stamps| ==> (Available(cfg, before, c, now, k) <==> k + 1 >= r.oldestSeq.value))
  {
    hide Available, Replayable, Dead, InOrder;
    var c, now, before := es[i].c, es[i].now, es[..i];
    RepliesAreIdeal(cfg, es, i, start);
    PrefixInOrder(es, i, start);
    HistoryOrdered(before, c, start);
    SequencesAreDense(before, c);
    var first := ReplayableIsAliveSuffix(History(before, c), Acked(before, c), now, cfg);
    StampsAre(before, c);
    forall k | 0 <= k < |Stamps(before, c)| ensures Available(cfg, before, c, now, k) <==> k >= first {
      DeadIsUnavailable(cfg, before, c, now, k);
    }
  }

  /** So for a whole number n: an ok reply carries exactly frames n+1 to the last. */
  lemma ResumeAfterWhole(cfg: Config, es: seq<Event>, i: nat, start: int, n: nat)
    requires InOrder(es, start) && i < |es| && es[i].Resume? && es[i].raw == Finite(n as real) && NoCrash(es[..i])
    ensures ReplyAt(cfg, es, i).Resumed?
    ensures var r := ReplyAt(cfg, es, i).result; r.ok ==> AllAfter(r.frames, Stamps(es[..i], es[i].c), es[i].c, n)
  {
    hide Available, InOrder;
    ResumeMeans(cfg, es, i, start, n);
  }

  /** A resume whose run may have crashed takes the number asked for down to a whole one all the same. */
  lemma ResumeTakesTheNumber(cfg: Config, es: seq<Event>, i: nat, start: int)
    requires InOrder(es, start) && i < |es| && es[i].Resume?
    ensures ReplyAt(cfg, es, i).Resumed? && StandsFor(es[i].raw, ReplyAt(cfg, es, i).result.afterSeq)
  {
    ResumeNeverSkips(cfg, es, i, start);
    NormalizedStandsFor(es[i].raw);
  }

  /** What a stamp emits: the frame itself, under the next number. */
  lemma StampEmits(cfg: Config, es: seq<Event>, i: nat, start: int)
    requires InOrder(es, start) && i < |es| && es[i].Stamp? && NoCrash(es[..i])
    ensures ReplyAt(cfg, es, i) == Reply.Emitted(Stamped(es[i].c, |Stamps(es[..i], es[i].c)| + 1, es[i].payload, false))
  {
    RepliesAreIdeal(cfg, es, i, start);
    SequencesAreDense(es[..i], es[i].c);
    StampsAre(es[..i], es[i].c);
  }
}
