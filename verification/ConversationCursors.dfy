/**
 * Conversation cursors as a run of requests: per-conversation sequence numbers,
 * acknowledgements and replay logs that are compacted from time to time.
 *
 * What a client may observe is specified by three functions of the event list alone
 * (`Assigned`, `Acked`, `History`), which know neither a cache nor compaction.
 */
module ConversationCursors {
  import opened Basics
  import opened ReplayLog

  // ----- what the disk holds, and one step of the service -------------------------------

  datatype Disk = Disk(sidecars: map<ConvId, Sidecar>, logs: map<ConvId, seq<Entry>>)

  function Lookup(sidecars: map<ConvId, Sidecar>, c: ConvId): Sidecar {
    if c in sidecars then sidecars[c] else Sidecar(0, 0)
  }

  function SidecarOf(d: Disk, c: ConvId): Sidecar {
    Lookup(d.sidecars, c)
  }

  function LogOf(d: Disk, c: ConvId): seq<Entry> {
    if c in d.logs then d.logs[c] else []
  }

  /** Writing a log file; one without frames is removed. */
  function PutLog(logs: map<ConvId, seq<Entry>>, c: ConvId, log: seq<Entry>): map<ConvId, seq<Entry>> {
    if log == [] then logs - {c} else logs[c := log]
  }

  function ResumeFrom(replay: seq<Entry>, c: ConvId, s: Sidecar, afterSeq: nat): ResumeResult {
    var oldest := if replay == [] then None else Some(replay[0].convSeq);
    if afterSeq < s.lastAssigned && (oldest == None || afterSeq + 1 < oldest.value) then
      ResumeResult(false, true, afterSeq, oldest, s.lastAssigned, [])
    else
      ResumeResult(true, false, afterSeq, oldest, s.lastAssigned, Above(replay, c, afterSeq))
  }

  /** The entries with a sequence number above `afterSeq`, as replayed frames, in order. */
  function Above(log: seq<Entry>, c: ConvId, afterSeq: nat): seq<Stamped> {
    if log == [] then []
    else
      var last := log[|log| - 1];
      Above(log[..|log| - 1], c, afterSeq)
      + (if last.convSeq > afterSeq then [Stamped(c, last.convSeq, last.payload, true)] else [])
  }

  /**
   * `compacts` says whether the stamp also ran a compaction: that depends on a counter kept
   * only in the cache. `StampThenCrash` is a process death after the sidecar was written and before the
   * frame was logged or emitted.
   */
  datatype Event =
    | Stamp(c: ConvId, payload: Payload, now: int, later: int, compacts: bool)
    | Ack(c: ConvId, raw: RawSeq)
    | Resume(c: ConvId, raw: RawSeq, now: int)
    | StampThenCrash(c: ConvId)

  datatype Reply = Emitted(frame: Stamped) | Recorded(sidecar: Sidecar) | Resumed(result: ResumeResult) | Lost

  function NextSidecar(s: Sidecar, e: Event): Sidecar {
    match e
    case Stamp(_, _, _, _, _) => s.(lastAssigned := s.lastAssigned + 1)
    case StampThenCrash(_) => s.(lastAssigned := s.lastAssigned + 1)
    case Ack(_, raw) => s.(lastAck := Max(s.lastAck, NormalizeSeq(raw)))
    case Resume(_, _, _) => s
  }

  function NextLog(cfg: Config, log: seq<Entry>, s: Sidecar, e: Event): seq<Entry>
    requires e.Stamp?
  {
    var longer := log + [Entry(s.lastAssigned + 1, e.now, e.payload)];
    if e.compacts then Replayable(longer, s.lastAck, e.later, cfg) else longer
  }

  function StepDisk(cfg: Config, d: Disk, e: Event): Disk {
    var s := SidecarOf(d, e.c);
    if e.Resume? then d
    else
      Disk(d.sidecars[e.c := NextSidecar(s, e)],
           if e.Stamp? then PutLog(d.logs, e.c, NextLog(cfg, LogOf(d, e.c), s, e)) else d.logs)
  }

  /** The reply, given the conversation's sidecar and replay log. */
  function Answer(cfg: Config, s: Sidecar, log: seq<Entry>, e: Event): Reply {
    match e
    case Stamp(c, payload, _, _, _) => Reply.Emitted(Stamped(c, s.lastAssigned + 1, payload, false))
    case Ack(_, raw) => Recorded(NextSidecar(s, e))
    case Resume(c, raw, now) => Resumed(ResumeFrom(Replayable(log, s.lastAck, now, cfg), c, s, NormalizeSeq(raw)))
    case StampThenCrash(_) => Lost
  }

  function Max(a: nat, b: nat): nat { if a < b then b else a }

  /** The disk after a whole run from an empty one. */
  function After(cfg: Config, es: seq<Event>): Disk {
    if es == [] then Disk(map[], map[])
    else StepDisk(cfg, After(cfg, es[..|es| - 1]), es[|es| - 1])
  }

  function ReplyAt(cfg: Config, es: seq<Event>, i: nat): Reply
    requires i < |es|
  {
    Answer(cfg, SidecarOf(After(cfg, es[..i]), es[i].c), LogOf(After(cfg, es[..i]), es[i].c), es[i])
  }

  // ----- the reference: no cache, no compaction ---------------------------------------

  function Assigned(es: seq<Event>, c: ConvId): nat {
    if es == [] then 0
    else
      var last := es[|es| - 1];
      Assigned(es[..|es| - 1], c) + (if (last.Stamp? || last.StampThenCrash?) && last.c == c then 1 else 0)
  }

  function Acked(es: seq<Event>, c: ConvId): nat {
    if es == [] then 0
    else
      var last := es[|es| - 1];
      var before := Acked(es[..|es| - 1], c);
      if last.Ack? && last.c == c then Max(before, NormalizeSeq(last.raw)) else before
  }

  /** Every frame ever logged for conversation c. */
  function History(es: seq<Event>, c: ConvId): seq<Entry> {
    if es == [] then []
    else
      var front, last := es[..|es| - 1], es[|es| - 1];
      History(front, c)
      + (if last.Stamp? && last.c == c then [Entry(Assigned(front, c) + 1, last.now, last.payload)] else [])
  }

  /** The latest clock reading of the run, for a clock that starts at `start`. */
  function Clock(es: seq<Event>, start: int): int {
    if es == [] then start
    else
      var last := es[|es| - 1];
      if last.Stamp? then last.later else if last.Resume? then last.now else Clock(es[..|es| - 1], start)
  }

  /** The clock never runs backwards. */
  predicate InOrder(es: seq<Event>, start: int) {
    es == [] ||
    var front, last := es[..|es| - 1], es[|es| - 1];
    && InOrder(front, start)
    && (last.Stamp? ==> Clock(front, start) <= last.now <= last.later)
    && (last.Resume? ==> Clock(front, start) <= last.now)
  }

  predicate HistoryInv(es: seq<Event>, c: ConvId, start: int) {
    var h := History(es, c);
    && Ordered(h)
    && (forall i :: 0 <= i < |h| ==> 1 <= h[i].convSeq <= Assigned(es, c) && h[i].tsMs <= Clock(es, start))
  }

  /** Logged sequence numbers strictly increase, never exceed the last one assigned, and are stamped in time order. */
  lemma {:induction false} HistoryOrdered(es: seq<Event>, c: ConvId, start: int)
    requires InOrder(es, start)
    ensures HistoryInv(es, c, start)
  {
    if es != [] {
      HistoryOrdered(es[..|es| - 1], c, start);
    }
  }

  /** The disk and the reference agree, up to frames that no later read could return. */
  predicate Faithful(cfg: Config, es: seq<Event>, c: ConvId, start: int) {
    && SidecarOf(After(cfg, es), c) == Sidecar(Assigned(es, c), Acked(es, c))
    && DropsOnlyDead(LogOf(After(cfg, es), c), History(es, c), Acked(es, c), Clock(es, start), cfg)
  }

  lemma {:induction false} RunIsFaithful(cfg: Config, es: seq<Event>, c: ConvId, start: int)
    requires InOrder(es, start)
    ensures Faithful(cfg, es, c, start)
  {
    if es != [] {
      var front, e := es[..|es| - 1], es[|es| - 1];
      RunIsFaithful(cfg, front, c, start);
      HistoryOrdered(es, c, start);
      if e.Stamp? && e.c == c {
        StampIsFaithful(cfg, es, c, start);
      } else {
        StepAt(cfg, After(cfg, front), e, c);
        assert After(cfg, es) == StepDisk(cfg, After(cfg, front), e);
        assert History(es, c) == History(front, c);
        LaterDead(LogOf(After(cfg, front), c), History(front, c), Acked(front, c), Clock(front, start),
                  Acked(es, c), Clock(es, start), cfg);
      }
    }
  }

  lemma StepAt(cfg: Config, d: Disk, e: Event, c: ConvId)
    ensures SidecarOf(StepDisk(cfg, d, e), c) == if e.c == c then NextSidecar(SidecarOf(d, c), e) else SidecarOf(d, c)
    ensures LogOf(StepDisk(cfg, d, e), c) ==
              if e.Stamp? && e.c == c then NextLog(cfg, LogOf(d, c), SidecarOf(d, c), e) else LogOf(d, c)
  {
  }

  lemma StampIsFaithful(cfg: Config, es: seq<Event>, c: ConvId, start: int)
    requires es != [] && es[|es| - 1].Stamp? && es[|es| - 1].c == c
    requires InOrder(es, start)
    requires Faithful(cfg, es[..|es| - 1], c, start)
    requires HistoryInv(es, c, start)
    ensures Faithful(cfg, es, c, start)
  {
    var front, e := es[..|es| - 1], es[|es| - 1];
    StepAt(cfg, After(cfg, front), e, c);
    GrownLog(cfg, LogOf(After(cfg, front), c), History(front, c), Entry(Assigned(front, c) + 1, e.now, e.payload),
             Acked(front, c), Clock(front, start), e.later);
  }

  /** Appending a frame, and then perhaps compacting, drops only dead frames. */
  lemma GrownLog(cfg: Config, log: seq<Entry>, full: seq<Entry>, entry: Entry, ack: nat, now: int, later: int)
    requires DropsOnlyDead(log, full, ack, now, cfg) && now <= later
    requires Ordered(full + [entry])
    ensures DropsOnlyDead(log + [entry], full + [entry], ack, later, cfg)
    ensures DropsOnlyDead(Replayable(log + [entry], ack, later, cfg), full + [entry], ack, later, cfg)
  {
    DeadStaysDead(log, full, [entry], ack, now, ack, later, cfg);
    SameReplay(log + [entry], full + [entry], ack, later, cfg);
  }

  // ----- what clients observe -------------------------------------------------------

  /** The answer the reference gives: read the full history, never compacted. */
  function IdealReply(cfg: Config, es: seq<Event>, i: nat): Reply
    requires i < |es|
  {
    var before, e := es[..i], es[i];
    Answer(cfg, Sidecar(Assigned(before, e.c), Acked(before, e.c)), History(before, e.c), e)
  }

  lemma {:induction false} PrefixInOrder(es: seq<Event>, i: nat, start: int)
    requires InOrder(es, start) && i <= |es|
    ensures InOrder(es[..i], start)
  {
    if i < |es| {
      PrefixInOrder(es[..|es| - 1], i, start);
      assert es[..|es| - 1][..i] == es[..i];
    } else {
      assert es[..i] == es;
    }
  }

  /** Every reply of every run is the one the uncached, uncompacted reference gives. */
  lemma RepliesAreIdeal(cfg: Config, es: seq<Event>, i: nat, start: int)
    requires InOrder(es, start) && i < |es|
    ensures ReplyAt(cfg, es, i) == IdealReply(cfg, es, i)
  {
    var before, e := es[..i], es[i];
    PrefixInOrder(es, i, start);
    RunIsFaithful(cfg, before, e.c, start);
    if e.Resume? {
      PrefixInOrder(es, i + 1, start);
      assert es[..i + 1][..i] == before;
      HistoryOrdered(before, e.c, start);
      var log, full, ack := LogOf(After(cfg, before), e.c), History(before, e.c), Acked(before, e.c);
      LaterDead(log, full, ack, Clock(before, start), ack, e.now, cfg);
      SameReplay(log, full, ack, e.now, cfg);
    }
  }

  /** The same requests, up to when the log gets compacted. */
  predicate SameRequests(es: seq<Event>, es': seq<Event>) {
    && |es| == |es'|
    && forall i :: 0 <= i < |es| ==>
         es[i] == es'[i] || (es[i].Stamp? && es'[i].Stamp? && es[i] == es'[i].(compacts := es[i].compacts))
  }

  lemma {:induction false} ReferenceIgnoresCompaction(es: seq<Event>, es': seq<Event>, c: ConvId)
    requires SameRequests(es, es')
    ensures Assigned(es, c) == Assigned(es', c) && Acked(es, c) == Acked(es', c) && History(es, c) == History(es', c)
  {
    if es != [] {
      ReferenceIgnoresCompaction(es[..|es| - 1], es'[..|es| - 1], c);
    }
  }

  /**
   * Compaction is invisible: two runs with the same requests get the same replies, whatever compactions
   * each of them ran (and so whatever the cache evicted, which resets the compaction counter).
   */
  lemma CompactionIsInvisible(cfg: Config, es: seq<Event>, es': seq<Event>, i: nat, start: int)
    requires InOrder(es, start) && InOrder(es', start)
    requires SameRequests(es, es') && i < |es|
    ensures ReplyAt(cfg, es, i) == ReplyAt(cfg, es', i)
  {
    RepliesAreIdeal(cfg, es, i, start);
    RepliesAreIdeal(cfg, es', i, start);
    ReferenceIgnoresCompaction(es[..i], es'[..i], es[i].c);
  }

  lemma {:induction false} AboveOfSuffix(log: seq<Entry>, k: nat, c: ConvId, afterSeq: nat)
    requires k <= |log|
    requires forall i :: 0 <= i < k ==> log[i].convSeq <= afterSeq
    ensures Above(log[k..], c, afterSeq) == Above(log, c, afterSeq)
  {
    if k < |log| {
      AboveOfSuffix(log[..|log| - 1], k, c, afterSeq);
      assert log[k..][..|log| - 1 - k] == log[..|log| - 1][k..];
    } else {
      NothingAbove(log, c, afterSeq);
    }
  }

  lemma {:induction false} NothingAbove(log: seq<Entry>, c: ConvId, afterSeq: nat)
    requires forall i :: 0 <= i < |log| ==> log[i].convSeq <= afterSeq
    ensures Above(log, c, afterSeq) == []
  {
    if log != [] { NothingAbove(log[..|log| - 1], c, afterSeq); }
  }

  /**
   * Resume never skips silently, crashes included: a successful resume returns every frame ever logged
   * above the cursor, in order and once each; a refused one returns nothing and really is behind.
   */
  lemma ResumeNeverSkips(cfg: Config, es: seq<Event>, i: nat, start: int)
    requires InOrder(es, start) && i < |es| && es[i].Resume?
    ensures ReplyAt(cfg, es, i).Resumed?
    ensures var r := ReplyAt(cfg, es, i).result;
            var e, before := es[i], es[..i];
            && r.lastSeq == Assigned(before, e.c)
            && StandsFor(e.raw, r.afterSeq)
            && (r.ok ==> !r.cursorExpired && r.frames == Above(History(before, e.c), e.c, r.afterSeq))
            && (!r.ok ==> r.cursorExpired && r.frames == [] && r.afterSeq < r.lastSeq)
  {
    RepliesAreIdeal(cfg, es, i, start);
    var e, before := es[i], es[..i];
    PrefixInOrder(es, i, start);
    HistoryOrdered(before, e.c, start);
    var h, ack, after := History(before, e.c), Acked(before, e.c), NormalizeSeq(e.raw);
    NormalizedStandsFor(e.raw);
    var k := ReplayableIsAliveSuffix(h, ack, e.now, cfg);
    if ReplyAt(cfg, es, i).result.ok {
      if after >= Assigned(before, e.c) {
        NothingAbove(h, e.c, after);
        NothingAbove(h[k..], e.c, after);
      } else {
        AboveOfSuffix(h, k, e.c, after);
      }
    }
  }

  predicate NoCrash(es: seq<Event>) {
    forall i :: 0 <= i < |es| ==> !es[i].StampThenCrash?
  }

  /** Without a crash the frames are numbered 1, 2, 3, ... per conversation, whatever the others do. */
  lemma {:induction false} SequencesAreDense(es: seq<Event>, c: ConvId)
    requires NoCrash(es)
    ensures |History(es, c)| == Assigned(es, c)
    ensures forall k :: 0 <= k < |History(es, c)| ==> History(es, c)[k].convSeq == k + 1
  {
    if es != [] { SequencesAreDense(es[..|es| - 1], c); }
  }

  /** `frames` are the payloads number afterSeq+1 to |log|, under those numbers. */
  predicate ExactTail(frames: seq<Stamped>, log: seq<Entry>, c: ConvId, afterSeq: nat) {
    && |frames| == (if afterSeq <= |log| then |log| - afterSeq else 0)
    && forall k :: 0 <= k < |frames| ==> frames[k] == Stamped(c, afterSeq + 1 + k, log[afterSeq + k].payload, true)
  }

  lemma {:induction false} AboveIsTail(log: seq<Entry>, c: ConvId, afterSeq: nat)
    requires forall k :: 0 <= k < |log| ==> log[k].convSeq == k + 1
    ensures ExactTail(Above(log, c, afterSeq), log, c, afterSeq)
  {
    if log != [] {
      var front, last := log[..|log| - 1], log[|log| - 1];
      AboveIsTail(front, c, afterSeq);
      var a := Above(front, c, afterSeq);
      if afterSeq < |log| {
        assert Above(log, c, afterSeq) == a + [Stamped(c, |log|, last.payload, true)];
      } else {
        assert Above(log, c, afterSeq) == a == [];
      }
    }
  }

  /** Reading a dense history: which cursors can still be served, and with what. */
  lemma DenseResume(cfg: Config, h: seq<Entry>, c: ConvId, ack: nat, now: int, afterSeq: nat)
    requires Ordered(h) && forall k :: 0 <= k < |h| ==> h[k].convSeq == k + 1
    ensures var r := ResumeFrom(Replayable(h, ack, now, cfg), c, Sidecar(|h|, ack), afterSeq);
            r.ok <==> afterSeq >= |h| || !Dead(h, afterSeq, ack, now, cfg)
  {
    var k := ReplayableIsAliveSuffix(h, ack, now, cfg);
  }

  /**
   * With no failed write, a successful resume carries exactly the frames afterSeq+1 .. lastSeq, in order, once each.
   */
  lemma ResumeIsExact(cfg: Config, es: seq<Event>, i: nat, start: int)
    requires InOrder(es, start) && i < |es| && es[i].Resume? && NoCrash(es[..i])
    ensures ReplyAt(cfg, es, i).Resumed?
    ensures var r, e, h := ReplyAt(cfg, es, i).result, es[i], History(es[..i], es[i].c);
            |h| == r.lastSeq && StandsFor(e.raw, r.afterSeq) && (r.ok ==> ExactTail(r.frames, h, e.c, r.afterSeq))
  {
    ResumeNeverSkips(cfg, es, i, start);
    SequencesAreDense(es[..i], es[i].c);
    NormalizedStandsFor(es[i].raw);
    AboveIsTail(History(es[..i], es[i].c), es[i].c, NormalizeSeq(es[i].raw));
  }

  /**
   * With no failed write, a resume is refused exactly when the caller is behind and the next frame it needs is
   * acknowledged, expired or no longer among the newest `maxFrames`.
   */
  lemma ResumeRefusedExactly(cfg: Config, es: seq<Event>, i: nat, start: int)
    requires InOrder(es, start) && i < |es| && es[i].Resume? && NoCrash(es[..i])
    ensures ReplyAt(cfg, es, i).Resumed?
    ensures var after, h := ReplyAt(cfg, es, i).result.afterSeq, History(es[..i], es[i].c);
            StandsFor(es[i].raw, after) && (ReplyAt(cfg, es, i).result.ok <==>
              after >= |h| || !Dead(h, after, Acked(es[..i], es[i].c), es[i].now, cfg))
  {
    NormalizedStandsFor(es[i].raw);
    var before, c := es[..i], es[i].c;
    RepliesAreIdeal(cfg, es, i, start);
    SequencesAreDense(before, c);
    PrefixInOrder(es, i, start);
    HistoryOrdered(before, c, start);
    DenseResume(cfg, History(before, c), c, Acked(before, c), es[i].now, NormalizeSeq(es[i].raw));
  }

  /** No two frames of a conversation are ever emitted with the same number, even across crashes. */
  lemma {:induction false} EmittedSeqsIncrease(cfg: Config, es: seq<Event>, i: nat, j: nat, start: int)
    requires InOrder(es, start) && i < j < |es|
    requires es[i].Stamp? && es[j].Stamp? && es[i].c == es[j].c
    ensures ReplyAt(cfg, es, i).Emitted? && ReplyAt(cfg, es, j).Emitted?
    ensures ReplyAt(cfg, es, i).frame.convSeq < ReplyAt(cfg, es, j).frame.convSeq
    ensures NoCrash(es[..j]) ==> ReplyAt(cfg, es, j).frame.convSeq == |History(es[..j], es[j].c)| + 1
  {
    RepliesAreIdeal(cfg, es, i, start);
    RepliesAreIdeal(cfg, es, j, start);
    assert es[..i + 1][..i] == es[..i];
    AssignedGrows(es[..j], i + 1, es[i].c);
    assert es[..j][..i + 1] == es[..i + 1];
    if NoCrash(es[..j]) { SequencesAreDense(es[..j], es[j].c); }
  }

  lemma {:induction false} AssignedGrows(es: seq<Event>, i: nat, c: ConvId)
    requires i <= |es|
    ensures Assigned(es[..i], c) <= Assigned(es, c)
  {
    if i < |es| {
      AssignedGrows(es[..|es| - 1], i, c);
      assert es[..|es| - 1][..i] == es[..i];
    } else {
      assert es[..i] == es;
    }
  }
}
