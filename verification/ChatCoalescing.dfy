/**
 * One reply per bubble: the batch coalescer, which buffers chunks and joins them once per
 * group, and the streaming path, which writes as it goes and keeps stop and usage for the end.
 */
module ChatCoalescing {
  import opened Basics

  datatype MessageType =
    | AssistantMessage | UserMessage | Ping | ReasoningMessage | ToolCallMessage | ToolReturnMessage
    | ApprovalRequestMessage | StopReason | UsageStatistics | OtherType(name: string)

  /** An absent or empty otid is "". */
  datatype Frame = Frame(
    messageType: MessageType, id: Option<string>, otid: string, content: Option<string>, dateMs: int, seqId: Option<int>, rest: string)

  function Text(f: Frame): string {
    if f.content.Some? then f.content.value else ""
  }

  /** `f` goes into the same bubble as the frame before it. */
  predicate Continues(prev: Frame, f: Frame) {
    prev.messageType.AssistantMessage? && f.messageType.AssistantMessage? && prev.otid != "" && prev.otid == f.otid
  }

  function Extend(prev: Frame, f: Frame): Frame {
    prev.(content := Some(Text(prev) + Text(f)), id := f.id, dateMs := f.dateMs, seqId := f.seqId)
  }

  /** The plain fold: append each frame, or its text to the bubble before it. */
  function Coalesced(fs: seq<Frame>): seq<Frame> {
    if fs == [] then []
    else
      var out, f := Coalesced(Front(fs)), Last(fs);
      if out != [] && Continues(Last(out), f) then Front(out) + [Extend(Last(out), f)] else out + [f]
  }

  // ----- what coalescing keeps ----------------------------------------------------------------

  /** All assistant text, in order. */
  function AssistantText(fs: seq<Frame>): string {
    if fs == [] then ""
    else if Last(fs).messageType.AssistantMessage? then AssistantText(Front(fs)) + Text(Last(fs))
    else AssistantText(Front(fs))
  }

  function NotAssistant(fs: seq<Frame>): seq<Frame> {
    if fs == [] then []
    else if Last(fs).messageType.AssistantMessage? then NotAssistant(Front(fs))
    else NotAssistant(Front(fs)) + [Last(fs)]
  }

  lemma Snoc(fs: seq<Frame>, f: Frame)
    ensures Front(fs + [f]) == fs && Last(fs + [f]) == f
  {
  }

  lemma KeptSnoc(fs: seq<Frame>, f: Frame)
    ensures AssistantText(fs + [f]) == AssistantText(fs) + (if f.messageType.AssistantMessage? then Text(f) else "")
    ensures NotAssistant(fs + [f]) == NotAssistant(fs) + (if f.messageType.AssistantMessage? then [] else [f])
  {
    Snoc(fs, f);
  }

  lemma JoinKeeps(out: seq<Frame>, f: Frame)
    requires out != [] && Continues(Last(out), f)
    ensures var joined := Front(out) + [Extend(Last(out), f)];
            AssistantText(joined) == AssistantText(out) + Text(f) && NotAssistant(joined) == NotAssistant(out)
  {
    hide AssistantText, NotAssistant;
    assert out == Front(out) + [Last(out)];
    KeptSnoc(Front(out), Last(out));
    KeptSnoc(Front(out), Extend(Last(out), f));
    assert AssistantText(Front(out)) + (Text(Last(out)) + Text(f)) == (AssistantText(Front(out)) + Text(Last(out))) + Text(f);
  }

  lemma CoalescedSnoc(fs: seq<Frame>, f: Frame)
    ensures var out := Coalesced(fs);
            Coalesced(fs + [f]) ==
              if out != [] && Continues(Last(out), f) then Front(out) + [Extend(Last(out), f)] else out + [f]
  {
    Snoc(fs, f);
  }

  /** No assistant text is lost or reordered, and every other frame is kept in order. */
  lemma {:induction false} CoalescedKeeps(fs: seq<Frame>)
    ensures AssistantText(Coalesced(fs)) == AssistantText(fs)
    ensures NotAssistant(Coalesced(fs)) == NotAssistant(fs)
  {
    if fs == [] {
    } else {
      hide AssistantText, NotAssistant, Coalesced;
      var out, f := Coalesced(Front(fs)), Last(fs);
      CoalescedKeeps(Front(fs));
      assert fs == Front(fs) + [f];
      KeptSnoc(Front(fs), f);
      CoalescedSnoc(Front(fs), f);
      if out != [] && Continues(Last(out), f) {
        JoinKeeps(out, f);
        assert NotAssistant(Front(fs)) + [] == NotAssistant(Front(fs));
      } else {
        KeptSnoc(out, f);
      }
    }
  }

  predicate Apart(fs: seq<Frame>) {
    forall i :: 0 < i < |fs| ==> !Continues(fs[i - 1], fs[i])
  }

  lemma {:induction false} CoalescedIsApart(fs: seq<Frame>)
    ensures Apart(Coalesced(fs))
  {
    if fs != [] { CoalescedIsApart(Front(fs)); }
  }

  lemma {:induction false} ApartIsKept(fs: seq<Frame>)
    ensures Apart(fs) ==> Coalesced(fs) == fs
  {
    if fs != [] { ApartIsKept(Front(fs)); }
  }

  /**
   * No two adjacent bubbles are left that could still be joined, coalescing again changes nothing, and a list is left
   * as it is exactly when no two neighbours could be joined.
   */
  lemma CoalescedIsDone(fs: seq<Frame>)
    ensures Apart(Coalesced(fs)) && Coalesced(Coalesced(fs)) == Coalesced(fs)
    ensures Coalesced(fs) == fs <==> Apart(fs)
  {
    hide Coalesced, Apart;
    CoalescedIsApart(fs);
    ApartIsKept(Coalesced(fs));
    ApartIsKept(fs);
  }

  // ----- the buffered coalescer -----------------------------------------------------------------

  function JoinAll(parts: seq<string>): string {
    if parts == [] then "" else JoinAll(parts[..|parts| - 1]) + parts[|parts| - 1]
  }

  /** Joins the buffered parts into the last frame. */
  function Settle(out: seq<Frame>, parts: Option<seq<string>>): seq<Frame> {
    if parts.Some? && out != [] && Last(out).messageType.AssistantMessage? then
      Front(out) + [Last(out).(content := Some(JoinAll(parts.value)))]
    else out
  }

  method CoalesceAssistantFrames(frames: seq<Frame>) returns (out: seq<Frame>)
    ensures out == Coalesced(frames)
  {
    out := [];
    var groupParts: Option<seq<string>> := None;
    for i := 0 to |frames|
      invariant Settle(out, groupParts) == Coalesced(frames[..i])
      invariant groupParts.Some? ==> out != [] && Last(out).messageType.AssistantMessage?
    {
      assert Front(frames[..i + 1]) == frames[..i];
      var f := frames[i];
      if |out| > 0 && Continues(Last(out), f) {
        ghost var parts := groupParts;
        if groupParts.None? {
          groupParts := Some([Text(Last(out))]);
        }
        PushPart(out, parts, f);
        groupParts := Some(groupParts.value + [Text(f)]);
        var prev := Last(out);
        out := Front(out) + [prev.(id := f.id, dateMs := f.dateMs, seqId := f.seqId)];
      } else {
        SettledTail(out, groupParts, f);
        out := Settle(out, groupParts);
        groupParts := None;
        out := out + [f];
      }
    }
    assert frames[..|frames|] == frames;
    out := Settle(out, groupParts);
  }

  /** Buffering one more chunk and joining later is joining now and appending the chunk. */
  lemma PushPart(out: seq<Frame>, parts: Option<seq<string>>, f: Frame)
    requires out != [] && Continues(Last(out), f)
    ensures var buffer := (if parts.None? then [Text(Last(out))] else parts.value) + [Text(f)];
            var out' := Front(out) + [Last(out).(id := f.id, dateMs := f.dateMs, seqId := f.seqId)];
            var now := Settle(out, parts);
            && now != [] && Continues(Last(now), f)
            && Settle(out', Some(buffer)) == Front(now) + [Extend(Last(now), f)]
  {
    var buffer := if parts.None? then [Text(Last(out))] else parts.value;
    assert (buffer + [Text(f)])[..|buffer|] == buffer;
    Snoc(Front(out), Last(out).(id := f.id, dateMs := f.dateMs, seqId := f.seqId));
    if parts.None? {
      assert buffer[..0] == [] && "" + Text(Last(out)) == Text(Last(out));
      assert JoinAll(buffer) == Text(Last(out));
    } else {
      Snoc(Front(out), Last(out).(content := Some(JoinAll(buffer))));
    }
  }

  /** Joining the buffer does not change what continues the last frame. */
  lemma SettledTail(out: seq<Frame>, parts: Option<seq<string>>, f: Frame)
    ensures var now := Settle(out, parts);
            (now != [] && Continues(Last(now), f)) <==> (out != [] && Continues(Last(out), f))
  {
  }

  // ----- the streaming path -----------------------------------------------------------------------

  predicate IsTail(f: Frame) {
    f.messageType.StopReason? || f.messageType.UsageStatistics?
  }

  /** The frames other than stop reasons and usage. */
  function Body(fs: seq<Frame>): seq<Frame> {
    if fs == [] then [] else if IsTail(Last(fs)) then Body(Front(fs)) else Body(Front(fs)) + [Last(fs)]
  }

  function LastStop(fs: seq<Frame>): seq<Frame> {
    if fs == [] then [] else if Last(fs).messageType.StopReason? then [Last(fs)] else LastStop(Front(fs))
  }

  function FirstUsage(fs: seq<Frame>): seq<Frame> {
    if fs == [] then []
    else
      var before := FirstUsage(Front(fs));
      if before == [] && Last(fs).messageType.UsageStatistics? then [Last(fs)] else before
  }

  function TagAsOptimistic(f: Frame): Frame {
    if f.id.None? || StartsWith(f.id.value, "cm-") || StartsWith(f.id.value, "client-") then f
    else if f.messageType.ToolCallMessage? || f.messageType.ToolReturnMessage? || f.messageType.ApprovalRequestMessage? then f
    else f.(id := Some("cm-stream-" + f.id.value))
  }

  function TypeOffset(t: MessageType): int {
    match t
    case UserMessage => 0
    case Ping => 0
    case ReasoningMessage => 10
    case ToolCallMessage => 20
    case ToolReturnMessage => 30
    case AssistantMessage => 40
    case _ => 50
  }

  /** What is written for a frame: tagged, and dated by its type relative to the start of the turn. */
  function Sent(f: Frame, turnStart: int): Frame {
    var tagged := TagAsOptimistic(f);
    if IsTail(tagged) then tagged else tagged.(dateMs := turnStart + TypeOffset(tagged.messageType))
  }

  function SentAll(fs: seq<Frame>, turnStart: int): seq<Frame> {
    if fs == [] then [] else SentAll(Front(fs), turnStart) + [Sent(Last(fs), turnStart)]
  }

  class ChatStream {
    const turnStart: int
    var pendingStop: Option<Frame>
    var pendingUsage: Option<Frame>
    var pendingAssistant: Option<Frame>
    /** What the client was sent. */
    var written: seq<Frame>
    ghost var frames: seq<Frame>

    /** Written is the fold of what was handled, less the bubble still being collected. */
    ghost predicate Valid()
      reads this
    {
      && Streamed(frames, written, pendingAssistant, turnStart)
      && Kept(pendingStop) == LastStop(frames)
      && Kept(pendingUsage) == FirstUsage(frames)
    }

    constructor (turnStart: int)
      ensures Valid() && frames == [] && this.turnStart == turnStart
    {
      this.turnStart := turnStart;
      pendingStop, pendingUsage, pendingAssistant, written, frames := None, None, None, [], [];
    }

    method FlushPendingAssistant()
      modifies `pendingAssistant, `written
      ensures pendingAssistant == None
      ensures written == old(written) + (if old(pendingAssistant).Some? then [Sent(old(pendingAssistant).value, turnStart)] else [])
    {
      if pendingAssistant.Some? {
        written := written + [Sent(pendingAssistant.value, turnStart)];
      }
      pendingAssistant := None;
    }

    method HandleFrame(f: Frame)
      requires Valid()
      modifies this
      ensures Valid() && frames == old(frames) + [f]
    {
      hide Streamed;
      TailSnoc(frames, f);
      StreamSnoc(frames, written, pendingAssistant, f, turnStart);
      frames := frames + [f];
      if f.messageType.StopReason? {
        pendingStop := Some(f);
        return;
      }
      if f.messageType.UsageStatistics? {
        if pendingUsage.None? {
          pendingUsage := Some(f);
        }
        return;
      }
      if f.messageType.AssistantMessage? {
        if pendingAssistant.Some? && Continues(pendingAssistant.value, f) {
          pendingAssistant := Some(Extend(pendingAssistant.value, f));
          return;
        }
        FlushPendingAssistant();
        pendingAssistant := Some(f);
        return;
      }
      FlushPendingAssistant();
      written := written + [Sent(f, turnStart)];
    }

    /** At the end of the turn: the batch result of the body, then the last stop reason, then the first usage. */
    method FlushTail()
      requires Valid()
      modifies this
      ensures written == SentAll(Coalesced(Body(frames)), turnStart) + LastStop(frames) + FirstUsage(frames)
      ensures frames == old(frames) && pendingStop == None && pendingUsage == None && pendingAssistant == None
    {
      FlushPendingAssistant();
      assert written == SentAll(Coalesced(Body(frames)), turnStart);
      if pendingStop.Some? {
        written := written + [pendingStop.value];
      }
      if pendingUsage.Some? {
        written := written + [pendingUsage.value];
      }
      pendingStop := None;
      pendingUsage := None;
    }
  }

  function Kept(f: Option<Frame>): seq<Frame> {
    if f.Some? then [f.value] else []
  }

  /** The bubble being collected is the last frame of the fold; everything before it has been written. */
  ghost predicate Streamed(frames: seq<Frame>, written: seq<Frame>, pending: Option<Frame>, turnStart: int) {
    var folded := Coalesced(Body(frames));
    && (pending.Some? <==> folded != [] && Last(folded).messageType.AssistantMessage?)
    && (pending.Some? ==> pending.value == Last(folded) && written == SentAll(Front(folded), turnStart))
    && (pending.None? ==> written == SentAll(folded, turnStart))
  }

  lemma TailSnoc(fs: seq<Frame>, f: Frame)
    ensures LastStop(fs + [f]) == if f.messageType.StopReason? then [f] else LastStop(fs)
    ensures FirstUsage(fs + [f]) == if FirstUsage(fs) == [] && f.messageType.UsageStatistics? then [f] else FirstUsage(fs)
    ensures Body(fs + [f]) == if IsTail(f) then Body(fs) else Body(fs) + [f]
  {
    Snoc(fs, f);
  }

  lemma SentSnoc(fs: seq<Frame>, f: Frame, turnStart: int)
    ensures SentAll(fs + [f], turnStart) == SentAll(fs, turnStart) + [Sent(f, turnStart)]
  {
    Snoc(fs, f);
  }

  lemma StreamSnoc(frames: seq<Frame>, written: seq<Frame>, pending: Option<Frame>, f: Frame, turnStart: int)
    requires Streamed(frames, written, pending, turnStart)
    ensures var flushed := written + (if pending.Some? then [Sent(pending.value, turnStart)] else []);
            if IsTail(f) then Streamed(frames + [f], written, pending, turnStart)
            else if pending.Some? && Continues(pending.value, f) then
              Streamed(frames + [f], written, Some(Extend(pending.value, f)), turnStart)
            else if f.messageType.AssistantMessage? then Streamed(frames + [f], flushed, Some(f), turnStart)
            else Streamed(frames + [f], flushed + [Sent(f, turnStart)], None, turnStart)
  {
    hide Coalesced, SentAll, Body, Sent;
    TailSnoc(frames, f);
    var folded := Coalesced(Body(frames));
    CoalescedSnoc(Body(frames), f);
    if folded != [] {
      SentSnoc(Front(folded), Last(folded), turnStart);
      assert Front(folded) + [Last(folded)] == folded;
      Snoc(Front(folded), Extend(Last(folded), f));
    }
    Snoc(folded, f);
    SentSnoc(folded, f, turnStart);
  }

  // ----- the non-streaming reply ------------------------------------------------------------------

  function LastBody(fs: seq<Frame>): Option<Frame> {
    if Body(fs) == [] then None else Some(Last(Body(fs)))
  }

  /** Chunks that only stop reasons or usage frames separate from the bubble they would continue. */
  function Straddling(fs: seq<Frame>): nat {
    if fs == [] then 0
    else
      var front, f := Front(fs), Last(fs);
      Straddling(front)
      + (if front != [] && IsTail(Last(front)) && !IsTail(f) && LastBody(front).Some? && Continues(LastBody(front).value, f)
         then 1 else 0)
  }

  /** Only the type and otid of a frame decide what continues it, and these are those of its first chunk. */
  predicate SameBubble(a: Frame, b: Frame) {
    a.messageType == b.messageType && a.otid == b.otid
  }

  lemma {:induction false} LastBubble(fs: seq<Frame>)
    ensures fs == [] <==> Coalesced(fs) == []
    ensures fs != [] ==> SameBubble(Last(Coalesced(fs)), Last(fs))
  {
    if fs != [] { LastBubble(Front(fs)); }
  }

  /**
   * The non-streaming reply coalesces the raw frames, stop and usage frames included. It shows the same bubbles as the
   * streaming one exactly when no chunk straddles such a frame; each one that does starts an extra bubble.
   */
  lemma {:induction false} RawCoalescing(fs: seq<Frame>)
    ensures |Body(Coalesced(fs))| == |Coalesced(Body(fs))| + Straddling(fs)
    ensures Body(Coalesced(fs)) == Coalesced(Body(fs)) <==> Straddling(fs) == 0
  {
    if fs != [] {
      var front, f := Front(fs), Last(fs);
      RawCoalescing(front);
      LastBubble(front);
      LastBubble(Body(front));
      var raw, body := Coalesced(front), Coalesced(Body(front));
      if IsTail(f) {
        TailSnoc(raw, f);
        assert Coalesced(fs) == raw + [f];
      } else {
        RawStep(front, f);
      }
    }
  }

  lemma RawStep(front: seq<Frame>, f: Frame)
    requires !IsTail(f)
    requires |Body(Coalesced(front))| == |Coalesced(Body(front))| + Straddling(front)
    requires Body(Coalesced(front)) == Coalesced(Body(front)) <==> Straddling(front) == 0
    ensures var fs := front + [f];
            && |Body(Coalesced(fs))| == |Coalesced(Body(fs))| + Straddling(fs)
            && (Body(Coalesced(fs)) == Coalesced(Body(fs)) <==> Straddling(fs) == 0)
  {
    hide Coalesced, Body, Straddling;
    var fs, raw, body := front + [f], Coalesced(front), Coalesced(Body(front));
    LastBubble(front);
    LastBubble(Body(front));
    TailSnoc(front, f);
    CoalescedSnoc(front, f);
    CoalescedSnoc(Body(front), f);
    StraddlingSnoc(front, f);
    BodyOfNothing();
    if raw != [] && Continues(Last(raw), f) {
      LastOfBody(front);
      BodyOfRaw(raw, f);
      Snoc(Front(body), Extend(Last(body), f));
    } else {
      TailSnoc(raw, f);
      if front != [] && !IsTail(Last(front)) { LastOfBody(front); }
    }
  }

  lemma StraddlingSnoc(front: seq<Frame>, f: Frame)
    ensures Straddling(front + [f]) ==
            Straddling(front)
            + (if front != [] && IsTail(Last(front)) && !IsTail(f) && Body(front) != [] && Continues(Last(Body(front)), f)
               then 1 else 0)
  {
    Snoc(front, f);
  }

  lemma BodyOfNothing()
    ensures Body([]) == [] && Straddling([]) == 0
  {
  }

  lemma LastOfBody(fs: seq<Frame>)
    requires fs != [] && !IsTail(Last(fs))
    ensures Body(fs) != [] && Last(Body(fs)) == Last(fs)
  {
  }

  lemma BodyOfRaw(raw: seq<Frame>, f: Frame)
    requires raw != [] && Continues(Last(raw), f)
    ensures Body(raw) != [] && Last(Body(raw)) == Last(raw)
    ensures Body(Front(raw) + [Extend(Last(raw), f)]) == Front(Body(raw)) + [Extend(Last(raw), f)]
  {
    TailSnoc(Front(raw), Extend(Last(raw), f));
  }

  // ----- what is joined, and how a written frame reads ------------------------------------------------------

  /** Two frames go into one bubble if they are assistant frames of the same, non-empty otid. */
  lemma ContinuesExactly(prev: Frame, f: Frame)
    ensures Continues(prev, f) <==>
            prev.messageType == AssistantMessage && f.messageType == AssistantMessage && |f.otid| > 0 && prev.otid == f.otid
  {
  }

  /** The joined bubble: both texts, an absent one being empty, under the later frame's id, date and number. */
  lemma ExtendReads(prev: Frame, f: Frame)
    ensures var r := Extend(prev, f);
            && r == prev.(content := r.content, id := f.id, dateMs := f.dateMs, seqId := f.seqId)
            && (prev.content.Some? && f.content.Some? ==> r.content == Some(prev.content.value + f.content.value))
            && (prev.content.Some? && f.content.None? ==> r.content == prev.content)
            && (prev.content.None? && f.content.Some? ==> r.content == f.content)
            && (prev.content.None? && f.content.None? ==> r.content == Some(""))
  {
    assert prev.content.Some? ==> prev.content.value + "" == prev.content.value;
    assert f.content.Some? ==> "" + f.content.value == f.content.value;
    assert prev.content.None? && f.content.None? ==> Text(prev) + Text(f) == "";
  }

  /** The body is everything but stop reasons and usage. */
  lemma {:induction false} BodyExactly(fs: seq<Frame>)
    ensures forall f :: f in Body(fs) <==> f in fs && f.messageType != StopReason && f.messageType != UsageStatistics
    ensures |Body(fs)| <= |fs|
  {
    if fs != [] {
      BodyExactly(Front(fs));
      assert fs == Front(fs) + [Last(fs)];
    }
  }

  /** The last stop reason of a reply, if there is one. */
  lemma {:induction false} LastStopExactly(fs: seq<Frame>)
    ensures LastStop(fs) == [] <==> forall f :: f in fs ==> f.messageType != StopReason
    ensures LastStop(fs) != [] ==>
              exists i :: 0 <= i < |fs| && LastStop(fs) == [fs[i]] && fs[i].messageType == StopReason
                          && forall j :: i < j < |fs| ==> fs[j].messageType != StopReason
  {
    if fs != [] {
      var front, f := Front(fs), Last(fs);
      LastStopExactly(front);
      assert fs == front + [f] && fs[|front|] == f;
      assert forall i :: 0 <= i < |front| ==> fs[i] == front[i];
    }
  }

  /** The first usage of a reply, if there is one. */
  lemma {:induction false} FirstUsageExactly(fs: seq<Frame>)
    ensures FirstUsage(fs) == [] <==> forall f :: f in fs ==> f.messageType != UsageStatistics
    ensures FirstUsage(fs) != [] ==>
              exists i :: 0 <= i < |fs| && FirstUsage(fs) == [fs[i]] && fs[i].messageType == UsageStatistics
                          && forall j :: 0 <= j < i ==> fs[j].messageType != UsageStatistics
  {
    if fs != [] {
      var front, f := Front(fs), Last(fs);
      FirstUsageExactly(front);
      assert fs == front + [f] && fs[|front|] == f;
      assert forall i :: 0 <= i < |front| ==> fs[i] == front[i];
      assert forall x :: x in front ==> exists j :: 0 <= j < |front| && front[j] == x;
    }
  }

  predicate StableId(t: MessageType) {
    t == ToolCallMessage || t == ToolReturnMessage || t == ApprovalRequestMessage
  }

  /** Milliseconds after the start of the turn that a frame of a type is dated. */
  predicate DatedAt(t: MessageType, ms: int) {
    match t
    case UserMessage | Ping => ms == 0
    case ReasoningMessage => ms == 10
    case ToolCallMessage => ms == 20
    case ToolReturnMessage => ms == 30
    case AssistantMessage => ms == 40
    case _ => ms == 50
  }

  /**
   * A frame is written with all its fields but two: an id that is neither stable nor a client's is marked as passing,
   * and the date is the start of the turn and a little more by type, except in stop reasons and usage.
   */
  lemma SentReads(f: Frame, turnStart: int)
    ensures var r := Sent(f, turnStart);
            && r == f.(id := r.id, dateMs := r.dateMs)
            && (if f.messageType == StopReason || f.messageType == UsageStatistics then r.dateMs == f.dateMs
                else DatedAt(f.messageType, r.dateMs - turnStart))
            && match f.id
               case None => r.id == None
               case Some(id) =>
                 r.id == if StableId(f.messageType) || "cm-" <= id || "client-" <= id then Some(id) else Some("cm-stream-" + id)
  {
    if f.id.Some? {
      PrefixMeans(f.id.value, "cm-");
      PrefixMeans(f.id.value, "client-");
    }
  }

  lemma PrefixMeans(s: string, t: string)
    ensures StartsWith(s, t) <==> t <= s
  {
  }

  lemma {:induction false} SentAllReads(fs: seq<Frame>, turnStart: int)
    ensures |SentAll(fs, turnStart)| == |fs| && forall i :: 0 <= i < |fs| ==> SentAll(fs, turnStart)[i] == Sent(fs[i], turnStart)
  {
    if fs != [] { SentAllReads(Front(fs), turnStart); }
  }
}
