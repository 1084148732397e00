/**
 * The running coalescer: pending entries with two index maps and a flush timer. Its output is
 * the emission of the frames handled, cut into consecutive windows.
 */
module Coalescer {
  import opened Basics
  import opened StreamCoalescing

  datatype Entry = TextEntry(messageType: MessageType, otid: string, frame: Frame) | ToolEntry(toolCallId: string, frame: Frame)

  function EntryKey(e: Entry): Key {
    match e
    case TextEntry(t, otid, _) => TextKey(t, otid)
    case ToolEntry(id, _) => ToolKey(id)
  }

  type TextIndex = map<(MessageType, string), nat>
  type ToolIndex = map<string, nat>

  /** Both index maps point exactly at the pending entries of their kind. */
  predicate Indexed(entries: seq<Entry>, textIndex: TextIndex, toolIndex: ToolIndex) {
    && (forall i :: 0 <= i < |entries| && entries[i].TextEntry? ==>
          (entries[i].messageType, entries[i].otid) in textIndex && textIndex[(entries[i].messageType, entries[i].otid)] == i)
    && (forall i :: 0 <= i < |entries| && entries[i].ToolEntry? ==>
          entries[i].toolCallId in toolIndex && toolIndex[entries[i].toolCallId] == i)
    && (forall t :: t in textIndex ==> textIndex[t] < |entries| && EntryKey(entries[textIndex[t]]) == TextKey(t.0, t.1))
    && (forall t :: t in toolIndex ==> toolIndex[t] < |entries| && EntryKey(entries[toolIndex[t]]) == ToolKey(t))
  }

  /** The entries are the fold of the window. */
  predicate Folds(entries: seq<Entry>, w: seq<Frame>) {
    && |entries| == |Keys(w)|
    && forall i :: 0 <= i < |entries| ==>
         && EntryKey(entries[i]) == Keys(w)[i]
         && Having(w, Keys(w)[i]) != []
         && entries[i].frame == MergeAll(Having(w, Keys(w)[i]))
  }

  lemma FoldsMerge(entries: seq<Entry>, w: seq<Frame>, i: nat, f: Frame)
    requires Folds(entries, w) && i < |entries| && KeyOf(f) == Some(EntryKey(entries[i]))
    ensures Folds(entries[i := entries[i].(frame := Merge(entries[i].frame, f))], w + [f])
  {
    hide Keys, Having, MergeAll, Merge;
    KeysHave(w);
    KeyedPush(w, f, EntryKey(entries[i]));
  }

  lemma FoldsPush(entries: seq<Entry>, w: seq<Frame>, e: Entry)
    requires Folds(entries, w) && KeyOf(e.frame) == Some(EntryKey(e)) && EntryKey(e) !in Keys(w)
    ensures Folds(entries + [e], w + [e.frame])
  {
    hide Keys, Having, Merge;
    KeysHave(w);
    KeyedPush(w, e.frame, EntryKey(e));
  }

  function Frames(entries: seq<Entry>): seq<Frame> {
    seq(|entries|, i requires 0 <= i < |entries| => entries[i].frame)
  }

  lemma FoldsEmit(entries: seq<Entry>, w: seq<Frame>)
    requires Folds(entries, w) && AllKeyed(w)
    ensures Frames(entries) == Emitted(w)
  {
    hide Keys, Having, MergeAll;
    KeysHave(w);
    FoldedAt(w, Keys(w));
  }

  /** The pending entries, with their index maps, are the fold of the window being collected. */
  ghost predicate Collects(entries: seq<Entry>, textIndex: TextIndex, toolIndex: ToolIndex, window: seq<Frame>) {
    && Indexed(entries, textIndex, toolIndex)
    && AllKeyed(window) && Folds(entries, window)
    && (entries != [] <==> window != [])
  }

  /** The output so far is the emission of the finished windows. */
  ghost predicate PutOut(out: seq<Frame>, windows: seq<seq<Frame>>) {
    out == EmittedAll(windows) && forall i :: 0 <= i < |windows| ==> WindowOk(windows[i])
  }

  lemma NothingCollected()
    ensures Collects([], map[], map[], [])
  {
  }

  lemma WindowFinished(out: seq<Frame>, windows: seq<seq<Frame>>, entries: seq<Entry>, window: seq<Frame>)
    requires PutOut(out, windows) && window != [] && AllKeyed(window) && Folds(entries, window)
    ensures PutOut(out + Frames(entries), windows + [window])
    ensures Joined(windows + [window]) == Joined(windows) + window
  {
    hide EmittedAll, Joined, Folds, AllKeyed, Frames, Emitted;
    FoldsEmit(entries, window);
    EmittedSnoc(windows, window);
  }

  /** A frame on its own: without a key, or arriving after disposal. */
  lemma LoneFrame(out: seq<Frame>, windows: seq<seq<Frame>>, f: Frame)
    requires PutOut(out, windows)
    ensures PutOut(out + [f], windows + [[f]])
    ensures Joined(windows + [[f]]) == Joined(windows) + [f]
  {
    hide EmittedAll, Joined;
    EmittedSnoc(windows, [f]);
    assert Front([f]) == [] && Last([f]) == f;
    if KeyOf(f).Some? {
      var k := KeyOf(f).value;
      assert Having([f], k) == [f];
      assert Keys([f]) == [k];
      KeysHave([f]);
      FoldedAt([f], [k]);
    }
  }

  function Find(textIndex: TextIndex, toolIndex: ToolIndex, k: Key): Option<nat> {
    match k
    case TextKey(t, otid) => if (t, otid) in textIndex then Some(textIndex[(t, otid)]) else None
    case ToolKey(id) => if id in toolIndex then Some(toolIndex[id]) else None
  }

  /** The index maps find exactly the pending entry of a key. */
  lemma FindIsExact(entries: seq<Entry>, textIndex: TextIndex, toolIndex: ToolIndex, w: seq<Frame>, k: Key)
    requires Indexed(entries, textIndex, toolIndex) && Folds(entries, w)
    ensures var at := Find(textIndex, toolIndex, k);
            match at
            case Some(i) => i < |entries| && EntryKey(entries[i]) == k && k in Keys(w)
            case None => k !in Keys(w)
  {
    hide Keys, Having, MergeAll;
    if k in Keys(w) {
      var i :| 0 <= i < |Keys(w)| && Keys(w)[i] == k;
      assert EntryKey(entries[i]) == k;
    }
  }

  lemma CollectsMerge(entries: seq<Entry>, textIndex: TextIndex, toolIndex: ToolIndex, w: seq<Frame>, f: Frame, i: nat)
    requires Collects(entries, textIndex, toolIndex, w)
    requires KeyOf(f).Some? && Find(textIndex, toolIndex, KeyOf(f).value) == Some(i)
    ensures i < |entries| && EntryKey(entries[i]) == KeyOf(f).value
    ensures Collects(entries[i := entries[i].(frame := Merge(entries[i].frame, f))], textIndex, toolIndex, w + [f])
  {
    hide Folds, Merge;
    FindIsExact(entries, textIndex, toolIndex, w, KeyOf(f).value);
    FoldsMerge(entries, w, i, f);
  }

  lemma CollectsPush(entries: seq<Entry>, textIndex: TextIndex, toolIndex: ToolIndex, w: seq<Frame>, e: Entry)
    requires Collects(entries, textIndex, toolIndex, w)
    requires KeyOf(e.frame) == Some(EntryKey(e)) && Find(textIndex, toolIndex, EntryKey(e)).None?
    ensures match e
            case TextEntry(t, otid, f) => Collects(entries + [e], textIndex[(t, otid) := |entries|], toolIndex, w + [f])
            case ToolEntry(id, f) => Collects(entries + [e], textIndex, toolIndex[id := |entries|], w + [f])
  {
    hide Folds;
    FindIsExact(entries, textIndex, toolIndex, w, EntryKey(e));
    FoldsPush(entries, w, e);
  }

  /** The statuses after which a call does not change any more. */
  const TERMINAL_TOOL_STATUSES: set<string> := {"success", "error", "completed", "failed", "canceled"}

  predicate Terminal(status: Option<string>) {
    status.Some? && status.value in TERMINAL_TOOL_STATUSES
  }

  class StreamCoalescer {
    /** The single bucket of pending entries; an absent bucket is an empty one. */
    var entries: seq<Entry>
    var textIndex: TextIndex
    var toolIndex: ToolIndex
    var timer: bool
    var disposed: bool
    /** What the sink received. */
    var out: seq<Frame>
    /** The frames handled so far: finished windows, then the one being collected. */
    ghost var windows: seq<seq<Frame>>
    ghost var window: seq<Frame>

    ghost predicate Valid()
      reads this
    {
      && Collects(entries, textIndex, toolIndex, window)
      && PutOut(out, windows)
      && (timer <==> entries != [])
      && (disposed ==> entries == [])
    }

    ghost function Handled(): seq<Frame>
      reads this
    {
      Joined(windows) + window
    }

    constructor ()
      ensures Valid() && Handled() == [] && !disposed
    {
      entries, textIndex, toolIndex, timer, disposed, out := [], map[], map[], false, false, [];
      windows, window := [], [];
    }

    method Drain(drained: seq<Entry>)
      modifies `out
      ensures out == old(out) + Frames(drained)
    {
      for i := 0 to |drained|
        invariant out == old(out) + Frames(drained)[..i]
      {
        out := out + [drained[i].frame];
      }
      assert Frames(drained)[..|drained|] == Frames(drained);
    }

    method FlushBucket()
      requires Collects(entries, textIndex, toolIndex, window) && PutOut(out, windows)
      modifies this
      ensures Valid() && window == [] && disposed == old(disposed)
      ensures windows == if old(window) == [] then old(windows) else old(windows) + [old(window)]
      ensures Handled() == old(Handled())
    {
      hide Collects, PutOut, Joined, Frames, Indexed, Folds;
      CollectsNothing(entries, textIndex, toolIndex, window);
      NothingCollected();
      timer := false;
      if |entries| == 0 {
        return;
      }
      CollectsFolds(entries, textIndex, toolIndex, window);
      WindowFinished(out, windows, entries, window);
      var drained := entries;
      entries := [];
      textIndex := map[];
      toolIndex := map[];
      Drain(drained);
      windows, window := windows + [window], [];
    }

    /** Flushes what is pending and passes a frame straight through. */
    method FlushThenForward(f: Frame)
      requires Valid()
      modifies this
      ensures Valid() && window == [] && disposed == old(disposed)
      ensures windows == (if old(window) == [] then old(windows) else old(windows) + [old(window)]) + [[f]]
      ensures Handled() == old(Handled()) + [f]
    {
      hide Collects, PutOut, Joined;
      FlushBucket();
      LoneFrame(out, windows, f);
      out := out + [f];
      windows := windows + [[f]];
    }

    method Handle(f: Frame)
      requires Valid()
      modifies this
      ensures Valid() && disposed == old(disposed)
      ensures Handled() == old(Handled()) + [f]
      ensures if KeyOf(f).Some? && !disposed && !(f.messageType.ToolCallMessage? && Terminal(f.status))
              then windows == old(windows) && window == old(window) + [f]
              else window == []
      ensures KeyOf(f).None? || disposed ==>
                windows == (if old(window) == [] then old(windows) else old(windows) + [old(window)]) + [[f]]
      ensures KeyOf(f).Some? && !disposed && f.messageType.ToolCallMessage? && Terminal(f.status) ==>
                windows == old(windows) + [old(window) + [f]]
    {
      hide Collects, PutOut, Joined, Find;
      if disposed || KeyOf(f).None? {
        FlushThenForward(f);
        return;
      }
      if f.messageType.ToolCallMessage? {
        PutTool(f);
        if Terminal(f.status) {
          FlushBucket();
          return;
        }
      } else {
        PutText(f);
      }
      timer := true;
    }

    /** Buffers a text frame: concatenated to the pending one of its type and otid, or as a new entry. */
    method PutText(f: Frame)
      requires Valid() && KeyOf(f).Some? && KeyOf(f).value.TextKey?
      modifies `entries, `textIndex, `window
      ensures Collects(entries, textIndex, toolIndex, window) && entries != []
      ensures window == old(window) + [f]
    {
      hide Collects, PutOut, Joined;
      var t := (f.messageType, f.otid);
      if t in textIndex {
        var idx := textIndex[t];
        CollectsMerge(entries, textIndex, toolIndex, window, f, idx);
        var prior := entries[idx].frame;
        var merged := if f.messageType.ReasoningMessage? then ConcatReasoningFrame(prior, f) else ConcatTextFrame(prior, f);
        entries := entries[idx := TextEntry(f.messageType, f.otid, merged)];
      } else {
        CollectsPush(entries, textIndex, toolIndex, window, TextEntry(f.messageType, f.otid, f));
        textIndex := textIndex[t := |entries|];
        entries := entries + [TextEntry(f.messageType, f.otid, f)];
      }
      window := window + [f];
    }

    /** Buffers a tool snapshot, replacing the pending one with the same id. */
    method PutTool(f: Frame)
      requires Valid() && KeyOf(f).Some? && KeyOf(f).value.ToolKey?
      modifies `entries, `toolIndex, `window
      ensures Collects(entries, textIndex, toolIndex, window) && entries != []
      ensures window == old(window) + [f]
    {
      hide Collects, PutOut, Joined;
      if f.toolCallId in toolIndex {
        var idx := toolIndex[f.toolCallId];
        CollectsMerge(entries, textIndex, toolIndex, window, f, idx);
        entries := entries[idx := ToolEntry(f.toolCallId, f)];
      } else {
        CollectsPush(entries, textIndex, toolIndex, window, ToolEntry(f.toolCallId, f));
        toolIndex := toolIndex[f.toolCallId := |entries|];
        entries := entries + [ToolEntry(f.toolCallId, f)];
      }
      window := window + [f];
    }

    /** The flush timer fires; it is armed exactly while something is pending. */
    method TimerFires()
      requires Valid() && timer
      modifies this
      ensures Valid() && window == [] && disposed == old(disposed) && Handled() == old(Handled())
      ensures windows == old(windows) + [old(window)]
    {
      hide PutOut, Joined, Indexed, Folds, AllKeyed;
      timer := false;
      FlushBucket();
    }

    method FlushAll()
      requires Valid()
      modifies this
      ensures Valid() && window == [] && disposed == old(disposed) && Handled() == old(Handled())
      ensures out == EmittedAll(windows) && Joined(windows) == old(Handled())
    {
      hide Collects, Joined, EmittedAll;
      FlushBucket();
    }

    method Dispose()
      requires Valid()
      modifies this
      ensures Valid() && disposed && window == [] && Handled() == old(Handled())
      ensures out == EmittedAll(windows) && Joined(windows) == old(Handled())
    {
      if disposed { return; }
      FlushAll();
      disposed := true;
    }
  }

  /** At any moment the text put out for a key, followed by what is pending for it, is all the text handled for it. */
  lemma NoTextLost(c: StreamCoalescer, k: Key)
    requires c.Valid() && k.TextKey?
    ensures TextOf(c.out + Frames(c.entries), k) == TextOf(c.Handled(), k)
  {
    hide Joined, EmittedAll, TextOf, Folds, Indexed, AllKeyed, Emitted;
    CollectsFolds(c.entries, c.textIndex, c.toolIndex, c.window);
    TextConserved(c.windows, k);
    TextOfConcat(c.out, Frames(c.entries), k);
    TextOfConcat(Joined(c.windows), c.window, k);
    FoldsEmit(c.entries, c.window);
    if c.window != [] {
      WindowTextConserved(c.window, k);
    } else {
      assert Frames(c.entries) == [];
    }
  }

  lemma CollectsNothing(entries: seq<Entry>, textIndex: TextIndex, toolIndex: ToolIndex, window: seq<Frame>)
    requires Collects(entries, textIndex, toolIndex, window)
    ensures entries != [] <==> window != []
    ensures entries == [] ==> textIndex == map[] && toolIndex == map[]
  {
    hide Folds, AllKeyed;
    if entries == [] {
      assert forall t :: t !in textIndex;
      assert forall t :: t !in toolIndex;
    }
  }

  lemma CollectsFolds(entries: seq<Entry>, textIndex: TextIndex, toolIndex: ToolIndex, window: seq<Frame>)
    requires Collects(entries, textIndex, toolIndex, window)
    ensures AllKeyed(window) && Folds(entries, window)
  {
  }

  lemma EmittedSnoc(ws: seq<seq<Frame>>, w: seq<Frame>)
    ensures EmittedAll(ws + [w]) == EmittedAll(ws) + Emitted(w)
    ensures Joined(ws + [w]) == Joined(ws) + w
  {
    hide Emitted;
    assert Front(ws + [w]) == ws;
  }
}
