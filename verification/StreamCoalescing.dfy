/**
 * Coalescing a stream of frames into windows: within a window text frames with the same type
 * and otid are concatenated and tool snapshots with the same id replace one another.
 *
 * `Emitted` is the reference: a pure fold of one window. The lemmas say what a stream cut
 * into windows keeps; `Coalescer` proves that the running coalescer puts out exactly such a
 * stream.
 */
module StreamCoalescing {
  import opened Basics

  /** `OtherType` covers every message type that is not merged, and frames without a type. */
  datatype MessageType = AssistantMessage | ReasoningMessage | ToolCallMessage | OtherType(name: string)

  /** An absent or non-string otid or tool id is "", an absent status `None`. `text` is `content`, or `reasoning` in a reasoning frame. */
  datatype Frame = Frame(
    messageType: MessageType,
    otid: string,
    toolCallId: string,
    status: Option<string>,
    text: string,
    signature: string,
    date: Option<string>,
    seqId: Option<int>,
    rest: string)

  /** What frames are merged by: message type and otid, or tool call id. */
  datatype Key = TextKey(messageType: MessageType, otid: string) | ToolKey(toolCallId: string)

  function KeyOf(f: Frame): Option<Key> {
    if f.messageType.AssistantMessage? || f.messageType.ReasoningMessage? then
      if f.otid == "" then None else Some(TextKey(f.messageType, f.otid))
    else if f.messageType.ToolCallMessage? && f.toolCallId != "" then Some(ToolKey(f.toolCallId))
    else None
  }

  function ConcatTextFrame(prior: Frame, incoming: Frame): Frame {
    prior.(text := prior.text + incoming.text,
           date := if incoming.date.Some? then incoming.date else prior.date,
           seqId := if incoming.seqId.Some? then incoming.seqId else prior.seqId)
  }

  function ConcatReasoningFrame(prior: Frame, incoming: Frame): Frame {
    var combined :=
      if prior.signature != "" && incoming.signature != "" then prior.signature + incoming.signature
      else if incoming.signature != "" then incoming.signature else prior.signature;
    prior.(text := prior.text + incoming.text,
           signature := if combined != "" then combined else prior.signature,
           date := if incoming.date.Some? then incoming.date else prior.date,
           seqId := if incoming.seqId.Some? then incoming.seqId else prior.seqId)
  }

  /** A frame arriving for a key that is already pending. */
  function Merge(prior: Frame, incoming: Frame): Frame {
    if incoming.messageType.ReasoningMessage? then ConcatReasoningFrame(prior, incoming)
    else if incoming.messageType.AssistantMessage? then ConcatTextFrame(prior, incoming)
    else incoming
  }

  // ----- the fold of one window -----------------------------------------------------------------

  /** The frames of a window with a given key. */
  function Having(w: seq<Frame>, k: Key): seq<Frame> {
    if w == [] then []
    else if KeyOf(Last(w)) == Some(k) then Having(Front(w), k) + [Last(w)]
    else Having(Front(w), k)
  }

  function MergeAll(fs: seq<Frame>): Frame
    requires fs != []
  {
    if |fs| == 1 then fs[0] else Merge(MergeAll(Front(fs)), Last(fs))
  }

  /** The keys of a window in the order of first appearance. */
  function Keys(w: seq<Frame>): seq<Key> {
    if w == [] then []
    else
      var ks, k := Keys(Front(w)), KeyOf(Last(w));
      if k.Some? && k.value !in ks then ks + [k.value] else ks
  }

  function Folded(w: seq<Frame>, ks: seq<Key>): (fs: seq<Frame>)
    requires forall k :: k in ks ==> Having(w, k) != []
    ensures |fs| == |ks|
  {
    if ks == [] then [] else Folded(w, Front(ks)) + [MergeAll(Having(w, Last(ks)))]
  }

  /** A window goes out as one merged frame per key; a frame without a key goes out as it is. */
  function Emitted(w: seq<Frame>): seq<Frame> {
    KeysHave(w);
    if |w| == 1 && KeyOf(w[0]).None? then w else Folded(w, Keys(w))
  }

  lemma {:induction false} KeysHave(w: seq<Frame>)
    ensures forall k :: k in Keys(w) <==> Having(w, k) != []
    ensures forall i, j :: 0 <= i < j < |Keys(w)| ==> Keys(w)[i] != Keys(w)[j]
  {
    if w != [] { KeysHave(Front(w)); }
  }

  lemma {:induction false} FoldedAt(w: seq<Frame>, ks: seq<Key>)
    requires forall k :: k in ks ==> Having(w, k) != []
    ensures forall i :: 0 <= i < |ks| ==> Folded(w, ks)[i] == MergeAll(Having(w, ks[i]))
  {
    if ks != [] { FoldedAt(w, Front(ks)); }
  }

  // ----- windows and streams -----------------------------------------------------------------

  predicate AllKeyed(w: seq<Frame>) {
    forall i :: 0 <= i < |w| ==> KeyOf(w[i]).Some?
  }

  /** Either a lone frame without a key, or a window of keyed frames. */
  predicate WindowOk(w: seq<Frame>) {
    w != [] && (AllKeyed(w) || |w| == 1)
  }

  function Joined(ws: seq<seq<Frame>>): seq<Frame> {
    if ws == [] then [] else Joined(Front(ws)) + Last(ws)
  }

  function EmittedAll(ws: seq<seq<Frame>>): seq<Frame> {
    if ws == [] then [] else EmittedAll(Front(ws)) + Emitted(Last(ws))
  }

  /** All text that a stream carries for a key, in order. */
  function TextOf(fs: seq<Frame>, k: Key): string {
    if fs == [] then ""
    else if KeyOf(Last(fs)) == Some(k) then TextOf(Front(fs), k) + Last(fs).text
    else TextOf(Front(fs), k)
  }

  lemma {:induction false} TextOfConcat(a: seq<Frame>, b: seq<Frame>, k: Key)
    ensures TextOf(a + b, k) == TextOf(a, k) + TextOf(b, k)
  {
    if b == [] {
      assert a + b == a;
    } else {
      assert Front(a + b) == a + Front(b);
      TextOfConcat(a, Front(b), k);
    }
  }

  lemma {:induction false} HavingKey(w: seq<Frame>, k: Key)
    ensures forall f :: f in Having(w, k) ==> KeyOf(f) == Some(k)
    ensures TextOf(Having(w, k), k) == TextOf(w, k)
  {
    if w != [] {
      HavingKey(Front(w), k);
      if KeyOf(Last(w)) == Some(k) {
        assert Front(Having(w, k)) == Having(Front(w), k);
      }
    }
  }

  /** Merging keeps the key, and for text keys concatenates the text. */
  lemma {:induction false} MergeAllKeeps(fs: seq<Frame>, k: Key)
    requires fs != [] && forall f :: f in fs ==> KeyOf(f) == Some(k)
    ensures KeyOf(MergeAll(fs)) == Some(k)
    ensures k.TextKey? ==> MergeAll(fs).text == TextOf(fs, k)
    ensures k.ToolKey? ==> MergeAll(fs) == Last(fs)
  {
    if |fs| == 1 {
      assert TextOf(fs, k) == TextOf([], k) + fs[0].text;
    } else {
      MergeAllKeeps(Front(fs), k);
      assert Last(fs) in fs;
    }
  }

  /** In a window of distinct keys only the frame for k carries text for k. */
  lemma {:induction false} TextOfFolded(w: seq<Frame>, ks: seq<Key>, k: Key)
    requires forall x :: x in ks ==> Having(w, x) != []
    requires forall i, j :: 0 <= i < j < |ks| ==> ks[i] != ks[j]
    requires k.TextKey?
    ensures TextOf(Folded(w, ks), k) == if k in ks then TextOf(w, k) else ""
  {
    hide TextOf, Having, MergeAll, Folded;
    FoldedStep(w, ks);
    if ks == [] {
      TextOfNone(k);
    } else {
      var last := Last(ks);
      TextOfFolded(w, Front(ks), k);
      HavingKey(w, last);
      MergeAllKeeps(Having(w, last), last);
      TextOfSnoc(Folded(w, Front(ks)), MergeAll(Having(w, last)), k);
      assert ks == Front(ks) + [last] && last !in Front(ks);
    }
  }

  lemma FoldedStep(w: seq<Frame>, ks: seq<Key>)
    requires forall x :: x in ks ==> Having(w, x) != []
    ensures Folded(w, ks) == if ks == [] then [] else Folded(w, Front(ks)) + [MergeAll(Having(w, Last(ks)))]
  {
  }

  lemma TextOfNone(k: Key)
    ensures TextOf([], k) == ""
  {
  }

  lemma TextOfSnoc(fs: seq<Frame>, f: Frame, k: Key)
    ensures TextOf(fs + [f], k) == TextOf(fs, k) + (if KeyOf(f) == Some(k) then f.text else "")
  {
    assert Front(fs + [f]) == fs;
  }

  lemma WindowTextConserved(w: seq<Frame>, k: Key)
    requires WindowOk(w) && k.TextKey?
    ensures TextOf(Emitted(w), k) == TextOf(w, k)
  {
    KeysHave(w);
    if !(|w| == 1 && KeyOf(w[0]).None?) {
      TextOfFolded(w, Keys(w), k);
      HavingKey(w, k);
    }
  }

  /** However the stream was cut into windows, each text key's text comes out complete and in order. */
  lemma {:induction false} TextConserved(ws: seq<seq<Frame>>, k: Key)
    requires k.TextKey? && forall i :: 0 <= i < |ws| ==> WindowOk(ws[i])
    ensures TextOf(EmittedAll(ws), k) == TextOf(Joined(ws), k)
  {
    if ws != [] {
      TextConserved(Front(ws), k);
      WindowTextConserved(Last(ws), k);
      TextOfConcat(EmittedAll(Front(ws)), Emitted(Last(ws)), k);
      TextOfConcat(Joined(Front(ws)), Last(ws), k);
    }
  }

  /** A window of keyed frames yields one frame per key, in order of first appearance; a tool's is its latest snapshot. */
  lemma WindowYield(w: seq<Frame>)
    requires AllKeyed(w)
    ensures |Emitted(w)| == |Keys(w)|
    ensures forall i :: 0 <= i < |Keys(w)| ==>
              && KeyOf(Emitted(w)[i]) == Some(Keys(w)[i])
              && Having(w, Keys(w)[i]) != []
              && (Keys(w)[i].ToolKey? ==> Emitted(w)[i] == Last(Having(w, Keys(w)[i])))
              && (Keys(w)[i].TextKey? ==> Emitted(w)[i].text == TextOf(w, Keys(w)[i]))
  {
    KeysHave(w);
    FoldedAt(w, Keys(w));
    forall i | 0 <= i < |Keys(w)|
      ensures && KeyOf(Folded(w, Keys(w))[i]) == Some(Keys(w)[i])
              && (Keys(w)[i].ToolKey? ==> Folded(w, Keys(w))[i] == Last(Having(w, Keys(w)[i])))
              && (Keys(w)[i].TextKey? ==> Folded(w, Keys(w))[i].text == TextOf(w, Keys(w)[i]))
    {
      HavingKey(w, Keys(w)[i]);
      MergeAllKeeps(Having(w, Keys(w)[i]), Keys(w)[i]);
    }
  }

  predicate DistinctKeys(w: seq<Frame>) {
    forall i, j :: 0 <= i < j < |w| ==> KeyOf(w[i]) != KeyOf(w[j])
  }

  lemma {:induction false} KeysOfDistinct(w: seq<Frame>)
    requires AllKeyed(w)
    ensures DistinctKeys(w) ==> |Keys(w)| == |w| && forall i :: 0 <= i < |w| ==> KeyOf(w[i]) == Some(Keys(w)[i])
    ensures !DistinctKeys(w) ==> |Keys(w)| < |w|
    ensures |Keys(w)| <= |w|
    ensures forall i :: 0 <= i < |w| ==> KeyOf(w[i]).value in Keys(w)
  {
    if w != [] {
      KeysOfDistinct(Front(w));
      var ks, k := Keys(Front(w)), KeyOf(Last(w)).value;
      if DistinctKeys(Front(w)) && k in ks {
        var i :| 0 <= i < |ks| && ks[i] == k;
        assert KeyOf(w[i]) == KeyOf(w[|w| - 1]);
      }
      if DistinctKeys(Front(w)) && k !in ks {
        assert forall i :: 0 <= i < |w| - 1 ==> KeyOf(Front(w)[i]) == KeyOf(w[i]);
      }
    }
  }

  /**
   * A window of keyed frames goes out frame for frame exactly when no two of them share a key: otherwise frames are
   * merged or dropped, so neither the number of frames nor their order survives.
   */
  lemma UnchangedExactlyWhenDistinct(w: seq<Frame>)
    requires AllKeyed(w)
    ensures Emitted(w) == w <==> DistinctKeys(w)
  {
    KeysHave(w);
    KeysOfDistinct(w);
    if DistinctKeys(w) {
      FoldedAt(w, Keys(w));
      forall i | 0 <= i < |w| ensures MergeAll(Having(w, Keys(w)[i])) == w[i] {
        HavingOne(w, i);
      }
    }
  }

  lemma {:induction false} HavingOne(w: seq<Frame>, i: nat)
    requires AllKeyed(w) && DistinctKeys(w) && i < |w|
    ensures Having(w, KeyOf(w[i]).value) == [w[i]]
  {
    var k := KeyOf(w[i]).value;
    if i == |w| - 1 {
      HavingNone(Front(w), k);
    } else {
      HavingOne(Front(w), i);
      assert KeyOf(Last(w)) != Some(k);
    }
  }

  lemma {:induction false} HavingNone(w: seq<Frame>, k: Key)
    requires forall i :: 0 <= i < |w| ==> KeyOf(w[i]) != Some(k)
    ensures Having(w, k) == []
  {
    if w != [] { HavingNone(Front(w), k); }
  }

  /** Emitted frames never mix windows: a lone barrier comes after everything before it and before everything after it. */
  lemma BarrierSplits(ws: seq<seq<Frame>>, i: nat)
    requires i < |ws| && |ws[i]| == 1 && KeyOf(ws[i][0]).None?
    ensures EmittedAll(ws) == EmittedAll(ws[..i]) + [ws[i][0]] + EmittedAll(ws[i + 1..])
    ensures Joined(ws) == Joined(ws[..i]) + [ws[i][0]] + Joined(ws[i + 1..])
  {
    hide EmittedAll, Joined;
    var w := ws[i];
    assert w == [w[0]];
    assert ws == ws[..i] + ([w] + ws[i + 1..]);
    EmittedConcat(ws[..i], [w] + ws[i + 1..]);
    EmittedConcat([w], ws[i + 1..]);
    JoinedConcat(ws[..i], [w] + ws[i + 1..]);
    JoinedConcat([w], ws[i + 1..]);
    OneWindow(w);
  }

  lemma {:induction false} EmittedConcat(a: seq<seq<Frame>>, b: seq<seq<Frame>>)
    ensures EmittedAll(a + b) == EmittedAll(a) + EmittedAll(b)
  {
    hide Emitted;
    if b == [] {
      assert a + b == a;
    } else {
      assert Front(a + b) == a + Front(b);
      EmittedConcat(a, Front(b));
      assert EmittedAll(a) + (EmittedAll(Front(b)) + Emitted(Last(b))) == (EmittedAll(a) + EmittedAll(Front(b))) + Emitted(Last(b));
    }
  }

  lemma {:induction false} JoinedConcat(a: seq<seq<Frame>>, b: seq<seq<Frame>>)
    ensures Joined(a + b) == Joined(a) + Joined(b)
  {
    if b == [] {
      assert a + b == a;
    } else {
      assert Front(a + b) == a + Front(b);
      JoinedConcat(a, Front(b));
      assert Joined(a) + (Joined(Front(b)) + Last(b)) == (Joined(a) + Joined(Front(b))) + Last(b);
    }
  }

  lemma OneWindow(w: seq<Frame>)
    ensures EmittedAll([w]) == Emitted(w) && Joined([w]) == w
  {
    hide Emitted;
    assert Front([w]) == [];
  }

  /** What a new frame does to the fold of a window. */
  lemma KeyedPush(w: seq<Frame>, f: Frame, k: Key)
    requires KeyOf(f) == Some(k)
    ensures Keys(w + [f]) == if k in Keys(w) then Keys(w) else Keys(w) + [k]
    ensures Having(w + [f], k) == Having(w, k) + [f]
    ensures forall x :: x != k ==> Having(w + [f], x) == Having(w, x)
    ensures Having(w, k) != [] ==> MergeAll(Having(w + [f], k)) == Merge(MergeAll(Having(w, k)), f)
  {
    assert Front(w + [f]) == w && Last(w + [f]) == f;
    assert Front(Having(w, k) + [f]) == Having(w, k);
  }

  // ----- what is merged, and how a merged frame reads -----------------------------------------------------

  /** Assistant and reasoning frames with an otid, and tool calls with an id, can be merged; no other frame can. */
  lemma MergeableExactly(f: Frame)
    ensures KeyOf(f).Some? <==>
            if f.messageType == AssistantMessage || f.messageType == ReasoningMessage then |f.otid| > 0
            else f.messageType == ToolCallMessage && |f.toolCallId| > 0
  {
  }

  /** Two such frames merge if they are texts of one type and otid, or calls of one id. */
  lemma SameKeyExactly(f: Frame, g: Frame)
    requires KeyOf(f).Some? && KeyOf(g).Some?
    ensures KeyOf(f) == KeyOf(g) <==>
            && f.messageType == g.messageType
            && if f.messageType == ToolCallMessage then f.toolCallId == g.toolCallId else f.otid == g.otid
  {
  }

  /** A window is a lone frame, or frames that can all be merged with others. */
  lemma WindowExactly(w: seq<Frame>)
    ensures WindowOk(w) <==> |w| == 1 || (|w| > 1 && forall f <- w :: KeyOf(f).Some?)
  {
    if WindowOk(w) {
      forall f | f in w && |w| > 1 ensures KeyOf(f).Some? {
        var i :| 0 <= i < |w| && w[i] == f;
      }
    } else if |w| > 1 {
      var i :| 0 <= i < |w| && KeyOf(w[i]).None?;
      assert w[i] in w;
    }
  }

  function AllText(fs: seq<Frame>): string {
    if fs == [] then "" else AllText(Front(fs)) + Last(fs).text
  }

  function AllSignatures(fs: seq<Frame>): string {
    if fs == [] then "" else AllSignatures(Front(fs)) + Last(fs).signature
  }

  /** The last value that is there, or none. */
  predicate LatestDate(fs: seq<Frame>, date: Option<string>) {
    || (date.None? && forall f <- fs :: f.date.None?)
    || (date.Some? && exists i :: 0 <= i < |fs| && fs[i].date == date && forall j :: i < j < |fs| ==> fs[j].date.None?)
  }

  predicate LatestSeqId(fs: seq<Frame>, seqId: Option<int>) {
    || (seqId.None? && forall f <- fs :: f.seqId.None?)
    || (seqId.Some? && exists i :: 0 <= i < |fs| && fs[i].seqId == seqId && forall j :: i < j < |fs| ==> fs[j].seqId.None?)
  }

  lemma LatestSnoc(fs: seq<Frame>, f: Frame, date: Option<string>, seqId: Option<int>)
    requires LatestDate(fs, date) && LatestSeqId(fs, seqId)
    ensures LatestDate(fs + [f], if f.date.Some? then f.date else date)
    ensures LatestSeqId(fs + [f], if f.seqId.Some? then f.seqId else seqId)
  {
    var all := fs + [f];
    assert all[|fs|] == f && forall i :: 0 <= i < |fs| ==> all[i] == fs[i];
    forall x ensures x in all <==> x in fs || x == f { InConcat(fs, [f], x); }
  }

  /**
   * Text frames of one key read, merged, as the first of them with all their text in order, the latest date and number,
   * and, if they are reasoning, all their signatures in order.
   */
  lemma {:induction false} MergedTextReads(fs: seq<Frame>, k: Key)
    requires fs != [] && k.TextKey? && forall f :: f in fs ==> KeyOf(f) == Some(k)
    ensures var r := MergeAll(fs);
            && r == fs[0].(text := r.text, signature := r.signature, date := r.date, seqId := r.seqId)
            && r.text == AllText(fs) && LatestDate(fs, r.date) && LatestSeqId(fs, r.seqId)
            && r.signature == if k.messageType.ReasoningMessage? then AllSignatures(fs) else fs[0].signature
  {
    hide LatestDate, LatestSeqId;
    if |fs| == 1 {
      OneFrame(fs);
    } else {
      var front, f := Front(fs), Last(fs);
      assert fs == front + [f] && f in fs && front[0] == fs[0];
      assert forall x :: x in front ==> x in fs;
      assert KeyOf(f) == Some(k);
      MergedTextReads(front, k);
      LatestSnoc(front, f, MergeAll(front).date, MergeAll(front).seqId);
      SignaturesJoin(MergeAll(front), f);
    }
  }

  lemma OneFrame(fs: seq<Frame>)
    requires |fs| == 1
    ensures AllText(fs) == fs[0].text && AllSignatures(fs) == fs[0].signature
    ensures LatestDate(fs, fs[0].date) && LatestSeqId(fs, fs[0].seqId)
  {
    assert Front(fs) == [] && AllText([]) == "" && AllSignatures([]) == "";
    assert fs[0].date.Some? ==> fs[0].date == fs[0].date;
  }

  lemma SignaturesJoin(prior: Frame, incoming: Frame)
    ensures ConcatReasoningFrame(prior, incoming).signature == prior.signature + incoming.signature
  {
    assert prior.signature == "" ==> prior.signature + incoming.signature == incoming.signature;
    assert incoming.signature == "" ==> prior.signature + incoming.signature == prior.signature;
  }

  /** Tool calls of one id read, merged, as the latest of them. */
  lemma MergedToolReads(fs: seq<Frame>, k: Key)
    requires fs != [] && k.ToolKey? && forall f :: f in fs ==> KeyOf(f) == Some(k)
    ensures MergeAll(fs) == Last(fs)
  {
    assert Last(fs) in fs;
  }
}
