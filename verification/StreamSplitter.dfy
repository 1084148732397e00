/**
 * The A2UI stream splitter: text deltas in, visible text and `<a2ui-json>` blocks out, with
 * the tail of the input held back while it could still turn into a tag.
 *
 * `Batch` is the reference: one pass over the whole input, nothing held back. `Scan` is what
 * the splitter has done once it has seen an input. The main result is that the two agree
 * and that neither depends on how the input was cut into deltas.
 */
module StreamSplitter {
  import opened Basics

  datatype TagPair = TagPair(open: string, close: string)

  /** Everything below holds of any two non-empty tags; `A2UI_TAGS` are the ones in use. */
  type Tags = t: TagPair | t.open != "" && t.close != "" witness TagPair("<", ">")

  const A2UI_TAGS: Tags := TagPair("<a2ui-json>", "</a2ui-json>")

  // ----- searching -----------------------------------------------------------------------

  /** JavaScript's `indexOf`. */
  function IndexOf(s: string, t: string): (r: Option<nat>)
    ensures r.Some? ==> r.value + |t| <= |s|
  {
    IndexFrom(s, t, 0)
  }

  function IndexFrom(s: string, t: string, i: nat): (r: Option<nat>)
    ensures r.Some? ==> r.value + |t| <= |s|
    decreases |s| - i
  {
    if i + |t| > |s| then None else if OccursAt(s, t, i) then Some(i) else IndexFrom(s, t, i + 1)
  }

  ghost predicate FirstAt(s: string, t: string, r: Option<nat>) {
    match r
    case Some(at) => OccursAt(s, t, at) && forall i :: 0 <= i < at ==> !OccursAt(s, t, i)
    case None => forall i :: !OccursAt(s, t, i)
  }

  lemma IndexIsFirst(s: string, t: string, i: nat)
    requires forall j :: 0 <= j < i ==> !OccursAt(s, t, j)
    ensures FirstAt(s, t, IndexFrom(s, t, i))
    decreases |s| - i
  {
    if i + |t| <= |s| && !OccursAt(s, t, i) { IndexIsFirst(s, t, i + 1); }
  }

  lemma IndexIsUnique(s: string, t: string, r: Option<nat>)
    requires FirstAt(s, t, r)
    ensures IndexOf(s, t) == r
  {
    IndexIsFirst(s, t, 0);
  }

  /** s ends with the first k characters of t, and these are not all of t. */
  predicate EndsInPrefix(s: string, t: string, k: int) {
    0 <= k <= |s| && k < |t| && s[|s| - k..] == t[..k]
  }

  /** k is the longest tail of s that could be the start of t. */
  ghost predicate LongestTail(s: string, t: string, k: int) {
    EndsInPrefix(s, t, k) && forall j :: k < j ==> !EndsInPrefix(s, t, j)
  }

  /** The longest such tail, counting down. */
  function LongestFrom(s: string, t: string, k: nat): (r: nat)
    requires k <= |s|
    ensures r <= k
  {
    if k == 0 || EndsInPrefix(s, t, k) then k else LongestFrom(s, t, k - 1)
  }

  function Longest(s: string, t: string): (r: nat)
    ensures r <= |s|
  {
    LongestFrom(s, t, |s|)
  }

  lemma LongestIsUnique(s: string, t: string, k: nat)
    requires LongestTail(s, t, k)
    ensures Longest(s, t) == k
  {
    LongestSteps(s, t, k, |s|);
  }

  lemma LongestSteps(s: string, t: string, k: nat, from: nat)
    requires LongestTail(s, t, k) && k <= from <= |s|
    ensures LongestFrom(s, t, from) == k
  {
    if k < from { LongestSteps(s, t, k, from - 1); }
  }

  lemma LongestIsLongest(s: string, t: string)
    requires t != ""
    ensures LongestTail(s, t, Longest(s, t))
  {
    var k := |s|;
    while k > 0 && !EndsInPrefix(s, t, k)
      invariant 0 <= k <= |s|
      invariant forall j :: k < j ==> !EndsInPrefix(s, t, j)
    {
      k := k - 1;
    }
    LongestIsUnique(s, t, k);
  }

  // ----- the reference ---------------------------------------------------------------------

  datatype Whole = Whole(text: string, blocks: seq<string>, unclosed: bool)

  /** One pass over the complete input. */
  function Batch(g: Tags, s: string): Whole
    decreases |s|
  {
    var open := IndexOf(s, g.open);
    if open.None? then Whole(s, [], false)
    else
      var body := s[open.value + |g.open|..];
      var close := IndexOf(body, g.close);
      if close.None? then Whole(s[..open.value], [], true)
      else
        var rest := Batch(g, body[close.value + |g.close|..]);
        Whole(s[..open.value] + rest.text, [body[..close.value]] + rest.blocks, rest.unclosed)
  }

  // ----- the incremental scan ----------------------------------------------------------------

  datatype Mode = InText | InTag(json: string)

  /** Text and blocks put out, and the state the splitter is left in. */
  datatype Scanned = Scanned(text: string, blocks: seq<string>, mode: Mode, pending: string)

  function Tag(g: Tags, mode: Mode): string {
    if mode.InText? then g.open else g.close
  }

  function Before(text: string, blocks: seq<string>, r: Scanned): Scanned {
    Scanned(text + r.text, blocks + r.blocks, r.mode, r.pending)
  }

  lemma BeforeBefore(text: string, blocks: seq<string>, text': string, blocks': seq<string>, r: Scanned)
    ensures Before(text, blocks, Before(text', blocks', r)) == Before(text + text', blocks + blocks', r)
  {
    assert text + (text' + r.text) == (text + text') + r.text;
    assert blocks + (blocks' + r.blocks) == (blocks + blocks') + r.blocks;
  }

  /** The mode after a complete tag. */
  function Toggled(mode: Mode): Mode {
    if mode.InText? then InTag("") else InText
  }

  function TextOf(mode: Mode, piece: string): string {
    if mode.InText? then piece else ""
  }

  function BlocksOf(mode: Mode, piece: string): seq<string> {
    if mode.InText? then [] else [mode.json + piece]
  }

  /** The mode after a piece that no tag has ended yet. */
  function Longer(mode: Mode, piece: string): Mode {
    if mode.InText? then InText else InTag(mode.json + piece)
  }

  /** What scanning `p` puts out, starting in `mode` with nothing else withheld. */
  function Scan(g: Tags, mode: Mode, p: string): Scanned
    decreases |p|
  {
    var tag := Tag(g, mode);
    var at := IndexOf(p, tag);
    if at.Some? then
      Before(TextOf(mode, p[..at.value]), BlocksOf(mode, p[..at.value]), Scan(g, Toggled(mode), p[at.value + |tag|..]))
    else
      var cut := |p| - Longest(p, tag);
      Scanned(TextOf(mode, p[..cut]), [], Longer(mode, p[..cut]), p[cut..])
  }

  /** What is withheld is always a proper prefix of the tag being waited for. */
  lemma {:induction false} WithheldIsTagPrefix(g: Tags, mode: Mode, p: string)
    ensures var r := Scan(g, mode, p); |r.pending| < |Tag(g, r.mode)| && r.pending == Tag(g, r.mode)[..|r.pending|]
    decreases |p|
  {
    var tag := Tag(g, mode);
    var at := IndexOf(p, tag);
    if at.Some? {
      WithheldIsTagPrefix(g, Toggled(mode), p[at.value + |tag|..]);
    } else {
      LongestIsLongest(p, tag);
    }
  }

  // ----- cutting the input ---------------------------------------------------------------

  /** A tag already complete is found at the same place when more input follows. */
  lemma FoundStaysFound(p: string, more: string, t: string)
    requires IndexOf(p, t).Some?
    ensures IndexOf(p + more, t) == IndexOf(p, t)
  {
    IndexIsFirst(p, t, 0);
    var i := IndexOf(p, t).value;
    forall j | 0 <= j <= i ensures OccursAt(p + more, t, j) <==> OccursAt(p, t, j) {
      assert (p + more)[j..j + |t|] == p[j..j + |t|];
    }
    IndexIsUnique(p + more, t, Some(i));
  }

  /** A tag completed later starts no earlier than the withheld tail. */
  lemma NoTagBeforeTail(p: string, more: string, t: string, k: nat, i: nat)
    requires t != "" && FirstAt(p, t, None)
    requires LongestTail(p, t, k) && i < |p| - k
    ensures !OccursAt(p + more, t, i)
  {
    if OccursAt(p + more, t, i) {
      if i + |t| <= |p| {
        assert (p + more)[i..i + |t|] == p[i..i + |t|];
        assert OccursAt(p, t, i);
      } else {
        var j := |p| - i;
        assert t[..j] == (p + more)[i..i + |t|][..j] == p[i..];
        assert EndsInPrefix(p, t, j);
      }
    }
  }

  /** Position `i` of the whole, seen from behind the released part. */
  lemma SameOccurrences(whole: string, cut: nat, t: string)
    requires cut <= |whole|
    ensures forall i :: 0 <= i ==> (OccursAt(whole[cut..], t, i) <==> OccursAt(whole, t, cut + i))
  {
    forall i | 0 <= i ensures OccursAt(whole[cut..], t, i) <==> OccursAt(whole, t, cut + i) {
      if cut + i + |t| <= |whole| { assert whole[cut..][i..i + |t|] == whole[cut + i..cut + i + |t|]; }
    }
  }

  function Shifted(r: Option<nat>, offset: nat): Option<nat> {
    match r case None => None case Some(i) => Some(offset + i)
  }

  /** So the released part can be cut off before looking for the tag. */
  lemma TailDecides(p: string, more: string, t: string, k: nat)
    requires t != "" && FirstAt(p, t, None) && LongestTail(p, t, k)
    ensures IndexOf(p + more, t) == Shifted(IndexOf(p[|p| - k..] + more, t), |p| - k)
  {
    var whole, tail, cut := p + more, p[|p| - k..] + more, |p| - k;
    assert tail == whole[cut..];
    SameOccurrences(whole, cut, t);
    IndexIsFirst(tail, t, 0);
    var r := IndexOf(tail, t);
    forall j | 0 <= j < cut ensures !OccursAt(whole, t, j) {
      NoTagBeforeTail(p, more, t, k, j);
    }
    forall j | cut <= j ensures OccursAt(whole, t, j) <==> OccursAt(tail, t, j - cut) {
      assert cut + (j - cut) == j;
    }
    IndexIsUnique(whole, t, Shifted(r, cut));
  }

  /** Having released text changes nothing for what is withheld next. */
  lemma TailOfTail(p: string, more: string, t: string, k: nat)
    requires t != "" && LongestTail(p, t, k)
    ensures Longest(p + more, t) == Longest(p[|p| - k..] + more, t)
  {
    var whole, tail := p + more, p[|p| - k..] + more;
    LongestIsLongest(tail, t);
    var h := Longest(tail, t);
    assert tail[|tail| - h..] == whole[|whole| - h..];
    forall j | EndsInPrefix(whole, t, j) ensures j <= h {
      CandidateInTail(p, more, t, k, j);
      assert tail[|tail| - j..] == whole[|whole| - j..];
      assert EndsInPrefix(tail, t, j);
    }
    LongestIsUnique(whole, t, h);
  }

  /** A tail of the whole that may start a tag begins no earlier than the withheld part did. */
  lemma CandidateInTail(p: string, more: string, t: string, k: nat, j: nat)
    requires LongestTail(p, t, k) && EndsInPrefix(p + more, t, j)
    ensures j <= k + |more|
  {
    if j > |more| {
      var i, whole := j - |more|, p + more;
      assert whole[|whole| - j..][..i] == p[|p| - i..];
      assert t[..j][..i] == t[..i];
      assert EndsInPrefix(p, t, i);
    }
  }

  /**
   * Scanning `p` and then, from where that left off, `more`, is scanning `p + more`: the
   * heart of chunk independence.
   */
  lemma {:induction false} ScanContinues(g: Tags, mode: Mode, p: string, more: string)
    ensures var r := Scan(g, mode, p);
            Scan(g, mode, p + more) == Before(r.text, r.blocks, Scan(g, r.mode, r.pending + more))
    decreases |p|
  {
    hide Scan, IndexFrom, LongestFrom;
    var tag := Tag(g, mode);
    var at := IndexOf(p, tag);
    if at.Some? {
      var piece, rest := p[..at.value], p[at.value + |tag|..];
      FoundStaysFound(p, more, tag);
      ScanHit(g, mode, p, at.value);
      ScanHit(g, mode, p + more, at.value);
      assert (p + more)[..at.value] == piece;
      assert (p + more)[at.value + |tag|..] == rest + more;
      var r := Scan(g, Toggled(mode), rest);
      ScanContinues(g, Toggled(mode), rest, more);
      BeforeBefore(TextOf(mode, piece), BlocksOf(mode, piece), r.text, r.blocks, Scan(g, r.mode, r.pending + more));
    } else {
      ScanContinuesWithheld(g, mode, p, more);
    }
  }

  lemma ScanContinuesWithheld(g: Tags, mode: Mode, p: string, more: string)
    requires IndexOf(p, Tag(g, mode)).None?
    ensures var r := Scan(g, mode, p);
            Scan(g, mode, p + more) == Before(r.text, r.blocks, Scan(g, r.mode, r.pending + more))
  {
    hide Scan, IndexFrom, LongestFrom;
    var tag := Tag(g, mode);
    var k := Longest(p, tag);
    var cut := |p| - k;
    IndexIsFirst(p, tag, 0);
    LongestIsLongest(p, tag);
    TailDecides(p, more, tag, k);
    TailOfTail(p, more, tag, k);
    ScanMiss(g, mode, p);
    assert p[..cut] + (p[cut..] + more) == p + more;
    Released(g, mode, p[..cut], p[cut..] + more);
  }

  /** Text released early comes out the same as text released together with what follows. */
  lemma Released(g: Tags, mode: Mode, out: string, tail: string)
    requires IndexOf(out + tail, Tag(g, mode)) == Shifted(IndexOf(tail, Tag(g, mode)), |out|)
    requires Longest(out + tail, Tag(g, mode)) == Longest(tail, Tag(g, mode))
    ensures Scan(g, mode, out + tail) == Before(TextOf(mode, out), [], Scan(g, Longer(mode, out), tail))
  {
    if IndexOf(tail, Tag(g, mode)).Some? {
      ReleasedBeforeTag(g, mode, out, tail);
    } else {
      ReleasedWithoutTag(g, mode, out, tail);
    }
  }

  lemma SameTag(g: Tags, mode: Mode, out: string)
    ensures Tag(g, Longer(mode, out)) == Tag(g, mode) && Toggled(Longer(mode, out)) == Toggled(mode)
  {
  }

  lemma ReleasedBeforeTag(g: Tags, mode: Mode, out: string, tail: string)
    requires IndexOf(tail, Tag(g, mode)).Some?
    requires IndexOf(out + tail, Tag(g, mode)) == Shifted(IndexOf(tail, Tag(g, mode)), |out|)
    ensures Scan(g, mode, out + tail) == Before(TextOf(mode, out), [], Scan(g, Longer(mode, out), tail))
  {
    hide Scan, IndexOf, Longest, BlocksOf, TextOf, Before, Longer, Toggled, Tag;
    SameTag(g, mode, out);
    var tag, whole, stop := Tag(g, mode), out + tail, IndexOf(tail, Tag(g, mode)).value;
    var piece, after, later := tail[..stop], tail[stop + |tag|..], Longer(mode, out);
    assert whole[..|out| + stop] == out + piece && whole[|out| + stop + |tag|..] == after;
    var next := Scan(g, Toggled(mode), after);
    calc {
      Scan(g, mode, whole);
    ==  { ScanHit(g, mode, whole, |out| + stop); }
      Before(TextOf(mode, out + piece), BlocksOf(mode, out + piece), next);
    ==  { Pieces(mode, out, piece); }
      Before(TextOf(mode, out) + TextOf(later, piece), [] + BlocksOf(later, piece), next);
    ==  { BeforeBefore(TextOf(mode, out), [], TextOf(later, piece), BlocksOf(later, piece), next); }
      Before(TextOf(mode, out), [], Before(TextOf(later, piece), BlocksOf(later, piece), next));
    ==  { ScanHit(g, later, tail, stop); }
      Before(TextOf(mode, out), [], Scan(g, later, tail));
    }
  }

  lemma ReleasedWithoutTag(g: Tags, mode: Mode, out: string, tail: string)
    requires IndexOf(tail, Tag(g, mode)).None? && IndexOf(out + tail, Tag(g, mode)).None?
    requires Longest(out + tail, Tag(g, mode)) == Longest(tail, Tag(g, mode))
    ensures Scan(g, mode, out + tail) == Before(TextOf(mode, out), [], Scan(g, Longer(mode, out), tail))
  {
    hide Scan, IndexOf, Longest, Tag;
    SameTag(g, mode, out);
    var whole, stop := out + tail, |tail| - Longest(tail, Tag(g, mode));
    assert whole[..|out| + stop] == out + tail[..stop] && whole[|out| + stop..] == tail[stop..];
    Pieces(mode, out, tail[..stop]);
    ScanMiss(g, mode, whole);
    ScanMiss(g, Longer(mode, out), tail);
  }

  lemma Pieces(mode: Mode, out: string, piece: string)
    ensures TextOf(mode, out + piece) == TextOf(mode, out) + TextOf(Longer(mode, out), piece)
    ensures [] + BlocksOf(Longer(mode, out), piece) == BlocksOf(mode, out + piece)
    ensures Longer(Longer(mode, out), piece) == Longer(mode, out + piece)
    ensures TextOf(Longer(mode, out), piece) == TextOf(mode, piece)
  {
    if mode.InTag? {
      assert mode.json + (out + piece) == (mode.json + out) + piece;
    }
  }

  lemma ScanHit(g: Tags, mode: Mode, p: string, at: nat)
    requires IndexOf(p, Tag(g, mode)) == Some(at)
    ensures Scan(g, mode, p) ==
            Before(TextOf(mode, p[..at]), BlocksOf(mode, p[..at]), Scan(g, Toggled(mode), p[at + |Tag(g, mode)|..]))
  {
  }

  lemma ScanMiss(g: Tags, mode: Mode, p: string)
    requires IndexOf(p, Tag(g, mode)).None?
    ensures var cut := |p| - Longest(p, Tag(g, mode));
            Scan(g, mode, p) == Scanned(TextOf(mode, p[..cut]), [], Longer(mode, p[..cut]), p[cut..])
  {
  }

  /** What a flush adds at the end of the input. */
  function Finish(r: Scanned): Whole {
    if r.mode.InText? then Whole(r.text + r.pending, r.blocks, false) else Whole(r.text, r.blocks, true)
  }

  /** The incremental scan followed by a flush puts out exactly what the one-pass splitter does. */
  lemma {:induction false} ScanIsBatch(g: Tags, s: string)
    ensures Finish(Scan(g, InText, s)) == Batch(g, s)
    decreases |s|
  {
    hide Scan, IndexFrom, LongestFrom;
    var open := IndexOf(s, g.open);
    if open.Some? {
      var text, body := s[..open.value], s[open.value + |g.open|..];
      var close := IndexOf(body, g.close);
      ScanHit(g, InText, s, open.value);
      if close.Some? {
        var json, rest := body[..close.value], body[close.value + |g.close|..];
        ScanHit(g, InTag(""), body, close.value);
        ScanIsBatch(g, rest);
        assert "" + json == json;
        BeforeBefore(text, [], "", [json], Scan(g, InText, rest));
        assert text + "" == text && [] + [json] == [json];
        FinishBefore(text, [json], Scan(g, InText, rest));
        assert Finish(Scan(g, InText, s)) == Finish(Before(text, [json], Scan(g, InText, rest)));
      } else {
        ScanMiss(g, InTag(""), body);
        assert text + "" == text;
        assert Finish(Scan(g, InText, s)) == Whole(text, [], true);
      }
    } else {
      ScanMiss(g, InText, s);
      var cut := |s| - Longest(s, g.open);
      assert s[..cut] + s[cut..] == s;
      assert Finish(Scan(g, InText, s)) == Whole(s, [], false);
    }
  }

  lemma FinishBefore(text: string, blocks: seq<string>, r: Scanned)
    ensures var w := Finish(r); Finish(Before(text, blocks, r)) == Whole(text + w.text, blocks + w.blocks, w.unclosed)
  {
    assert text + r.text + r.pending == text + (r.text + r.pending);
  }

  function Joined(deltas: seq<string>): string {
    if deltas == [] then "" else Joined(deltas[..|deltas| - 1]) + deltas[|deltas| - 1]
  }

  /** Feeding the deltas one after the other, collecting the output. */
  function FeedAll(g: Tags, deltas: seq<string>): Scanned {
    if deltas == [] then Scanned("", [], InText, "")
    else
      var sofar := FeedAll(g, deltas[..|deltas| - 1]);
      Before(sofar.text, sofar.blocks, Scan(g, sofar.mode, sofar.pending + deltas[|deltas| - 1]))
  }

  /**
   * Chunk independence: after any sequence of deltas the output so far and the state are those of one scan of the
   * joined input, and a flush completes them to what the one-pass splitter makes of it.
   */
  lemma {:induction false} ChunkIndependence(g: Tags, deltas: seq<string>)
    ensures FeedAll(g, deltas) == Scan(g, InText, Joined(deltas))
    ensures Finish(FeedAll(g, deltas)) == Batch(g, Joined(deltas))
  {
    if deltas == [] {
      assert IndexOf("", g.open).None?;
      assert Longest("", g.open) == 0;
    } else {
      ChunkIndependence(g, deltas[..|deltas| - 1]);
      ScanContinues(g, InText, Joined(deltas[..|deltas| - 1]), deltas[|deltas| - 1]);
    }
    ScanIsBatch(g, Joined(deltas));
  }

  /** Two ways of cutting the same input cannot be told apart. */
  lemma SameInputSameOutput(g: Tags, deltas: seq<string>, deltas': seq<string>)
    requires Joined(deltas) == Joined(deltas')
    ensures FeedAll(g, deltas) == FeedAll(g, deltas')
  {
    ChunkIndependence(g, deltas);
    ChunkIndependence(g, deltas');
  }

  // ----- what a split is -------------------------------------------------------------------------

  /** No tag ends before the one that follows the text: the tag is first met right behind it. */
  ghost predicate RunsUpTo(p: string, t: string) {
    forall i :: 0 <= i < |p| ==> !OccursAt(p + t, t, i)
  }

  ghost predicate FreeOf(p: string, t: string) {
    forall i :: 0 <= i <= |p| ==> !OccursAt(p, t, i)
  }

  /** Visible pieces with the tagged blocks between them, and at the end what an open tag left unclosed. */
  function Reassembled(g: Tags, pieces: seq<string>, blocks: seq<string>, unclosed: Option<string>): string
    requires |pieces| == |blocks| + 1
  {
    if blocks == [] then
      pieces[0] + match unclosed case None => "" case Some(body) => g.open + body
    else pieces[0] + g.open + (blocks[0] + g.close + Reassembled(g, pieces[1..], blocks[1..], unclosed))
  }

  /** Each piece runs up to the open tag behind it and each block up to its close tag; the ends are free of tags. */
  ghost predicate Tidy(g: Tags, pieces: seq<string>, blocks: seq<string>, unclosed: Option<string>)
    requires |pieces| == |blocks| + 1
  {
    && (forall k :: 0 <= k < |blocks| ==> RunsUpTo(pieces[k], g.open) && RunsUpTo(blocks[k], g.close))
    && match unclosed
       case None => FreeOf(pieces[|blocks|], g.open)
       case Some(body) => RunsUpTo(pieces[|blocks|], g.open) && FreeOf(body, g.close)
  }

  lemma FoundBehind(p: string, t: string, rest: string)
    requires t != "" && RunsUpTo(p, t)
    ensures IndexOf(p + t + rest, t) == Some(|p|)
    ensures (p + t + rest)[..|p|] == p && (p + t + rest)[|p| + |t|..] == rest
  {
    var s := p + t + rest;
    forall i | 0 <= i < |p| ensures !OccursAt(s, t, i) {
      assert s[i..i + |t|] == (p + t)[i..i + |t|];
      assert !OccursAt(p + t, t, i);
    }
    assert OccursAt(s, t, |p|);
    IndexIsUnique(s, t, Some(|p|));
  }

  lemma FreeIsNotFound(p: string, t: string)
    requires t != ""
    ensures FreeOf(p, t) <==> IndexOf(p, t).None?
  {
    IndexIsFirst(p, t, 0);
    if FreeOf(p, t) { IndexIsUnique(p, t, None); }
  }

  lemma FoundRunsUpTo(s: string, t: string, at: nat)
    requires t != "" && IndexOf(s, t) == Some(at)
    ensures at + |t| <= |s| && RunsUpTo(s[..at], t) && s == s[..at] + t + s[at + |t|..]
  {
    IndexIsFirst(s, t, 0);
    forall i | 0 <= i < at ensures !OccursAt(s[..at] + t, t, i) {
      assert s == s[..at] + t + s[at + |t|..];
      assert (s[..at] + t)[i..i + |t|] == s[i..i + |t|];
      assert !OccursAt(s, t, i);
    }
  }

  lemma OneMoreBlock(g: Tags, piece: string, block: string, pieces: seq<string>, blocks: seq<string>, unclosed: Option<string>)
    requires |pieces| == |blocks| + 1
    ensures Reassembled(g, [piece] + pieces, [block] + blocks, unclosed) ==
            piece + g.open + (block + g.close + Reassembled(g, pieces, blocks, unclosed))
    ensures RunsUpTo(piece, g.open) && RunsUpTo(block, g.close) && Tidy(g, pieces, blocks, unclosed) ==>
              Tidy(g, [piece] + pieces, [block] + blocks, unclosed)
  {
    hide RunsUpTo, FreeOf;
    assert ([piece] + pieces)[1..] == pieces && ([block] + blocks)[1..] == blocks;
  }

  /** The batch splitter finds a tidy split of the whole input, closed or not: nothing is lost and no tag is missed. */
  lemma {:induction false} BatchLosesNothing(g: Tags, s: string) returns (pieces: seq<string>, unclosed: Option<string>)
    ensures |pieces| == |Batch(g, s).blocks| + 1 && Tidy(g, pieces, Batch(g, s).blocks, unclosed)
    ensures s == Reassembled(g, pieces, Batch(g, s).blocks, unclosed)
    ensures Joined(pieces) == Batch(g, s).text && unclosed.Some? == Batch(g, s).unclosed
    decreases |s|
  {
    hide IndexFrom, IndexOf, LongestFrom, RunsUpTo, FreeOf;
    var open := IndexOf(s, g.open);
    FreeIsNotFound(s, g.open);
    if open.None? {
      pieces, unclosed := [s], None;
      assert Joined([s]) == Joined([]) + s;
    } else {
      FoundRunsUpTo(s, g.open, open.value);
      var body := s[open.value + |g.open|..];
      var close := IndexOf(body, g.close);
      FreeIsNotFound(body, g.close);
      if close.None? {
        pieces, unclosed := [s[..open.value]], Some(body);
        assert Joined(pieces) == Joined([]) + s[..open.value];
        assert s == s[..open.value] + (g.open + body);
      } else {
        FoundRunsUpTo(body, g.close, close.value);
        var rest := body[close.value + |g.close|..];
        var others, tail := BatchLosesNothing(g, rest);
        pieces, unclosed := [s[..open.value]] + others, tail;
        JoinedCons(s[..open.value], others);
        OneMoreBlock(g, s[..open.value], body[..close.value], others, Batch(g, rest).blocks, tail);
      }
    }
  }

  /** There is only one tidy split of an input, so being one says exactly what the batch splitter returns. */
  lemma {:induction false} TidySplitIsBatch(g: Tags, s: string, pieces: seq<string>, blocks: seq<string>, unclosed: Option<string>)
    requires |pieces| == |blocks| + 1 && Tidy(g, pieces, blocks, unclosed) && s == Reassembled(g, pieces, blocks, unclosed)
    ensures Batch(g, s) == Whole(Joined(pieces), blocks, unclosed.Some?)
    decreases |blocks|
  {
    hide IndexFrom, LongestFrom, RunsUpTo, FreeOf, IndexOf;
    if blocks == [] {
      assert pieces == [pieces[0]] && Joined(pieces) == Joined([]) + pieces[0];
      if unclosed.None? {
        assert s == pieces[0];
        FreeIsNotFound(s, g.open);
      } else {
        assert s == pieces[0] + g.open + unclosed.value;
        FoundBehind(pieces[0], g.open, unclosed.value);
        FreeIsNotFound(unclosed.value, g.close);
      }
    } else {
      var rest := Reassembled(g, pieces[1..], blocks[1..], unclosed);
      var body := blocks[0] + g.close + rest;
      assert s == pieces[0] + g.open + body;
      FoundBehind(pieces[0], g.open, body);
      FoundBehind(blocks[0], g.close, rest);
      assert pieces[1..][|blocks[1..]|] == pieces[|blocks|];
      TidySplitIsBatch(g, rest, pieces[1..], blocks[1..], unclosed);
      JoinedCons(pieces[0], pieces[1..]);
      assert pieces == [pieces[0]] + pieces[1..] && blocks == [blocks[0]] + blocks[1..];
    }
  }

  lemma {:induction false} JoinedCons(first: string, rest: seq<string>)
    ensures Joined([first] + rest) == first + Joined(rest)
  {
    var all := [first] + rest;
    if rest == [] {
      assert all[..0] == [] && Joined([]) == "";
    } else {
      JoinedCons(first, rest[..|rest| - 1]);
      assert all[..|all| - 1] == [first] + rest[..|rest| - 1];
    }
  }

  // ----- the splitter itself ---------------------------------------------------------------

  method LongestSuffixPrefix(s: string, target: string) returns (k: nat)
    requires target != []
    ensures k == Longest(s, target)
  {
    k := if |s| < |target| - 1 then |s| else |target| - 1;
    while k > 0
      invariant 0 <= k <= |s| && k < |target|
      invariant forall j :: k < j ==> !EndsInPrefix(s, target, j)
    {
      if s[|s| - k..] == target[..k] { break; }
      k := k - 1;
    }
    LongestIsUnique(s, target, k);
  }

  class Splitter {
    const g: Tags
    var inTag: bool
    var pending: string
    var jsonBuf: string
    /** Everything fed and put out since the last flush. */
    ghost var deltas: seq<string>
    ghost var textOut: string
    ghost var blocksOut: seq<string>

    function Mode(): Mode
      reads this
    {
      if inTag then InTag(jsonBuf) else InText
    }

    /** The state and all output so far are a function of the deltas fed. */
    ghost predicate Valid()
      reads this
    {
      && Scanned(textOut, blocksOut, Mode(), pending) == FeedAll(g, deltas)
      && (!inTag ==> jsonBuf == "")
    }

    constructor ()
      ensures Valid() && deltas == [] && g == TagPair("<a2ui-json>", "</a2ui-json>")
    {
      g := A2UI_TAGS;
      inTag, pending, jsonBuf := false, "", "";
      deltas, textOut, blocksOut := [], "", [];
    }

    method Feed(delta: string) returns (text: string, frames: seq<string>)
      requires Valid()
      modifies this
      ensures Valid() && deltas == old(deltas) + [delta]
      ensures textOut == old(textOut) + text && blocksOut == old(blocksOut) + frames
      ensures |pending| < |Tag(g, Mode())| && pending == Tag(g, Mode())[..|pending|]
    {
      hide Scan, FeedAll, Joined, IndexFrom, LongestFrom;
      Grown(g, deltas, delta);
      FedWithheld(g, deltas + [delta]);
      if |delta| == 0 {
        EmptyDelta(g, deltas);
        text, frames := "", [];
      } else {
        text, frames := Drain(delta);
      }
      deltas := deltas + [delta];
      textOut, blocksOut := textOut + text, blocksOut + frames;
    }

    /** The loop of `Feed`: consumes tags until none is complete, then releases all but the withheld tail. */
    method Drain(delta: string) returns (text: string, frames: seq<string>)
      requires !inTag ==> jsonBuf == ""
      modifies `inTag, `pending, `jsonBuf
      ensures Scanned(text, frames, Mode(), pending) == old(Scan(g, Mode(), pending + delta))
      ensures !inTag ==> jsonBuf == ""
    {
      hide Scan, IndexFrom, LongestFrom;
      pending := pending + delta;
      ghost var goal := Scan(g, Mode(), pending);
      text, frames := "", [];
      var progress := true;
      while progress
        invariant progress ==> Before(text, frames, Scan(g, Mode(), pending)) == goal
        invariant !progress ==> Scanned(text, frames, Mode(), pending) == goal
        invariant !inTag ==> jsonBuf == ""
        decreases |pending|, progress
      {
        ghost var mode, p := Mode(), pending;
        progress := false;
        var idx := IndexOf(pending, if inTag then g.close else g.open);
        if idx.Some? {
          ScanHit(g, mode, p, idx.value);
          BeforeBefore(text, frames, TextOf(mode, p[..idx.value]), BlocksOf(mode, p[..idx.value]),
                       Scan(g, Toggled(mode), p[idx.value + |Tag(g, mode)|..]));
        } else {
          ScanMiss(g, mode, p);
        }
        if !inTag {
          if idx.Some? {
            text := text + pending[..idx.value];
            pending := pending[idx.value + |g.open|..];
            inTag := true;
            jsonBuf := "";
            progress := true;
          } else {
            var hold := LongestSuffixPrefix(pending, g.open);
            text := text + pending[..|pending| - hold];
            pending := pending[|pending| - hold..];
          }
        } else {
          if idx.Some? {
            jsonBuf := jsonBuf + pending[..idx.value];
            pending := pending[idx.value + |g.close|..];
            frames := frames + [jsonBuf];
            jsonBuf := "";
            inTag := false;
            progress := true;
          } else {
            var hold := LongestSuffixPrefix(pending, g.close);
            jsonBuf := jsonBuf + pending[..|pending| - hold];
            pending := pending[|pending| - hold..];
          }
        }
      }
    }

    /** The flush completes the output to what the one-pass splitter makes of everything fed. */
    method Flush() returns (text: string, unclosed: bool)
      requires Valid()
      modifies this
      ensures Valid() && deltas == []
      ensures Whole(old(textOut) + text, old(blocksOut), unclosed) == Batch(g, Joined(old(deltas)))
    {
      ChunkIndependence(g, deltas);
      text, unclosed := "", false;
      if inTag {
        inTag := false;
        jsonBuf := "";
        pending := "";
        unclosed := true;
        assert old(textOut) + "" == old(textOut);
      } else {
        text := pending;
        pending := "";
      }
      deltas, textOut, blocksOut := [], "", [];
    }
  }

  lemma Grown(g: Tags, deltas: seq<string>, delta: string)
    ensures var sofar := FeedAll(g, deltas);
            FeedAll(g, deltas + [delta]) == Before(sofar.text, sofar.blocks, Scan(g, sofar.mode, sofar.pending + delta))
  {
    assert (deltas + [delta])[..|deltas|] == deltas;
  }

  lemma FedWithheld(g: Tags, deltas: seq<string>)
    ensures var r := FeedAll(g, deltas); |r.pending| < |Tag(g, r.mode)| && r.pending == Tag(g, r.mode)[..|r.pending|]
  {
    ChunkIndependence(g, deltas);
    WithheldIsTagPrefix(g, InText, Joined(deltas));
  }

  /** An empty delta changes nothing. */
  lemma EmptyDelta(g: Tags, deltas: seq<string>)
    ensures FeedAll(g, deltas + [""]) == FeedAll(g, deltas)
  {
    ChunkIndependence(g, deltas);
    ChunkIndependence(g, deltas + [""]);
    assert (deltas + [""])[..|deltas|] == deltas;
    assert Joined(deltas) + "" == Joined(deltas);
  }
}
