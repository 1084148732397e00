/**
 * The derived search index: rows collected from memory blocks and conversations, rebuilt
 * from scratch or updated for the sources that changed.
 *
 * The index is a table of rows whose order does not matter. The main result says exactly when
 * an incremental update leaves the rows a full rebuild would.
 */
module SearchIndex {
  import opened Basics

  type Id = string

  datatype Kind = BlockKind | MessageKind | ConversationKind

  /** Rows of one agent. */
  datatype Row = Row(kind: Kind, entityId: Id, conv: Id, content: string)

  datatype File = File(path: string, size: nat, mtime: nat)

  /** A stored message: its role and type line, and its searchable text. */
  datatype Message = Message(id: Id, header: string, text: string)

  /** A conversation: its two source files, its title and summary text, and its messages. */
  datatype Conv = Conv(id: Id, convJson: Option<File>, messagesFile: Option<File>, head: string, messages: seq<Message>)

  datatype Block = Block(id: Id, content: string)

  datatype Source = Source(blockFiles: seq<File>, blocks: seq<Block>, convs: seq<Conv>)

  /** The signature stands for a collision-free hash of the files. */
  datatype Manifest = Manifest(lastMtime: nat, messageCount: int, blockCount: nat, signature: multiset<File>)

  datatype Plan = Fresh | Incremental | Full

  // ----- rows of a source -----------------------------------------------------------------------

  function BlockRows(bs: seq<Block>): seq<Row> {
    if bs == [] then [] else BlockRows(bs[..|bs| - 1]) + [Row(BlockKind, bs[|bs| - 1].id, "", bs[|bs| - 1].content)]
  }

  function MessageRows(conv: Id, ms: seq<Message>): seq<Row> {
    if ms == [] then []
    else
      var m, front := ms[|ms| - 1], MessageRows(conv, ms[..|ms| - 1]);
      if m.text == "" then front else front + [Row(MessageKind, m.id, conv, m.header + "\n" + m.text)]
  }

  function ConvRows(c: Conv): seq<Row> {
    (if c.head == "" then [] else [Row(ConversationKind, c.id, c.id, c.head)]) + MessageRows(c.id, c.messages)
  }

  function AllConvRows(cs: seq<Conv>): seq<Row> {
    if cs == [] then [] else AllConvRows(cs[..|cs| - 1]) + ConvRows(cs[|cs| - 1])
  }

  /** What a full rebuild puts in the index. */
  function AllRows(s: Source): seq<Row> {
    BlockRows(s.blocks) + AllConvRows(s.convs)
  }

  function ConvFiles(cs: seq<Conv>): seq<File> {
    if cs == [] then []
    else
      var c := cs[|cs| - 1];
      ConvFiles(cs[..|cs| - 1])
      + (if c.convJson.Some? then [c.convJson.value] else []) + (if c.messagesFile.Some? then [c.messagesFile.value] else [])
  }

  function Files(s: Source): seq<File> {
    s.blockFiles + ConvFiles(s.convs)
  }

  function MaxMtime(fs: seq<File>): (m: nat)
    ensures forall f :: f in fs ==> f.mtime <= m
    ensures m == 0 || exists f :: f in fs && f.mtime == m
  {
    if fs == [] then 0
    else
      var m := MaxMtime(fs[..|fs| - 1]);
      assert fs == fs[..|fs| - 1] + [fs[|fs| - 1]];
      if fs[|fs| - 1].mtime > m then fs[|fs| - 1].mtime else m
  }

  predicate DistinctConvs(s: Source) {
    forall i, j :: 0 <= i < j < |s.convs| ==> s.convs[i].id != s.convs[j].id
  }

  // ----- groups of rows ----------------------------------------------------------------------

  /** The rows of one conversation, or all block rows. */
  datatype Group = Blocks | Of(conv: Id)

  function GroupOf(r: Row): Group {
    if r.kind.BlockKind? then Blocks else Of(r.conv)
  }

  function Only(rows: seq<Row>, g: Group): seq<Row> {
    if rows == [] then []
    else if GroupOf(rows[|rows| - 1]) == g then Only(rows[..|rows| - 1], g) + [rows[|rows| - 1]]
    else Only(rows[..|rows| - 1], g)
  }

  /** DELETE of one group. */
  function Without(rows: seq<Row>, g: Group): seq<Row> {
    if rows == [] then []
    else if GroupOf(rows[|rows| - 1]) == g then Without(rows[..|rows| - 1], g)
    else Without(rows[..|rows| - 1], g) + [rows[|rows| - 1]]
  }

  function Messages(rows: seq<Row>): nat {
    if rows == [] then 0
    else Messages(rows[..|rows| - 1]) + (if rows[|rows| - 1].kind.MessageKind? then 1 else 0)
  }

  lemma {:induction false} OnlyConcat(a: seq<Row>, b: seq<Row>, g: Group)
    ensures Only(a + b, g) == Only(a, g) + Only(b, g)
  {
    if b == [] {
      assert a + b == a;
    } else {
      assert (a + b)[..|a + b| - 1] == a + b[..|b| - 1];
      OnlyConcat(a, b[..|b| - 1], g);
    }
  }

  lemma {:induction false} MessagesConcat(a: seq<Row>, b: seq<Row>)
    ensures Messages(a + b) == Messages(a) + Messages(b)
  {
    if b == [] {
      assert a + b == a;
    } else {
      assert (a + b)[..|a + b| - 1] == a + b[..|b| - 1];
      MessagesConcat(a, b[..|b| - 1]);
    }
  }

  lemma OnlySnoc(rows: seq<Row>, r: Row, g: Group)
    ensures Only(rows + [r], g) == Only(rows, g) + if GroupOf(r) == g then [r] else []
  {
    assert (rows + [r])[..|rows|] == rows;
  }

  lemma MessagesSnoc(rows: seq<Row>, r: Row)
    ensures Messages(rows + [r]) == Messages(rows) + if r.kind.MessageKind? then 1 else 0
  {
    assert (rows + [r])[..|rows|] == rows;
  }

  lemma WithoutSnoc(rows: seq<Row>, r: Row, g: Group)
    ensures Without(rows + [r], g) == Without(rows, g) + if GroupOf(r) == g then [] else [r]
  {
    assert (rows + [r])[..|rows|] == rows;
  }

  lemma {:induction false} OnlyOfWithout(rows: seq<Row>, g: Group, h: Group)
    ensures Only(Without(rows, g), h) == if g == h then [] else Only(rows, h)
    ensures Messages(Without(rows, g)) == Messages(rows) - Messages(Only(rows, g))
  {
    if rows == [] {
    } else {
      hide Only, Without, Messages;
      var front, last := rows[..|rows| - 1], rows[|rows| - 1];
      assert rows == front + [last];
      OnlyOfWithout(front, g, h);
      WithoutSnoc(front, last, g);
      OnlySnoc(front, last, g);
      OnlySnoc(front, last, h);
      OnlySnoc(Without(front, g), last, h);
      MessagesSnoc(front, last);
      MessagesSnoc(Without(front, g), last);
      MessagesSnoc(Only(front, g), last);
    }
  }

  lemma OnlyOne(r: Row, g: Group)
    ensures Only([r], g) == if GroupOf(r) == g then [r] else []
  {
    assert [r][..0] == [];
    assert Only([], g) == [];
  }

  lemma {:induction false} OnlyCount(rows: seq<Row>, g: Group, r: Row)
    ensures multiset(Only(rows, g))[r] == if GroupOf(r) == g then multiset(rows)[r] else 0
  {
    if rows != [] {
      OnlyCount(rows[..|rows| - 1], g, r);
      assert rows == rows[..|rows| - 1] + [rows[|rows| - 1]];
    }
  }

  predicate SameRows(a: seq<Row>, b: seq<Row>) {
    multiset(a) == multiset(b)
  }

  lemma SameInGroup(a: seq<Row>, b: seq<Row>, g: Group)
    requires SameRows(a, b)
    ensures SameRows(Only(a, g), Only(b, g))
  {
    forall r ensures multiset(Only(a, g))[r] == multiset(Only(b, g))[r] {
      OnlyCount(a, g, r);
      OnlyCount(b, g, r);
    }
  }

  /** Two tables hold the same rows exactly when they do so group by group. */
  lemma SameByGroup(a: seq<Row>, b: seq<Row>)
    ensures SameRows(a, b) <==> forall g :: SameRows(Only(a, g), Only(b, g))
  {
    if SameRows(a, b) {
      forall g ensures SameRows(Only(a, g), Only(b, g)) { SameInGroup(a, b, g); }
    } else {
      var r :| multiset(a)[r] != multiset(b)[r];
      OnlyCount(a, GroupOf(r), r);
      OnlyCount(b, GroupOf(r), r);
      assert !SameRows(Only(a, GroupOf(r)), Only(b, GroupOf(r)));
    }
  }

  // ----- rows of a source by group ---------------------------------------------------------------

  lemma {:induction false} BlockRowsGroup(bs: seq<Block>, g: Group)
    ensures Only(BlockRows(bs), g) == if g == Blocks then BlockRows(bs) else []
    ensures Messages(BlockRows(bs)) == 0
  {
    if bs != [] {
      var front := BlockRows(bs[..|bs| - 1]);
      BlockRowsGroup(bs[..|bs| - 1], g);
      assert BlockRows(bs)[..|BlockRows(bs)| - 1] == front;
    }
  }

  lemma {:induction false} MessageRowsGroup(conv: Id, ms: seq<Message>, g: Group)
    ensures Only(MessageRows(conv, ms), g) == if g == Of(conv) then MessageRows(conv, ms) else []
    ensures Messages(MessageRows(conv, ms)) == |MessageRows(conv, ms)|
  {
    if ms != [] {
      var front := MessageRows(conv, ms[..|ms| - 1]);
      MessageRowsGroup(conv, ms[..|ms| - 1], g);
      if ms[|ms| - 1].text != "" { assert MessageRows(conv, ms)[..|front|] == front; }
    }
  }

  lemma ConvRowsGroup(c: Conv, g: Group)
    ensures Only(ConvRows(c), g) == if g == Of(c.id) then ConvRows(c) else []
    ensures Messages(ConvRows(c)) == |MessageRows(c.id, c.messages)|
  {
    hide Only, MessageRows, Messages;
    MessageRowsGroup(c.id, c.messages, g);
    var head := Row(ConversationKind, c.id, c.id, c.head);
    OnlyConcat([head], MessageRows(c.id, c.messages), g);
    MessagesConcat([head], MessageRows(c.id, c.messages));
    OnlyOne(head, g);
    NoMessage(head);
    assert [] + MessageRows(c.id, c.messages) == MessageRows(c.id, c.messages);
  }

  lemma NoMessage(r: Row)
    requires !r.kind.MessageKind?
    ensures Messages([r]) == 0
  {
    assert [r][..0] == [];
  }

  /** The rows a conversation list contributes for one id; none if the id is not listed. */
  function RowsOf(cs: seq<Conv>, id: Id): seq<Row> {
    if cs == [] then [] else if cs[|cs| - 1].id == id then ConvRows(cs[|cs| - 1]) else RowsOf(cs[..|cs| - 1], id)
  }

  lemma {:induction false} NotListed(cs: seq<Conv>, id: Id)
    requires forall i :: 0 <= i < |cs| ==> cs[i].id != id
    ensures RowsOf(cs, id) == [] && Only(AllConvRows(cs), Of(id)) == []
  {
    if cs != [] {
      NotListed(cs[..|cs| - 1], id);
      OnlyConcat(AllConvRows(cs[..|cs| - 1]), ConvRows(cs[|cs| - 1]), Of(id));
      ConvRowsGroup(cs[|cs| - 1], Of(id));
    }
  }

  lemma {:induction false} AllConvRowsGroup(cs: seq<Conv>, id: Id)
    requires forall i, j :: 0 <= i < j < |cs| ==> cs[i].id != cs[j].id
    ensures Only(AllConvRows(cs), Of(id)) == RowsOf(cs, id)
    ensures Only(AllConvRows(cs), Blocks) == []
  {
    if cs != [] {
      var front, c := cs[..|cs| - 1], cs[|cs| - 1];
      AllConvRowsGroup(front, id);
      OnlyConcat(AllConvRows(front), ConvRows(c), Of(id));
      OnlyConcat(AllConvRows(front), ConvRows(c), Blocks);
      ConvRowsGroup(c, Of(id));
      ConvRowsGroup(c, Blocks);
      if c.id == id { NotListed(front, id); }
    }
  }

  lemma AllRowsGroup(s: Source, g: Group)
    requires DistinctConvs(s)
    ensures Only(AllRows(s), g) == if g.Blocks? then BlockRows(s.blocks) else RowsOf(s.convs, g.conv)
  {
    hide Only;
    OnlyConcat(BlockRows(s.blocks), AllConvRows(s.convs), g);
    BlockRowsGroup(s.blocks, g);
    AllConvRowsGroup(s.convs, if g.Of? then g.conv else "");
  }

  // ----- the incremental update -------------------------------------------------------------------

  predicate Newer(f: Option<File>, cutoff: nat) {
    f.Some? && f.value.mtime > cutoff
  }

  predicate ConvChanged(c: Conv, cutoff: nat) {
    Newer(c.convJson, cutoff) || Newer(c.messagesFile, cutoff)
  }

  predicate BlocksChanged(s: Source, cutoff: nat) {
    exists f <- s.blockFiles :: f.mtime > cutoff
  }

  function ChangedConvs(cs: seq<Conv>, cutoff: nat): seq<Conv> {
    if cs == [] then []
    else if ConvChanged(cs[|cs| - 1], cutoff) then ChangedConvs(cs[..|cs| - 1], cutoff) + [cs[|cs| - 1]]
    else ChangedConvs(cs[..|cs| - 1], cutoff)
  }

  /** Delete and re-insert each of the conversations. */
  function Replaced(rows: seq<Row>, cs: seq<Conv>): seq<Row> {
    if cs == [] then rows
    else Without(Replaced(rows, cs[..|cs| - 1]), Of(cs[|cs| - 1].id)) + ConvRows(cs[|cs| - 1])
  }

  function BlocksUpdated(rows: seq<Row>, s: Source, cutoff: nat): seq<Row> {
    if BlocksChanged(s, cutoff) then Without(rows, Blocks) + BlockRows(s.blocks) else rows
  }

  function Updated(rows: seq<Row>, s: Source, cutoff: nat): seq<Row> {
    Replaced(BlocksUpdated(rows, s, cutoff), ChangedConvs(s.convs, cutoff))
  }

  predicate Listed(cs: seq<Conv>, id: Id) {
    exists c <- cs :: c.id == id
  }

  lemma {:induction false} ReplacedGroup(rows: seq<Row>, cs: seq<Conv>, g: Group)
    ensures Only(Replaced(rows, cs), g) ==
            if g.Of? && Listed(cs, g.conv) then RowsOf(cs, g.conv) else Only(rows, g)
  {
    if cs != [] {
      hide Only, ConvRows, Without;
      var front, c := cs[..|cs| - 1], cs[|cs| - 1];
      assert cs == front + [c];
      ReplacedGroup(rows, front, g);
      var before := Replaced(rows, front);
      OnlyOfWithout(before, Of(c.id), g);
      ConvRowsGroup(c, g);
      OnlyConcat(Without(before, Of(c.id)), ConvRows(c), g);
    }
  }

  lemma {:induction false} ChangedRows(cs: seq<Conv>, cutoff: nat, id: Id)
    requires forall i, j :: 0 <= i < j < |cs| ==> cs[i].id != cs[j].id
    ensures Listed(ChangedConvs(cs, cutoff), id) <==> exists c :: c in cs && c.id == id && ConvChanged(c, cutoff)
    ensures Listed(ChangedConvs(cs, cutoff), id) ==> RowsOf(ChangedConvs(cs, cutoff), id) == RowsOf(cs, id)
  {
    if cs != [] {
      var front, c := cs[..|cs| - 1], cs[|cs| - 1];
      ChangedRows(front, cutoff, id);
      assert cs == front + [c];
      if c.id == id { assert forall d :: d in front ==> d.id != id; }
      if ConvChanged(c, cutoff) {
        assert ChangedConvs(cs, cutoff)[..|ChangedConvs(cs, cutoff)| - 1] == ChangedConvs(front, cutoff);
      }
    }
  }

  /** The group is re-indexed by the incremental update. */
  predicate Refreshed(s: Source, cutoff: nat, g: Group) {
    if g.Blocks? then BlocksChanged(s, cutoff) else Listed(ChangedConvs(s.convs, cutoff), g.conv)
  }

  lemma UpdatedGroup(rows: seq<Row>, s: Source, cutoff: nat, g: Group)
    requires DistinctConvs(s)
    ensures Only(Updated(rows, s, cutoff), g) == if Refreshed(s, cutoff, g) then Only(AllRows(s), g) else Only(rows, g)
  {
    hide Only, RowsOf, AllRows, BlockRows, Without, Listed, BlocksChanged, ChangedConvs;
    var base := BlocksUpdated(rows, s, cutoff);
    ReplacedGroup(base, ChangedConvs(s.convs, cutoff), g);
    AllRowsGroup(s, g);
    if g.Of? { ChangedRows(s.convs, cutoff, g.conv); }
    OnlyOfWithout(rows, Blocks, g);
    BlockRowsGroup(s.blocks, g);
    OnlyConcat(Without(rows, Blocks), BlockRows(s.blocks), g);
  }

  /**
   * An incremental update leaves the rows of a full rebuild exactly when every group it does not re-index already
   * holds the rows the source has for it: so no source with rows may have gone, and every altered one must carry a
   * modification time above the last indexed one.
   */
  lemma IncrementalIsFull(rows: seq<Row>, s: Source, cutoff: nat)
    requires DistinctConvs(s)
    ensures SameRows(Updated(rows, s, cutoff), AllRows(s)) <==>
            forall g :: !Refreshed(s, cutoff, g) ==> SameRows(Only(rows, g), Only(AllRows(s), g))
  {
    hide Only, AllRows, Updated, Refreshed;
    SameByGroup(Updated(rows, s, cutoff), AllRows(s));
    forall g ensures Only(Updated(rows, s, cutoff), g) == if Refreshed(s, cutoff, g) then Only(AllRows(s), g) else Only(rows, g) {
      UpdatedGroup(rows, s, cutoff, g);
    }
  }

  /** Nothing indexed was removed, and whatever was altered or added has a file newer than the cutoff. */
  predicate OnlyForward(before: Source, after: Source, cutoff: nat) {
    && (BlocksChanged(after, cutoff) || after.blocks == before.blocks)
    && (forall c :: c in before.convs ==> Listed(after.convs, c.id))
    && (forall c :: c in after.convs ==> ConvChanged(c, cutoff) || c in before.convs)
  }

  lemma {:induction false} RowsOfMember(cs: seq<Conv>, c: Conv)
    requires c in cs && forall i, j :: 0 <= i < j < |cs| ==> cs[i].id != cs[j].id
    ensures RowsOf(cs, c.id) == ConvRows(c)
  {
    if cs[|cs| - 1] != c {
      assert c in cs[..|cs| - 1];
      RowsOfMember(cs[..|cs| - 1], c);
    }
  }

  /** When sources only moved forward, an up-to-date index stays up to date. */
  lemma ForwardChangesSuffice(rows: seq<Row>, before: Source, after: Source, cutoff: nat)
    requires DistinctConvs(before) && DistinctConvs(after)
    requires SameRows(rows, AllRows(before)) && OnlyForward(before, after, cutoff)
    ensures SameRows(Updated(rows, after, cutoff), AllRows(after))
  {
    hide Only, AllRows, Updated, RowsOf, ConvRows, BlockRows, ChangedConvs;
    SameByGroup(rows, AllRows(before));
    forall g | !Refreshed(after, cutoff, g) ensures SameRows(Only(rows, g), Only(AllRows(after), g)) {
      AllRowsGroup(before, g);
      AllRowsGroup(after, g);
      if g.Of? {
        ChangedRows(after.convs, cutoff, g.conv);
        if Listed(after.convs, g.conv) {
          var c :| c in after.convs && c.id == g.conv;
          RowsOfMember(after.convs, c);
          RowsOfMember(before.convs, c);
        } else {
          NotListed(after.convs, g.conv);
          NotListed(before.convs, g.conv);
        }
      }
    }
    IncrementalIsFull(rows, after, cutoff);
  }

  /** The rows a source has for one group. */
  function GroupRows(s: Source, g: Group): seq<Row> {
    if g.Blocks? then BlockRows(s.blocks) else RowsOf(s.convs, g.conv)
  }

  /**
   * The exact condition: an index that was up to date with the sources before is up to date after the update if and
   * only if every block list or conversation that shows no file newer than the cutoff has the rows it had before. A
   * removed conversation with rows fails it, and so does one rewritten at or under the cutoff.
   */
  lemma StaysExactExactly(rows: seq<Row>, before: Source, after: Source, cutoff: nat)
    requires DistinctConvs(before) && DistinctConvs(after) && SameRows(rows, AllRows(before))
    ensures SameRows(Updated(rows, after, cutoff), AllRows(after)) <==>
            forall g :: !Refreshed(after, cutoff, g) ==> SameRows(GroupRows(before, g), GroupRows(after, g))
  {
    hide Only, AllRows, Updated, Refreshed, RowsOf, BlockRows;
    IncrementalIsFull(rows, after, cutoff);
    SameByGroup(rows, AllRows(before));
    forall g ensures SameRows(Only(rows, g), Only(AllRows(after), g)) <==> SameRows(GroupRows(before, g), GroupRows(after, g)) {
      AllRowsGroup(before, g);
      AllRowsGroup(after, g);
    }
  }

  // ----- counts ------------------------------------------------------------------------------------

  /** Messages found in the table for each replaced conversation, just before it is deleted. */
  function Prior(rows: seq<Row>, cs: seq<Conv>): nat {
    if cs == [] then 0
    else Prior(rows, cs[..|cs| - 1]) + Messages(Only(Replaced(rows, cs[..|cs| - 1]), Of(cs[|cs| - 1].id)))
  }

  function Delta(cs: seq<Conv>): nat {
    if cs == [] then 0 else Delta(cs[..|cs| - 1]) + |MessageRows(cs[|cs| - 1].id, cs[|cs| - 1].messages)|
  }

  lemma {:induction false} ReplacedCount(rows: seq<Row>, cs: seq<Conv>)
    ensures Messages(Replaced(rows, cs)) == Messages(rows) - Prior(rows, cs) + Delta(cs)
  {
    if cs != [] {
      hide Only, ConvRows, Without, Messages, MessageRows;
      var front, c := cs[..|cs| - 1], cs[|cs| - 1];
      ReplacedCount(rows, front);
      OnlyOfWithout(Replaced(rows, front), Of(c.id), Blocks);
      ConvRowsGroup(c, Blocks);
      MessagesConcat(Without(Replaced(rows, front), Of(c.id)), ConvRows(c));
    }
  }

  lemma {:induction false} AllConvRowsCount(cs: seq<Conv>)
    ensures Messages(AllConvRows(cs)) == Delta(cs)
  {
    if cs != [] {
      AllConvRowsCount(cs[..|cs| - 1]);
      ConvRowsGroup(cs[|cs| - 1], Blocks);
      MessagesConcat(AllConvRows(cs[..|cs| - 1]), ConvRows(cs[|cs| - 1]));
    }
  }

  lemma {:induction false} BlockRowsLength(bs: seq<Block>)
    ensures |BlockRows(bs)| == |bs|
  {
    if bs != [] { BlockRowsLength(bs[..|bs| - 1]); }
  }

  lemma {:induction false} NoMessagesInBlocks(rows: seq<Row>)
    ensures Messages(Only(rows, Blocks)) == 0
  {
    if rows != [] {
      NoMessagesInBlocks(rows[..|rows| - 1]);
      if GroupOf(rows[|rows| - 1]) == Blocks {
        MessagesConcat(Only(rows[..|rows| - 1], Blocks), [rows[|rows| - 1]]);
        NoMessage(rows[|rows| - 1]);
      }
    }
  }

  /** The manifest counts what the table holds. */
  predicate Counted(rows: seq<Row>, m: Manifest) {
    m.messageCount == Messages(rows) && m.blockCount == |Only(rows, Blocks)|
  }

  function FullManifest(s: Source): Manifest {
    Manifest(MaxMtime(Files(s)), Delta(s.convs), |s.blocks|, multiset(Files(s)))
  }

  function NextManifest(m: Manifest, rows: seq<Row>, s: Source): Manifest {
    var changed := ChangedConvs(s.convs, m.lastMtime);
    Manifest(MaxMtime(Files(s)),
             m.messageCount - Prior(BlocksUpdated(rows, s, m.lastMtime), changed) + Delta(changed),
             if BlocksChanged(s, m.lastMtime) then |s.blocks| else m.blockCount,
             multiset(Files(s)))
  }

  /** After a full rebuild the manifest counts the rows of the table. */
  lemma FullRebuildCounts(s: Source)
    requires DistinctConvs(s)
    ensures Counted(AllRows(s), FullManifest(s))
  {
    hide Only, Messages, BlockRows;
    BlockRowsGroup(s.blocks, Blocks);
    MessagesConcat(BlockRows(s.blocks), AllConvRows(s.convs));
    AllConvRowsCount(s.convs);
    AllRowsGroup(s, Blocks);
    BlockRowsLength(s.blocks);
  }

  /** The count kept by subtraction and addition is still the count of the table, whatever changed in the sources. */
  lemma IncrementalCounts(m: Manifest, rows: seq<Row>, s: Source)
    requires DistinctConvs(s) && Counted(rows, m)
    ensures Counted(Updated(rows, s, m.lastMtime), NextManifest(m, rows, s))
  {
    hide Only, Messages, BlockRows, Without, Replaced, Prior, Delta, BlocksChanged, ChangedConvs, AllRows;
    var base := BlocksUpdated(rows, s, m.lastMtime);
    OnlyOfWithout(rows, Blocks, Blocks);
    NoMessagesInBlocks(rows);
    BlockRowsGroup(s.blocks, Blocks);
    MessagesConcat(Without(rows, Blocks), BlockRows(s.blocks));
    ReplacedCount(base, ChangedConvs(s.convs, m.lastMtime));
    UpdatedGroup(rows, s, m.lastMtime, Blocks);
    AllRowsGroup(s, Blocks);
    BlockRowsLength(s.blocks);
  }

  // ----- the plan -------------------------------------------------------------------------------------

  function PlanFor(manifest: Option<Manifest>, s: Source): Plan {
    match manifest
    case None => Full
    case Some(m) =>
      if m.signature == multiset(Files(s)) then Fresh
      else if (exists f <- Files(s) :: f.mtime < m.lastMtime) || MaxMtime(Files(s)) <= m.lastMtime then Full
      else Incremental
  }

  lemma {:induction false} ConvFilesHave(cs: seq<Conv>, c: Conv)
    requires c in cs
    ensures c.convJson.Some? ==> c.convJson.value in ConvFiles(cs)
    ensures c.messagesFile.Some? ==> c.messagesFile.value in ConvFiles(cs)
  {
    if c != cs[|cs| - 1] {
      assert c in cs[..|cs| - 1];
      ConvFilesHave(cs[..|cs| - 1], c);
    }
  }

  /**
   * An incremental plan is cautious: every source it leaves alone has all its files stamped exactly with the last
   * indexed time, and some file is newer.
   */
  lemma IncrementalSkipsOnlyTheCutoff(m: Manifest, s: Source)
    requires PlanFor(Some(m), s) == Incremental
    ensures exists f :: f in Files(s) && f.mtime > m.lastMtime
    ensures !BlocksChanged(s, m.lastMtime) ==> forall f :: f in s.blockFiles ==> f.mtime == m.lastMtime
    ensures forall c :: c in s.convs && !ConvChanged(c, m.lastMtime) ==>
              (c.convJson.Some? ==> c.convJson.value.mtime == m.lastMtime)
              && (c.messagesFile.Some? ==> c.messagesFile.value.mtime == m.lastMtime)
  {
    forall f | f in s.blockFiles ensures f.mtime >= m.lastMtime { assert f in Files(s); }
    forall c | c in s.convs && !ConvChanged(c, m.lastMtime)
      ensures c.convJson.Some? ==> c.convJson.value.mtime == m.lastMtime
      ensures c.messagesFile.Some? ==> c.messagesFile.value.mtime == m.lastMtime
    {
      ConvFilesHave(s.convs, c);
      assert c.convJson.Some? ==> c.convJson.value in Files(s);
      assert c.messagesFile.Some? ==> c.messagesFile.value in Files(s);
    }
  }

  const KEPT_BEFORE: Conv := Conv("a", Some(File("a/conversation.json", 2, 5)), None, "kept", [])
  const KEPT_AFTER: Conv := Conv("a", Some(File("a/conversation.json", 2, 6)), None, "kept", [])
  const REMOVED: Conv := Conv("b", Some(File("b/conversation.json", 2, 5)), None, "gone", [])

  lemma OneConvFile(c: Conv)
    requires c.convJson.Some? && c.messagesFile.None?
    ensures ConvFiles([c]) == [c.convJson.value] && MaxMtime([c.convJson.value]) == c.convJson.value.mtime
  {
    assert [c][..0] == [];
    assert ConvFiles([c][..0]) == [];
    assert [c.convJson.value][..0] == [];
  }

  lemma RemovalPlansIncremental()
    ensures MaxMtime(Files(Source([], [], [KEPT_BEFORE, REMOVED]))) == 5
    ensures PlanFor(Some(FullManifest(Source([], [], [KEPT_BEFORE, REMOVED]))), Source([], [], [KEPT_AFTER])) == Incremental
  {
    hide Delta;
    OneConvFile(KEPT_BEFORE);
    OneConvFile(KEPT_AFTER);
    assert [KEPT_BEFORE, REMOVED][..1] == [KEPT_BEFORE];
    assert Files(Source([], [], [KEPT_BEFORE, REMOVED])) == [KEPT_BEFORE.convJson.value, REMOVED.convJson.value];
    assert Files(Source([], [], [KEPT_AFTER])) == [KEPT_AFTER.convJson.value];
    assert KEPT_AFTER.convJson.value !in multiset([KEPT_BEFORE.convJson.value, REMOVED.convJson.value]);
    assert KEPT_AFTER.convJson.value in multiset([KEPT_AFTER.convJson.value]);
    assert [KEPT_BEFORE.convJson.value, REMOVED.convJson.value][0].mtime == 5;
  }

  /** The plan alone does not make the update exact: a conversation removed while another advances keeps its rows. */
  lemma RemovedConversationStays() returns (before: Source, after: Source)
    ensures DistinctConvs(before) && DistinctConvs(after)
    ensures PlanFor(Some(FullManifest(before)), after) == Incremental
    ensures !SameRows(Updated(AllRows(before), after, FullManifest(before).lastMtime), AllRows(after))
  {
    hide PlanFor, Updated, AllRows, Files, MaxMtime, ChangedConvs, Delta, RowsOf, ConvRows;
    before, after := Source([], [], [KEPT_BEFORE, REMOVED]), Source([], [], [KEPT_AFTER]);
    RemovalPlansIncremental();
    ChangedRows(after.convs, 5, "b");
    assert !Refreshed(after, 5, Of("b"));
    RowsOfMember(before.convs, before.convs[1]);
    NotListed(after.convs, "b");
    RemovedHasARow();
    assert !SameRows(GroupRows(before, Of("b")), GroupRows(after, Of("b")));
    StaysExactExactly(AllRows(before), before, after, 5);
  }

  lemma RemovedHasARow()
    ensures |multiset(ConvRows(REMOVED))| == 1
  {
    assert ConvRows(REMOVED) == [Row(ConversationKind, "b", "b", "gone")];
  }

  // ----- every run --------------------------------------------------------------------------------------

  datatype Index = Index(rows: seq<Row>, manifest: Option<Manifest>)

  /** ensureIndex: plan, then rebuild, update or leave alone. */
  function Ensured(ix: Index, s: Source): Index {
    match PlanFor(ix.manifest, s)
    case Fresh => ix
    case Full => Index(AllRows(s), Some(FullManifest(s)))
    case Incremental =>
      Index(Updated(ix.rows, s, ix.manifest.value.lastMtime), Some(NextManifest(ix.manifest.value, ix.rows, s)))
  }

  function Run(ss: seq<Source>): Index {
    if ss == [] then Index([], None) else Ensured(Run(ss[..|ss| - 1]), ss[|ss| - 1])
  }

  predicate Exact(ix: Index, s: Source) {
    && SameRows(ix.rows, AllRows(s))
    && ix.manifest.Some? && Counted(ix.rows, ix.manifest.value)
    && ix.manifest.value.lastMtime == MaxMtime(Files(s)) && ix.manifest.value.signature == multiset(Files(s))
  }

  /** What file stamps must tell about a move from one source state to the next. */
  predicate StampsTell(before: Source, after: Source) {
    && (multiset(Files(before)) == multiset(Files(after)) ==> SameRows(AllRows(before), AllRows(after)))
    && (PlanFor(Some(FullManifest(before)), after) == Incremental ==> OnlyForward(before, after, MaxMtime(Files(before))))
  }

  lemma SameStampsSameMax(a: seq<File>, b: seq<File>)
    requires multiset(a) == multiset(b)
    ensures MaxMtime(a) == MaxMtime(b)
  {
    assert forall f :: f in a <==> f in multiset(a);
    assert forall f :: f in b <==> f in multiset(b);
  }

  lemma EnsuredFromExact(ix: Index, before: Source, after: Source)
    requires DistinctConvs(before) && DistinctConvs(after)
    requires Exact(ix, before) && StampsTell(before, after)
    ensures Exact(Ensured(ix, after), after)
  {
    hide AllRows, Updated, OnlyForward, Counted, Files, MaxMtime, Prior, Delta;
    var m := ix.manifest.value;
    assert PlanFor(Some(m), after) == PlanFor(Some(FullManifest(before)), after);
    match PlanFor(Some(m), after)
    case Fresh => SameStampsSameMax(Files(before), Files(after));
    case Full => FullRebuildCounts(after);
    case Incremental =>
      ForwardChangesSuffice(ix.rows, before, after, m.lastMtime);
      IncrementalCounts(m, ix.rows, after);
  }

  /**
   * For every sequence of source states whose stamps tell, the index after each ensureIndex holds exactly the rows of
   * the sources, and its manifest their counts, newest time and signature.
   */
  lemma {:induction false} RunIsExact(ss: seq<Source>)
    requires ss != [] && forall i :: 0 <= i < |ss| ==> DistinctConvs(ss[i])
    requires forall i :: 0 < i < |ss| ==> StampsTell(ss[i - 1], ss[i])
    ensures Exact(Run(ss), ss[|ss| - 1])
  {
    hide Exact, StampsTell, AllRows, DistinctConvs;
    var front, s := ss[..|ss| - 1], ss[|ss| - 1];
    if front == [] {
      RebuildIsExact(s);
      assert Run(front) == Index([], None);
    } else {
      RunIsExact(front);
      EnsuredFromExact(Run(front), front[|front| - 1], s);
    }
  }

  lemma RebuildIsExact(s: Source)
    requires DistinctConvs(s)
    ensures Exact(Index(AllRows(s), Some(FullManifest(s))), s)
  {
    FullRebuildCounts(s);
  }

  /** Whatever the file stamps tell, the manifest counts the table after every run: no drift, exact rows or not. */
  lemma {:induction false} RunCounts(ss: seq<Source>)
    requires ss != [] && forall i :: 0 <= i < |ss| ==> DistinctConvs(ss[i])
    ensures var ix := Run(ss); ix.manifest.Some? && Counted(ix.rows, ix.manifest.value)
  {
    hide DistinctConvs, Counted, PlanFor, AllRows, Updated;
    var front, s := ss[..|ss| - 1], ss[|ss| - 1];
    FullRebuildCounts(s);
    if front == [] {
      NoIndexYet(s);
    } else {
      RunCounts(front);
      IncrementalCounts(Run(front).manifest.value, Run(front).rows, s);
    }
  }

  lemma NoIndexYet(s: Source)
    ensures PlanFor(None, s) == Full
  {
  }
}
