/**
 * What the index holds and when it is brought up to date, in terms of the blocks, conversations, messages and files
 * alone.
 */
module SearchMeaning {
  import opened Basics
  import opened SearchIndex

  // ----- rows ------------------------------------------------------------------------------------------------

  predicate BlockRow(r: Row, b: Block) {
    r.kind == BlockKind && r.entityId == b.id && r.conv == [] && r.content == b.content
  }

  predicate HeadRow(r: Row, c: Conv) {
    r.kind == ConversationKind && r.entityId == c.id && r.conv == c.id && r.content == c.head
  }

  predicate MessageRow(r: Row, c: Id, m: Message) {
    r.kind == MessageKind && r.entityId == m.id && r.conv == c && r.content == m.header + ['\n'] + m.text
  }

  function Heads(cs: seq<Conv>): seq<Conv> {
    if cs == [] then [] else Heads(cs[..|cs| - 1]) + (if |cs[|cs| - 1].head| > 0 then [cs[|cs| - 1]] else [])
  }

  function Texts(ms: seq<Message>): seq<Message> {
    if ms == [] then [] else Texts(ms[..|ms| - 1]) + (if |ms[|ms| - 1].text| > 0 then [ms[|ms| - 1]] else [])
  }

  /** One row for each block, in order. */
  lemma {:induction false} BlockRowsRead(bs: seq<Block>)
    ensures |BlockRows(bs)| == |bs| && forall i :: 0 <= i < |bs| ==> BlockRow(BlockRows(bs)[i], bs[i])
  {
    if bs != [] { BlockRowsRead(bs[..|bs| - 1]); }
  }

  /** One row for each message with text, in order: its role and type line, and then the text. */
  lemma {:induction false} MessageRowsRead(c: Id, ms: seq<Message>)
    ensures var texts := Texts(ms);
            |MessageRows(c, ms)| == |texts| && forall i :: 0 <= i < |texts| ==> MessageRow(MessageRows(c, ms)[i], c, texts[i])
  {
    if ms != [] { MessageRowsRead(c, ms[..|ms| - 1]); }
  }

  /** A conversation has a row for its title and summary, unless both are empty, and then one for each message with text. */
  lemma ConvRowsRead(c: Conv)
    ensures var rows, texts, first := ConvRows(c), Texts(c.messages), if |c.head| > 0 then 1 else 0;
            && |rows| == first + |texts| && (first == 1 ==> HeadRow(rows[0], c))
            && forall i :: 0 <= i < |texts| ==> MessageRow(rows[first + i], c.id, texts[i])
  {
    MessageRowsRead(c.id, c.messages);
  }

  /** The rows of a full rebuild: those of the blocks, then those of each conversation. */
  lemma {:induction false} ConvsInOrder(cs: seq<Conv>, k: nat)
    requires k < |cs|
    ensures AllConvRows(cs) == AllConvRows(cs[..k]) + ConvRows(cs[k]) + AllConvRows(cs[k + 1..])
  {
    hide ConvRows;
    if k == |cs| - 1 {
      assert cs[k + 1..] == [];
    } else {
      var front := cs[..|cs| - 1];
      ConvsInOrder(front, k);
      assert front[..k] == cs[..k] && cs[k + 1..][..|cs| - k - 2] == front[k + 1..];
    }
  }

  lemma RowsRead(s: Source, k: nat)
    requires k < |s.convs|
    ensures AllRows(s) == BlockRows(s.blocks) + (AllConvRows(s.convs[..k]) + ConvRows(s.convs[k]) + AllConvRows(s.convs[k + 1..]))
  {
    ConvsInOrder(s.convs, k);
  }

  // ----- files and plans -----------------------------------------------------------------------------------------

  lemma {:induction false} ConvFilesExactly(cs: seq<Conv>, f: File)
    ensures f in ConvFiles(cs) <==> exists c <- cs :: c.convJson == Some(f) || c.messagesFile == Some(f)
    ensures |ConvFiles(cs)| <= 2 * |cs|
  {
    if cs != [] {
      ConvFilesExactly(cs[..|cs| - 1], f);
      assert cs == cs[..|cs| - 1] + [cs[|cs| - 1]];
    }
  }

  /** The source files: those of the blocks, and the one or two of each conversation. */
  lemma FilesExactly(s: Source, f: File)
    ensures f in Files(s) <==> f in s.blockFiles || exists c <- s.convs :: c.convJson == Some(f) || c.messagesFile == Some(f)
  {
    hide ConvFiles;
    ConvFilesExactly(s.convs, f);
  }

  /** Fresh if the files are those indexed; else full if one is older than the last index, or none newer; else incremental. */
  lemma PlanMeans(manifest: Option<Manifest>, s: Source)
    ensures manifest.None? ==> PlanFor(manifest, s) == Full
    ensures manifest.Some? ==>
              var m, plan := manifest.value, PlanFor(manifest, s);
              && (plan == Fresh <==> m.signature == multiset(Files(s)))
              && (plan == Incremental <==>
                    && m.signature != multiset(Files(s)) && (forall f :: f in Files(s) ==> f.mtime >= m.lastMtime)
                    && exists f :: f in Files(s) && f.mtime > m.lastMtime)
  {
    hide Files;
  }

  /** Blocks, or a conversation, are re-indexed exactly when one of their files is newer than the last index. */
  lemma ChangedMeans(s: Source, c: Conv, cutoff: nat)
    ensures BlocksChanged(s, cutoff) <==> exists f :: f in s.blockFiles && f.mtime >= cutoff + 1
    ensures c in ChangedConvs(s.convs, cutoff) <==>
              && c in s.convs
              && ((c.convJson.Some? && c.convJson.value.mtime >= cutoff + 1)
                  || (c.messagesFile.Some? && c.messagesFile.value.mtime >= cutoff + 1))
  {
    ChangedMembers(s.convs, c, cutoff);
  }

  lemma {:induction false} ChangedMembers(cs: seq<Conv>, c: Conv, cutoff: nat)
    ensures c in ChangedConvs(cs, cutoff) <==> c in cs && ConvChanged(c, cutoff)
  {
    if cs != [] {
      ChangedMembers(cs[..|cs| - 1], c, cutoff);
      assert cs == cs[..|cs| - 1] + [cs[|cs| - 1]];
    }
  }

  // ----- counts ----------------------------------------------------------------------------------------------------

  function CountKind(rows: seq<Row>, kind: Kind): nat {
    if rows == [] then 0 else CountKind(rows[..|rows| - 1], kind) + if rows[|rows| - 1].kind == kind then 1 else 0
  }

  lemma {:induction false} CountsMean(rows: seq<Row>)
    ensures Messages(rows) == CountKind(rows, MessageKind) && |Only(rows, Blocks)| == CountKind(rows, BlockKind)
  {
    if rows != [] { CountsMean(rows[..|rows| - 1]); }
  }

  /** After every run over states of distinct conversations the manifest gives the message and block rows of the table. */
  lemma RunCountsRows(ss: seq<Source>)
    requires ss != [] && forall i :: 0 <= i < |ss| ==> DistinctConvs(ss[i])
    ensures var ix := Run(ss);
            && ix.manifest.Some? && ix.manifest.value.messageCount == CountKind(ix.rows, MessageKind)
            && ix.manifest.value.blockCount == CountKind(ix.rows, BlockKind)
  {
    hide Run, DistinctConvs;
    RunCounts(ss);
    CountsMean(Run(ss).rows);
  }
}
