/**
 * Building the search index in place: collecting rows, planning, rebuilding, and deleting and re-inserting the rows of
 * changed sources. Each method is proved against the functions of SearchIndex.
 */
module SearchIndexer {
  import opened Basics
  import opened SearchIndex

  method CollectBlockRows(bs: seq<Block>) returns (rows: seq<Row>)
    ensures rows == BlockRows(bs)
  {
    rows := [];
    for i := 0 to |bs|
      invariant rows == BlockRows(bs[..i])
    {
      rows := rows + [Row(BlockKind, bs[i].id, "", bs[i].content)];
      assert bs[..i + 1][..i] == bs[..i];
    }
    assert bs[..|bs|] == bs;
  }

  method CollectConvRows(c: Conv) returns (rows: seq<Row>, messageCount: nat)
    ensures rows == ConvRows(c) && messageCount == |MessageRows(c.id, c.messages)|
  {
    rows, messageCount := [], 0;
    if c.head != "" { rows := [Row(ConversationKind, c.id, c.id, c.head)]; }
    ghost var head := rows;
    for i := 0 to |c.messages|
      invariant rows == head + MessageRows(c.id, c.messages[..i])
      invariant messageCount == |MessageRows(c.id, c.messages[..i])|
    {
      var m := c.messages[i];
      assert c.messages[..i + 1][..i] == c.messages[..i];
      if m.text == "" { continue; }
      messageCount := messageCount + 1;
      rows := rows + [Row(MessageKind, m.id, c.id, m.header + "\n" + m.text)];
    }
    assert c.messages[..|c.messages|] == c.messages;
  }

  method CollectRows(s: Source) returns (rows: seq<Row>, blockCount: nat, messageCount: nat)
    ensures rows == AllRows(s) && blockCount == |s.blocks| && messageCount == Delta(s.convs)
  {
    hide ConvRows, BlockRows, MessageRows;
    rows := CollectBlockRows(s.blocks);
    blockCount, messageCount := |s.blocks|, 0;
    for i := 0 to |s.convs|
      invariant rows == BlockRows(s.blocks) + AllConvRows(s.convs[..i])
      invariant messageCount == Delta(s.convs[..i])
    {
      assert s.convs[..i + 1][..i] == s.convs[..i];
      var convRows, n := CollectConvRows(s.convs[i]);
      rows, messageCount := rows + convRows, messageCount + n;
    }
    assert s.convs[..|s.convs|] == s.convs;
  }

  method CollectFiles(s: Source) returns (files: seq<File>)
    ensures files == Files(s)
  {
    files := s.blockFiles;
    for i := 0 to |s.convs|
      invariant files == s.blockFiles + ConvFiles(s.convs[..i])
    {
      assert s.convs[..i + 1][..i] == s.convs[..i];
      if s.convs[i].convJson.Some? { files := files + [s.convs[i].convJson.value]; }
      if s.convs[i].messagesFile.Some? { files := files + [s.convs[i].messagesFile.value]; }
    }
    assert s.convs[..|s.convs|] == s.convs;
  }

  method NewestOf(files: seq<File>) returns (maxMtime: nat)
    ensures maxMtime == MaxMtime(files)
  {
    maxMtime := 0;
    for i := 0 to |files|
      invariant maxMtime == MaxMtime(files[..i])
    {
      assert files[..i + 1][..i] == files[..i];
      if files[i].mtime > maxMtime { maxMtime := files[i].mtime; }
    }
    assert files[..|files|] == files;
  }

  method FilterChanged(cs: seq<Conv>, cutoff: nat) returns (changed: seq<Conv>)
    ensures changed == ChangedConvs(cs, cutoff)
  {
    changed := [];
    for i := 0 to |cs|
      invariant changed == ChangedConvs(cs[..i], cutoff)
    {
      assert cs[..i + 1][..i] == cs[..i];
      if ConvChanged(cs[i], cutoff) { changed := changed + [cs[i]]; }
    }
    assert cs[..|cs|] == cs;
  }

  /** The full-text table and the manifest beside it. */
  class Indexer {
    var table: seq<Row>
    var manifest: Option<Manifest>
    ghost var seen: seq<Source>

    ghost predicate Valid() reads this {
      Index(table, manifest) == Run(seen)
    }

    constructor ()
      ensures Valid() && seen == []
    {
      table, manifest, seen := [], None, [];
    }

    method PlanBuild(s: Source) returns (plan: Plan)
      ensures plan == PlanFor(manifest, s)
    {
      var files := CollectFiles(s);
      var maxMtime := NewestOf(files);
      if manifest.None? { return Full; }
      if manifest.value.signature == multiset(files) { return Fresh; }
      var anyBackwards := exists f <- files :: f.mtime < manifest.value.lastMtime;
      var maxAdvanced := maxMtime > manifest.value.lastMtime;
      plan := if anyBackwards || !maxAdvanced then Full else Incremental;
    }

    method FullRebuild(s: Source)
      modifies this`table, this`manifest
      ensures table == AllRows(s) && manifest == Some(FullManifest(s))
    {
      var rows, blockCount, messageCount := CollectRows(s);
      var files := CollectFiles(s);
      var maxMtime := NewestOf(files);
      table := [];
      for i := 0 to |rows|
        invariant table == rows[..i]
        invariant manifest == old(manifest)
      {
        table := table + [rows[i]];
      }
      manifest := Some(Manifest(maxMtime, messageCount, blockCount, multiset(files)));
    }

    /** DELETE of one group, row by row. */
    method Delete(g: Group)
      modifies this`table
      ensures table == Without(old(table), g)
    {
      var rows := table;
      table := [];
      for i := 0 to |rows|
        invariant table == Without(rows[..i], g)
      {
        assert rows[..i + 1][..i] == rows[..i];
        if GroupOf(rows[i]) != g { table := table + [rows[i]]; }
      }
      assert rows[..|rows|] == rows;
    }

    /** SELECT count(*) of the message rows of a conversation. */
    method CountMessages(conv: Id) returns (n: nat)
      ensures n == Messages(Only(table, Of(conv)))
    {
      n := 0;
      for i := 0 to |table|
        invariant n == Messages(Only(table[..i], Of(conv)))
      {
        OnlyStep(table, i, Of(conv));
        if table[i].kind.MessageKind? && table[i].conv == conv { n := n + 1; }
      }
      assert table[..|table|] == table;
    }

    /** The gathered rows replace those of each changed conversation in turn. */
    method ReplaceConversations(changed: seq<Conv>, gathered: seq<seq<Row>>) returns (prior: nat)
      requires |gathered| == |changed| && forall i :: 0 <= i < |changed| ==> gathered[i] == ConvRows(changed[i])
      modifies this`table
      ensures table == Replaced(old(table), changed) && prior == Prior(old(table), changed)
    {
      hide Without, Only, Messages, ConvRows;
      prior := 0;
      for i := 0 to |changed|
        invariant table == Replaced(old(table), changed[..i])
        invariant prior == Prior(old(table), changed[..i])
      {
        assert changed[..i + 1][..i] == changed[..i];
        var before := CountMessages(changed[i].id);
        prior := prior + before;
        Delete(Of(changed[i].id));
        table := table + gathered[i];
      }
      assert changed[..|changed|] == changed;
    }

    method IncrementalUpdate(s: Source)
      requires manifest.Some?
      modifies this`table, this`manifest
      ensures table == Updated(old(table), s, old(manifest).value.lastMtime)
      ensures manifest == Some(NextManifest(old(manifest).value, old(table), s))
    {
      hide Without, Replaced, Prior, ConvRows, MessageRows, ChangedConvs, Files, MaxMtime;
      var prev := manifest.value;
      var cutoff := prev.lastMtime;
      var blocksChanged := exists f <- s.blockFiles :: f.mtime > cutoff;
      assert blocksChanged == BlocksChanged(s, cutoff);
      var changed := FilterChanged(s.convs, cutoff);
      var gathered: seq<seq<Row>>, delta := [], 0;
      for i := 0 to |changed|
        invariant |gathered| == i && forall k :: 0 <= k < i ==> gathered[k] == ConvRows(changed[k])
        invariant delta == Delta(changed[..i])
        invariant table == old(table) && manifest == old(manifest)
      {
        assert changed[..i + 1][..i] == changed[..i];
        var rows, n := CollectConvRows(changed[i]);
        gathered, delta := gathered + [rows], delta + n;
      }
      assert changed[..|changed|] == changed;
      var files := CollectFiles(s);
      var maxMtime := NewestOf(files);
      if blocksChanged {
        var blockRows := CollectBlockRows(s.blocks);
        Delete(Blocks);
        table := table + blockRows;
      }
      assert table == BlocksUpdated(old(table), s, cutoff);
      var prior := ReplaceConversations(changed, gathered);
      manifest := Some(Manifest(maxMtime, prev.messageCount - prior + delta,
                                if blocksChanged then |s.blocks| else prev.blockCount, multiset(files)));
    }

    method EnsureIndex(s: Source)
      requires Valid()
      modifies this
      ensures Valid() && seen == old(seen) + [s]
    {
      hide PlanFor, Updated, NextManifest, AllRows, FullManifest;
      var plan := PlanBuild(s);
      if plan.Incremental? {
        PlanNeedsManifest(manifest, s);
        IncrementalUpdate(s);
      } else if plan.Full? {
        FullRebuild(s);
      }
      assert (seen + [s])[..|seen|] == seen;
      seen := seen + [s];
    }
  }

  lemma PlanNeedsManifest(m: Option<Manifest>, s: Source)
    requires PlanFor(m, s) == Incremental
    ensures m.Some?
  {
  }

  lemma OnlyStep(rows: seq<Row>, i: nat, g: Group)
    requires i < |rows|
    ensures Only(rows[..i + 1], g) == Only(rows[..i], g) + if GroupOf(rows[i]) == g then [rows[i]] else []
    ensures Messages(Only(rows[..i + 1], g)) ==
            Messages(Only(rows[..i], g)) + if GroupOf(rows[i]) == g && rows[i].kind.MessageKind? then 1 else 0
  {
    assert rows[..i + 1][..i] == rows[..i];
    var front := Only(rows[..i], g);
    assert (front + [rows[i]])[..|front|] == front;
  }
}
