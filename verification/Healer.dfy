/**
 * The healing loops: index maps, working copies and removal sets, proved to write the
 * transcript `Heal` and the report that goes with it.
 */
module Healer {
  import opened Basics
  import opened Transcript
  import opened TranscriptHealing
  import opened HealingProperties
  import opened HealingMeaning

  datatype Report =
    Report(requested: seq<string>, removed: seq<string>, settled: seq<string>, unresolved: seq<string>,
           messagesEdited: nat, messagesRemoved: nat, messagesAppended: nat)

  /** Record indices per id, as kept in a Map. */
  type Index = map<string, seq<nat>>

  function At(m: Index, id: string): seq<nat> {
    if id in m then m[id] else []
  }

  function Push(m: Index, id: string, i: nat): Index {
    m[id := At(m, id) + [i]]
  }

  function PartIds(parts: seq<Part>): seq<string> {
    if parts == [] then []
    else PartIds(parts[..|parts| - 1]) + (if parts[|parts| - 1].ToolCall? then [parts[|parts| - 1].id] else [])
  }

  function ArrayIds(calls: seq<Call>): seq<string> {
    seq(|calls|, k requires 0 <= k < |calls| => calls[k].id)
  }

  /** First occurrences, in order. */
  function Distinct(s: seq<string>): seq<string> {
    if s == [] then []
    else
      var front := Distinct(s[..|s| - 1]);
      if s[|s| - 1] in front then front else front + [s[|s| - 1]]
  }

  function ToolCallIds(m: Message): seq<string> {
    Distinct(PartIds(m.parts) + ArrayIds(m.calls))
  }

  lemma {:induction false} PartIdsMembers(parts: seq<Part>)
    ensures forall id :: id in PartIds(parts) <==> HasCallPart(parts, id)
  {
    if parts != [] {
      var front, last := parts[..|parts| - 1], parts[|parts| - 1];
      PartIdsMembers(front);
      forall id ensures HasCallPart(parts, id) <==> HasCallPart(front, id) || (last.ToolCall? && last.id == id) {
        if HasCallPart(front, id) {
          var k :| 0 <= k < |front| && front[k].ToolCall? && front[k].id == id;
          assert parts[k] == front[k];
        }
        if last.ToolCall? && last.id == id { assert parts[|parts| - 1] == last; }
      }
    }
  }

  lemma {:induction false} DistinctMembers(s: seq<string>)
    ensures NoDup(Distinct(s)) && forall x :: x in Distinct(s) <==> x in s
  {
    if s != [] {
      DistinctMembers(s[..|s| - 1]);
      assert s == s[..|s| - 1] + [s[|s| - 1]];
    }
  }

  lemma ToolCallIdsDeclare(r: Record, id: string)
    requires HasPayload(r) && r.message.role == Assistant
    ensures id in ToolCallIds(r.message) <==> Declares(r, id)
    ensures NoDup(ToolCallIds(r.message))
  {
    var m := r.message;
    PartIdsMembers(m.parts);
    DistinctMembers(PartIds(m.parts) + ArrayIds(m.calls));
    if HasCall(m.calls, id) {
      var k :| 0 <= k < |m.calls| && m.calls[k].id == id;
      assert ArrayIds(m.calls)[k] == id;
    }
  }

  // ----- the first pass -------------------------------------------------------------------------

  /** The three index maps hold, for each requested id, exactly its sites among the first k records. */
  predicate Indexed(rs: seq<Record>, ids: seq<string>, k: nat, calls: Index, reals: Index, stales: Index)
    requires k <= |rs|
  {
    forall id :: id in ids ==>
      && At(calls, id) == Sites(rs[..k], CallSite, id)
      && At(reals, id) == Sites(rs[..k], RealResult, id)
      && At(stales, id) == Sites(rs[..k], StaleResult, id)
  }

  method AddCalls(calls: Index, ids: seq<string>, found: seq<string>, i: nat) returns (calls': Index)
    requires NoDup(found)
    ensures forall id :: At(calls', id) == if id in ids && id in found then At(calls, id) + [i] else At(calls, id)
  {
    calls' := calls;
    for k := 0 to |found|
      invariant forall id :: At(calls', id) == if id in ids && id in found[..k] then At(calls, id) + [i] else At(calls, id)
    {
      assert found[..k + 1] == found[..k] + [found[k]];
      assert found[k] !in found[..k];
      if found[k] in ids {
        calls' := Push(calls', found[k], i);
      }
    }
    assert found[..|found|] == found;
  }

  lemma SitesStep(rs: seq<Record>, i: nat, kind: Kind, id: string)
    requires i < |rs|
    ensures Sites(rs[..i + 1], kind, id) == Sites(rs[..i], kind, id) + (if Matches(rs[i], kind, id) then [i] else [])
  {
    assert rs[..i + 1][..i] == rs[..i];
  }

  method IndexSites(rs: seq<Record>, ids: seq<string>) returns (calls: Index, reals: Index, stales: Index)
    ensures Indexed(rs, ids, |rs|, calls, reals, stales)
    ensures forall id, i: nat :: id in ids ==> (i in At(stales, id) <==> StaleAt(rs, id, i))
    ensures forall id, i: nat :: id in ids ==> (i in At(reals, id) <==> RealAt(rs, id, i))
    ensures forall id, i: nat :: id in ids ==> (i in At(calls, id) <==> i < |rs| && CallRecord(rs[i], id))
  {
    hide Sites, Declares, IsSynthetic, ToolCallIds, At;
    calls, reals, stales := map[], map[], map[];
    FreshIndex(rs, ids);
    for i := 0 to |rs|
      invariant Indexed(rs, ids, i, calls, reals, stales)
    {
      ghost var calls0, reals0, stales0 := calls, reals, stales;
      if HasPayload(rs[i]) && rs[i].message.role == Assistant {
        var found := ToolCallIds(rs[i].message);
        ToolCallIdsDeclare(rs[i], "");
        calls := AddCalls(calls, ids, found, i);
      } else if HasPayload(rs[i]) && rs[i].message.role == ToolResult {
        var id := rs[i].message.resultFor;
        if id.Some? && id.value != "" && id.value in ids {
          if IsSynthetic(rs[i]) {
            PushAt(stales, id.value, i);
            stales := Push(stales, id.value, i);
          } else {
            PushAt(reals, id.value, i);
            reals := Push(reals, id.value, i);
          }
        }
      }
      forall id | id in ids
        ensures && At(calls, id) == Sites(rs[..i + 1], CallSite, id)
                && At(reals, id) == Sites(rs[..i + 1], RealResult, id)
                && At(stales, id) == Sites(rs[..i + 1], StaleResult, id)
      {
        SitesStep(rs, i, CallSite, id);
        SitesStep(rs, i, RealResult, id);
        SitesStep(rs, i, StaleResult, id);
        if HasPayload(rs[i]) && rs[i].message.role == Assistant { ToolCallIdsDeclare(rs[i], id); }
        DeclaresNeedsAssistant(rs[i], id);
      }
    }
    IndexMeans(rs, ids, calls, reals, stales);
  }

  /** What the index maps hold, in terms of the records alone. */
  lemma IndexMeans(rs: seq<Record>, ids: seq<string>, calls: Index, reals: Index, stales: Index)
    requires Indexed(rs, ids, |rs|, calls, reals, stales)
    ensures forall id, i: nat :: id in ids ==> (i in At(stales, id) <==> StaleAt(rs, id, i))
    ensures forall id, i: nat :: id in ids ==> (i in At(reals, id) <==> RealAt(rs, id, i))
    ensures forall id, i: nat :: id in ids ==> (i in At(calls, id) <==> i < |rs| && CallRecord(rs[i], id))
  {
    hide Sites, Matches, At, StaleAt, RealAt, CallRecord;
    assert rs[..|rs|] == rs;
    forall id, i: nat | id in ids
      ensures (i in At(stales, id) <==> StaleAt(rs, id, i)) && (i in At(reals, id) <==> RealAt(rs, id, i))
      ensures i in At(calls, id) <==> i < |rs| && CallRecord(rs[i], id)
    {
      SitesMembers(rs, StaleResult, id);
      SitesMembers(rs, RealResult, id);
      SitesMembers(rs, CallSite, id);
      StaleAtMeans(rs, id, i);
      RealAtMeans(rs, id, i);
      if i < |rs| { CallsAreFound(rs[i], id); }
    }
  }

  lemma FreshIndex(rs: seq<Record>, ids: seq<string>)
    ensures Indexed(rs, ids, 0, map[], map[], map[])
  {
  }

  lemma PushAt(m: Index, id: string, i: nat)
    ensures forall x :: At(Push(m, id, i), x) == if x == id then At(m, x) + [i] else At(m, x)
  {
  }

  lemma DeclaresNeedsAssistant(r: Record, id: string)
    ensures Declares(r, id) ==> HasPayload(r) && r.message.role == Assistant
  {
  }

  method Classify(rs: seq<Record>, ids: seq<string>, calls: Index, reals: Index, stales: Index)
    returns (removed: seq<string>, settled: seq<string>, unresolved: seq<string>)
    requires Indexed(rs, ids, |rs|, calls, reals, stales)
    ensures removed == Select(rs, ids, Removed) && settled == Select(rs, ids, Settled)
    ensures unresolved == Select(rs, ids, Unresolved)
  {
    hide Sites, At;
    assert rs[..|rs|] == rs;
    removed, settled, unresolved := [], [], [];
    for k := 0 to |ids|
      invariant removed == Select(rs, ids[..k], Removed) && settled == Select(rs, ids[..k], Settled)
      invariant unresolved == Select(rs, ids[..k], Unresolved)
    {
      assert ids[..k + 1][..k] == ids[..k];
      var id := ids[k];
      var sites := At(calls, id);
      if |sites| == 0 {
        unresolved := unresolved + [id];
      } else if |At(reals, id)| > 0 {
        removed := removed + [id];
      } else {
        var parentIdx := sites[|sites| - 1];
        var staleSites := At(stales, id);
        var alreadyAdjacent := |staleSites| == 1 && staleSites[0] == parentIdx + 1;
        assert alreadyAdjacent <==> staleSites == [parentIdx + 1];
        if !alreadyAdjacent {
          settled := settled + [id];
        }
      }
    }
    assert ids[..|ids|] == ids;
  }

  // ----- stripping the calls of removed ids ------------------------------------------------------

  lemma {:induction false} StripPartsTwice(parts: seq<Part>, ids: seq<string>, id: string)
    ensures StripParts(StripParts(parts, ids), [id]) == StripParts(parts, ids + [id])
    ensures !HasCallPart(parts, id) ==> StripParts(parts, ids + [id]) == StripParts(parts, ids)
  {
    if parts != [] {
      var front, p := parts[..|parts| - 1], parts[|parts| - 1];
      StripPartsTwice(front, ids, id);
      assert StripParts(parts, ids)[..|front|] == StripParts(front, ids);
      assert StripPart(StripPart(p, ids), [id]) == StripPart(p, ids + [id]);
      assert HasCallPart(front, id) ==> HasCallPart(parts, id) by {
        if HasCallPart(front, id) {
          var k :| 0 <= k < |front| && front[k].ToolCall? && front[k].id == id;
          assert parts[k] == front[k];
        }
      }
    }
  }

  lemma CallPartSurvives(parts: seq<Part>, ids: seq<string>, id: string)
    ensures HasCallPart(StripParts(parts, ids), id) <==> HasCallPart(parts, id) && id !in ids
  {
    StripPartsAt(parts, ids);
    if HasCallPart(parts, id) && id !in ids {
      var k :| 0 <= k < |parts| && parts[k].ToolCall? && parts[k].id == id;
      assert StripParts(parts, ids)[k] == parts[k];
    }
  }

  lemma StripTwice(r: Record, ids: seq<string>, id: string)
    ensures Strip(Strip(r, ids), [id]) == Strip(r, ids + [id])
    ensures !Declares(r, id) ==> Strip(r, ids + [id]) == Strip(r, ids)
  {
    if HasPayload(r) && r.message.role == Assistant { StripPartsTwice(r.message.parts, ids, id); }
  }

  /** An assistant record with a call part for one of the ids. */
  predicate Touched(r: Record, ids: seq<string>) {
    HasPayload(r) && r.message.role == Assistant && exists id <- ids :: HasCallPart(r.message.parts, id)
  }

  /** Those are exactly the records that stripping changes. */
  lemma TouchedIsChanged(r: Record, ids: seq<string>)
    ensures Touched(r, ids) <==> Strip(r, ids) != r
  {
    if HasPayload(r) && r.message.role == Assistant {
      var parts := r.message.parts;
      StripPartsAt(parts, ids);
      if Touched(r, ids) {
        var id :| id in ids && HasCallPart(parts, id);
        var k :| 0 <= k < |parts| && parts[k].ToolCall? && parts[k].id == id;
        assert StripParts(parts, ids)[k] != parts[k];
      } else {
        forall k | 0 <= k < |parts| ensures StripParts(parts, ids)[k] == parts[k] {
          assert parts[k].ToolCall? && parts[k].id in ids ==> HasCallPart(parts, parts[k].id);
        }
        assert StripParts(parts, ids) == parts;
      }
    }
  }

  lemma TouchedStep(r: Record, ids: seq<string>, id: string)
    ensures Touched(r, ids + [id]) <==>
              Touched(r, ids) || (HasPayload(Strip(r, ids)) && Strip(r, ids).message.role == Assistant
                                  && HasCallPart(Strip(r, ids).message.parts, id))
  {
    if HasPayload(r) && r.message.role == Assistant { CallPartSurvives(r.message.parts, ids, id); }
  }

  method StripCall(parts: seq<Part>, id: string) returns (next: seq<Part>, touched: bool)
    ensures next == StripParts(parts, [id]) && touched == HasCallPart(parts, id)
  {
    next, touched := [], false;
    for k := 0 to |parts|
      invariant next == StripParts(parts[..k], [id])
      invariant touched <==> exists j :: 0 <= j < k && parts[j].ToolCall? && parts[j].id == id
    {
      assert parts[..k + 1][..k] == parts[..k];
      if parts[k].ToolCall? && parts[k].id == id {
        touched := true;
        next := next + [CallNote(parts[k])];
      } else {
        next := next + [parts[k]];
      }
    }
    assert parts[..|parts|] == parts;
  }

  /** Strips one removed id at all its sites. */
  method StripSites(rs: seq<Record>, before: seq<Record>, ghost done: seq<string>, sites: seq<nat>, id: string, editedIds: set<nat>)
    returns (edited: seq<Record>, editedIds': set<nat>)
    requires |before| == |rs| && forall i :: 0 <= i < |rs| ==> before[i] == Strip(rs[i], done)
    requires sites == Sites(rs, CallSite, id)
    requires forall i: nat :: i in editedIds <==> i < |rs| && Touched(rs[i], done)
    ensures |edited| == |rs| && forall i :: 0 <= i < |rs| ==> edited[i] == Strip(rs[i], done + [id])
    ensures forall i: nat :: i in editedIds' <==> i < |rs| && Touched(rs[i], done + [id])
  {
    hide Sites, Strip, Touched, Declares, StripParts, HasCallPart;
    edited, editedIds' := before, editedIds;
    SitesMembers(rs, CallSite, id);
    for k := 0 to |sites|
      invariant |edited| == |rs|
      invariant forall i: nat :: i < |rs| ==>
                  edited[i] == if i in sites[..k] then Strip(rs[i], done + [id]) else before[i]
      invariant forall i: nat :: i in editedIds' <==>
                  i < |rs| && if i in sites[..k] then Touched(rs[i], done + [id]) else Touched(rs[i], done)
    {
      assert sites[..k + 1] == sites[..k] + [sites[k]];
      var i := sites[k];
      assert i !in sites[..k];
      StripTwice(rs[i], done, id);
      TouchedStep(rs[i], done, id);
      var m := edited[i];
      var next, touched := StripOne(m, id);
      edited := edited[i := next];
      if touched {
        editedIds' := editedIds' + {i};
      }
    }
    forall i: nat | i < |rs| && i !in sites
      ensures Strip(rs[i], done + [id]) == before[i] && (Touched(rs[i], done + [id]) <==> Touched(rs[i], done))
    {
      assert !Matches(rs[i], CallSite, id);
      StripTwice(rs[i], done, id);
      UntouchedStep(rs[i], done, id);
    }
    assert sites[..|sites|] == sites;
  }

  lemma UntouchedStep(r: Record, ids: seq<string>, id: string)
    requires !Declares(r, id)
    ensures Touched(r, ids + [id]) <==> Touched(r, ids)
  {
    assert forall x :: x in ids + [id] <==> x in ids || x == id;
  }

  method StripOne(r: Record, id: string) returns (r': Record, touched: bool)
    ensures r' == Strip(r, [id])
    ensures touched <==> HasPayload(r) && r.message.role == Assistant && HasCallPart(r.message.parts, id)
  {
    r', touched := r, false;
    if HasPayload(r) && r.message.role == Assistant {
      var next;
      next, touched := StripCall(r.message.parts, id);
      if touched {
        r' := ReplacePayload(r, r.message.(parts := next));
      } else {
        StripPartsAt(r.message.parts, [id]);
        assert StripParts(r.message.parts, [id]) == r.message.parts;
      }
    }
  }

  lemma {:induction false} SitesMembers(rs: seq<Record>, kind: Kind, id: string)
    ensures forall i: nat :: i in Sites(rs, kind, id) <==> i < |rs| && Matches(rs[i], kind, id)
    ensures NoDup(Sites(rs, kind, id))
  {
    if rs != [] {
      SitesMembers(rs[..|rs| - 1], kind, id);
    }
  }

  method StripCalls(rs: seq<Record>, ids: seq<string>, calls: Index, removed: seq<string>)
    returns (edited: seq<Record>, editedIds: set<nat>)
    requires removed == Select(rs, ids, Removed)
    requires forall id :: id in ids ==> At(calls, id) == Sites(rs, CallSite, id)
    ensures |edited| == |rs| && forall i :: 0 <= i < |rs| ==> edited[i] == Edited(rs, ids, i)
    ensures forall i: nat :: i in editedIds <==> i < |rs| && Touched(rs[i], removed)
  {
    hide Sites, Strip, Touched, At, Select;
    SelectMembers(rs, ids, Removed);
    edited, editedIds := rs, {};
    NothingStripped(rs);
    for k := 0 to |removed|
      invariant |edited| == |rs| && forall i :: 0 <= i < |rs| ==> edited[i] == Strip(rs[i], removed[..k])
      invariant forall i: nat :: i in editedIds <==> i < |rs| && Touched(rs[i], removed[..k])
    {
      assert removed[..k + 1] == removed[..k] + [removed[k]];
      edited, editedIds := StripSites(rs, edited, removed[..k], At(calls, removed[k]), removed[k], editedIds);
    }
    assert removed[..|removed|] == removed;
  }

  lemma NothingStripped(rs: seq<Record>)
    ensures forall i :: 0 <= i < |rs| ==> Strip(rs[i], []) == rs[i] && !Touched(rs[i], [])
  {
    forall i | 0 <= i < |rs| ensures Strip(rs[i], []) == rs[i] { StripNothing(rs[i]); }
  }

  // ----- which records go ---------------------------------------------------------------------

  method CollectRemoved(rs: seq<Record>, ids: seq<string>, reals: Index, stales: Index, removed: seq<string>, settled: seq<string>)
    returns (gone: set<nat>)
    requires removed == Select(rs, ids, Removed) && settled == Select(rs, ids, Settled)
    requires forall id :: id in ids ==> At(reals, id) == Sites(rs, RealResult, id) && At(stales, id) == Sites(rs, StaleResult, id)
    ensures forall i: nat :: i in gone <==> i < |rs| && Dropped(rs, ids, i)
  {
    hide Sites, Select, FateOf, Matches, At;
    SelectMembers(rs, ids, Removed);
    SelectMembers(rs, ids, Settled);
    gone := AddSites(rs, RealResult, removed, reals, {});
    gone := AddSites(rs, StaleResult, settled, stales, gone);
  }

  method AddSites(rs: seq<Record>, kind: Kind, ids: seq<string>, index: Index, start: set<nat>) returns (s: set<nat>)
    requires forall id :: id in ids ==> At(index, id) == Sites(rs, kind, id)
    ensures forall i: nat :: i in s <==> i in start || (i < |rs| && exists id :: id in ids && Matches(rs[i], kind, id))
  {
    hide Sites, Matches, At;
    s := start;
    for k := 0 to |ids|
      invariant forall i: nat :: i in s <==>
                  i in start || (i < |rs| && exists id :: id in ids[..k] && Matches(rs[i], kind, id))
    {
      assert ids[..k + 1] == ids[..k] + [ids[k]];
      SitesMembers(rs, kind, ids[k]);
      s := s + (set i | i in At(index, ids[k]));
    }
    assert ids[..|ids|] == ids;
  }

  // ----- the inserted blocks --------------------------------------------------------------------

  type Buckets = map<int, seq<Record>>

  function BucketAt(m: Buckets, i: int): seq<Record> {
    if i in m then m[i] else []
  }

  /** The listed ids whose parent is record i. */
  function AtParent(rs: seq<Record>, settled: seq<string>, i: nat): seq<string>
    requires forall id :: id in settled ==> Sites(rs, CallSite, id) != []
  {
    if settled == [] then []
    else
      var id := settled[|settled| - 1];
      AtParent(rs, settled[..|settled| - 1], i) + (if Parent(rs, id) == i then [id] else [])
  }

  lemma {:induction false} AtParentIsSettledAt(rs: seq<Record>, ids: seq<string>, i: nat)
    requires forall id :: id in Select(rs, ids, Settled) ==> Sites(rs, CallSite, id) != []
    ensures AtParent(rs, Select(rs, ids, Settled), i) == SettledAt(rs, ids, i)
  {
    hide Sites;
    if ids != [] {
      var front, id := ids[..|ids| - 1], ids[|ids| - 1];
      var before := Select(rs, front, Settled);
      assert forall x :: x in before ==> x in Select(rs, ids, Settled);
      AtParentIsSettledAt(rs, front, i);
      if FateOf(rs, id) == Settled {
        assert Select(rs, ids, Settled) == before + [id];
        assert (before + [id])[..|before|] == before;
      } else {
        assert Select(rs, ids, Settled) == before;
      }
    }
  }

  predicate Bucketed(rs: seq<Record>, edited: seq<Record>, settled: seq<string>, now: int, m: Buckets)
    requires forall id :: id in settled ==> Sites(rs, CallSite, id) != []
    requires |edited| == |rs|
  {
    forall i :: 0 <= i < |rs| ==> BucketAt(m, i) == SynthAll(edited[i], AtParent(rs, settled, i), now)
  }

  method BuildBlocks(rs: seq<Record>, edited: seq<Record>, settled: seq<string>, calls: Index, now: int) returns (m: Buckets)
    requires forall id :: id in settled ==> Sites(rs, CallSite, id) != [] && At(calls, id) == Sites(rs, CallSite, id)
    requires |edited| == |rs| && forall id :: id in settled ==> HasPayload(edited[Parent(rs, id)])
    ensures Bucketed(rs, edited, settled, now, m)
  {
    hide Sites, Synth, SynthAll, At, BucketAt, AtParent;
    m := map[];
    NoBuckets(rs, edited, now);
    for k := 0 to |settled|
      invariant Bucketed(rs, edited, settled[..k], now, m)
    {
      var id := settled[k];
      var sites := At(calls, id);
      var parentIdx := sites[|sites| - 1];
      var bucket := BucketAt(m, parentIdx);
      BucketedStep(rs, edited, settled[..k], id, now, m);
      assert settled[..k] + [id] == settled[..k + 1];
      m := m[parentIdx := bucket + [Synth(edited[parentIdx], id, now)]];
    }
    assert settled[..|settled|] == settled;
  }

  lemma NoBuckets(rs: seq<Record>, edited: seq<Record>, now: int)
    requires |edited| == |rs|
    ensures Bucketed(rs, edited, [], now, map[])
  {
  }

  lemma BucketedStep(rs: seq<Record>, edited: seq<Record>, settled: seq<string>, id: string, now: int, m: Buckets)
    requires forall x :: x in settled + [id] ==> Sites(rs, CallSite, x) != []
    requires |edited| == |rs| && HasPayload(edited[Parent(rs, id)])
    requires Bucketed(rs, edited, settled, now, m)
    ensures var p := Parent(rs, id);
            Bucketed(rs, edited, settled + [id], now, m[p := BucketAt(m, p) + [Synth(edited[p], id, now)]])
  {
    hide Sites, Synth, SynthAll, BucketAt;
    var p := Parent(rs, id);
    var m' := m[p := BucketAt(m, p) + [Synth(edited[p], id, now)]];
    BucketChanges(m, p, BucketAt(m, p) + [Synth(edited[p], id, now)]);
    assert (settled + [id])[..|settled|] == settled;
    SynthOneMore(edited[p], AtParent(rs, settled, p), id, now);
    forall i: nat | i < |rs| ensures BucketAt(m', i) == SynthAll(edited[i], AtParent(rs, settled + [id], i), now) {
      if p == i {
        assert AtParent(rs, settled + [id], i) == AtParent(rs, settled, i) + [id];
      } else {
        assert AtParent(rs, settled + [id], i) == AtParent(rs, settled, i);
      }
    }
  }

  lemma BucketChanges(m: Buckets, p: int, b: seq<Record>)
    ensures forall i :: BucketAt(m[p := b], i) == if i == p then b else BucketAt(m, i)
  {
    forall i ensures BucketAt(m[p := b], i) == if i == p then b else BucketAt(m, i) {
      if i != p { assert i in m[p := b] <==> i in m; }
    }
  }

  lemma SynthOneMore(parent: Record, here: seq<string>, id: string, now: int)
    requires HasPayload(parent)
    ensures SynthAll(parent, here + [id], now) == SynthAll(parent, here, now) + [Synth(parent, id, now)]
  {
    assert (here + [id])[..|here|] == here;
  }

  // ----- counting sets ----------------------------------------------------------------------

  lemma {:induction false} CountDropped(rs: seq<Record>, ids: seq<string>, s: set<nat>, k: nat)
    requires k <= |rs| && forall i: nat :: i in s <==> i < k && Dropped(rs, ids, i)
    ensures |s| == DroppedBelow(rs, ids, k)
  {
    hide Dropped;
    if k == 0 {
      assert s == {};
    } else {
      CountDropped(rs, ids, s - {k - 1}, k - 1);
      assert k - 1 in s <==> Dropped(rs, ids, k - 1);
      if k - 1 !in s { assert s - {k - 1} == s; }
    }
  }

  function TouchedBelow(rs: seq<Record>, removed: seq<string>, k: nat): nat
    requires k <= |rs|
  {
    if k == 0 then 0 else TouchedBelow(rs, removed, k - 1) + (if Touched(rs[k - 1], removed) then 1 else 0)
  }

  lemma {:induction false} CountTouched(rs: seq<Record>, removed: seq<string>, s: set<nat>, k: nat)
    requires k <= |rs| && forall i: nat :: i in s <==> i < k && Touched(rs[i], removed)
    ensures |s| == TouchedBelow(rs, removed, k)
  {
    hide Touched;
    if k == 0 {
      assert s == {};
    } else {
      CountTouched(rs, removed, s - {k - 1}, k - 1);
      assert k - 1 in s <==> Touched(rs[k - 1], removed);
      if k - 1 !in s { assert s - {k - 1} == s; }
    }
  }

  // ----- the whole healing -----------------------------------------------------------------------

  method Materialize(rs: seq<Record>, ids: seq<string>, now: int, edited: seq<Record>, gone: set<nat>, blocks: Buckets)
    returns (out: seq<Record>, appended: nat)
    requires |edited| == |rs| && forall i :: 0 <= i < |rs| ==> edited[i] == Edited(rs, ids, i)
    requires forall i: nat :: i in gone <==> i < |rs| && Dropped(rs, ids, i)
    requires forall i :: 0 <= i < |rs| ==> BucketAt(blocks, i) == Block(rs, ids, now, i)
    ensures out == Woven(rs, ids, now, |rs|) && appended == |Select(rs, ids, Settled)|
  {
    hide Dropped, Edited, Block, Select, SettledAt, SettledBelow, BucketAt;
    assert Woven(rs, ids, now, 0) == [];
    hide Woven;
    out, appended := [], 0;
    SettledBelowSteps(rs, ids, 0);
    for i := 0 to |rs|
      invariant out == Woven(rs, ids, now, i) && appended == |SettledBelow(rs, ids, i)|
    {
      SettledBelowSteps(rs, ids, i);
      ParentIsNotDropped(rs, ids, i);
      WovenStep(rs, ids, now, i);
      var block := BucketAt(blocks, i);
      appended := appended + |block|;
      if i !in gone {
        out := out + [edited[i]];
        out := out + block;
      }
    }
  }

  method HealConversation(rs: seq<Record>, ids: seq<string>, now: int) returns (out: seq<Record>, report: Report)
    ensures out == Heal(rs, ids, now)
    ensures var removed := Select(rs, ids, Removed);
            report == if SomethingToDo(rs, ids) then
                        Report(ids, removed, Select(rs, ids, Settled), Select(rs, ids, Unresolved),
                               TouchedBelow(rs, removed, |rs|), DroppedBelow(rs, ids, |rs|), |Select(rs, ids, Settled)|)
                      else Report(ids, [], [], Select(rs, ids, Unresolved), 0, 0, 0)
    ensures |out| == |rs| - report.messagesRemoved + report.messagesAppended
    ensures forall id :: id in report.removed ==> id in ids && Called(rs, id) && ReallyAnswered(rs, id)
    ensures forall id :: id in report.settled ==> id in ids && Called(rs, id) && !ReallyAnswered(rs, id) && !AnsweredInPlace(rs, id)
    ensures forall id :: id in report.unresolved <==> id in ids && !Called(rs, id)
  {
    hide Sites, Edited, Block, Dropped, Touched, Strip, Woven, At, SettledAt, BucketAt, AtParent, TouchedBelow, DroppedBelow;
    hide Called, ReallyAnswered, AnsweredInPlace, StaleAt, RealAt, CallRecord;
    forall id ensures id in Select(rs, ids, Unresolved) <==> id in ids && !Called(rs, id)
      ensures id in Select(rs, ids, Removed) ==> id in ids && Called(rs, id) && ReallyAnswered(rs, id)
      ensures id in Select(rs, ids, Settled) ==> id in ids && Called(rs, id) && !ReallyAnswered(rs, id) && !AnsweredInPlace(rs, id)
    {
      ReportMeans(rs, ids, id);
    }
    if |ids| == 0 {
      return rs, Report(ids, [], [], [], 0, 0, 0);
    }
    var calls, reals, stales := IndexSites(rs, ids);
    assert rs[..|rs|] == rs;
    var removed, settled, unresolved := Classify(rs, ids, calls, reals, stales);
    if |removed| == 0 && |settled| == 0 {
      return rs, Report(ids, [], [], unresolved, 0, 0, 0);
    }
    var edited, editedIds := StripCalls(rs, ids, calls, removed);
    var gone := CollectRemoved(rs, ids, reals, stales, removed, settled);
    SettledHaveParents(rs, ids);
    var blocks := BuildBlocks(rs, edited, settled, calls, now);
    BucketsAreBlocks(rs, ids, now, edited, blocks);
    var appended;
    out, appended := Materialize(rs, ids, now, edited, gone, blocks);
    CountDropped(rs, ids, gone, |rs|);
    CountTouched(rs, removed, editedIds, |rs|);
    HealLength(rs, ids, now);
    report := Report(ids, removed, settled, unresolved, |editedIds|, |gone|, appended);
  }

  lemma SettledHaveParents(rs: seq<Record>, ids: seq<string>)
    ensures forall id :: id in Select(rs, ids, Settled) ==>
              id in ids && Sites(rs, CallSite, id) != [] && HasPayload(Edited(rs, ids, Parent(rs, id)))
  {
    hide Sites, Select, Edited, SettledAt;
    SelectMembers(rs, ids, Settled);
    forall id | id in Select(rs, ids, Settled)
      ensures id in ids && Sites(rs, CallSite, id) != [] && HasPayload(Edited(rs, ids, Parent(rs, id)))
    {
      SettledAtMembers(rs, ids, Parent(rs, id));
      assert id in SettledAt(rs, ids, Parent(rs, id));
      ParentHasPayload(rs, ids, Parent(rs, id));
    }
  }

  lemma BucketsAreBlocks(rs: seq<Record>, ids: seq<string>, now: int, edited: seq<Record>, m: Buckets)
    requires |edited| == |rs| && forall i :: 0 <= i < |rs| ==> edited[i] == Edited(rs, ids, i)
    requires forall id :: id in Select(rs, ids, Settled) ==> Sites(rs, CallSite, id) != []
    requires Bucketed(rs, edited, Select(rs, ids, Settled), now, m)
    ensures forall i :: 0 <= i < |rs| ==> BucketAt(m, i) == Block(rs, ids, now, i)
  {
    hide Sites, Edited, SettledAt, AtParent, BucketAt, SynthAll, Select;
    forall i | 0 <= i < |rs| ensures BucketAt(m, i) == Block(rs, ids, now, i) {
      AtParentIsSettledAt(rs, ids, i);
    }
  }
}
