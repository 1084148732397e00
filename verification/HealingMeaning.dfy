/**
 * What the healer reads in a transcript and what it writes into it, in terms of ids, roles and texts alone: which
 * results count as its own, what each id's fate means, and how a stripped call and an inserted result read.
 */
module HealingMeaning {
  import opened Basics
  import opened Transcript
  import opened TranscriptHealing
  import opened HealingProperties
  import opened HealingAgain

  // ----- which results are synthetic -----------------------------------------------------------------

  function HealId(x: string): string { "heal-" + x }

  function SettlementId(x: string): string { "synth-settle:" + x }

  function InsertedId(x: string, y: string): string { x + ":heal-tool-result:" + y }

  /** The record ids that the healer, or the settlement of a turn, gives to results. */
  ghost predicate MachineMade(id: string) {
    (exists x :: id == HealId(x)) || (exists x :: id == SettlementId(x)) || exists x, y :: id == InsertedId(x, y)
  }

  lemma SyntheticIdMeans(id: string)
    ensures SyntheticId(id) <==> MachineMade(id)
  {
    hide MachineMade, HealId, SettlementId, InsertedId;
    if SyntheticId(id) { SyntheticIsMade(id); }
    if MachineMade(id) { MadeIsSynthetic(id); }
  }

  lemma SyntheticIsMade(id: string)
    requires SyntheticId(id)
    ensures MachineMade(id)
  {
    if StartsWith(id, "heal-") {
      assert id == HealId(id[5..]);
    } else if StartsWith(id, "synth-settle:") {
      assert id == SettlementId(id[13..]);
    } else {
      var i :| 0 <= i <= |id| && OccursAt(id, HEAL_MARK, i);
      assert id == InsertedId(id[..i], id[i + |HEAL_MARK|..]);
    }
  }

  lemma MadeIsSynthetic(id: string)
    requires MachineMade(id)
    ensures SyntheticId(id)
  {
    if x :| id == HealId(x) {
      assert id[..5] == "heal-";
    } else if x :| id == SettlementId(x) {
      assert id[..13] == "synth-settle:";
    } else {
      var x, y :| id == InsertedId(x, y);
      assert OccursAt(id, HEAL_MARK, |x|);
    }
  }

  /** A tool result for the id, the empty id being none. */
  predicate ResultRecord(r: Record, id: string) {
    !r.Opaque? && r.message.role == ToolResult && r.message.resultFor == Some(id) && id != ""
  }

  /** A result is stale if its record id is machine-made, and real if it has another id or none. */
  lemma ResultsAreToldApart(r: Record, id: string)
    ensures Matches(r, StaleResult, id) <==> ResultRecord(r, id) && r.message.id.Some? && MachineMade(r.message.id.value)
    ensures Matches(r, RealResult, id) <==>
              ResultRecord(r, id) && (r.message.id.None? || !MachineMade(r.message.id.value))
  {
    hide SyntheticId, MachineMade;
    if HasPayload(r) && r.message.id.Some? { SyntheticIdMeans(r.message.id.value); }
  }

  /** An assistant record with a call of this id among its parts, or in a call array. */
  predicate CallRecord(r: Record, id: string) {
    && !r.Opaque? && r.message.role == Assistant
    && ((exists p <- r.message.parts :: p.ToolCall? && p.id == id) || exists c <- r.message.calls :: c.id == id)
  }

  lemma CallsAreFound(r: Record, id: string)
    ensures Matches(r, CallSite, id) <==> CallRecord(r, id)
  {
    if Matches(r, CallSite, id) {
      if HasCallPart(r.message.parts, id) {
        var k :| 0 <= k < |r.message.parts| && r.message.parts[k].ToolCall? && r.message.parts[k].id == id;
        assert r.message.parts[k] in r.message.parts;
      } else {
        var k :| 0 <= k < |r.message.calls| && r.message.calls[k].id == id;
        assert r.message.calls[k] in r.message.calls;
      }
    }
  }

  // ----- fates ---------------------------------------------------------------------------------------------

  predicate Called(rs: seq<Record>, id: string) {
    exists r <- rs :: CallRecord(r, id)
  }

  ghost predicate ReallyAnswered(rs: seq<Record>, id: string) {
    exists r <- rs :: ResultRecord(r, id) && (r.message.id.None? || !MachineMade(r.message.id.value))
  }

  ghost predicate StaleAt(rs: seq<Record>, id: string, i: nat) {
    i < |rs| && ResultRecord(rs[i], id) && rs[i].message.id.Some? && MachineMade(rs[i].message.id.value)
  }

  ghost predicate RealAt(rs: seq<Record>, id: string, i: nat) {
    i < |rs| && ResultRecord(rs[i], id) && (rs[i].message.id.None? || !MachineMade(rs[i].message.id.value))
  }

  /** The only machine-made result stands right behind the last record that makes the call. */
  ghost predicate AnsweredInPlace(rs: seq<Record>, id: string) {
    exists p: nat ::
      && StaleAt(rs, id, p + 1) && CallRecord(rs[p], id) && (forall i :: p < i < |rs| ==> !CallRecord(rs[i], id))
      && forall i: nat :: StaleAt(rs, id, i) ==> i == p + 1
  }

  lemma SomeSite(rs: seq<Record>, kind: Kind, id: string)
    ensures Sites(rs, kind, id) != [] <==> exists r <- rs :: Matches(r, kind, id)
  {
    hide Sites, Matches;
    NoSites(rs, kind, id);
    if Sites(rs, kind, id) != [] {
      var i :| 0 <= i < |rs| && Matches(rs[i], kind, id);
      assert rs[i] in rs;
    }
  }

  lemma CalledMeans(rs: seq<Record>, id: string)
    ensures Sites(rs, CallSite, id) != [] <==> Called(rs, id)
  {
    hide Sites, Matches, CallRecord;
    SomeSite(rs, CallSite, id);
    forall r | r in rs ensures Matches(r, CallSite, id) <==> CallRecord(r, id) { CallsAreFound(r, id); }
  }

  lemma AnsweredMeans(rs: seq<Record>, id: string)
    ensures Sites(rs, RealResult, id) != [] <==> ReallyAnswered(rs, id)
  {
    hide Sites, Matches, MachineMade;
    SomeSite(rs, RealResult, id);
    forall r | r in rs
      ensures Matches(r, RealResult, id) <==> ResultRecord(r, id) && (r.message.id.None? || !MachineMade(r.message.id.value))
    {
      ResultsAreToldApart(r, id);
    }
  }

  lemma StaleAtMeans(rs: seq<Record>, id: string, i: nat)
    ensures StaleAt(rs, id, i) <==> i < |rs| && Matches(rs[i], StaleResult, id)
  {
    hide Matches, MachineMade, ResultRecord;
    if i < |rs| { ResultsAreToldApart(rs[i], id); }
  }

  lemma RealAtMeans(rs: seq<Record>, id: string, i: nat)
    ensures RealAt(rs, id, i) <==> i < |rs| && Matches(rs[i], RealResult, id)
  {
    hide Matches, MachineMade, ResultRecord;
    if i < |rs| { ResultsAreToldApart(rs[i], id); }
  }

  lemma InPlaceMeans(rs: seq<Record>, id: string)
    requires Sites(rs, CallSite, id) != []
    ensures Sites(rs, StaleResult, id) == [Parent(rs, id) + 1] <==> AnsweredInPlace(rs, id)
  {
    hide Sites, Matches, MachineMade, ResultRecord, CallRecord, StaleAt;
    var p := Parent(rs, id);
    LastSiteMatches(rs, CallSite, id);
    forall i | 0 <= i < |rs| ensures Matches(rs[i], CallSite, id) <==> CallRecord(rs[i], id) { CallsAreFound(rs[i], id); }
    forall i: nat ensures StaleAt(rs, id, i) <==> i < |rs| && Matches(rs[i], StaleResult, id) { StaleAtMeans(rs, id, i); }
    SoleSiteExactly(rs, StaleResult, id, p + 1);
  }

  /** What becomes of an id: it is never called, or really answered, or answered in place, or none of these. */
  lemma FateMeans(rs: seq<Record>, id: string)
    ensures FateOf(rs, id) == Unresolved <==> !Called(rs, id)
    ensures FateOf(rs, id) == Removed <==> Called(rs, id) && ReallyAnswered(rs, id)
    ensures FateOf(rs, id) == InPlace <==> Called(rs, id) && !ReallyAnswered(rs, id) && AnsweredInPlace(rs, id)
    ensures FateOf(rs, id) == Settled <==> Called(rs, id) && !ReallyAnswered(rs, id) && !AnsweredInPlace(rs, id)
  {
    hide Sites, Called, ReallyAnswered, AnsweredInPlace;
    CalledMeans(rs, id);
    AnsweredMeans(rs, id);
    if Sites(rs, CallSite, id) != [] { InPlaceMeans(rs, id); }
  }

  /** The three lists of the report, each the requested ids of that fate, in the order requested. */
  lemma ReportMeans(rs: seq<Record>, ids: seq<string>, id: string)
    ensures id in Select(rs, ids, Unresolved) <==> id in ids && !Called(rs, id)
    ensures id in Select(rs, ids, Removed) <==> id in ids && Called(rs, id) && ReallyAnswered(rs, id)
    ensures id in Select(rs, ids, Settled) <==>
              id in ids && Called(rs, id) && !ReallyAnswered(rs, id) && !AnsweredInPlace(rs, id)
  {
    hide Select, FateOf, Called, ReallyAnswered, AnsweredInPlace;
    SelectMembers(rs, ids, Unresolved);
    SelectMembers(rs, ids, Removed);
    SelectMembers(rs, ids, Settled);
    FateMeans(rs, id);
  }

  /** An id all of whose results carry such record ids is never removed. */
  lemma MachineMadeResultsDoNotRemove(rs: seq<Record>, ids: seq<string>, id: string)
    requires forall r :: r in rs && ResultRecord(r, id) ==> r.message.id.Some? && MachineMade(r.message.id.value)
    ensures id !in Select(rs, ids, Removed)
  {
    hide Select, Called, AnsweredInPlace, MachineMade, ResultRecord;
    ReportMeans(rs, ids, id);
  }

  /** One call, and right behind it a result under a machine-made id: healing leaves the transcript as it is. */
  lemma SettledTwoRecordsStay(call: Record, answer: Record, id: string, now: int)
    requires CallRecord(call, id) && ResultRecord(answer, id)
    requires answer.message.id.Some? && MachineMade(answer.message.id.value)
    ensures Heal([call, answer], [id], now) == [call, answer]
  {
    hide Select, MachineMade, Called, ReallyAnswered, AnsweredInPlace, Woven;
    var rs := [call, answer];
    assert StaleAt(rs, id, 0 + 1) && CallRecord(rs[0], id) && !CallRecord(rs[1], id);
    assert AnsweredInPlace(rs, id) by {
      hide CallRecord, ResultRecord;
      PairIsInPlace(rs, id);
    }
    assert !ReallyAnswered(rs, id) by { PairIsNotReal(rs, id); }
    FateMeans(rs, id);
    NoneSelected(rs, [id], Removed);
    NoneSelected(rs, [id], Settled);
  }

  lemma PairIsInPlace(rs: seq<Record>, id: string)
    requires |rs| == 2 && StaleAt(rs, id, 1) && CallRecord(rs[0], id) && !CallRecord(rs[1], id)
    ensures AnsweredInPlace(rs, id)
  {
    hide MachineMade;
    assert StaleAt(rs, id, 0 + 1);
  }

  lemma PairIsNotReal(rs: seq<Record>, id: string)
    requires |rs| == 2 && StaleAt(rs, id, 1) && CallRecord(rs[0], id)
    ensures !ReallyAnswered(rs, id)
  {
    hide MachineMade;
  }

  /** In particular for the record ids a settled turn writes. */
  lemma SettlementStays(parent: string, x: string, id: string, name: Option<string>, now: int)
    requires id != ""
    ensures var call := Bare(Message(Assistant, Some(parent), [ToolCall(id, name)], [], None, Raw("")));
            var answer := Bare(Message(ToolResult, Some(SettlementId(x)), [], [], Some(id), Raw("")));
            Heal([call, answer], [id], now) == [call, answer]
  {
    hide Heal;
    var call := Bare(Message(Assistant, Some(parent), [ToolCall(id, name)], [], None, Raw("")));
    var answer := Bare(Message(ToolResult, Some(SettlementId(x)), [], [], Some(id), Raw("")));
    assert call.message.parts[0] in call.message.parts;
    assert CallRecord(call, id);
    SettledTwoRecordsStay(call, answer, id, now);
  }

  // ----- what is written -----------------------------------------------------------------------------------

  predicate NamedPart(p: Part, id: string) {
    p.ToolCall? && p.id == id && p.name.Some?
  }

  predicate NamedCall(c: Call, id: string) {
    c.id == id && c.name.Some?
  }

  /** The name a message gives a call: that of the first named part with the id, else of the first named array entry. */
  predicate NameGiven(m: Message, id: string, name: string) {
    if exists p <- m.parts :: NamedPart(p, id) then
      exists k :: 0 <= k < |m.parts| && NamedPart(m.parts[k], id) && m.parts[k].name == Some(name)
                  && forall j :: 0 <= j < k ==> !NamedPart(m.parts[j], id)
    else if exists c <- m.calls :: NamedCall(c, id) then
      exists k :: 0 <= k < |m.calls| && NamedCall(m.calls[k], id) && m.calls[k].name == Some(name)
                  && forall j :: 0 <= j < k ==> !NamedCall(m.calls[j], id)
    else name == "<unknown>"
  }

  lemma {:induction false} FirstNamedPart(parts: seq<Part>, id: string)
    ensures PartName(parts, id).None? <==> forall p :: p in parts ==> !NamedPart(p, id)
    ensures PartName(parts, id).Some? ==>
              exists k :: 0 <= k < |parts| && NamedPart(parts[k], id) && parts[k].name == PartName(parts, id)
                          && forall j :: 0 <= j < k ==> !NamedPart(parts[j], id)
  {
    if parts != [] && !NamedPart(parts[0], id) {
      FirstNamedPart(parts[1..], id);
      if PartName(parts, id).Some? {
        var k :| 0 <= k < |parts[1..]| && NamedPart(parts[1..][k], id) && parts[1..][k].name == PartName(parts[1..], id)
                 && forall j :: 0 <= j < k ==> !NamedPart(parts[1..][j], id);
        assert parts[k + 1] == parts[1..][k];
        assert forall j :: 0 < j < k + 1 ==> parts[j] == parts[1..][j - 1];
      }
    }
  }

  lemma {:induction false} FirstNamedCall(calls: seq<Call>, id: string)
    ensures CallName(calls, id).None? <==> forall c :: c in calls ==> !NamedCall(c, id)
    ensures CallName(calls, id).Some? ==>
              exists k :: 0 <= k < |calls| && NamedCall(calls[k], id) && calls[k].name == CallName(calls, id)
                          && forall j :: 0 <= j < k ==> !NamedCall(calls[j], id)
  {
    if calls != [] && !NamedCall(calls[0], id) {
      FirstNamedCall(calls[1..], id);
      if CallName(calls, id).Some? {
        var k :| 0 <= k < |calls[1..]| && NamedCall(calls[1..][k], id) && calls[1..][k].name == CallName(calls[1..], id)
                 && forall j :: 0 <= j < k ==> !NamedCall(calls[1..][j], id);
        assert calls[k + 1] == calls[1..][k];
        assert forall j :: 0 < j < k + 1 ==> calls[j] == calls[1..][j - 1];
      }
    }
  }

  lemma NameMeans(m: Message, id: string)
    ensures NameGiven(m, id, ToolName(m, id))
  {
    hide PartName, CallName;
    FirstNamedPart(m.parts, id);
    FirstNamedCall(m.calls, id);
  }

  /** An inserted result, as the model reads it: whose it is, what it says, and under which name and time it was written. */
  predicate ReadsAsInterrupted(r: Record, parent: Message, id: string, now: int) {
    && r.Bare? && r.message.role == ToolResult && r.message.resultFor == Some(id) && r.message.calls == []
    && r.message.parts == [Text("[healed: tool execution interrupted, no result recorded]")]
    && r.message.id == Some((if parent.id.Some? then parent.id.value else "synth-parent") + ":heal-tool-result:" + id)
    && r.message.body.Healed? && NameGiven(parent, id, r.message.body.toolName) && r.message.body.nowMs == now
  }

  lemma SynthReads(parent: Record, id: string, now: int)
    requires HasPayload(parent)
    ensures ReadsAsInterrupted(Synth(parent, id, now), parent.message, id, now)
  {
    hide NameGiven, ToolName;
    NameMeans(parent.message, id);
  }

  /** The result of a settled id, at its place behind the record that makes the call. */
  lemma SettledResultReads(rs: seq<Record>, ids: seq<string>, now: int, id: string) returns (k: nat)
    requires NoDup(ids) && id in ids && id != "" && Called(rs, id) && !ReallyAnswered(rs, id) && !AnsweredInPlace(rs, id)
    ensures var out := Heal(rs, ids, now);
            && Sites(out, CallSite, id) != [] && Parent(out, id) + 1 + k < |out| && HasPayload(out[Parent(out, id)])
            && Sites(out, StaleResult, id) == [Parent(out, id) + 1 + k]
            && ReadsAsInterrupted(out[Parent(out, id) + 1 + k], out[Parent(out, id)].message, id, now)
  {
    hide Heal, Sites, Select, Called, ReallyAnswered, AnsweredInPlace, Edited, ReadsAsInterrupted, Synth, Parent, ResultOffset;
    FateMeans(rs, id);
    SelectMembers(rs, ids, Settled);
    k := KeptHasOneResult(rs, ids, now, id);
    InsertedRecord(rs, ids, now, id, k);
    SynthReads(Edited(rs, ids, Parent(rs, id)), id, now);
  }

  /** The note left in place of a stripped call. */
  function Note(name: Option<string>, id: string): string {
    "[healed: removed orphan tool call " + (match name case Some(n) => n case None => "<unknown>") + " (id=" + id + ")]"
  }

  predicate SameButParts(r: Record, s: Record) {
    if r.Opaque? then s == r
    else
      && !s.Opaque? && r.Nested? == s.Nested? && (r.Nested? ==> r.envelope == s.envelope)
      && s.message == r.message.(parts := s.message.parts) && |s.message.parts| == |r.message.parts|
  }

  /** A surviving record is as it was, but that in assistant records the calls of removed ids have become notes. */
  lemma SurvivorReads(rs: seq<Record>, ids: seq<string>, now: int, i: nat)
    requires i < |rs| && SomethingToDo(rs, ids) && !Dropped(rs, ids, i)
    ensures var out := Heal(rs, ids, now);
            var p := Pos(rs, ids, now, i);
            && p < |out| && SameButParts(rs[i], out[p])
            && (!rs[i].Opaque? ==> forall k :: 0 <= k < |rs[i].message.parts| ==>
                  var part := rs[i].message.parts[k];
                  out[p].message.parts[k] ==
                    if rs[i].message.role == Assistant && part.ToolCall? && part.id in Select(rs, ids, Removed)
                    then Text(Note(part.name, part.id)) else part)
  {
    hide Heal, Woven, Dropped, SettledAt, Select, Block, SomethingToDo;
    HealIsWoven(rs, ids, now);
    Layout(rs, ids, now, i);
    EditedIsStrip(rs, ids, i);
    StripReads(rs[i], Select(rs, ids, Removed));
  }

  lemma StripReads(r: Record, removed: seq<string>)
    ensures SameButParts(r, Strip(r, removed))
    ensures !r.Opaque? ==> forall k :: 0 <= k < |r.message.parts| ==>
              var part := r.message.parts[k];
              Strip(r, removed).message.parts[k] ==
                if r.message.role == Assistant && part.ToolCall? && part.id in removed
                then Text(Note(part.name, part.id)) else part
  {
    if HasPayload(r) { StripPartsAt(r.message.parts, removed); }
  }

  /** A record is dropped if and only if it is a real result of a removed id or a machine-made one of a settled id. */
  lemma DroppedMeans(rs: seq<Record>, ids: seq<string>, i: nat)
    requires i < |rs|
    ensures Dropped(rs, ids, i) <==>
            exists id <- ids :: && ResultRecord(rs[i], id) && Called(rs, id)
                                && if StaleAt(rs, id, i) then !ReallyAnswered(rs, id) && !AnsweredInPlace(rs, id) else ReallyAnswered(rs, id)
  {
    hide Matches, FateOf, Called, ReallyAnswered, AnsweredInPlace, MachineMade;
    forall id | id in ids
      ensures (|| (FateOf(rs, id) == Removed && Matches(rs[i], RealResult, id))
               || (FateOf(rs, id) == Settled && Matches(rs[i], StaleResult, id))) <==>
              (&& ResultRecord(rs[i], id) && Called(rs, id)
               && if StaleAt(rs, id, i) then !ReallyAnswered(rs, id) && !AnsweredInPlace(rs, id) else ReallyAnswered(rs, id))
    {
      FateMeans(rs, id);
      ResultsAreToldApart(rs[i], id);
    }
  }
}
