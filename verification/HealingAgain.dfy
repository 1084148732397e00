/**
 * Healing a healed transcript again: which records it may replace, where results can move, and exactly when it only
 * permutes the records.
 */
module HealingAgain {
  import opened Basics
  import opened Transcript
  import opened TranscriptHealing
  import opened HealingProperties

  /** A first healing that writes, for distinct ids, none empty, whose removed calls live in parts. */
  predicate Healable(rs: seq<Record>, ids: seq<string>) {
    SomethingToDo(rs, ids) && NoDup(ids) && "" !in ids && CallsLiveInParts(rs, ids)
  }

  /** The ids whose results a second healing deletes and inserts anew. */
  function Moved(rs: seq<Record>, ids: seq<string>, now: int): seq<string> {
    Select(Heal(rs, ids, now), ids, Settled)
  }

  lemma MovedIsKept(rs: seq<Record>, ids: seq<string>, now: int, id: string)
    requires Healable(rs, ids)
    ensures id in Moved(rs, ids, now) <==> IsKept(rs, ids, id) && !ResultOffset(rs, ids, id, 0)
    ensures id in Moved(rs, ids, now) ==> IsKept(Heal(rs, ids, now), ids, id) && FateOf(Heal(rs, ids, now), id) == Settled
  {
    hide Woven, SettledAt, Select, Sites, CallsLiveInParts, SomethingToDo, Heal, ResultOffset;
    SelectMembers(Heal(rs, ids, now), ids, Settled);
    if id in ids { FateAfter(rs, ids, now, id); }
  }

  // ----- the rest of the transcript ----------------------------------------------------------------

  /** At any clock, a second healing leaves every record that is not a result of a re-settled id as it is, in order. */
  lemma SecondHealingKeepsTheRest(rs: seq<Record>, ids: seq<string>, now: int, now': int)
    requires Healable(rs, ids)
    ensures var out := Heal(rs, ids, now);
            Erased(Heal(out, ids, now'), Moved(rs, ids, now)) == Erased(out, Moved(rs, ids, now))
  {
    hide Woven, Dropped, SettledAt, Select, FateOf, Erased;
    var out := Heal(rs, ids, now);
    NothingRemovedTwice(rs, ids, now);
    SettlingMovesOnlyResults(out, ids, now', |out|);
    assert out[..|out|] == out;
  }

  // ----- the results themselves --------------------------------------------------------------------

  /** The result a kept id has after the first healing: the record inserted for it, or the one that was in place. */
  function FirstResult(rs: seq<Record>, ids: seq<string>, now: int, id: string): Record
    requires IsKept(rs, ids, id) && HasPayload(Edited(rs, ids, Parent(rs, id)))
  {
    if FateOf(rs, id) == Settled then Synth(Edited(rs, ids, Parent(rs, id)), id, now)
    else rs[Sites(rs, StaleResult, id)[0]]
  }

  lemma FirstResultIs(rs: seq<Record>, ids: seq<string>, now: int, id: string) returns (k: nat)
    requires Healable(rs, ids) && IsKept(rs, ids, id)
    ensures ResultOffset(rs, ids, id, k) && HasPayload(Edited(rs, ids, Parent(rs, id)))
    ensures var out := Heal(rs, ids, now);
            && Sites(out, CallSite, id) != [] && Sites(out, StaleResult, id) == [Parent(out, id) + 1 + k]
            && out[Parent(out, id)] == Edited(rs, ids, Parent(rs, id))
            && Parent(out, id) + 1 + k < |out| && out[Parent(out, id) + 1 + k] == FirstResult(rs, ids, now, id)
  {
    hide Woven, Dropped, SettledAt, Select, IsResult, IsSynthetic, Declares, Sites, Strip, Synth, SomethingToDo;
    hide Heal, Edited, Parent, CallsLiveInParts;
    k := KeptHasOneResult(rs, ids, now, id);
    ParentDeclares(rs, ids, id);
    ParentStays(rs, ids, now, id);
    if FateOf(rs, id) == Settled {
      InsertedRecord(rs, ids, now, id, k);
    } else {
      InPlaceStays(rs, ids, now, id);
    }
  }

  /** The record a kept id's result goes behind stays, up to stripped calls. */
  lemma ParentStays(rs: seq<Record>, ids: seq<string>, now: int, id: string)
    requires SomethingToDo(rs, ids) && IsKept(rs, ids, id)
    ensures var out, i := Heal(rs, ids, now), Parent(rs, id);
            && Sites(out, CallSite, id) != [] && Parent(out, id) == Pos(rs, ids, now, i) < |out|
            && out[Parent(out, id)] == Edited(rs, ids, i)
  {
    hide Woven, Dropped, SettledAt, Select, Sites, Edited, SomethingToDo;
    HealIsWoven(rs, ids, now);
    ParentAfter(rs, ids, now, id);
    Layout(rs, ids, now, Parent(rs, id));
  }

  lemma ParentDeclares(rs: seq<Record>, ids: seq<string>, id: string)
    requires IsKept(rs, ids, id)
    ensures HasPayload(Edited(rs, ids, Parent(rs, id)))
  {
    hide Select, Sites, Strip;
    FateFacts(rs, id);
    StripMatches(rs[Parent(rs, id)], Select(rs, ids, Removed), id);
    EditedIsStrip(rs, ids, Parent(rs, id));
  }

  /** A result in place is a surviving record and is not edited. */
  lemma InPlaceStays(rs: seq<Record>, ids: seq<string>, now: int, id: string)
    requires SomethingToDo(rs, ids) && id in ids && FateOf(rs, id) == InPlace && id != ""
    ensures var out, i := Heal(rs, ids, now), Parent(rs, id);
            var q := Pos(rs, ids, now, i) + 1 + |SettledAt(rs, ids, i)|;
            && Sites(rs, StaleResult, id) == [i + 1]
            && q < |out| && out[q] == rs[Sites(rs, StaleResult, id)[0]]
  {
    hide Woven, Dropped, SettledAt, Select, IsSynthetic, Declares, Sites, SomethingToDo;
    HealIsWoven(rs, ids, now);
    var i := Parent(rs, id);
    SingleSite(rs, StaleResult, id, i + 1);
    FateFacts(rs, id);
    DroppedIsResult(rs, ids, i, id);
    DroppedIsResult(rs, ids, i + 1, id);
    Layout(rs, ids, now, i);
    Layout(rs, ids, now, i + 1);
    EditedIsStrip(rs, ids, i + 1);
    InPlaceResult(rs, ids, now, id);
  }

  /** With nothing removed, a record goes through healing unedited. */
  lemma NotEdited(out: seq<Record>, ids: seq<string>, i: nat)
    requires i < |out| && Select(out, ids, Removed) == []
    ensures Edited(out, ids, i) == out[i]
  {
    hide Strip;
    StripNothing(out[i]);
  }

  /** Settling with nothing removed inserts a result behind the parent as it stands. */
  lemma ResettledResult(out: seq<Record>, ids: seq<string>, now: int, id: string) returns (k: nat)
    requires NoDup(ids) && "" !in ids && Select(out, ids, Removed) == []
    requires IsKept(out, ids, id) && FateOf(out, id) == Settled && HasPayload(out[Parent(out, id)])
    ensures ResultOffset(out, ids, id, k)
    ensures var again := Heal(out, ids, now);
            && Sites(again, CallSite, id) != [] && Parent(again, id) + 1 + k < |again|
            && Sites(again, StaleResult, id) == [Parent(again, id) + 1 + k]
            && again[Parent(again, id)] == out[Parent(out, id)]
            && again[Parent(again, id) + 1 + k] == Synth(out[Parent(out, id)], id, now)
  {
    hide Woven, Dropped, SettledAt, Select, IsResult, IsSynthetic, Declares, Sites, Strip, Synth, Edited, Heal, Parent;
    SelectMembers(out, ids, Settled);
    k := KeptHasOneResult(out, ids, now, id);
    InsertedRecord(out, ids, now, id, k);
    NotEdited(out, ids, Parent(out, id));
  }

  /** The record a second healing inserts for a re-settled id is built from the parent the first healing left. */
  lemma SecondResultIs(rs: seq<Record>, ids: seq<string>, now: int, now': int, id: string) returns (k: nat)
    requires Healable(rs, ids) && id in Moved(rs, ids, now)
    ensures IsKept(rs, ids, id) && HasPayload(Edited(rs, ids, Parent(rs, id))) && IsKept(Heal(rs, ids, now), ids, id)
    ensures var out := Heal(rs, ids, now);
            var again := Heal(out, ids, now');
            && ResultOffset(out, ids, id, k)
            && Sites(out, CallSite, id) != [] && Sites(again, CallSite, id) != []
            && Sites(again, StaleResult, id) == [Parent(again, id) + 1 + k] && Parent(again, id) + 1 + k < |again|
            && again[Parent(again, id)] == out[Parent(out, id)]
            && again[Parent(again, id) + 1 + k] == Synth(Edited(rs, ids, Parent(rs, id)), id, now')
  {
    hide Woven, Dropped, SettledAt, Select, IsResult, IsSynthetic, Declares, Sites, Strip, Synth, Edited, ResultOffset;
    hide Heal, Parent, CallsLiveInParts, SomethingToDo, Moved;
    var out := Heal(rs, ids, now);
    MovedIsKept(rs, ids, now, id);
    NothingRemovedTwice(rs, ids, now);
    var _ := FirstResultIs(rs, ids, now, id);
    k := ResettledResult(out, ids, now', id);
  }

  // ----- exactly a permutation ---------------------------------------------------------------------

  lemma {:induction false} ErasedCount(rs: seq<Record>, ids: seq<string>, r: Record)
    ensures multiset(Erased(rs, ids))[r] == if ResultForOneOf(r, ids) then 0 else multiset(rs)[r]
  {
    if rs != [] {
      var last := rs[|rs| - 1];
      ErasedCount(rs[..|rs| - 1], ids, r);
      assert rs == rs[..|rs| - 1] + [last];
    }
  }

  lemma {:induction false} CountOnlyAt(rs: seq<Record>, q: nat, r: Record)
    requires q < |rs| && forall i :: 0 <= i < |rs| && i != q ==> rs[i] != r
    ensures multiset(rs)[r] == if rs[q] == r then 1 else 0
  {
    var front, last := rs[..|rs| - 1], rs[|rs| - 1];
    assert rs == front + [last];
    if q < |front| { CountOnlyAt(front, q, r); } else { NotCounted(front, r); }
  }

  lemma NotCounted(rs: seq<Record>, r: Record)
    requires forall i :: 0 <= i < |rs| ==> rs[i] != r
    ensures multiset(rs)[r] == 0
  {
    assert r !in rs;
  }

  lemma SoleResultCount(rs: seq<Record>, id: string, q: nat, r: Record)
    requires Sites(rs, StaleResult, id) == [q] && Matches(r, StaleResult, id)
    ensures q < |rs| && multiset(rs)[r] == if rs[q] == r then 1 else 0
  {
    hide Sites, IsResult, IsSynthetic;
    SingleSite(rs, StaleResult, id, q);
    CountOnlyAt(rs, q, r);
  }

  /** An id whose result was in place behind a record that other results are now inserted behind. */
  predicate Displaced(rs: seq<Record>, ids: seq<string>, id: string) {
    id in ids && FateOf(rs, id) == InPlace && SettledAt(rs, ids, Parent(rs, id)) != []
  }

  /** The result in place is, to the letter, the one the healer would write now. */
  predicate AsHealedNow(rs: seq<Record>, ids: seq<string>, now: int, id: string)
  {
    && IsKept(rs, ids, id) && HasPayload(Edited(rs, ids, Parent(rs, id)))
    && FirstResult(rs, ids, now, id) == Synth(Edited(rs, ids, Parent(rs, id)), id, now)
  }

  lemma DisplacedIsMoved(rs: seq<Record>, ids: seq<string>, now: int, id: string)
    requires Healable(rs, ids) && id in ids && FateOf(rs, id) == InPlace
    ensures id in Moved(rs, ids, now) <==> Displaced(rs, ids, id)
  {
    hide Healable, Sites;
    MovedIsKept(rs, ids, now, id);
  }

  /** A re-settled id gets back the very record it had, or another one. */
  lemma SameResult(rs: seq<Record>, ids: seq<string>, now: int, id: string, r: Record)
    requires Healable(rs, ids) && id in Moved(rs, ids, now) && Matches(r, StaleResult, id)
    ensures IsKept(rs, ids, id) && HasPayload(Edited(rs, ids, Parent(rs, id)))
    ensures multiset(Heal(rs, ids, now))[r] == if FirstResult(rs, ids, now, id) == r then 1 else 0
    ensures multiset(Heal(Heal(rs, ids, now), ids, now))[r] ==
            if Synth(Edited(rs, ids, Parent(rs, id)), id, now) == r then 1 else 0
  {
    hide Woven, SettledAt, Select, Sites, Heal, ResultOffset, Healable, Synth, Edited, FirstResult, FateOf, Moved;
    var out := Heal(rs, ids, now);
    var k' := SecondResultIs(rs, ids, now, now, id);
    var k := FirstResultIs(rs, ids, now, id);
    SoleResultCount(out, id, Parent(out, id) + 1 + k, r);
    SoleResultCount(Heal(out, ids, now), id, Parent(Heal(out, ids, now), id) + 1 + k', r);
  }

  lemma FirstResultMatches(rs: seq<Record>, ids: seq<string>, now: int, id: string)
    requires Healable(rs, ids) && IsKept(rs, ids, id)
    ensures HasPayload(Edited(rs, ids, Parent(rs, id))) && Matches(FirstResult(rs, ids, now, id), StaleResult, id)
  {
    hide Woven, SettledAt, Select, Sites, Heal, ResultOffset, Healable, Synth, Edited, FirstResult, FateOf, IsResult, IsSynthetic;
    var k := FirstResultIs(rs, ids, now, id);
    SingleSite(Heal(rs, ids, now), StaleResult, id, Parent(Heal(rs, ids, now), id) + 1 + k);
  }

  lemma AllSameIsPermutation(rs: seq<Record>, ids: seq<string>, now: int)
    requires Healable(rs, ids)
    requires forall id :: id in Moved(rs, ids, now) ==> AsHealedNow(rs, ids, now, id)
    ensures multiset(Heal(Heal(rs, ids, now), ids, now)) == multiset(Heal(rs, ids, now))
  {
    hide Sites, Heal, Healable, Synth, Edited, FirstResult, FateOf, Moved, IsResult, IsSynthetic, Erased;
    var out := Heal(rs, ids, now);
    var again, moved := Heal(out, ids, now), Moved(rs, ids, now);
    SecondHealingKeepsTheRest(rs, ids, now, now);
    forall r ensures multiset(again)[r] == multiset(out)[r] {
      ErasedCount(again, moved, r);
      ErasedCount(out, moved, r);
      if ResultForOneOf(r, moved) {
        var id :| id in moved && Matches(r, StaleResult, id);
        SameResult(rs, ids, now, id, r);
      }
    }
  }

  /**
   * With the same ids and the same clock, a second healing permutes the records if and only if every result that was
   * in place, and that it now moves, is to the letter the one the healer would write: otherwise that record is replaced.
   */
  lemma SecondHealingPermutesExactly(rs: seq<Record>, ids: seq<string>, now: int)
    requires Healable(rs, ids)
    ensures multiset(Heal(Heal(rs, ids, now), ids, now)) == multiset(Heal(rs, ids, now)) <==>
            forall id :: id in ids && Displaced(rs, ids, id) ==> AsHealedNow(rs, ids, now, id)
  {
    hide Sites, Heal, Healable, Synth, Edited, FateOf, Moved, IsResult, IsSynthetic, Displaced;
    if forall id :: id in ids && Displaced(rs, ids, id) ==> AsHealedNow(rs, ids, now, id) {
      forall id | id in Moved(rs, ids, now) ensures AsHealedNow(rs, ids, now, id) {
        MovedIsKept(rs, ids, now, id);
        ParentDeclares(rs, ids, id);
        if FateOf(rs, id) == InPlace { DisplacedIsMoved(rs, ids, now, id); }
      }
      AllSameIsPermutation(rs, ids, now);
    } else {
      var id :| id in ids && Displaced(rs, ids, id) && !AsHealedNow(rs, ids, now, id);
      DisplacedIsInPlace(rs, ids, id);
      DisplacedIsMoved(rs, ids, now, id);
      FirstResultMatches(rs, ids, now, id);
      SameResult(rs, ids, now, id, FirstResult(rs, ids, now, id));
    }
  }

  lemma DisplacedIsInPlace(rs: seq<Record>, ids: seq<string>, id: string)
    requires Displaced(rs, ids, id)
    ensures FateOf(rs, id) == InPlace && id in ids
  {
  }

  // ----- a record that is replaced -----------------------------------------------------------------

  const CALLER: Record :=
    Bare(Message(Assistant, Some("m"), [ToolCall("a", None), ToolCall("b", None)], [], None, Raw("")))
  const OLD_RESULT: Record := Bare(Message(ToolResult, Some("heal-1"), [], [], Some("a"), Raw("")))

  lemma CallerAndResult(id: string)
    ensures Declares(CALLER, id) <==> id == "a" || id == "b"
    ensures !IsResult(CALLER, id) && !Declares(OLD_RESULT, id) && (IsResult(OLD_RESULT, id) <==> id == "a")
    ensures IsSynthetic(OLD_RESULT)
  {
    assert CALLER.message.parts[0] == ToolCall("a", None) && CALLER.message.parts[1] == ToolCall("b", None);
    assert "heal-1"[..5] == "heal-";
  }

  lemma OldFates()
    ensures var rs := [CALLER, OLD_RESULT];
            && Sites(rs, CallSite, "a") == [0] && Sites(rs, CallSite, "b") == [0] && Sites(rs, StaleResult, "a") == [1]
            && FateOf(rs, "a") == InPlace && FateOf(rs, "b") == Settled
  {
    hide Sites, Declares, IsResult, IsSynthetic;
    var rs := [CALLER, OLD_RESULT];
    CallerAndResult("a");
    CallerAndResult("b");
    OnlySite(rs, CallSite, "a", 0);
    OnlySite(rs, CallSite, "b", 0);
    OnlySite(rs, StaleResult, "a", 1);
    NoSites(rs, RealResult, "a");
    NoSites(rs, RealResult, "b");
    NoSites(rs, StaleResult, "b");
  }

  /**
   * Two calls in one record, the result of the first in place: healing settles the second in front of it, and
   * healing again replaces the old result by a new record.
   */
  lemma SecondHealingReplaces(now: int)
    ensures var rs, ids := [CALLER, OLD_RESULT], ["a", "b"];
            && Healable(rs, ids) && Displaced(rs, ids, "a") && !AsHealedNow(rs, ids, now, "a")
            && multiset(Heal(Heal(rs, ids, now), ids, now)) != multiset(Heal(rs, ids, now))
  {
    hide Sites, FateOf, Heal, Strip, Select, SettledAt, InCallArray, Edited;
    var rs, ids := [CALLER, OLD_RESULT], ["a", "b"];
    OldFates();
    assert "a" in ids && "b" in ids && "" !in ids;
    SelectMembers(rs, ids, Settled);
    SettledAtMembers(rs, ids, 0);
    SecondHealingPermutesExactly(rs, ids, now);
  }
}
