/**
 * Healing dangling tool calls: every requested id either loses its call and its results, or
 * ends up with one synthetic result right behind the last assistant record that declares it.
 *
 * `Heal` gives the transcript the healer writes; the lemmas say what that transcript looks
 * like, and what healing it again does.
 */
module TranscriptHealing {
  import opened Basics
  import opened Transcript

  datatype Fate = Unresolved | Removed | Settled | InPlace

  const UNKNOWN: string := "<unknown>"
  const INTERRUPTED: string := "[healed: tool execution interrupted, no result recorded]"

  /** The last assistant record declaring the id. */
  function Parent(rs: seq<Record>, id: string): nat
    requires Sites(rs, CallSite, id) != []
    ensures Parent(rs, id) < |rs|
  {
    var sites := Sites(rs, CallSite, id);
    sites[|sites| - 1]
  }

  function FateOf(rs: seq<Record>, id: string): Fate {
    if Sites(rs, CallSite, id) == [] then Unresolved
    else if Sites(rs, RealResult, id) != [] then Removed
    else if Sites(rs, StaleResult, id) == [Parent(rs, id) + 1] then InPlace
    else Settled
  }

  function Select(rs: seq<Record>, ids: seq<string>, fate: Fate): seq<string> {
    if ids == [] then []
    else Select(rs, ids[..|ids| - 1], fate) + (if FateOf(rs, ids[|ids| - 1]) == fate then [ids[|ids| - 1]] else [])
  }

  /** The settled ids whose results go behind record i. */
  function SettledAt(rs: seq<Record>, ids: seq<string>, i: nat): seq<string> {
    if ids == [] then []
    else
      var id := ids[|ids| - 1];
      SettledAt(rs, ids[..|ids| - 1], i)
      + (if FateOf(rs, id) == Settled && Parent(rs, id) == i then [id] else [])
  }

  // ----- the records written -----------------------------------------------------------

  function CallNote(p: Part): Part
    requires p.ToolCall?
  {
    Text("[healed: removed orphan tool call " + (if p.name.Some? then p.name.value else UNKNOWN) + " (id=" + p.id + ")]")
  }

  function StripPart(p: Part, ids: seq<string>): Part {
    if p.ToolCall? && p.id in ids then CallNote(p) else p
  }

  /** Call parts with one of the ids become notes. */
  function StripParts(parts: seq<Part>, ids: seq<string>): (r: seq<Part>)
    ensures |r| == |parts|
  {
    if parts == [] then []
    else StripParts(parts[..|parts| - 1], ids) + [StripPart(parts[|parts| - 1], ids)]
  }

  lemma {:induction false} StripPartsAt(parts: seq<Part>, ids: seq<string>)
    ensures forall k :: 0 <= k < |parts| ==> StripParts(parts, ids)[k] == StripPart(parts[k], ids)
  {
    if parts != [] { StripPartsAt(parts[..|parts| - 1], ids); }
  }

  function Strip(r: Record, ids: seq<string>): Record {
    if HasPayload(r) && r.message.role == Assistant then
      ReplacePayload(r, r.message.(parts := StripParts(r.message.parts, ids)))
    else r
  }

  function PartName(parts: seq<Part>, id: string): Option<string> {
    if parts == [] then None
    else if parts[0].ToolCall? && parts[0].id == id && parts[0].name.Some? then parts[0].name
    else PartName(parts[1..], id)
  }

  function CallName(calls: seq<Call>, id: string): Option<string> {
    if calls == [] then None
    else if calls[0].id == id && calls[0].name.Some? then calls[0].name
    else CallName(calls[1..], id)
  }

  function ToolName(m: Message, id: string): string {
    var fromPart, fromCall := PartName(m.parts, id), CallName(m.calls, id);
    if fromPart.Some? then fromPart.value else if fromCall.Some? then fromCall.value else UNKNOWN
  }

  /** The synthetic result for an id, given the record it is inserted behind. */
  function Synth(parent: Record, id: string, now: int): Record
    requires HasPayload(parent)
  {
    var m := parent.message;
    var parentId := if m.id.Some? then m.id.value else "synth-parent";
    Bare(Message(ToolResult, Some(parentId + HEAL_MARK + id), [Text(INTERRUPTED)], [], Some(id),
                 Healed(ToolName(m, id), now)))
  }

  function Dropped(rs: seq<Record>, ids: seq<string>, i: nat): bool
    requires i < |rs|
  {
    exists id <- ids :: || (FateOf(rs, id) == Removed && Matches(rs[i], RealResult, id))
                        || (FateOf(rs, id) == Settled && Matches(rs[i], StaleResult, id))
  }

  /** Record i with the calls of removed ids stripped. */
  function Edited(rs: seq<Record>, ids: seq<string>, i: nat): Record
    requires i < |rs|
  {
    Strip(rs[i], Select(rs, ids, Removed))
  }

  /** The synthetic results for a list of ids, behind one record. */
  function SynthAll(parent: Record, here: seq<string>, now: int): (b: seq<Record>)
    ensures |b| == |here|
    ensures HasPayload(parent) ==> forall k :: 0 <= k < |here| ==> b[k] == Synth(parent, here[k], now)
  {
    if here == [] then []
    else
      SynthAll(parent, here[..|here| - 1], now)
      + [if HasPayload(parent) then Synth(parent, here[|here| - 1], now) else parent]
  }

  /** The results inserted behind record i. */
  function Block(rs: seq<Record>, ids: seq<string>, now: int, i: nat): (b: seq<Record>)
    requires i < |rs|
    ensures |b| == |SettledAt(rs, ids, i)|
  {
    SynthAll(Edited(rs, ids, i), SettledAt(rs, ids, i), now)
  }

  function Replacement(rs: seq<Record>, ids: seq<string>, now: int, i: nat): seq<Record>
    requires i < |rs|
  {
    if Dropped(rs, ids, i) then [] else [Edited(rs, ids, i)] + Block(rs, ids, now, i)
  }

  /** What the first k records turn into. */
  function Woven(rs: seq<Record>, ids: seq<string>, now: int, k: nat): seq<Record>
    requires k <= |rs|
  {
    if k == 0 then [] else Woven(rs, ids, now, k - 1) + Replacement(rs, ids, now, k - 1)
  }

  /** The transcript after healing; unchanged when there is nothing to remove or settle. */
  function Heal(rs: seq<Record>, ids: seq<string>, now: int): seq<Record> {
    if Select(rs, ids, Removed) == [] && Select(rs, ids, Settled) == [] then rs else Woven(rs, ids, now, |rs|)
  }

  /** Where record i ends up, or would if it is dropped. */
  function Pos(rs: seq<Record>, ids: seq<string>, now: int, i: nat): nat
    requires i <= |rs|
  {
    |Woven(rs, ids, now, i)|
  }

  // ----- facts about fates -----------------------------------------------------------------

  lemma {:induction false} SelectMembers(rs: seq<Record>, ids: seq<string>, fate: Fate)
    ensures forall id :: id in Select(rs, ids, fate) <==> id in ids && FateOf(rs, id) == fate
  {
    if ids != [] {
      SelectMembers(rs, ids[..|ids| - 1], fate);
      assert ids == ids[..|ids| - 1] + [ids[|ids| - 1]];
    }
  }

  lemma {:induction false} NoneSelected(rs: seq<Record>, ids: seq<string>, fate: Fate)
    requires forall id :: id in ids ==> FateOf(rs, id) != fate
    ensures Select(rs, ids, fate) == []
  {
    if ids != [] { NoneSelected(rs, ids[..|ids| - 1], fate); }
  }

  lemma {:induction false} SettledAtMembers(rs: seq<Record>, ids: seq<string>, i: nat)
    ensures forall id :: id in SettledAt(rs, ids, i) <==>
              id in ids && FateOf(rs, id) == Settled && Parent(rs, id) == i
    ensures NoDup(ids) ==> NoDup(SettledAt(rs, ids, i))
  {
    if ids != [] {
      SettledAtMembers(rs, ids[..|ids| - 1], i);
      assert ids == ids[..|ids| - 1] + [ids[|ids| - 1]];
    }
  }

  lemma FateFacts(rs: seq<Record>, id: string)
    ensures FateOf(rs, id) == Unresolved <==> forall i :: 0 <= i < |rs| ==> !Declares(rs[i], id)
    ensures FateOf(rs, id) == Removed ==> exists i :: 0 <= i < |rs| && Matches(rs[i], RealResult, id)
    ensures FateOf(rs, id) in {Settled, InPlace} ==> forall i :: 0 <= i < |rs| ==> !Matches(rs[i], RealResult, id)
    ensures FateOf(rs, id) != Unresolved ==>
              Declares(rs[Parent(rs, id)], id) && forall i :: Parent(rs, id) < i < |rs| ==> !Declares(rs[i], id)
  {
    hide Declares;
    NoSites(rs, CallSite, id);
    NoSites(rs, RealResult, id);
    if FateOf(rs, id) != Unresolved { LastSiteMatches(rs, CallSite, id); }
  }

  // ----- the layout of the healed transcript -----------------------------------------------

  /** Pieces of the woven transcript stay where they are as more is woven. */
  lemma {:induction false} WovenPrefix(rs: seq<Record>, ids: seq<string>, now: int, i: nat, k: nat)
    requires i <= k <= |rs|
    ensures Pos(rs, ids, now, i) <= Pos(rs, ids, now, k)
    ensures Woven(rs, ids, now, k)[..Pos(rs, ids, now, i)] == Woven(rs, ids, now, i)
  {
    hide Replacement;
    if i < k { WovenPrefix(rs, ids, now, i, k - 1); }
  }

  lemma WovenStep(rs: seq<Record>, ids: seq<string>, now: int, i: nat)
    requires i < |rs|
    ensures Woven(rs, ids, now, i + 1) == Woven(rs, ids, now, i) + Replacement(rs, ids, now, i)
  {
  }

  /**
   * Record i, unless dropped, sits at Pos(i), followed by its block and then by Pos(i+1): records keep their
   * content (up to stripped calls) and order, and nothing else is in between.
   */
  lemma Layout(rs: seq<Record>, ids: seq<string>, now: int, i: nat)
    requires i < |rs|
    ensures var w, a, b := Woven(rs, ids, now, |rs|), Pos(rs, ids, now, i), Pos(rs, ids, now, i + 1);
            && a <= b <= |w|
            && (Dropped(rs, ids, i) ==> a == b)
            && (!Dropped(rs, ids, i) ==>
                  b == a + 1 + |SettledAt(rs, ids, i)| && w[a] == Edited(rs, ids, i) && w[a + 1..b] == Block(rs, ids, now, i))
  {
    hide Woven, Dropped, Edited, Block, SettledAt;
    var w, a, b := Woven(rs, ids, now, |rs|), Pos(rs, ids, now, i), Pos(rs, ids, now, i + 1);
    WovenPrefix(rs, ids, now, i, |rs|);
    WovenPrefix(rs, ids, now, i + 1, |rs|);
    WovenStep(rs, ids, now, i);
    assert w[a..b] == Replacement(rs, ids, now, i);
    if !Dropped(rs, ids, i) {
      assert w[a] == w[a..b][0];
      assert w[a + 1..b] == w[a..b][1..];
    }
  }

  /** Every record of the healed transcript is an edited old one or stands in the block behind one. */
  lemma {:induction false} Origin(rs: seq<Record>, ids: seq<string>, now: int, j: nat, k: nat) returns (i: nat)
    requires k <= |rs| && j < Pos(rs, ids, now, k)
    ensures i < k && Pos(rs, ids, now, i) <= j < Pos(rs, ids, now, i + 1)
  {
    hide Replacement;
    if Pos(rs, ids, now, k - 1) <= j {
      i := k - 1;
    } else {
      i := Origin(rs, ids, now, j, k - 1);
    }
  }

  predicate SomethingToDo(rs: seq<Record>, ids: seq<string>) {
    Select(rs, ids, Removed) != [] || Select(rs, ids, Settled) != []
  }

  // ----- what a record of the healed transcript matches --------------------------------------

  lemma StripMatches(r: Record, ids: seq<string>, id: string)
    ensures IsResult(Strip(r, ids), id) == IsResult(r, id) && IsSynthetic(Strip(r, ids)) == IsSynthetic(r)
    ensures Declares(Strip(r, ids), id) <==>
              Declares(r, id) && (id in ids ==> HasCall(r.message.calls, id))
    ensures HasPayload(Strip(r, ids)) == HasPayload(r)
  {
    if HasPayload(r) && r.message.role == Assistant {
      var parts := r.message.parts;
      var parts' := StripParts(parts, ids);
      StripPartsAt(parts, ids);
      assert HasCallPart(parts', id) <==> HasCallPart(parts, id) && id !in ids by {
        if HasCallPart(parts, id) && id !in ids {
          var k :| 0 <= k < |parts| && parts[k].ToolCall? && parts[k].id == id;
          assert parts'[k] == parts[k];
        }
      }
    }
  }

  lemma SynthMatches(parent: Record, callId: string, now: int, id: string)
    requires HasPayload(parent)
    ensures var r := Synth(parent, callId, now);
            && !Declares(r, id) && !Matches(r, RealResult, id)
            && (Matches(r, StaleResult, id) <==> id == callId && id != "")
  {
    var m := parent.message;
    var parentId := if m.id.Some? then m.id.value else "synth-parent";
    var all := parentId + HEAL_MARK + callId;
    assert OccursAt(all, HEAL_MARK, |parentId|);
  }

  /** Where a record of the woven transcript comes from. */
  datatype Place = Kept(i: nat) | Inserted(i: nat, k: nat)

  predicate PlacedAt(rs: seq<Record>, ids: seq<string>, now: int, j: nat, place: Place) {
    && j < Pos(rs, ids, now, |rs|) && place.i < |rs| && !Dropped(rs, ids, place.i)
    && match place
       case Kept(i) => j == Pos(rs, ids, now, i) && Woven(rs, ids, now, |rs|)[j] == Edited(rs, ids, i)
       case Inserted(i, k) =>
         && k < |SettledAt(rs, ids, i)| && j == Pos(rs, ids, now, i) + 1 + k && HasPayload(Edited(rs, ids, i))
         && Woven(rs, ids, now, |rs|)[j] == Synth(Edited(rs, ids, i), SettledAt(rs, ids, i)[k], now)
  }

  lemma ParentHasPayload(rs: seq<Record>, ids: seq<string>, i: nat)
    requires i < |rs| && SettledAt(rs, ids, i) != []
    ensures HasPayload(Edited(rs, ids, i)) && rs[i].message.role == Assistant
  {
    SettledAtMembers(rs, ids, i);
    var id := SettledAt(rs, ids, i)[0];
    FateFacts(rs, id);
    StripMatches(rs[i], Select(rs, ids, Removed), id);
  }

  lemma PlaceOf(rs: seq<Record>, ids: seq<string>, now: int, j: nat) returns (place: Place)
    requires j < Pos(rs, ids, now, |rs|)
    ensures PlacedAt(rs, ids, now, j, place)
  {
    hide Woven, Dropped, Edited, SettledAt;
    var i := Origin(rs, ids, now, j, |rs|);
    Layout(rs, ids, now, i);
    var a := Pos(rs, ids, now, i);
    if j == a {
      place := Kept(i);
    } else {
      var k := j - a - 1;
      place := Inserted(i, k);
      ParentHasPayload(rs, ids, i);
      assert Woven(rs, ids, now, |rs|)[a + 1..Pos(rs, ids, now, i + 1)][k] == Block(rs, ids, now, i)[k];
    }
  }

  lemma PlaceMatches(rs: seq<Record>, ids: seq<string>, now: int, j: nat, place: Place, kind: Kind, id: string)
    requires PlacedAt(rs, ids, now, j, place)
    ensures var r := Woven(rs, ids, now, |rs|)[j];
            match place
            case Kept(i) =>
              && (kind != CallSite ==> (Matches(r, kind, id) <==> Matches(rs[i], kind, id)))
              && (kind == CallSite ==> (Matches(r, kind, id) <==>
                    Declares(rs[i], id) && (id in Select(rs, ids, Removed) ==> HasCall(rs[i].message.calls, id))))
            case Inserted(i, k) => Matches(r, kind, id) <==> kind == StaleResult && id == SettledAt(rs, ids, i)[k] && id != ""
  {
    hide Woven, Dropped, SettledAt, Strip, Synth, Declares, IsResult, IsSynthetic, Select;
    match place
    case Kept(i) => StripMatches(rs[i], Select(rs, ids, Removed), id);
    case Inserted(i, k) => SynthMatches(Edited(rs, ids, i), SettledAt(rs, ids, i)[k], now, id);
  }

  // ----- removed ids are gone --------------------------------------------------------------

  lemma DroppedIsResult(rs: seq<Record>, ids: seq<string>, i: nat, id: string)
    requires i < |rs|
    ensures Dropped(rs, ids, i) ==> !Declares(rs[i], id)
    ensures IsResult(rs[i], id) ==>
              (Dropped(rs, ids, i) <==> id in ids && (if IsSynthetic(rs[i]) then FateOf(rs, id) == Settled
                                                      else FateOf(rs, id) == Removed))
  {
    hide FateOf, IsSynthetic;
    if IsResult(rs[i], id) && id in ids && IsSynthetic(rs[i]) && FateOf(rs, id) == Settled {
      assert Matches(rs[i], StaleResult, id);
    }
    if IsResult(rs[i], id) && id in ids && !IsSynthetic(rs[i]) && FateOf(rs, id) == Removed {
      assert Matches(rs[i], RealResult, id);
    }
  }
}
