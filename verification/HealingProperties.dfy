/**
 * What healing achieves: removed ids are gone, kept ids have exactly one result in the right
 * place, nothing else changes, and what a second healing does.
 */
module HealingProperties {
  import opened Basics
  import opened Transcript
  import opened TranscriptHealing

  /** Found on disk with no real result: the ids that keep their call. */
  predicate IsKept(rs: seq<Record>, ids: seq<string>, id: string) {
    id in ids && (FateOf(rs, id) == Settled || FateOf(rs, id) == InPlace)
  }

  lemma HealIsWoven(rs: seq<Record>, ids: seq<string>, now: int)
    requires SomethingToDo(rs, ids)
    ensures Heal(rs, ids, now) == Woven(rs, ids, now, |rs|) && |Heal(rs, ids, now)| == Pos(rs, ids, now, |rs|)
  {
  }

  // ----- removed ids --------------------------------------------------------------------------

  /** An assistant record that lists the id in a call array, which the healer does not touch. */
  predicate InCallArray(r: Record, id: string) {
    HasPayload(r) && r.message.role == Assistant && HasCall(r.message.calls, id)
  }

  lemma {:induction false} CallSitesOfRemoved(rs: seq<Record>, ids: seq<string>, now: int, id: string, i: nat)
    requires i < |rs| && id in Select(rs, ids, Removed) && InCallArray(rs[i], id)
    ensures Pos(rs, ids, now, i) < Pos(rs, ids, now, |rs|)
    ensures Declares(Woven(rs, ids, now, |rs|)[Pos(rs, ids, now, i)], id)
  {
    hide Woven, Dropped, SettledAt, FateOf, Select, Strip;
    DroppedIsResult(rs, ids, i, id);
    Layout(rs, ids, now, i);
    WovenPrefix(rs, ids, now, i + 1, |rs|);
    StripMatches(rs[i], Select(rs, ids, Removed), id);
  }

  /**
   * A removed id has no real result left and no call part; it is gone altogether exactly when no call array lists
   * it and no stale synthetic result for it was there.
   */
  lemma RemovedIsGone(rs: seq<Record>, ids: seq<string>, now: int, id: string)
    requires id in ids && FateOf(rs, id) == Removed
    ensures Sites(Heal(rs, ids, now), RealResult, id) == []
    ensures Sites(Heal(rs, ids, now), CallSite, id) == [] <==> forall i :: 0 <= i < |rs| ==> !InCallArray(rs[i], id)
    ensures Sites(Heal(rs, ids, now), StaleResult, id) == [] <==> Sites(rs, StaleResult, id) == []
  {
    hide Woven, Dropped, SettledAt, FateOf, Select, PlacedAt, Declares, IsResult, IsSynthetic, Sites;
    SelectMembers(rs, ids, Removed);
    HealIsWoven(rs, ids, now);
    var out := Heal(rs, ids, now);
    forall j | 0 <= j < |out| ensures !Matches(out[j], RealResult, id) {
      RemovedAt(rs, ids, now, id, j);
    }
    NoSites(out, RealResult, id);
    NoSites(out, CallSite, id);
    NoSites(out, StaleResult, id);
    NoSites(rs, StaleResult, id);
    if exists i :: 0 <= i < |rs| && InCallArray(rs[i], id) {
      var i :| 0 <= i < |rs| && InCallArray(rs[i], id);
      CallSitesOfRemoved(rs, ids, now, id, i);
    } else {
      forall j | 0 <= j < |out| ensures !Matches(out[j], CallSite, id) {
        RemovedAt(rs, ids, now, id, j);
      }
    }
    if Sites(rs, StaleResult, id) == [] {
      forall j | 0 <= j < |out| ensures !Matches(out[j], StaleResult, id) {
        RemovedAt(rs, ids, now, id, j);
      }
    } else {
      var i :| 0 <= i < |rs| && Matches(rs[i], StaleResult, id);
      StaleOfRemovedStays(rs, ids, now, id, i);
    }
  }

  lemma StaleOfRemovedStays(rs: seq<Record>, ids: seq<string>, now: int, id: string, i: nat)
    requires id in ids && FateOf(rs, id) == Removed
    requires i < |rs| && Matches(rs[i], StaleResult, id)
    ensures Pos(rs, ids, now, i) < Pos(rs, ids, now, |rs|)
    ensures Matches(Woven(rs, ids, now, |rs|)[Pos(rs, ids, now, i)], StaleResult, id)
  {
    hide Woven, Dropped, SettledAt, FateOf, Select, Strip;
    DroppedIsResult(rs, ids, i, id);
    Layout(rs, ids, now, i);
    WovenPrefix(rs, ids, now, i + 1, |rs|);
    StripMatches(rs[i], Select(rs, ids, Removed), id);
  }

  /** One record of the healed transcript, seen from a removed id. */
  lemma RemovedAt(rs: seq<Record>, ids: seq<string>, now: int, id: string, j: nat)
    requires id in ids && FateOf(rs, id) == Removed && j < Pos(rs, ids, now, |rs|)
    ensures var r := Woven(rs, ids, now, |rs|)[j];
            && !Matches(r, RealResult, id)
            && (Matches(r, CallSite, id) ==> exists i :: 0 <= i < |rs| && InCallArray(rs[i], id))
            && (Matches(r, StaleResult, id) ==> exists i :: 0 <= i < |rs| && Matches(rs[i], StaleResult, id))
  {
    hide Woven, Dropped, SettledAt, FateOf, Select, IsResult, IsSynthetic;
    SelectMembers(rs, ids, Removed);
    var place := PlaceOf(rs, ids, now, j);
    PlaceMatches(rs, ids, now, j, place, CallSite, id);
    PlaceMatches(rs, ids, now, j, place, RealResult, id);
    PlaceMatches(rs, ids, now, j, place, StaleResult, id);
    SettledAtMembers(rs, ids, place.i);
    DroppedIsResult(rs, ids, place.i, id);
  }

  // ----- kept ids ---------------------------------------------------------------------------

  /** One record of the healed transcript, seen from an id that keeps its call or was never found. */
  lemma OtherAt(rs: seq<Record>, ids: seq<string>, now: int, id: string, j: nat) returns (place: Place)
    requires FateOf(rs, id) != Removed && j < Pos(rs, ids, now, |rs|)
    ensures PlacedAt(rs, ids, now, j, place)
    ensures var r := Woven(rs, ids, now, |rs|)[j];
            match place
            case Kept(i) =>
              && (Declares(r, id) <==> Declares(rs[i], id))
              && (Matches(r, RealResult, id) <==> Matches(rs[i], RealResult, id))
              && (Matches(r, StaleResult, id) <==> Matches(rs[i], StaleResult, id))
              && (id in ids && FateOf(rs, id) == Settled ==> !Matches(rs[i], StaleResult, id))
            case Inserted(i, k) =>
              && !Declares(r, id) && !Matches(r, RealResult, id)
              && (Matches(r, StaleResult, id) <==> id == SettledAt(rs, ids, i)[k] && id != "")
  {
    hide Woven, Dropped, SettledAt, FateOf, Select, IsResult, IsSynthetic, Declares;
    SelectMembers(rs, ids, Removed);
    place := PlaceOf(rs, ids, now, j);
    PlaceMatches(rs, ids, now, j, place, CallSite, id);
    PlaceMatches(rs, ids, now, j, place, RealResult, id);
    PlaceMatches(rs, ids, now, j, place, StaleResult, id);
    DroppedIsResult(rs, ids, place.i, id);
  }

  /** The declaring record survives, and no later record of the healed transcript declares the id. */
  lemma ParentAfter(rs: seq<Record>, ids: seq<string>, now: int, id: string)
    requires SomethingToDo(rs, ids) && IsKept(rs, ids, id)
    ensures var out, i := Heal(rs, ids, now), Parent(rs, id);
            && Sites(out, CallSite, id) != [] && Parent(out, id) == Pos(rs, ids, now, i)
            && !Dropped(rs, ids, i) && Pos(rs, ids, now, i) < |out|
  {
    hide Woven, Dropped, SettledAt, Select, IsResult, IsSynthetic, Declares, Sites, Edited, Strip;
    HealIsWoven(rs, ids, now);
    FateFacts(rs, id);
    SelectMembers(rs, ids, Removed);
    var out, i := Heal(rs, ids, now), Parent(rs, id);
    var p := Pos(rs, ids, now, i);
    DroppedIsResult(rs, ids, i, id);
    Layout(rs, ids, now, i);
    StripMatches(rs[i], Select(rs, ids, Removed), id);
    EditedIsStrip(rs, ids, i);
    assert out[p] == Strip(rs[i], Select(rs, ids, Removed));
    forall j | p < j < |out| ensures !Matches(out[j], CallSite, id) {
      var place := OtherAt(rs, ids, now, id, j);
      if place.Kept? && place.i < i { WovenPrefix(rs, ids, now, place.i, i); }
    }
    LastSite(out, CallSite, id, p);
  }

  lemma EditedIsStrip(rs: seq<Record>, ids: seq<string>, i: nat)
    requires i < |rs|
    ensures Edited(rs, ids, i) == Strip(rs[i], Select(rs, ids, Removed))
  {
  }

  /** The offset of a kept id's result behind its parent. */
  predicate ResultOffset(rs: seq<Record>, ids: seq<string>, id: string, k: nat)
    requires IsKept(rs, ids, id)
  {
    var here := SettledAt(rs, ids, Parent(rs, id));
    if FateOf(rs, id) == Settled then k < |here| && here[k] == id else k == |here|
  }

  /**
   * A kept id ends up with exactly one result: a synthetic one, k+1 records behind the last record declaring it,
   * where k counts the results inserted before it behind that same record.
   */
  lemma KeptHasOneResult(rs: seq<Record>, ids: seq<string>, now: int, id: string) returns (k: nat)
    requires SomethingToDo(rs, ids) && NoDup(ids) && IsKept(rs, ids, id) && id != ""
    ensures ResultOffset(rs, ids, id, k)
    ensures var out := Heal(rs, ids, now);
            && Sites(out, CallSite, id) != []
            && Sites(out, RealResult, id) == []
            && Sites(out, StaleResult, id) == [Parent(out, id) + 1 + k]
  {
    hide Woven, Dropped, SettledAt, Select, IsResult, IsSynthetic, Declares, Sites;
    HealIsWoven(rs, ids, now);
    ParentAfter(rs, ids, now, id);
    FateFacts(rs, id);
    var out, i := Heal(rs, ids, now), Parent(rs, id);
    var p := Pos(rs, ids, now, i);
    SettledAtMembers(rs, ids, i);
    forall j | 0 <= j < |out| ensures !Matches(out[j], RealResult, id) {
      var place := OtherAt(rs, ids, now, id, j);
    }
    NoSites(out, RealResult, id);
    var here := SettledAt(rs, ids, i);
    if FateOf(rs, id) == Settled {
      k :| 0 <= k < |here| && here[k] == id;
      SettledResult(rs, ids, now, id, k);
    } else {
      k := |here|;
      InPlaceResult(rs, ids, now, id);
    }
  }

  lemma SettledResult(rs: seq<Record>, ids: seq<string>, now: int, id: string, k: nat)
    requires SomethingToDo(rs, ids) && NoDup(ids) && id in ids && FateOf(rs, id) == Settled && id != ""
    requires k < |SettledAt(rs, ids, Parent(rs, id))| && SettledAt(rs, ids, Parent(rs, id))[k] == id
    ensures Sites(Heal(rs, ids, now), StaleResult, id) == [Pos(rs, ids, now, Parent(rs, id)) + 1 + k]
  {
    hide Woven, Dropped, SettledAt, Select, IsResult, IsSynthetic, Declares, Sites;
    HealIsWoven(rs, ids, now);
    FateFacts(rs, id);
    var out, i := Heal(rs, ids, now), Parent(rs, id);
    var p := Pos(rs, ids, now, i);
    var q := p + 1 + k;
    DroppedIsResult(rs, ids, i, id);
    Layout(rs, ids, now, i);
    SettledAtMembers(rs, ids, i);
    forall j | 0 <= j < |out| ensures Matches(out[j], StaleResult, id) <==> j == q {
      var place := OtherAt(rs, ids, now, id, j);
      SettledAtMembers(rs, ids, place.i);
      if j == q {
        SamePlace(rs, ids, now, j, place, Inserted(i, k));
      }
    }
    OnlySite(out, StaleResult, id, q);
  }

  /** Positions determine places. */
  lemma SamePlace(rs: seq<Record>, ids: seq<string>, now: int, j: nat, place: Place, other: Place)
    requires PlacedAt(rs, ids, now, j, place)
    requires other.i < |rs| && !Dropped(rs, ids, other.i)
    requires other.Kept? ==> j == Pos(rs, ids, now, other.i)
    requires other.Inserted? ==> other.k < |SettledAt(rs, ids, other.i)| && j == Pos(rs, ids, now, other.i) + 1 + other.k
    ensures place == other
  {
    hide Woven, Dropped, SettledAt, Edited, Synth;
    Layout(rs, ids, now, place.i);
    Layout(rs, ids, now, other.i);
    if place.i < other.i { WovenPrefix(rs, ids, now, place.i + 1, other.i); }
    if other.i < place.i { WovenPrefix(rs, ids, now, other.i + 1, place.i); }
  }

  lemma InPlaceResult(rs: seq<Record>, ids: seq<string>, now: int, id: string)
    requires SomethingToDo(rs, ids) && id in ids && FateOf(rs, id) == InPlace && id != ""
    ensures var i := Parent(rs, id);
            Sites(Heal(rs, ids, now), StaleResult, id) == [Pos(rs, ids, now, i) + 1 + |SettledAt(rs, ids, i)|]
  {
    hide Woven, Dropped, SettledAt, Select, IsResult, IsSynthetic, Declares, Sites;
    HealIsWoven(rs, ids, now);
    var out, i := Heal(rs, ids, now), Parent(rs, id);
    SingleSite(rs, StaleResult, id, i + 1);
    FateFacts(rs, id);
    DroppedIsResult(rs, ids, i, id);
    DroppedIsResult(rs, ids, i + 1, id);
    assert IsResult(rs[i + 1], id);
    Layout(rs, ids, now, i);
    Layout(rs, ids, now, i + 1);
    var q := Pos(rs, ids, now, i + 1);
    forall j | 0 <= j < |out| ensures Matches(out[j], StaleResult, id) <==> j == q {
      var place := OtherAt(rs, ids, now, id, j);
      SettledAtMembers(rs, ids, place.i);
      if j == q {
        SamePlace(rs, ids, now, j, place, Kept(i + 1));
      }
    }
    OnlySite(out, StaleResult, id, q);
  }

  /** Everything between the declaring record and a kept id's result is a synthetic result for an id with that parent. */
  lemma BlockIsContiguous(rs: seq<Record>, ids: seq<string>, now: int, id: string, k: nat, j: nat) returns (other: string)
    requires SomethingToDo(rs, ids) && NoDup(ids) && "" !in ids && IsKept(rs, ids, id) && ResultOffset(rs, ids, id, k)
    requires j <= k
    ensures var out := Heal(rs, ids, now);
            && Sites(out, CallSite, id) != [] && Parent(out, id) + 1 + j < |out|
            && IsKept(rs, ids, other) && Parent(rs, other) == Parent(rs, id)
            && Matches(out[Parent(out, id) + 1 + j], StaleResult, other)
  {
    hide Woven, Dropped, SettledAt, Select, IsResult, IsSynthetic, Declares, Sites;
    HealIsWoven(rs, ids, now);
    ParentAfter(rs, ids, now, id);
    var i := Parent(rs, id);
    var here := SettledAt(rs, ids, i);
    SettledAtMembers(rs, ids, i);
    other := if j < |here| then here[j] else id;
    var q := KeptHasOneResult(rs, ids, now, other);
    ParentAfter(rs, ids, now, other);
    SingleSite(Heal(rs, ids, now), StaleResult, other, Parent(Heal(rs, ids, now), other) + 1 + q);
    OffsetIsUnique(rs, ids, other, q, j);
  }

  lemma OffsetIsUnique(rs: seq<Record>, ids: seq<string>, id: string, k: nat, j: nat)
    requires NoDup(ids) && IsKept(rs, ids, id) && ResultOffset(rs, ids, id, k) && ResultOffset(rs, ids, id, j)
    ensures k == j
  {
    hide SettledAt, Sites;
    SettledAtMembers(rs, ids, Parent(rs, id));
  }

  // ----- counting ----------------------------------------------------------------------------

  function DroppedBelow(rs: seq<Record>, ids: seq<string>, k: nat): nat
    requires k <= |rs|
  {
    if k == 0 then 0 else DroppedBelow(rs, ids, k - 1) + (if Dropped(rs, ids, k - 1) then 1 else 0)
  }

  /** The settled ids whose parent is among the first k records. */
  function SettledBelow(rs: seq<Record>, ids: seq<string>, k: nat): seq<string> {
    if ids == [] then []
    else
      var id := ids[|ids| - 1];
      SettledBelow(rs, ids[..|ids| - 1], k) + (if FateOf(rs, id) == Settled && Parent(rs, id) < k then [id] else [])
  }

  lemma {:induction false} SettledBelowSteps(rs: seq<Record>, ids: seq<string>, k: nat)
    ensures SettledBelow(rs, ids, 0) == []
    ensures |SettledBelow(rs, ids, k + 1)| == |SettledBelow(rs, ids, k)| + |SettledAt(rs, ids, k)|
    ensures SettledBelow(rs, ids, |rs|) == Select(rs, ids, Settled)
  {
    if ids != [] { SettledBelowSteps(rs, ids[..|ids| - 1], k); }
  }

  lemma ParentIsNotDropped(rs: seq<Record>, ids: seq<string>, i: nat)
    requires i < |rs|
    ensures Dropped(rs, ids, i) ==> SettledAt(rs, ids, i) == []
  {
    hide Dropped, FateOf, SettledAt;
    if SettledAt(rs, ids, i) != [] {
      SettledAtMembers(rs, ids, i);
      var id := SettledAt(rs, ids, i)[0];
      FateFacts(rs, id);
      DroppedIsResult(rs, ids, i, id);
    }
  }

  lemma ReplacementLength(rs: seq<Record>, ids: seq<string>, now: int, i: nat)
    requires i < |rs|
    ensures |Replacement(rs, ids, now, i)| == if Dropped(rs, ids, i) then 0 else 1 + |SettledAt(rs, ids, i)|
  {
    hide Dropped, SettledAt, SynthAll;
  }

  lemma {:induction false} WovenLength(rs: seq<Record>, ids: seq<string>, now: int, k: nat)
    requires k <= |rs|
    ensures Pos(rs, ids, now, k) + DroppedBelow(rs, ids, k) == k + |SettledBelow(rs, ids, k)|
  {
    hide Dropped, SettledAt, SettledBelow, Replacement;
    SettledBelowSteps(rs, ids, if k == 0 then 0 else k - 1);
    if k > 0 {
      WovenLength(rs, ids, now, k - 1);
      ReplacementLength(rs, ids, now, k - 1);
      ParentIsNotDropped(rs, ids, k - 1);
    }
  }

  /** The new length is the old one, less the records removed, plus one for each settled id. */
  lemma HealLength(rs: seq<Record>, ids: seq<string>, now: int)
    requires SomethingToDo(rs, ids)
    ensures |Heal(rs, ids, now)| == |rs| - DroppedBelow(rs, ids, |rs|) + |Select(rs, ids, Settled)|
  {
    hide Dropped, SettledAt, SettledBelow, Woven;
    HealIsWoven(rs, ids, now);
    WovenLength(rs, ids, now, |rs|);
    SettledBelowSteps(rs, ids, |rs|);
  }

  // ----- healing again -------------------------------------------------------------------------

  /** No removed id is listed in a call array, where the healer would leave it behind. */
  predicate CallsLiveInParts(rs: seq<Record>, ids: seq<string>) {
    forall id, i :: id in ids && 0 <= i < |rs| && FateOf(rs, id) == Removed ==> !InCallArray(rs[i], id)
  }

  /** What a second healing makes of each id. */
  lemma FateAfter(rs: seq<Record>, ids: seq<string>, now: int, id: string)
    requires SomethingToDo(rs, ids) && NoDup(ids) && CallsLiveInParts(rs, ids)
    requires id in ids && id != ""
    ensures var fate := FateOf(Heal(rs, ids, now), id);
            if IsKept(rs, ids, id) then fate == if ResultOffset(rs, ids, id, 0) then InPlace else Settled
            else fate == Unresolved
  {
    hide Woven, Dropped, SettledAt, Select, IsResult, IsSynthetic, Declares, Sites;
    HealIsWoven(rs, ids, now);
    var out := Heal(rs, ids, now);
    if IsKept(rs, ids, id) {
      var k := KeptHasOneResult(rs, ids, now, id);
      if ResultOffset(rs, ids, id, 0) { OffsetIsUnique(rs, ids, id, k, 0); }
    } else if FateOf(rs, id) == Removed {
      RemovedIsGone(rs, ids, now, id);
    } else {
      FateFacts(rs, id);
      forall j | 0 <= j < |out| ensures !Matches(out[j], CallSite, id) {
        var place := OtherAt(rs, ids, now, id, j);
      }
      NoSites(out, CallSite, id);
    }
  }

  ghost predicate DistinctParents(rs: seq<Record>, ids: seq<string>) {
    forall a, b :: IsKept(rs, ids, a) && IsKept(rs, ids, b) && a != b ==> Parent(rs, a) != Parent(rs, b)
  }

  /** A second healing never removes anything. */
  lemma NothingRemovedTwice(rs: seq<Record>, ids: seq<string>, now: int)
    requires SomethingToDo(rs, ids) && NoDup(ids) && "" !in ids && CallsLiveInParts(rs, ids)
    ensures Select(Heal(rs, ids, now), ids, Removed) == []
  {
    hide Woven, Dropped, SettledAt, Select, FateOf, Sites;
    var out := Heal(rs, ids, now);
    forall id | id in ids ensures FateOf(out, id) != Removed {
      FateAfter(rs, ids, now, id);
    }
    NoneSelected(out, ids, Removed);
  }

  /**
   * Healing again writes nothing exactly when no two kept ids share a parent, whatever the clock: with two, one of
   * them always stands second behind it.
   */
  lemma SecondHealing(rs: seq<Record>, ids: seq<string>, now: int)
    requires SomethingToDo(rs, ids) && NoDup(ids) && "" !in ids && CallsLiveInParts(rs, ids)
    ensures !SomethingToDo(Heal(rs, ids, now), ids) <==> DistinctParents(rs, ids)
  {
    hide Woven, Dropped, SettledAt, Select, Sites;
    var out := Heal(rs, ids, now);
    NothingRemovedTwice(rs, ids, now);
    SelectMembers(out, ids, Settled);
    if DistinctParents(rs, ids) {
      forall id | id in ids ensures FateOf(out, id) != Settled {
        FateAfter(rs, ids, now, id);
        if IsKept(rs, ids, id) { AloneIsFirst(rs, ids, id); }
      }
      NoneSelected(out, ids, Settled);
    } else {
      var a, b :| IsKept(rs, ids, a) && IsKept(rs, ids, b) && a != b && Parent(rs, a) == Parent(rs, b);
      FateAfter(rs, ids, now, a);
      FateAfter(rs, ids, now, b);
      OneFirst(rs, ids, a, b);
      assert a in Select(out, ids, Settled) || b in Select(out, ids, Settled);
    }
  }

  lemma AloneIsFirst(rs: seq<Record>, ids: seq<string>, id: string)
    requires NoDup(ids) && IsKept(rs, ids, id) && DistinctParents(rs, ids)
    ensures ResultOffset(rs, ids, id, 0)
  {
    hide SettledAt, Sites;
    var here := SettledAt(rs, ids, Parent(rs, id));
    SettledAtMembers(rs, ids, Parent(rs, id));
    if here != [] {
      assert IsKept(rs, ids, here[0]);
      assert here[0] == id;
    }
  }

  lemma OneFirst(rs: seq<Record>, ids: seq<string>, a: string, b: string)
    requires IsKept(rs, ids, a) && IsKept(rs, ids, b) && a != b && a != "" && b != ""
    requires Parent(rs, a) == Parent(rs, b)
    ensures !ResultOffset(rs, ids, a, 0) || !ResultOffset(rs, ids, b, 0)
  {
    hide SettledAt, Sites;
    SettledAtMembers(rs, ids, Parent(rs, a));
    if FateOf(rs, a) == InPlace && FateOf(rs, b) == InPlace {
      SingleSite(rs, StaleResult, a, Parent(rs, a) + 1);
      SingleSite(rs, StaleResult, b, Parent(rs, a) + 1);
    }
  }

  // ----- what settling leaves alone -------------------------------------------------------------

  predicate ResultForOneOf(r: Record, ids: seq<string>) {
    exists id <- ids :: Matches(r, StaleResult, id)
  }

  /** The transcript without the synthetic results of the given ids. */
  function Erased(rs: seq<Record>, ids: seq<string>): seq<Record> {
    if rs == [] then []
    else
      var last := rs[|rs| - 1];
      Erased(rs[..|rs| - 1], ids) + (if ResultForOneOf(last, ids) then [] else [last])
  }

  lemma {:induction false} ErasedConcat(a: seq<Record>, b: seq<Record>, ids: seq<string>)
    ensures Erased(a + b, ids) == Erased(a, ids) + Erased(b, ids)
  {
    if b == [] {
      assert a + b == a;
    } else {
      assert (a + b)[..|a + b| - 1] == a + b[..|b| - 1];
      ErasedConcat(a, b[..|b| - 1], ids);
    }
  }

  lemma {:induction false} ErasedAll(b: seq<Record>, ids: seq<string>)
    requires forall k :: 0 <= k < |b| ==> ResultForOneOf(b[k], ids)
    ensures Erased(b, ids) == []
  {
    if b != [] { ErasedAll(b[..|b| - 1], ids); }
  }

  lemma StripNothing(r: Record)
    ensures Strip(r, []) == r
  {
    if HasPayload(r) {
      StripPartsAt(r.message.parts, []);
      assert StripParts(r.message.parts, []) == r.message.parts;
    }
  }

  /** Settling moves or adds nothing but the synthetic results of the settled ids. */
  lemma {:induction false} SettlingMovesOnlyResults(rs: seq<Record>, ids: seq<string>, now: int, k: nat)
    requires "" !in ids && Select(rs, ids, Removed) == [] && k <= |rs|
    ensures var settled := Select(rs, ids, Settled);
            Erased(Woven(rs, ids, now, k), settled) == Erased(rs[..k], settled)
  {
    hide Dropped, SettledAt, Select, FateOf, Matches, Strip, Synth;
    var settled := Select(rs, ids, Settled);
    if k > 0 {
      var i := k - 1;
      SettlingMovesOnlyResults(rs, ids, now, i);
      ErasedConcat(Woven(rs, ids, now, i), Replacement(rs, ids, now, i), settled);
      assert rs[..k] == rs[..i] + [rs[i]];
      ErasedConcat(rs[..i], [rs[i]], settled);
      ReplacementErased(rs, ids, now, i);
    }
  }

  lemma ReplacementErased(rs: seq<Record>, ids: seq<string>, now: int, i: nat)
    requires "" !in ids && Select(rs, ids, Removed) == [] && i < |rs|
    ensures var settled := Select(rs, ids, Settled);
            Erased(Replacement(rs, ids, now, i), settled) == Erased([rs[i]], settled)
  {
    hide SettledAt, Select, FateOf, Strip, Synth, IsResult, IsSynthetic, Declares;
    var settled := Select(rs, ids, Settled);
    SelectMembers(rs, ids, Settled);
    SelectMembers(rs, ids, Removed);
    assert Dropped(rs, ids, i) <==> ResultForOneOf(rs[i], settled);
    if Dropped(rs, ids, i) {
      ErasedAll([rs[i]], settled);
    } else {
      StripNothing(rs[i]);
      assert Edited(rs, ids, i) == rs[i];
      var block := Block(rs, ids, now, i);
      SettledAtMembers(rs, ids, i);
      forall k | 0 <= k < |block| ensures ResultForOneOf(block[k], settled) {
        var id := SettledAt(rs, ids, i)[k];
        ParentHasPayload(rs, ids, i);
        SynthMatches(rs[i], id, now, id);
        assert id in settled;
      }
      ErasedAll(block, settled);
      ErasedConcat([rs[i]], block, settled);
    }
  }

  /** The record inserted for a settled id, and the record it is inserted behind. */
  lemma InsertedRecord(rs: seq<Record>, ids: seq<string>, now: int, id: string, k: nat)
    requires SomethingToDo(rs, ids) && NoDup(ids) && IsKept(rs, ids, id) && FateOf(rs, id) == Settled && id != ""
    requires ResultOffset(rs, ids, id, k)
    ensures var out, i := Heal(rs, ids, now), Parent(rs, id);
            && Sites(out, CallSite, id) != [] && Parent(out, id) + 1 + k < |out|
            && HasPayload(Edited(rs, ids, i))
            && out[Parent(out, id)] == Edited(rs, ids, i)
            && out[Parent(out, id) + 1 + k] == Synth(Edited(rs, ids, i), id, now)
  {
    hide Woven, Dropped, SettledAt, Select, IsResult, IsSynthetic, Declares, Sites, Strip, Synth;
    HealIsWoven(rs, ids, now);
    ParentAfter(rs, ids, now, id);
    ParentHasPayload(rs, ids, Parent(rs, id));
    Layout(rs, ids, now, Parent(rs, id));
    var w, a, b := Woven(rs, ids, now, |rs|), Pos(rs, ids, now, Parent(rs, id)), Pos(rs, ids, now, Parent(rs, id) + 1);
    assert w[a + 1..b][k] == w[a + 1 + k];
  }
}
