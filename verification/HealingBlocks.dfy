/**
 * Where a second healing can put results: every record keeps its position, except that the results behind one record
 * change places among themselves.
 */
module HealingBlocks {
  import opened Basics
  import opened Transcript
  import opened TranscriptHealing
  import opened HealingProperties
  import opened HealingAgain

  // ----- settling a transcript whose results stand in blocks ------------------------------------------

  /** Position i belongs to the block of the results behind record p. */
  predicate Inside(rs: seq<Record>, ids: seq<string>, p: nat, i: nat) {
    p < |rs| && SettledAt(rs, ids, p) != [] && p < i <= p + 1 + |SettledAt(rs, ids, p)|
  }

  /** Behind every parent of settled ids stand one result that is in place, then as many to be moved as are settled. */
  ghost predicate Banded(rs: seq<Record>, ids: seq<string>) {
    && (forall p: nat, i: nat :: Inside(rs, ids, p, i) ==>
          i < |rs| && SettledAt(rs, ids, i) == [] && (Dropped(rs, ids, i) <==> i > p + 1))
    && forall i :: 0 <= i < |rs| && Dropped(rs, ids, i) ==> exists p: nat :: Inside(rs, ids, p, i)
  }

  lemma PosStep(rs: seq<Record>, ids: seq<string>, now: int, i: nat)
    requires i < |rs|
    ensures Pos(rs, ids, now, i + 1) == Pos(rs, ids, now, i) + if Dropped(rs, ids, i) then 0 else 1 + |SettledAt(rs, ids, i)|
  {
    hide Dropped, SettledAt, Replacement;
    WovenStep(rs, ids, now, i);
    ReplacementLength(rs, ids, now, i);
  }

  /** Only inside a block does settling shift a position: the result in place goes to the end of it. */
  lemma {:induction false} PosInBands(rs: seq<Record>, ids: seq<string>, now: int, i: nat)
    requires Banded(rs, ids) && i <= |rs|
    ensures (forall p: nat :: !Inside(rs, ids, p, i)) ==> Pos(rs, ids, now, i) == i
    ensures forall p: nat :: Inside(rs, ids, p, i) ==>
              Pos(rs, ids, now, i) == p + |SettledAt(rs, ids, p)| + if i == p + 1 then 1 else 2
  {
    hide Dropped, SettledAt, Pos;
    if i == 0 {
      NothingWoven(rs, ids, now);
    } else {
      var j: nat := i - 1;
      PosInBands(rs, ids, now, j);
      PosStep(rs, ids, now, j);
      forall p: nat | Inside(rs, ids, p, i)
        ensures Pos(rs, ids, now, i) == p + |SettledAt(rs, ids, p)| + if i == p + 1 then 1 else 2
      {
        assert p == j || Inside(rs, ids, p, j);
      }
      if forall p: nat :: !Inside(rs, ids, p, i) {
        assert SettledAt(rs, ids, j) == [] by { assert !Inside(rs, ids, j, i); }
        if p: nat :| Inside(rs, ids, p, j) {
          assert j == p + 1 + |SettledAt(rs, ids, p)| by { assert !Inside(rs, ids, p, i); }
          assert Pos(rs, ids, now, j) == p + |SettledAt(rs, ids, p)| + 2;
        } else {
          assert !Dropped(rs, ids, j);
        }
      }
    }
  }

  lemma NothingWoven(rs: seq<Record>, ids: seq<string>, now: int)
    ensures Pos(rs, ids, now, 0) == 0
  {
  }

  // ----- the order of the results behind one record ---------------------------------------------------

  function InPlaceAt(rs: seq<Record>, ids: seq<string>, i: nat): seq<string> {
    if ids == [] then []
    else
      var id := ids[|ids| - 1];
      InPlaceAt(rs, ids[..|ids| - 1], i) + (if FateOf(rs, id) == InPlace && Parent(rs, id) == i then [id] else [])
  }

  lemma {:induction false} InPlaceAtMembers(rs: seq<Record>, ids: seq<string>, i: nat)
    ensures forall id :: id in InPlaceAt(rs, ids, i) <==> id in ids && FateOf(rs, id) == InPlace && Parent(rs, id) == i
    ensures NoDup(ids) ==> NoDup(InPlaceAt(rs, ids, i))
  {
    hide FateOf, Parent;
    if ids != [] {
      InPlaceAtMembers(rs, ids[..|ids| - 1], i);
      assert ids == ids[..|ids| - 1] + [ids[|ids| - 1]];
    }
  }

  /** The kept ids whose results stand behind record i of the healed transcript, in that order. */
  function Standing(rs: seq<Record>, ids: seq<string>, i: nat): seq<string> {
    SettledAt(rs, ids, i) + InPlaceAt(rs, ids, i)
  }

  lemma OneInPlace(rs: seq<Record>, ids: seq<string>, i: nat)
    requires NoDup(ids)
    ensures |InPlaceAt(rs, ids, i)| <= 1
  {
    hide InPlaceAt, Sites;
    InPlaceAtMembers(rs, ids, i);
    var here := InPlaceAt(rs, ids, i);
    if |here| > 1 {
      assert here[0] in here && here[1] in here;
      SingleSite(rs, StaleResult, here[0], i + 1);
      SingleSite(rs, StaleResult, here[1], i + 1);
    }
  }

  lemma StandingIs(rs: seq<Record>, ids: seq<string>, i: nat)
    requires NoDup(ids)
    ensures var here := Standing(rs, ids, i);
            && NoDup(here) && (forall id :: id in here <==> IsKept(rs, ids, id) && Parent(rs, id) == i)
            && forall k :: 0 <= k < |here| ==> ResultOffset(rs, ids, here[k], k)
  {
    hide InPlaceAt, SettledAt, Sites;
    InPlaceAtMembers(rs, ids, i);
    SettledAtMembers(rs, ids, i);
    OneInPlace(rs, ids, i);
    var a, b := SettledAt(rs, ids, i), InPlaceAt(rs, ids, i);
    assert forall id :: id in a + b <==> id in a || id in b;
    assert forall k :: 0 <= k < |a| ==> a[k] in a;
    assert forall k :: 0 <= k < |b| ==> b[k] in b;
  }

  function Members(s: seq<string>): set<string> {
    set id <- s
  }

  lemma {:induction false} DistinctSize(s: seq<string>)
    requires NoDup(s)
    ensures |Members(s)| == |s|
  {
    if s != [] {
      assert Members(s) == Members(Front(s)) + {Last(s)};
      DistinctSize(Front(s));
    }
  }

  lemma SameSize(a: seq<string>, b: seq<string>)
    requires NoDup(a) && NoDup(b) && Members(a) == Members(b)
    ensures |a| == |b|
  {
    DistinctSize(a);
    DistinctSize(b);
  }

  // ----- the blocks of a healed transcript ------------------------------------------------------------

  lemma PosGrows(rs: seq<Record>, ids: seq<string>, now: int, i: nat, j: nat)
    requires i < j < |rs| && !Dropped(rs, ids, i)
    ensures Pos(rs, ids, now, i) < Pos(rs, ids, now, j)
  {
    hide Woven, Dropped, SettledAt;
    Layout(rs, ids, now, i);
    WovenPrefix(rs, ids, now, i + 1, j);
  }

  /** Two kept ids share a parent after the first healing exactly when they did before. */
  lemma ParentsCorrespond(rs: seq<Record>, ids: seq<string>, now: int, a: string, b: string)
    requires SomethingToDo(rs, ids) && IsKept(rs, ids, a) && IsKept(rs, ids, b)
    ensures var out := Heal(rs, ids, now);
            && Sites(out, CallSite, a) != [] && Sites(out, CallSite, b) != []
            && (Parent(out, a) == Parent(out, b) <==> Parent(rs, a) == Parent(rs, b))
  {
    hide Woven, Dropped, Sites, SettledAt, SomethingToDo, Heal;
    ParentAfter(rs, ids, now, a);
    ParentAfter(rs, ids, now, b);
    if Parent(rs, a) < Parent(rs, b) { PosGrows(rs, ids, now, Parent(rs, a), Parent(rs, b)); }
    if Parent(rs, b) < Parent(rs, a) { PosGrows(rs, ids, now, Parent(rs, b), Parent(rs, a)); }
  }

  /** A kept id's result stands at its place in the order, and only the first of a block is in place for a second healing. */
  lemma StandsAt(rs: seq<Record>, ids: seq<string>, now: int, i: nat, k: nat)
    requires Healable(rs, ids) && k < |Standing(rs, ids, i)|
    ensures var out, id := Heal(rs, ids, now), Standing(rs, ids, i)[k];
            && IsKept(rs, ids, id) && Parent(rs, id) == i
            && i < |rs| && Sites(out, StaleResult, id) == [Pos(rs, ids, now, i) + 1 + k]
            && FateOf(out, id) == (if k == 0 then InPlace else Settled)
            && Sites(out, CallSite, id) != [] && Parent(out, id) == Pos(rs, ids, now, i)
  {
    hide Woven, Dropped, Sites, SettledAt, SomethingToDo, Heal, Standing, ResultOffset, FateOf, CallsLiveInParts;
    StandingIs(rs, ids, i);
    var id := Standing(rs, ids, i)[k];
    assert id in Standing(rs, ids, i);
    ParentAfter(rs, ids, now, id);
    FateAfter(rs, ids, now, id);
    var q := KeptHasOneResult(rs, ids, now, id);
    OffsetIsUnique(rs, ids, id, q, k);
    if ResultOffset(rs, ids, id, 0) { OffsetIsUnique(rs, ids, id, 0, k); }
  }

  /** The ids a second healing re-settles behind one record are those whose results stand there, but the first. */
  lemma ResettledBehind(rs: seq<Record>, ids: seq<string>, now: int, id: string)
    requires Healable(rs, ids) && id in Moved(rs, ids, now)
    ensures var out := Heal(rs, ids, now);
            && IsKept(rs, ids, id) && Sites(out, CallSite, id) != [] && Parent(out, id) == Pos(rs, ids, now, Parent(rs, id))
            && var here, again := Standing(rs, ids, Parent(rs, id)), SettledAt(out, ids, Parent(out, id));
            |here| == |again| + 1 && Members(again) == Members(here[1..])
  {
    hide Woven, Dropped, Sites, SettledAt, SomethingToDo, Heal, Standing, ResultOffset, CallsLiveInParts, Moved;
    var out := Heal(rs, ids, now);
    MovedIsKept(rs, ids, now, id);
    ParentAfter(rs, ids, now, id);
    var here, again := Standing(rs, ids, Parent(rs, id)), SettledAt(out, ids, Parent(out, id));
    StandingIs(rs, ids, Parent(rs, id));
    SettledAtMembers(out, ids, Parent(out, id));
    assert id in here;
    forall other ensures other in again <==> other in here[1..] {
      SettledBehind(rs, ids, now, id, other);
    }
    SameSize(again, here[1..]);
  }

  lemma SettledBehind(rs: seq<Record>, ids: seq<string>, now: int, id: string, other: string)
    requires Healable(rs, ids) && IsKept(rs, ids, id)
    ensures var out, here := Heal(rs, ids, now), Standing(rs, ids, Parent(rs, id));
            && Sites(out, CallSite, id) != [] && here != []
            && (other in SettledAt(out, ids, Parent(out, id)) <==> other in here[1..])
  {
    hide Woven, Dropped, Sites, SettledAt, SomethingToDo, Heal, Standing, ResultOffset, CallsLiveInParts;
    var out := Heal(rs, ids, now);
    var here := Standing(rs, ids, Parent(rs, id));
    StandingIs(rs, ids, Parent(rs, id));
    assert id in here;
    ParentAfter(rs, ids, now, id);
    SettledAtMembers(out, ids, Parent(out, id));
    if other in here {
      var k :| 0 <= k < |here| && here[k] == other;
      StandsAt(rs, ids, now, Parent(rs, id), k);
      assert other in here[1..] <==> k > 0 by {
        if k > 0 { assert here[1..][k - 1] == other; }
      }
    } else if other in SettledAt(out, ids, Parent(out, id)) {
      FateAfter(rs, ids, now, other);
      ParentsCorrespond(rs, ids, now, id, other);
    }
  }

  /** A record in a block is the result of a kept id of the record the block stands behind; only the first is in place. */
  lemma InsideIs(rs: seq<Record>, ids: seq<string>, now: int, p: nat, i: nat) returns (id: string)
    requires Healable(rs, ids) && Inside(Heal(rs, ids, now), ids, p, i)
    ensures var out := Heal(rs, ids, now);
            && i < |out| && SettledAt(out, ids, i) == [] && (Dropped(out, ids, i) <==> i > p + 1)
            && IsKept(rs, ids, id) && Matches(out[i], StaleResult, id)
            && Sites(out, CallSite, id) != [] && Parent(out, id) == p
  {
    hide Woven, Dropped, Sites, SettledAt, SomethingToDo, Heal, Standing, ResultOffset, Healable, IsSynthetic;
    var out := Heal(rs, ids, now);
    var first := SettledAt(out, ids, p)[0];
    SettledAtMembers(out, ids, p);
    SelectMembers(out, ids, Settled);
    ResettledBehind(rs, ids, now, first);
    var k := i - p - 1;
    var here := Standing(rs, ids, Parent(rs, first));
    StandsAt(rs, ids, now, Parent(rs, first), k);
    id := here[k];
    SingleSite(out, StaleResult, id, i);
    DroppedIsResult(out, ids, i, id);
    if SettledAt(out, ids, i) != [] { ParentHasPayload(out, ids, i); }
  }

  lemma DroppedInside(rs: seq<Record>, ids: seq<string>, now: int, i: nat) returns (p: nat)
    requires Healable(rs, ids) && i < |Heal(rs, ids, now)| && Dropped(Heal(rs, ids, now), ids, i)
    ensures Inside(Heal(rs, ids, now), ids, p, i)
  {
    hide Woven, Sites, SettledAt, SomethingToDo, Heal, Standing, ResultOffset, IsSynthetic, IsResult, Select, CallsLiveInParts;
    var out := Heal(rs, ids, now);
    NothingRemovedTwice(rs, ids, now);
    SelectMembers(out, ids, Removed);
    SelectMembers(out, ids, Settled);
    var id :| id in ids && FateOf(out, id) == Settled && Matches(out[i], StaleResult, id);
    ResettledBehind(rs, ids, now, id);
    p := Parent(out, id);
    var here := Standing(rs, ids, Parent(rs, id));
    StandingIs(rs, ids, Parent(rs, id));
    assert id in here;
    var k :| 0 <= k < |here| && here[k] == id;
    StandsAt(rs, ids, now, Parent(rs, id), k);
    SingleSite(out, StaleResult, id, p + 1 + k);
  }

  lemma HealedIsBanded(rs: seq<Record>, ids: seq<string>, now: int)
    requires Healable(rs, ids)
    ensures Banded(Heal(rs, ids, now), ids)
  {
    hide Inside, Dropped, SettledAt, Heal, Healable;
    var out := Heal(rs, ids, now);
    forall p: nat, i: nat | Inside(out, ids, p, i)
      ensures i < |out| && SettledAt(out, ids, i) == [] && (Dropped(out, ids, i) <==> i > p + 1)
    {
      var _ := InsideIs(rs, ids, now, p, i);
    }
    forall i | 0 <= i < |out| && Dropped(out, ids, i) ensures exists p: nat :: Inside(out, ids, p, i) {
      var p := DroppedInside(rs, ids, now, i);
    }
  }

  /**
   * A second healing, at any clock, keeps the length, and each position keeps its record or changes one result of an
   * id for a result of an id with the same parent: results move inside the block behind their parent only.
   */
  lemma SecondHealingStaysInBlocks(rs: seq<Record>, ids: seq<string>, now: int, now': int, q: nat)
    requires Healable(rs, ids) && q < |Heal(rs, ids, now)|
    ensures var out := Heal(rs, ids, now);
            var again := Heal(out, ids, now');
            && |again| == |out|
            && (again[q] != out[q] ==>
                  exists a, b :: && IsKept(rs, ids, a) && IsKept(rs, ids, b) && Parent(rs, a) == Parent(rs, b)
                                 && Matches(out[q], StaleResult, a) && Matches(again[q], StaleResult, b))
  {
    hide Woven, Sites, SettledAt, SomethingToDo, Heal, Inside, Dropped, IsSynthetic, IsResult, Select, CallsLiveInParts;
    hide FateOf, Matches, Edited;
    var out := Heal(rs, ids, now);
    if SomethingToDo(out, ids) {
      HealIsWoven(out, ids, now');
      HealedIsBanded(rs, ids, now);
      PosInBands(out, ids, now', |out|);
      PosInBands(out, ids, now', q);
      NothingRemovedTwice(rs, ids, now);
      if p: nat :| Inside(out, ids, p, q) {
        var a := InsideIs(rs, ids, now, p, q);
        var b := SecondInside(rs, ids, now, now', p, q);
        ParentsCorrespond(rs, ids, now, a, b);
      } else {
        Layout(out, ids, now', q);
        NotEdited(out, ids, q);
      }
    } else {
      NothingToDo(out, ids, now');
    }
  }

  lemma NothingToDo(rs: seq<Record>, ids: seq<string>, now: int)
    requires !SomethingToDo(rs, ids)
    ensures Heal(rs, ids, now) == rs
  {
  }

  /** What a second healing puts inside a block. */
  lemma SecondInside(rs: seq<Record>, ids: seq<string>, now: int, now': int, p: nat, q: nat) returns (b: string)
    requires Healable(rs, ids) && SomethingToDo(Heal(rs, ids, now), ids) && Inside(Heal(rs, ids, now), ids, p, q)
    ensures var out := Heal(rs, ids, now);
            var again := Heal(out, ids, now');
            && q < |again| && IsKept(rs, ids, b) && Matches(again[q], StaleResult, b)
            && Sites(out, CallSite, b) != [] && Parent(out, b) == p
  {
    hide Woven, Sites, SettledAt, SomethingToDo, Heal, Dropped, IsSynthetic, IsResult, Select, CallsLiveInParts, Synth;
    hide Matches, Edited;
    var out := Heal(rs, ids, now);
    HealIsWoven(out, ids, now');
    HealedIsBanded(rs, ids, now);
    var here := SettledAt(out, ids, p);
    if q == p + 1 + |here| {
      b := InsideIs(rs, ids, now, p, p + 1);
      PosInBands(out, ids, now', p + 1);
      Layout(out, ids, now', p + 1);
      NothingRemovedTwice(rs, ids, now);
      NotEdited(out, ids, p + 1);
    } else {
      b := here[q - p - 1];
      PosInBands(out, ids, now', p);
      Layout(out, ids, now', p);
      ParentHasPayload(out, ids, p);
      SynthMatches(Edited(out, ids, p), b, now', b);
      SettledAtMembers(out, ids, p);
      SelectMembers(out, ids, Settled);
      MovedIsKept(rs, ids, now, b);
    }
  }
}
