/**
 * Healing role alternation: runs of user records are cut down to their last record, unless
 * the transcript holds nothing but user records.
 */
module RoleHealing {
  import opened Basics
  import opened Transcript

  predicate IsUser(r: Record) {
    HasPayload(r) && r.message.role == User
  }

  predicate HasAnchor(rs: seq<Record>) {
    exists r <- rs :: !IsUser(r)
  }

  /** A user record with another one right behind it. */
  predicate Redundant(rs: seq<Record>, i: nat) {
    i + 1 < |rs| && IsUser(rs[i]) && IsUser(rs[i + 1])
  }

  /** The redundant indices below k, ascending. */
  function RedundantBelow(rs: seq<Record>, k: nat): seq<nat> {
    if k == 0 then []
    else if Redundant(rs, k - 1) then RedundantBelow(rs, k - 1) + [k - 1]
    else RedundantBelow(rs, k - 1)
  }

  lemma {:induction false} RedundantMembers(rs: seq<Record>, k: nat)
    ensures forall x: nat :: x in RedundantBelow(rs, k) <==> x < k && Redundant(rs, x)
  {
    if k > 0 { RedundantMembers(rs, k - 1); }
  }

  function Detected(rs: seq<Record>): seq<nat> {
    if HasAnchor(rs) then RedundantBelow(rs, |rs|) else []
  }

  /** The records that are not redundant, in order. */
  function Cleaned(rs: seq<Record>): seq<Record> {
    if rs == [] then []
    else if Redundant(rs, 0) then Cleaned(rs[1..])
    else [rs[0]] + Cleaned(rs[1..])
  }

  function HealRoles(rs: seq<Record>): seq<Record> {
    if HasAnchor(rs) then Cleaned(rs) else rs
  }

  predicate Alternates(rs: seq<Record>) {
    forall i :: 0 <= i < |rs| ==> !Redundant(rs, i)
  }

  function NonUsers(rs: seq<Record>): seq<Record> {
    if rs == [] then []
    else if IsUser(rs[0]) then NonUsers(rs[1..])
    else [rs[0]] + NonUsers(rs[1..])
  }

  /** Every maximal run of user records is replaced by its last record, everything else is kept: a run-based reference. */
  function LastOfRuns(rs: seq<Record>, pending: Option<Record>): seq<Record> {
    if rs == [] then (if pending.Some? then [pending.value] else [])
    else if IsUser(rs[0]) then LastOfRuns(rs[1..], Some(rs[0]))
    else (if pending.Some? then [pending.value] else []) + [rs[0]] + LastOfRuns(rs[1..], None)
  }

  lemma CleanedTail(rs: seq<Record>)
    requires rs != []
    ensures forall i :: 0 <= i < |rs| - 1 ==> (Redundant(rs, i + 1) <==> Redundant(rs[1..], i))
  {
    assert forall i :: 0 <= i < |rs| - 1 ==> rs[1..][i] == rs[i + 1];
  }

  /** Cleaning starts with the same kind of record. */
  lemma {:induction false} CleanedHead(rs: seq<Record>)
    requires rs != []
    ensures Cleaned(rs) != [] && IsUser(Cleaned(rs)[0]) == IsUser(rs[0])
  {
    if Redundant(rs, 0) { CleanedHead(rs[1..]); }
  }

  /** No two adjacent user records are left. */
  lemma {:induction false} CleanedAlternates(rs: seq<Record>)
    ensures Alternates(Cleaned(rs))
  {
    if rs != [] {
      var tail := Cleaned(rs[1..]);
      CleanedAlternates(rs[1..]);
      if !Redundant(rs, 0) {
        if |rs| > 1 { CleanedHead(rs[1..]); }
        var all := [rs[0]] + tail;
        forall i | 0 <= i < |all| ensures !Redundant(all, i) {
          if i > 0 { assert !Redundant(tail, i - 1); }
        }
      }
    }
  }

  lemma {:induction false} CleanedKeepsNonUsers(rs: seq<Record>)
    ensures NonUsers(Cleaned(rs)) == NonUsers(rs)
  {
    if rs != [] {
      CleanedKeepsNonUsers(rs[1..]);
      if !Redundant(rs, 0) { assert Cleaned(rs)[1..] == Cleaned(rs[1..]); }
    }
  }

  /** What is kept is the last record of every user run and every other record, in order. */
  lemma {:induction false} CleanedIsLastOfRuns(rs: seq<Record>)
    ensures Cleaned(rs) == LastOfRuns(rs, None)
    ensures forall u :: IsUser(u) ==>
              LastOfRuns(rs, Some(u)) == (if rs != [] && IsUser(rs[0]) then [] else [u]) + Cleaned(rs)
  {
    if rs != [] {
      CleanedIsLastOfRuns(rs[1..]);
    }
  }

  lemma {:induction false} CleanedFixpoint(rs: seq<Record>)
    requires Alternates(rs)
    ensures Cleaned(rs) == rs
  {
    if rs != [] {
      CleanedTail(rs);
      assert !Redundant(rs, 0);
      forall i | 0 <= i < |rs[1..]| ensures !Redundant(rs[1..], i) {
        assert !Redundant(rs, i + 1);
      }
      CleanedFixpoint(rs[1..]);
    }
  }

  lemma {:induction false} NonUsersOfAll(rs: seq<Record>)
    ensures NonUsers(rs) == [] <==> !HasAnchor(rs)
  {
    if rs != [] {
      NonUsersOfAll(rs[1..]);
      assert rs == [rs[0]] + rs[1..];
    }
  }

  /**
   * With an anchor, the healed transcript alternates, keeps every other record and the last of each run, and detection
   * finds nothing in it; without one nothing is touched.
   */
  lemma RolesAreHealed(rs: seq<Record>)
    ensures HasAnchor(rs) ==> Alternates(HealRoles(rs)) && HealRoles(rs) == LastOfRuns(rs, None)
    ensures NonUsers(HealRoles(rs)) == NonUsers(rs)
    ensures Detected(HealRoles(rs)) == [] && HealRoles(HealRoles(rs)) == HealRoles(rs)
    ensures Detected(rs) == [] <==> HealRoles(rs) == rs
  {
    CleanedAlternates(rs);
    CleanedKeepsNonUsers(rs);
    CleanedIsLastOfRuns(rs);
    NonUsersOfAll(rs);
    NonUsersOfAll(HealRoles(rs));
    CleanedFixpoint(Cleaned(rs));
    NothingDetected(HealRoles(rs));
    NothingDetected(rs);
    if HasAnchor(rs) && Cleaned(rs) == rs { assert Alternates(rs); }
    if HasAnchor(rs) && Alternates(rs) { CleanedFixpoint(rs); }
  }

  lemma NothingDetected(rs: seq<Record>)
    ensures RedundantBelow(rs, |rs|) == [] <==> Alternates(rs)
  {
    var all := RedundantBelow(rs, |rs|);
    RedundantMembers(rs, |rs|);
    assert all != [] ==> all[0] in all;
    if all == [] {
      forall i | 0 <= i < |rs| ensures !Redundant(rs, i) { assert i !in all; }
    }
  }

  // ----- the detection and removal loops ------------------------------------------------------

  /** Collects the indices to remove run by run; the run still open is kept in `userRun`. */
  method DetectConsecutiveUserMessageIndices(rs: seq<Record>) returns (indices: seq<nat>)
    ensures indices == Detected(rs)
  {
    var toRemove: set<nat>, userRun: seq<nat>, hasNonUser := {}, [], false;
    for i := 0 to |rs|
      invariant hasNonUser <==> HasAnchor(rs[..i])
      invariant OpenRun(rs, userRun, i)
      invariant forall k: nat :: k in toRemove <==> k < i - |userRun| && Redundant(rs, k)
    {
      assert rs[..i + 1] == rs[..i] + [rs[i]];
      if IsUser(rs[i]) {
        userRun := userRun + [i];
      } else {
        hasNonUser := true;
        ConsecutiveRun(userRun, i - |userRun|);
        toRemove := toRemove + AllButLast(userRun);
        userRun := [];
      }
    }
    assert rs[..|rs|] == rs;
    ConsecutiveRun(userRun, |rs| - |userRun|);
    if hasNonUser && |userRun| > 0 {
      toRemove := toRemove + AllButLast(userRun);
    }
    indices := Ascending(toRemove, |rs|);
    if hasNonUser {
      AscendingRedundant(rs, toRemove, |rs|);
    } else {
      assert toRemove == {};
      AscendingEmpty(|rs|);
    }
  }

  /** The user records that end just before i, as far as they go. */
  predicate OpenRun(rs: seq<Record>, run: seq<nat>, i: nat) {
    && |run| <= i <= |rs|
    && (forall k :: 0 <= k < |run| ==> run[k] == i - |run| + k)
    && (forall x :: i - |run| <= x < i ==> IsUser(rs[x]))
    && (|run| < i ==> !IsUser(rs[i - |run| - 1]))
  }

  function AllButLast(run: seq<nat>): set<nat> {
    if |run| <= 1 then {} else {run[0]} + AllButLast(run[1..])
  }

  lemma {:induction false} ConsecutiveRun(run: seq<nat>, a: nat)
    requires forall k :: 0 <= k < |run| ==> run[k] == a + k
    ensures forall x: nat :: x in AllButLast(run) <==> a <= x && x + 1 < a + |run|
  {
    if |run| > 1 { ConsecutiveRun(run[1..], a + 1); }
  }

  /** The set sorted in ascending order. */
  function Ascending(s: set<nat>, k: nat): seq<nat> {
    if k == 0 then [] else Ascending(s, k - 1) + (if k - 1 in s then [k - 1] else [])
  }

  lemma {:induction false} AscendingRedundant(rs: seq<Record>, s: set<nat>, k: nat)
    requires forall x: nat :: x < k ==> (x in s <==> Redundant(rs, x))
    ensures Ascending(s, k) == RedundantBelow(rs, k)
  {
    if k > 0 { AscendingRedundant(rs, s, k - 1); }
  }

  lemma {:induction false} AscendingEmpty(k: nat)
    ensures Ascending({}, k) == []
  {
    if k > 0 { AscendingEmpty(k - 1); }
  }

  method HealConsecutiveUserMessages(rs: seq<Record>) returns (out: seq<Record>, removed: seq<nat>)
    ensures out == HealRoles(rs) && removed == Detected(rs)
    ensures |out| == |rs| - |removed|
  {
    removed := DetectConsecutiveUserMessageIndices(rs);
    if |removed| == 0 {
      RolesAreHealed(rs);
      return rs, removed;
    }
    RedundantMembers(rs, |rs|);
    out := [];
    assert rs[0..] == rs;
    for i := 0 to |rs|
      invariant out + Cleaned(rs[i..]) == Cleaned(rs)
      invariant |out| + |RedundantBelow(rs, i)| == i
    {
      assert rs[i..][1..] == rs[i + 1..];
      assert Redundant(rs[i..], 0) <==> Redundant(rs, i);
      if i !in removed {
        assert out + ([rs[i]] + Cleaned(rs[i + 1..])) == out + [rs[i]] + Cleaned(rs[i + 1..]);
        out := out + [rs[i]];
      }
    }
  }
}
