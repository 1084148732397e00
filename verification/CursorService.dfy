/**
 * The running service: a bounded write-through LRU cache of sidecars over the files on disk.
 * Every method proves that the disk and the reply are those of `ConversationCursors`, whatever
 * the cache went through.
 */
module CursorService {
  import opened Basics
  import opened ReplayLog
  import opened ConversationCursors

  function Without<T(==)>(s: seq<T>, x: T): seq<T> {
    if s == [] then [] else (if s[0] == x then [] else [s[0]]) + Without(s[1..], x)
  }

  lemma {:induction false} WithoutAbsent<T>(s: seq<T>, x: T)
    requires x !in s
    ensures Without(s, x) == s
  {
    if s != [] { WithoutAbsent(s[1..], x); }
  }

  lemma {:induction false} WithoutAt<T>(s: seq<T>, i: nat)
    requires NoDup(s) && i < |s|
    ensures Without(s, s[i]) == s[..i] + s[i + 1..]
  {
    assert forall k :: 0 <= k < |s[1..]| ==> s[1..][k] == s[k + 1];
    if i == 0 {
      WithoutAbsent(s[1..], s[0]);
    } else {
      WithoutAt(s[1..], i - 1);
      assert [s[0]] + (s[1..][..i - 1] + s[1..][i..]) == s[..i] + s[i + 1..];
    }
  }

  lemma {:induction false} WithoutMembers<T>(s: seq<T>, x: T)
    ensures forall y :: y in Without(s, x) <==> y in s && y != x
    ensures |Without(s, x)| <= |s| && (x in s ==> |Without(s, x)| < |s|)
    ensures NoDup(s) ==> NoDup(Without(s, x))
  {
    if s != [] {
      WithoutMembers(s[1..], x);
      assert s == [s[0]] + s[1..];
      if NoDup(s) {
        assert forall i :: 0 <= i < |s[1..]| ==> s[1..][i] == s[i + 1];
        assert s[0] !in s[1..];
      }
    }
  }

  /** Only the key is gone, and where it was listed once, the gap it leaves is closed, so the others keep their order. */
  lemma WithoutProperties<T>(s: seq<T>, x: T)
    ensures forall y :: y in Without(s, x) <==> y in s && y != x
    ensures |Without(s, x)| <= |s| && (x in s ==> |Without(s, x)| < |s|)
    ensures NoDup(s) ==> NoDup(Without(s, x))
    ensures x !in s ==> Without(s, x) == s
    ensures NoDup(s) ==> forall i :: 0 <= i < |s| && s[i] == x ==> Without(s, x) == s[..i] + s[i + 1..]
  {
    hide Without, NoDup;
    WithoutMembers(s, x);
    if x !in s { WithoutAbsent(s, x); }
    if NoDup(s) {
      forall i | 0 <= i < |s| && s[i] == x ensures Without(s, x) == s[..i] + s[i + 1..] { WithoutAt(s, i); }
    }
  }

  lemma OneMore(cfg: Config, es: seq<Event>, e: Event)
    ensures After(cfg, es + [e]) == StepDisk(cfg, After(cfg, es), e)
    ensures ReplyAt(cfg, es + [e], |es|) == Answer(cfg, SidecarOf(After(cfg, es), e.c), LogOf(After(cfg, es), e.c), e)
  {
    assert (es + [e])[..|es|] == es;
  }

  lemma PutTwice(logs: map<ConvId, seq<Entry>>, c: ConvId, log: seq<Entry>)
    ensures forall r :: PutLog(logs[c := log], c, r) == PutLog(logs, c, r)
  {
  }

  /** The cache is bounded, indexed by `order`, and agrees with the disk. */
  ghost predicate CacheOk(cfg: Config, sidecars: map<ConvId, Sidecar>, states: map<ConvId, CursorState>, order: seq<ConvId>) {
    && |order| <= cfg.cacheMax
    && CacheAgrees(sidecars, states, order)
  }

  ghost predicate CacheAgrees(sidecars: map<ConvId, Sidecar>, states: map<ConvId, CursorState>, order: seq<ConvId>) {
    && NoDup(order)
    && (forall c :: c in order <==> c in states)
    && (forall c :: c in states ==> states[c].sidecar == Lookup(sidecars, c))
  }

  /** What is left of a cache after evicting its oldest entries. */
  ghost predicate Shrunk(states: map<ConvId, CursorState>, order: seq<ConvId>,
                         states0: map<ConvId, CursorState>, order0: seq<ConvId>) {
    && order == Newest(order0, |order|)
    && forall k :: k in states ==> k in states0 && states[k] == states0[k]
  }

  lemma EvictOldest(sidecars: map<ConvId, Sidecar>, states: map<ConvId, CursorState>, order: seq<ConvId>,
                    states0: map<ConvId, CursorState>, order0: seq<ConvId>)
    requires order != [] && CacheAgrees(sidecars, states, order)
    requires Shrunk(states, order, states0, order0)
    ensures CacheAgrees(sidecars, states - {order[0]}, order[1..])
    ensures Shrunk(states - {order[0]}, order[1..], states0, order0)
  {
    assert order == [order[0]] + order[1..];
  }

  lemma TouchNewest(sidecars: map<ConvId, Sidecar>, states: map<ConvId, CursorState>, order: seq<ConvId>, c: ConvId, state: CursorState)
    requires CacheAgrees(sidecars, states, order) && state.sidecar == Lookup(sidecars, c)
    ensures CacheAgrees(sidecars, states[c := state], Without(order, c) + [c])
    ensures |Without(order, c) + [c]| <= if c in states then |order| else |order| + 1
    ensures c !in states ==> Without(order, c) == order
  {
    WithoutProperties(order, c);
  }

  /** Writing a sidecar through keeps the cache in agreement with the disk. */
  lemma WriteThrough(sidecars: map<ConvId, Sidecar>, states: map<ConvId, CursorState>, order: seq<ConvId>, c: ConvId, state: CursorState)
    requires CacheAgrees(sidecars, states, order)
    ensures CacheAgrees(sidecars[c := state.sidecar], if c in states then states[c := state] else states, order)
  {
  }

  class Cursors {
    const cfg: Config
    /** A JavaScript Map: contents, and keys in insertion order. */
    var states: map<ConvId, CursorState>
    var order: seq<ConvId>
    var sidecars: map<ConvId, Sidecar>
    var logs: map<ConvId, seq<Entry>>
    /** What the conversation listeners were told. */
    var emitted: seq<Stamped>
    /** Every request served so far. */
    ghost var trace: seq<Event>

    ghost predicate CacheValid()
      reads this
    {
      CacheOk(cfg, sidecars, states, order)
    }

    /** The disk is the one the trace leads to, whatever the cache went through. */
    ghost predicate Valid()
      reads this
    {
      CacheValid() && DiskView() == After(cfg, trace)
    }

    function DiskView(): Disk
      reads this
    {
      Disk(sidecars, logs)
    }

    /** The compaction counter; it lives only in the cache, so eviction resets it. */
    function Appends(c: ConvId): nat
      reads this
    {
      if c in states then states[c].appends else 0
    }

    constructor (cfg: Config)
      ensures Valid() && this.cfg == cfg && trace == [] && emitted == []
    {
      this.cfg := cfg;
      states, order, sidecars, logs, emitted, trace := map[], [], map[], map[], [], [];
    }

    method GetState(c: ConvId) returns (state: CursorState)
      requires CacheValid()
      modifies `states, `order
      ensures CacheValid()
      ensures state == CursorState(Lookup(sidecars, c), old(Appends(c)))
      ensures order == Newest(Without(old(order), c) + [c], cfg.cacheMax)
      ensures c in states ==> states[c] == state
      ensures cfg.cacheMax > 0 ==> c in states
    {
      state := if c in states then states[c] else CursorState(Lookup(sidecars, c), 0);
      TouchNewest(sidecars, states, order, c, state);
      if c in states {
        order := Without(order, c) + [c];
        return;
      }
      states := states[c := state];
      order := order + [c];
      EvictOverCap();
    }

    method EvictOverCap()
      requires CacheAgrees(sidecars, states, order)
      modifies `states, `order
      ensures CacheValid()
      ensures order == Newest(old(order), cfg.cacheMax)
      ensures Shrunk(states, order, old(states), old(order))
    {
      ghost var states0, order0 := states, order;
      while |order| > cfg.cacheMax
        invariant |order| >= cfg.cacheMax || order == order0
        invariant CacheAgrees(sidecars, states, order)
        invariant Shrunk(states, order, states0, order0)
      {
        EvictOldest(sidecars, states, order, states0, order0);
        var oldest := order[0];
        states := states - {oldest};
        order := order[1..];
      }
    }

    method ReadReplayFrames(c: ConvId, ack: nat, now: int) returns (entries: seq<Entry>)
      ensures entries == Replayable(LogOf(DiskView(), c), ack, now, cfg)
    {
      if c !in logs { return []; }
      var log := logs[c];
      var cutoff := now - cfg.ttlMs;
      entries := [];
      for i := 0 to |log|
        invariant entries == Kept(log[..i], ack, now, cfg)
      {
        assert log[..i + 1][..i] == log[..i];
        if !(log[i].tsMs < cutoff || log[i].convSeq <= ack) {
          entries := entries + [log[i]];
        }
      }
      assert log[..|log|] == log;
      entries := SliceLast(SortBySeq(entries), cfg.maxFrames);
    }

    method MaybeCompactReplayLog(c: ConvId, ack: nat, now: int)
      modifies `logs
      ensures logs == if c in old(logs) then PutLog(old(logs), c, Replayable(old(logs)[c], ack, now, cfg)) else old(logs)
    {
      if c !in logs { return; }
      var retained := ReadReplayFrames(c, ack, now);
      if |retained| == 0 {
        logs := logs - {c};
      } else {
        logs := logs[c := retained];
      }
    }

    /** Persists a changed sidecar; a cached record, updated in place, changes with it. */
    method Save(c: ConvId, state: CursorState)
      requires CacheValid()
      modifies `states, `sidecars
      ensures CacheValid()
      ensures sidecars == old(sidecars)[c := state.sidecar]
      ensures states == if c in old(states) then old(states)[c := state] else old(states)
    {
      WriteThrough(sidecars, states, order, c, state);
      if c in states {
        states := states[c := state];
      }
      sidecars := sidecars[c := state.sidecar];
    }

    method StampConversationFrame(c: ConvId, payload: Payload, now: int, later: int) returns (stamped: Stamped)
      requires Valid()
      modifies this
      ensures Valid()
      ensures trace == old(trace) + [Stamp(c, payload, now, later, old(Appends(c)) + 1 >= cfg.compactEvery)]
      ensures ReplyAt(cfg, trace, |old(trace)|) == Reply.Emitted(stamped)
      ensures emitted == old(emitted) + [stamped]
      ensures order == Newest(Without(old(order), c) + [c], cfg.cacheMax)
      ensures cfg.cacheMax > 0 ==>
                Appends(c) == if old(Appends(c)) + 1 >= cfg.compactEvery then 0 else old(Appends(c)) + 1
    {
      hide Replayable, Without, Newest, NoDup, After, ReplyAt, CacheAgrees;
      ghost var d := DiskView();
      ghost var e := Stamp(c, payload, now, later, Appends(c) + 1 >= cfg.compactEvery);
      var state := GetState(c);
      var convSeq := state.sidecar.lastAssigned + 1;
      state := state.(sidecar := state.sidecar.(lastAssigned := convSeq));
      Save(c, state);
      stamped := Stamped(c, convSeq, payload, false);
      state := LogAndCount(c, Entry(convSeq, now, payload), later, state);
      Count(c, state);
      emitted := emitted + [stamped];
      Extend(d, e);
    }

    /** Appends to the log, counts the append and compacts when due. */
    method LogAndCount(c: ConvId, entry: Entry, later: int, state: CursorState) returns (counted: CursorState)
      modifies `logs
      ensures var longer := LogOf(old(DiskView()), c) + [entry];
              logs == PutLog(old(logs), c, if state.appends + 1 >= cfg.compactEvery
                                           then Replayable(longer, state.sidecar.lastAck, later, cfg) else longer)
      ensures counted.sidecar == state.sidecar
      ensures counted.appends == if state.appends + 1 >= cfg.compactEvery then 0 else state.appends + 1
    {
      PutTwice(logs, c, LogOf(DiskView(), c) + [entry]);
      logs := logs[c := (if c in logs then logs[c] else []) + [entry]];
      counted := state.(appends := state.appends + 1);
      if counted.appends >= cfg.compactEvery {
        counted := counted.(appends := 0);
        MaybeCompactReplayLog(c, counted.sidecar.lastAck, later);
      }
    }

    /** Records in the trace a request that took the disk from `d` to where it is now. */
    ghost method Extend(d: Disk, e: Event)
      requires d == After(cfg, trace) && DiskView() == StepDisk(cfg, d, e)
      modifies `trace
      ensures trace == old(trace) + [e] && DiskView() == After(cfg, trace)
      ensures ReplyAt(cfg, trace, |old(trace)|) == Answer(cfg, SidecarOf(d, e.c), LogOf(d, e.c), e)
    {
      OneMore(cfg, trace, e);
      trace := trace + [e];
    }

    /** The counter of a cached record, updated in place. */
    method Count(c: ConvId, state: CursorState)
      requires CacheValid() && state.sidecar == Lookup(sidecars, c)
      modifies `states
      ensures CacheValid()
      ensures states == if c in old(states) then old(states)[c := state] else old(states)
    {
      if c in states {
        states := states[c := state];
      }
    }

    method AckConversation(c: ConvId, raw: RawSeq) returns (sidecar: Sidecar)
      requires Valid()
      modifies `states, `order, `sidecars, `trace
      ensures Valid() && trace == old(trace) + [Ack(c, raw)]
      ensures order == Newest(Without(old(order), c) + [c], cfg.cacheMax)
      ensures cfg.cacheMax > 0 ==> Appends(c) == old(Appends(c))
      ensures ReplyAt(cfg, trace, |old(trace)|) == Recorded(sidecar)
    {
      ghost var d := DiskView();
      var ackSeq := NormalizeSeq(raw);
      var state := GetState(c);
      state := state.(sidecar := state.sidecar.(lastAck := Max(state.sidecar.lastAck, ackSeq)));
      Save(c, state);
      sidecar := state.sidecar;
      Extend(d, Ack(c, raw));
    }

    method ResumeConversation(c: ConvId, raw: RawSeq, now: int) returns (result: ResumeResult)
      requires Valid()
      modifies `states, `order, `trace
      ensures Valid() && trace == old(trace) + [Resume(c, raw, now)]
      ensures order == Newest(Without(old(order), c) + [c], cfg.cacheMax)
      ensures cfg.cacheMax > 0 ==> Appends(c) == old(Appends(c))
      ensures ReplyAt(cfg, trace, |old(trace)|) == Resumed(result)
    {
      var afterSeq := NormalizeSeq(raw);
      var state := GetState(c);
      var lastSeq := state.sidecar.lastAssigned;
      var replay := ReadReplayFrames(c, state.sidecar.lastAck, now);
      Extend(DiskView(), Resume(c, raw, now));
      var oldestSeq := if |replay| > 0 then Some(replay[0].convSeq) else None;
      var cursorExpired := afterSeq < lastSeq && (oldestSeq == None || afterSeq + 1 < oldestSeq.value);
      if cursorExpired {
        return ResumeResult(false, true, afterSeq, oldestSeq, lastSeq, []);
      }
      var frames := ReplayedFrames(replay, c, afterSeq);
      result := ResumeResult(true, false, afterSeq, oldestSeq, lastSeq, frames);
    }

    method ReplayedFrames(replay: seq<Entry>, c: ConvId, afterSeq: nat) returns (frames: seq<Stamped>)
      ensures frames == Above(replay, c, afterSeq)
    {
      frames := [];
      for i := 0 to |replay|
        invariant frames == Above(replay[..i], c, afterSeq)
      {
        assert replay[..i + 1][..i] == replay[..i];
        if replay[i].convSeq > afterSeq {
          frames := frames + [Stamped(c, replay[i].convSeq, replay[i].payload, true)];
        }
      }
      assert replay[..|replay|] == replay;
    }

    /** The process dies between the sidecar write and the log append; memory is gone. */
    method StampAndDie(c: ConvId)
      requires Valid()
      modifies `states, `order, `sidecars, `trace
      ensures Valid() && states == map[] && trace == old(trace) + [StampThenCrash(c)]
    {
      ghost var d := DiskView();
      var state := GetState(c);
      sidecars := sidecars[c := state.sidecar.(lastAssigned := state.sidecar.lastAssigned + 1)];
      states, order := map[], [];
      Extend(d, StampThenCrash(c));
    }

    /** A restart, or the test hook that empties the cache. */
    method ResetCache()
      requires Valid()
      modifies `states, `order
      ensures Valid() && states == map[]
    {
      states, order := map[], [];
    }
  }
}
