/**
 * The replay log of one conversation: which of its frames can still be replayed, and why
 * dropping the others is harmless.
 */
module ReplayLog {
  import opened Basics

  type ConvId = string
  type Payload = string

  datatype Config = Config(ttlMs: int, maxFrames: nat, cacheMax: nat, compactEvery: nat)

  datatype Sidecar = Sidecar(lastAssigned: nat, lastAck: nat)

  /** One line of the replay log. */
  datatype Entry = Entry(convSeq: nat, tsMs: int, payload: Payload)

  datatype CursorState = CursorState(sidecar: Sidecar, appends: nat)

  datatype Stamped = Stamped(conv: ConvId, convSeq: nat, payload: Payload, replayed: bool)

  /** A client-supplied sequence number before normalisation. */
  datatype RawSeq = NotFinite | Finite(value: real)

  datatype ResumeResult =
    ResumeResult(ok: bool, cursorExpired: bool, afterSeq: nat, oldestSeq: Option<nat>, lastSeq: nat, frames: seq<Stamped>)

  function NormalizeSeq(raw: RawSeq): nat {
    if raw.Finite? && raw.value > 0.0 then raw.value.Floor else 0
  }

  /** The whole number a raw one stands for: its floor, or none below it if it is negative or not finite. */
  predicate StandsFor(raw: RawSeq, n: nat) {
    if raw.Finite? && raw.value >= 0.0 then n as real <= raw.value < n as real + 1.0 else n == 0
  }

  lemma NormalizedStandsFor(raw: RawSeq)
    ensures StandsFor(raw, NormalizeSeq(raw))
    ensures forall n: nat :: StandsFor(raw, n) ==> n == NormalizeSeq(raw)
  {
  }

  // ----- the log and its replayable part ---------------------------------------------

  predicate Keep(e: Entry, ack: nat, now: int, cfg: Config) {
    !(e.tsMs < now - cfg.ttlMs || e.convSeq <= ack)
  }

  function Kept(log: seq<Entry>, ack: nat, now: int, cfg: Config): seq<Entry> {
    if log == [] then []
    else Kept(log[..|log| - 1], ack, now, cfg) + (if Keep(log[|log| - 1], ack, now, cfg) then [log[|log| - 1]] else [])
  }

  function Insert(e: Entry, s: seq<Entry>): seq<Entry> {
    if s == [] || s[|s| - 1].convSeq <= e.convSeq then s + [e]
    else Insert(e, s[..|s| - 1]) + [s[|s| - 1]]
  }

  /** Stable sort by sequence number. */
  function SortBySeq(s: seq<Entry>): seq<Entry> {
    if s == [] then [] else Insert(s[|s| - 1], SortBySeq(s[..|s| - 1]))
  }

  /** JavaScript's `slice(-n)`; a count of zero keeps everything. */
  function SliceLast<T>(s: seq<T>, n: nat): seq<T> {
    if n == 0 || |s| <= n then s else s[|s| - n..]
  }

  function Replayable(log: seq<Entry>, ack: nat, now: int, cfg: Config): seq<Entry> {
    SliceLast(SortBySeq(Kept(log, ack, now, cfg)), cfg.maxFrames)
  }

  predicate Ordered(log: seq<Entry>) {
    forall i, j :: 0 <= i < j < |log| ==> log[i].convSeq < log[j].convSeq && log[i].tsMs <= log[j].tsMs
  }

  /** Frame i of the log can never be replayed again: acknowledged, expired or not among the newest `maxFrames`. */
  predicate Dead(log: seq<Entry>, i: nat, ack: nat, now: int, cfg: Config)
    requires i < |log|
  {
    !Keep(log[i], ack, now, cfg) || (cfg.maxFrames > 0 && i + cfg.maxFrames < |log|)
  }

  lemma {:induction false} SortOrdered(s: seq<Entry>)
    requires Ordered(s)
    ensures SortBySeq(s) == s
  {
    if s != [] {
      SortOrdered(s[..|s| - 1]);
      assert s == s[..|s| - 1] + [s[|s| - 1]];
    }
  }

  predicate BySeq(s: seq<Entry>) {
    forall i, j :: 0 <= i < j < |s| ==> s[i].convSeq <= s[j].convSeq
  }

  /** The entries with one number, in order. */
  function Numbered(s: seq<Entry>, n: nat): seq<Entry> {
    if s == [] then [] else Numbered(s[..|s| - 1], n) + (if s[|s| - 1].convSeq == n then [s[|s| - 1]] else [])
  }

  lemma {:induction false} InsertPermutes(e: Entry, s: seq<Entry>)
    ensures multiset(Insert(e, s)) == multiset(s + [e])
  {
    if s != [] && s[|s| - 1].convSeq > e.convSeq {
      InsertPermutes(e, s[..|s| - 1]);
      assert s == s[..|s| - 1] + [s[|s| - 1]];
    }
  }

  lemma {:induction false} InsertSorts(e: Entry, s: seq<Entry>)
    requires BySeq(s)
    ensures BySeq(Insert(e, s))
  {
    if s != [] && s[|s| - 1].convSeq > e.convSeq {
      var front, last := s[..|s| - 1], s[|s| - 1];
      InsertSorts(e, front);
      InsertPermutes(e, front);
      hide Insert;
      var inserted := Insert(e, front);
      forall i | 0 <= i < |inserted| ensures inserted[i].convSeq <= last.convSeq {
        assert inserted[i] in multiset(front + [e]);
        FromFront(front, e, inserted[i], last);
      }
    }
  }

  lemma FromFront(front: seq<Entry>, e: Entry, x: Entry, last: Entry)
    requires x in multiset(front + [e]) && BySeq(front + [last]) && e.convSeq <= last.convSeq
    ensures x.convSeq <= last.convSeq
  {
    assert x in front + [e];
    if x != e {
      var k :| 0 <= k < |front| && front[k] == x;
      assert (front + [last])[k].convSeq <= (front + [last])[|front|].convSeq;
    }
  }

  lemma {:induction false} NumberedConcat(a: seq<Entry>, b: seq<Entry>, n: nat)
    ensures Numbered(a + b, n) == Numbered(a, n) + Numbered(b, n)
  {
    if b == [] {
      assert a + b == a;
    } else {
      assert (a + b)[..|a + b| - 1] == a + b[..|b| - 1];
      NumberedConcat(a, b[..|b| - 1], n);
    }
  }

  lemma {:induction false} InsertIsStable(e: Entry, s: seq<Entry>, n: nat)
    ensures Numbered(Insert(e, s), n) == Numbered(s + [e], n)
  {
    NumberedConcat(s, [e], n);
    assert [e][..0] == [];
    if s != [] && s[|s| - 1].convSeq > e.convSeq {
      var front, last := s[..|s| - 1], s[|s| - 1];
      assert [last][..0] == [];
      InsertIsStable(e, front, n);
      NumberedConcat(front, [e], n);
      NumberedConcat(Insert(e, front), [last], n);
    }
  }

  /** The sort gives the same entries by number, and leaves those of one number in order. */
  lemma {:induction false} SortSorts(s: seq<Entry>, n: nat)
    ensures BySeq(SortBySeq(s)) && multiset(SortBySeq(s)) == multiset(s)
    ensures Numbered(SortBySeq(s), n) == Numbered(s, n)
  {
    hide Insert;
    if s != [] {
      var front, last := s[..|s| - 1], s[|s| - 1];
      SortSorts(front, n);
      InsertSorts(last, SortBySeq(front));
      InsertPermutes(last, SortBySeq(front));
      InsertIsStable(last, SortBySeq(front), n);
      NumberedConcat(SortBySeq(front), [last], n);
      NumberedConcat(front, [last], n);
      assert s == front + [last];
    }
  }

  /** In an ordered log what survives the filter is a suffix. */
  lemma {:induction false} KeptIsSuffix(log: seq<Entry>, k: nat, ack: nat, now: int, cfg: Config)
    requires Ordered(log) && k <= |log|
    requires forall i :: 0 <= i < k ==> !Keep(log[i], ack, now, cfg)
    requires forall i :: k <= i < |log| ==> Keep(log[i], ack, now, cfg)
    ensures Kept(log, ack, now, cfg) == log[k..]
  {
    if log != [] {
      var front := log[..|log| - 1];
      if k == |log| {
        KeptIsSuffix(front, k - 1, ack, now, cfg);
      } else {
        KeptIsSuffix(front, k, ack, now, cfg);
        assert log[k..] == front[k..] + [log[|log| - 1]];
      }
    }
  }

  /** Exactly the frames before k are dead. */
  predicate AliveFrom(log: seq<Entry>, k: nat, ack: nat, now: int, cfg: Config) {
    && k <= |log|
    && forall i :: 0 <= i < |log| ==> (Dead(log, i, ack, now, cfg) <==> i < k)
  }

  lemma FindKept(log: seq<Entry>, ack: nat, now: int, cfg: Config) returns (k: nat)
    requires Ordered(log)
    ensures k <= |log|
    ensures forall i :: 0 <= i < |log| ==> (Keep(log[i], ack, now, cfg) <==> k <= i)
  {
    k := 0;
    while k < |log| && !Keep(log[k], ack, now, cfg)
      invariant k <= |log|
      invariant forall i :: 0 <= i < k ==> !Keep(log[i], ack, now, cfg)
    {
      k := k + 1;
    }
  }

  lemma AliveAfter(log: seq<Entry>, j: nat, k: nat, ack: nat, now: int, cfg: Config)
    requires j <= |log| && forall i :: 0 <= i < |log| ==> (Keep(log[i], ack, now, cfg) <==> j <= i)
    requires k == if cfg.maxFrames > 0 && j + cfg.maxFrames < |log| then |log| - cfg.maxFrames else j
    ensures AliveFrom(log, k, ack, now, cfg)
  {
  }

  /** In an ordered log the dead frames come first, and what can be replayed is exactly the rest. */
  lemma ReplayableIsAliveSuffix(log: seq<Entry>, ack: nat, now: int, cfg: Config) returns (k: nat)
    requires Ordered(log)
    ensures AliveFrom(log, k, ack, now, cfg)
    ensures Replayable(log, ack, now, cfg) == log[k..]
  {
    var j := FindKept(log, ack, now, cfg);
    k := if cfg.maxFrames > 0 && j + cfg.maxFrames < |log| then |log| - cfg.maxFrames else j;
    assert AliveFrom(log, k, ack, now, cfg) by { AliveAfter(log, j, k, ack, now, cfg); }
    assert SortBySeq(Kept(log, ack, now, cfg)) == log[j..] by {
      KeptIsSuffix(log, j, ack, now, cfg);
      OrderedSuffix(log, j);
      SortOrdered(log[j..]);
    }
  }

  lemma OrderedSuffix(full: seq<Entry>, s: nat)
    requires Ordered(full) && s <= |full|
    ensures Ordered(full[s..])
  {
    assert forall i :: 0 <= i < |full| - s ==> full[s..][i] == full[i + s];
  }

  /** `log` is `full` with some dead frames dropped from its front. */
  predicate DropsOnlyDead(log: seq<Entry>, full: seq<Entry>, ack: nat, now: int, cfg: Config) {
    && |log| <= |full|
    && log == full[|full| - |log|..]
    && forall i :: 0 <= i < |full| - |log| ==> Dead(full, i, ack, now, cfg)
  }

  lemma DeadStaysDead(log: seq<Entry>, full: seq<Entry>, more: seq<Entry>, ack: nat, now: int, ack': nat, now': int, cfg: Config)
    requires DropsOnlyDead(log, full, ack, now, cfg)
    requires ack <= ack' && now <= now'
    ensures DropsOnlyDead(log + more, full + more, ack', now', cfg)
  {
    assert forall i :: 0 <= i < |full| - |log| ==> Dead(full, i, ack, now, cfg) ==> Dead(full + more, i, ack', now', cfg);
  }

  lemma SameAlive(log: seq<Entry>, k: nat, full: seq<Entry>, kf: nat, ack: nat, now: int, cfg: Config)
    requires DropsOnlyDead(log, full, ack, now, cfg)
    requires AliveFrom(log, k, ack, now, cfg) && AliveFrom(full, kf, ack, now, cfg)
    ensures kf == |full| - |log| + k
  {
    var s := |full| - |log|;
    assert forall i :: 0 <= i < |log| ==> log[i] == full[i + s];
    assert kf < |full| ==> !Dead(full, kf, ack, now, cfg);
    assert s <= kf;
    assert k < |log| ==> !Dead(log, k, ack, now, cfg) && !Dead(full, k + s, ack, now, cfg);
    assert kf < |full| ==> !Dead(log, kf - s, ack, now, cfg);
  }

  lemma LaterDead(log: seq<Entry>, full: seq<Entry>, ack: nat, now: int, ack': nat, now': int, cfg: Config)
    requires DropsOnlyDead(log, full, ack, now, cfg)
    requires ack <= ack' && now <= now'
    ensures DropsOnlyDead(log, full, ack', now', cfg)
  {
    assert forall i :: 0 <= i < |full| - |log| ==> Dead(full, i, ack, now, cfg) ==> Dead(full, i, ack', now', cfg);
  }

  /** A log that lost only dead frames answers like the full one, and again loses only dead frames. */
  lemma SameReplay(log: seq<Entry>, full: seq<Entry>, ack: nat, now: int, cfg: Config)
    requires Ordered(full) && DropsOnlyDead(log, full, ack, now, cfg)
    ensures Replayable(log, ack, now, cfg) == Replayable(full, ack, now, cfg)
    ensures DropsOnlyDead(Replayable(log, ack, now, cfg), full, ack, now, cfg)
  {
    OrderedSuffix(full, |full| - |log|);
    var k := ReplayableIsAliveSuffix(log, ack, now, cfg);
    var kf := ReplayableIsAliveSuffix(full, ack, now, cfg);
    SameAlive(log, k, full, kf, ack, now, cfg);
    AliveSuffixDropsOnlyDead(full, kf, ack, now, cfg);
    assert log[k..] == full[kf..];
  }

  lemma AliveSuffixDropsOnlyDead(full: seq<Entry>, k: nat, ack: nat, now: int, cfg: Config)
    requires AliveFrom(full, k, ack, now, cfg)
    ensures DropsOnlyDead(full[k..], full, ack, now, cfg)
  {
  }
}
