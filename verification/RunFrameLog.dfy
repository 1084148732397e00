/**
 * The frame log of one run, and subscribers that replay it from a cursor and then follow it
 * live: a disk log, a bounded ring of the newest frames, listeners, a terminal sentinel and a
 * drain before a subscription reports that it is done.
 *
 * Every callback and timer is a step; a subscription's catch-up read and its attachment to
 * the live fan-out are two steps, so anything may happen in between. Frames also reach the
 * log past the handle: the boot sweep and the shutdown finalizer write to the file alone, and
 * so does the host for synthesized tool results, under numbers of its own.
 */
module RunFrameLog {
  import opened Basics

  type Frame = string

  const RING_MAX: nat := 256

  /** Frames are numbered from 1. */
  type Number = n: nat | 0 < n witness 1

  datatype Entry = Entry(seqNo: Number, frame: Frame)

  /** The in-memory handle: accepting frames, accepting late ones for a while after the end, or gone. */
  datatype Handle = Active | Grace | Gone

  datatype Status = Running | Terminal(name: string, userStopped: bool)

  datatype Done = Done(lastSeq: nat, status: string, userStopped: bool)

  datatype Phase = CaughtUp | Live | Watching

  datatype Sub = Sub(
    cursor: nat,
    lastSent: nat,
    phase: Phase,
    listening: bool,
    draining: Option<string>,
    stopped: bool,
    delivered: seq<Entry>,
    done: Option<Done>,
    notFound: bool)

  /** The lines of the log file, and the handle's own count of the frames it appended. */
  datatype World = World(log: seq<Entry>, count: nat, ring: seq<Entry>, handle: Handle, status: Status, subs: seq<Sub>)

  const START: World := World([], 0, [], Active, Running, [])

  datatype Event =
    | Append(frame: Frame)
    | AppendOnDisk(frame: Frame)
    | AppendAs(seqNo: Number, frame: Frame)
    | Finalize(name: string, userStopped: bool)
    | FinalizeOnDisk(name: string)
    | GraceExpires
    | Restart
    | Subscribe(cursor: int)
    | Attach(i: nat)
    | DrainFires(i: nat)
    | WatchFires(i: nat)
    | Unsubscribe(i: nat)

  // ----- one subscription ---------------------------------------------------------------------

  /** A frame reaches the subscription. */
  function Emit(s: Sub, e: Entry): Sub {
    if s.stopped || e.seqNo <= s.lastSent then s
    else s.(delivered := s.delivered + [e], lastSent := e.seqNo)
  }

  function EmitAll(s: Sub, es: seq<Entry>): Sub {
    if es == [] then s else Emit(EmitAll(s, es[..|es| - 1]), es[|es| - 1])
  }

  function ReadAndEmit(s: Sub, log: seq<Entry>): Sub {
    EmitAll(s, log)
  }

  function Stop(s: Sub): Sub {
    s.(stopped := true, listening := false, draining := None)
  }

  function Finish(s: Sub, log: seq<Entry>, status: string): Sub {
    var read := ReadAndEmit(s, log);
    Stop(read.(done := Some(Done(read.lastSent, status, false))))
  }

  function CheckTerminal(s: Sub, log: seq<Entry>, status: Status): Sub {
    if s.stopped || status.Running? then s else Finish(s, log, status.name)
  }

  function NewSub(cursor: int): Sub {
    var from: nat := if cursor < 0 then 0 else cursor;
    Sub(from, from, CaughtUp, false, None, false, [], None, false)
  }

  function Subscribed(w: World, cursor: int): Sub {
    var s := NewSub(cursor);
    if w.log == [] then Stop(s.(notFound := true))
    else if w.status.Terminal? && w.status.userStopped then
      Stop(s.(done := Some(Done(s.lastSent, w.status.name, true))))
    else CheckTerminal(ReadAndEmit(s, w.log), w.log, w.status)
  }

  /** The entries of a sequence above a number. */
  function Above(es: seq<Entry>, n: nat): seq<Entry> {
    if es == [] then [] else Above(es[..|es| - 1], n) + (if es[|es| - 1].seqNo > n then [es[|es| - 1]] else [])
  }

  function Attached(w: World, s: Sub): Sub {
    if s.stopped || s.phase != CaughtUp then s
    else if w.handle.Gone? then s.(phase := Watching)
    else
      var live := s.(phase := Live, listening := true);
      var ring := Above(w.ring, s.lastSent);
      var bridged := if ring != [] && ring[0].seqNo > s.lastSent + 1 then ReadAndEmit(live, w.log) else live;
      CheckTerminal(EmitAll(bridged, ring), w.log, w.status)
  }

  function Sentinel(s: Sub, status: string): Sub {
    if !s.listening || s.stopped || s.draining.Some? then s else s.(draining := Some(status))
  }

  function Heard(s: Sub, e: Entry): Sub {
    if s.listening then Emit(s, e) else s
  }

  // ----- one step of the world ------------------------------------------------------------------

  function HeardAll(subs: seq<Sub>, e: Entry): seq<Sub> {
    seq(|subs|, k requires 0 <= k < |subs| => Heard(subs[k], e))
  }

  function SentinelAll(subs: seq<Sub>, status: string): seq<Sub> {
    seq(|subs|, k requires 0 <= k < |subs| => Sentinel(subs[k], status))
  }

  function DropListeners(subs: seq<Sub>): seq<Sub> {
    seq(|subs|, k requires 0 <= k < |subs| => subs[k].(listening := false))
  }

  function StopAll(subs: seq<Sub>): seq<Sub> {
    seq(|subs|, k requires 0 <= k < |subs| => Stop(subs[k]))
  }

  function Finalized(w: World, name: string, userStopped: bool): World {
    w.(handle := Grace, status := Terminal(name, userStopped), subs := SentinelAll(w.subs, name))
  }

  function Step(w: World, e: Event): World {
    match e
    case Append(frame) =>
      if w.handle.Gone? then w
      else
        var entry := Entry(w.count + 1, frame);
        w.(log := w.log + [entry], count := w.count + 1, ring := Newest(w.ring + [entry], RING_MAX),
           subs := HeardAll(w.subs, entry))
    case AppendOnDisk(frame) => w.(log := w.log + [Entry(|w.log| + 1, frame)])
    case AppendAs(seqNo, frame) => w.(log := w.log + [Entry(seqNo, frame)])
    case Finalize(name, userStopped) => if w.handle.Active? then Finalized(w, name, userStopped) else w
    case FinalizeOnDisk(name) =>
      if w.handle.Active? then Finalized(w, name, false)
      else if w.status.Running? then w.(status := Terminal(name, false))
      else w
    case GraceExpires =>
      if !w.handle.Grace? then w else w.(handle := Gone, ring := [], subs := DropListeners(w.subs))
    case Restart => w.(handle := Gone, ring := [], subs := StopAll(w.subs))
    case Subscribe(cursor) => w.(subs := w.subs + [Subscribed(w, cursor)])
    case Attach(i) => if i >= |w.subs| then w else w.(subs := w.subs[i := Attached(w, w.subs[i])])
    case DrainFires(i) =>
      if i >= |w.subs| || w.subs[i].draining.None? || w.subs[i].stopped then w
      else w.(subs := w.subs[i := Finish(w.subs[i], w.log, w.subs[i].draining.value)])
    case WatchFires(i) =>
      if i >= |w.subs| || !w.subs[i].phase.Watching? || w.subs[i].stopped then w
      else w.(subs := w.subs[i := CheckTerminal(ReadAndEmit(w.subs[i], w.log), w.log, w.status)])
    case Unsubscribe(i) => if i >= |w.subs| then w else w.(subs := w.subs[i := Stop(w.subs[i])])
  }

  function Run(es: seq<Event>): World {
    if es == [] then START else Step(Run(es[..|es| - 1]), es[|es| - 1])
  }

  lemma RunSnoc(es: seq<Event>, k: nat)
    requires k < |es|
    ensures Run(es[..k + 1]) == Step(Run(es[..k]), es[k]) && Run(es[..0]) == START
  {
    assert es[..k + 1][..k] == es[..k];
  }

  lemma LogGrows(w: World, e: Event)
    ensures w.log <= Step(w, e).log
  {
  }

  // ----- numbers -----------------------------------------------------------------------------------

  function Max(a: nat, b: nat): nat { if a < b then b else a }

  /** The number of the last line. */
  function LastNumber(log: seq<Entry>): nat {
    if log == [] then 0 else log[|log| - 1].seqNo
  }

  /** Later lines carry greater numbers. */
  predicate Rises(log: seq<Entry>) {
    forall i, j :: 0 <= i < j < |log| ==> log[i].seqNo < log[j].seqNo
  }

  /** Every line carries its line number. */
  predicate Numbered(log: seq<Entry>) {
    forall k :: 0 <= k < |log| ==> log[k].seqNo == k + 1
  }

  /** The file has lines its live handle did not count. */
  predicate Behind(w: World) {
    !w.handle.Gone? && w.count < |w.log|
  }

  /** A frame enters the file, if at all, under a number above that of the last line. */
  predicate InOrder(w: World, e: Event) {
    match e
    case Append(_) => w.handle.Gone? || w.count + 1 > LastNumber(w.log)
    case AppendOnDisk(_) => |w.log| + 1 > LastNumber(w.log)
    case AppendAs(seqNo, _) => seqNo > LastNumber(w.log)
    case _ => true
  }

  predicate Orderly(es: seq<Event>) {
    forall k :: 0 <= k < |es| ==> InOrder(Run(es[..k]), es[k])
  }

  /** A frame enters the file under the number of its line: not through a handle behind the file, nor as another number. */
  predicate InLine(w: World, e: Event) {
    (e.Append? ==> !Behind(w)) && (e.AppendAs? ==> e.seqNo == |w.log| + 1)
  }

  predicate ByLine(es: seq<Event>) {
    forall k :: 0 <= k < |es| ==> InLine(Run(es[..k]), es[k])
  }

  lemma OrderlyFront(es: seq<Event>)
    requires es != []
    ensures var front := es[..|es| - 1];
            Orderly(es) <==> Orderly(front) && InOrder(Run(front), es[|es| - 1])
  {
    hide Run, InOrder;
    var front := es[..|es| - 1];
    assert forall k :: 0 <= k < |front| ==> es[..k] == front[..k] && es[k] == front[k];
  }

  lemma ByLineFront(es: seq<Event>)
    requires es != []
    ensures var front := es[..|es| - 1];
            ByLine(es) <==> ByLine(front) && InLine(Run(front), es[|es| - 1])
  {
    hide Run, InLine;
    var front := es[..|es| - 1];
    assert forall k :: 0 <= k < |front| ==> es[..k] == front[..k] && es[k] == front[k];
  }

  lemma NothingIsOrderly()
    ensures Orderly([]) && ByLine([])
  {
  }

  lemma RisesSnoc(log: seq<Entry>, e: Entry)
    ensures Rises(log + [e]) <==> Rises(log) && e.seqNo > LastNumber(log)
  {
    var all := log + [e];
    if Rises(log) && e.seqNo > LastNumber(log) {
      forall i, j | 0 <= i < j < |all| ensures all[i].seqNo < all[j].seqNo {
        if j == |log| && i < |log| - 1 { assert log[i].seqNo < log[|log| - 1].seqNo; }
      }
    }
    if Rises(all) {
      assert forall i, j :: 0 <= i < j < |log| ==> all[i] == log[i] && all[j] == log[j];
      if log != [] { assert all[|log| - 1].seqNo < all[|log|].seqNo; }
    }
  }

  /** The log rises from step to step exactly while frames enter in order. */
  lemma StepRises(w: World, e: Event)
    ensures Rises(Step(w, e).log) <==> Rises(w.log) && InOrder(w, e)
  {
    hide Rises, HeardAll, Newest;
    match e
    case Append(frame) => RisesSnoc(w.log, Entry(w.count + 1, frame));
    case AppendOnDisk(frame) => RisesSnoc(w.log, Entry(|w.log| + 1, frame));
    case AppendAs(seqNo, frame) => RisesSnoc(w.log, Entry(seqNo, frame));
    case _ =>
  }

  /** In every run the numbers of the log rise if and only if every frame entered above the last line's number. */
  lemma {:induction false} RisesExactly(es: seq<Event>)
    ensures Rises(Run(es).log) <==> Orderly(es)
  {
    hide Step, Orderly, InOrder;
    if es == [] {
      NothingIsOrderly();
      assert Run(es) == START;
    } else {
      var front := es[..|es| - 1];
      RisesExactly(front);
      OrderlyFront(es);
      StepRises(Run(front), es[|es| - 1]);
    }
  }

  /** The numbers of the first lines of a log are at least its line numbers. */
  lemma {:induction false} RisesByOne(log: seq<Entry>)
    requires Rises(log)
    ensures forall k :: 0 <= k < |log| ==> log[k].seqNo >= k + 1
    ensures LastNumber(log) >= |log|
  {
    if log != [] {
      var front := log[..|log| - 1];
      RisesByOne(front);
      if front != [] { assert log[|log| - 2].seqNo < log[|log| - 1].seqNo; }
    }
  }

  lemma NumberedRises(log: seq<Entry>)
    requires Numbered(log)
    ensures Rises(log) && LastNumber(log) == |log|
  {
  }

  predicate Counts(w: World) {
    !w.handle.Gone? ==> w.count <= |w.log|
  }

  lemma StepCounts(w: World, e: Event)
    requires Counts(w)
    ensures Counts(Step(w, e))
    ensures Numbered(Step(w, e).log) <==> Numbered(w.log) && InLine(w, e)
  {
    hide Attached, Subscribed, Finish, CheckTerminal, Newest, HeardAll;
    var v := Step(w, e);
    LogGrows(w, e);
    if |v.log| > |w.log| {
      assert v.log == w.log + [v.log[|w.log|]];
      assert forall k :: 0 <= k < |w.log| ==> v.log[k] == w.log[k];
    }
  }

  lemma {:induction false} RunCounts(es: seq<Event>)
    ensures Counts(Run(es)) && (Numbered(Run(es).log) <==> ByLine(es))
  {
    hide Step, ByLine, Counts, InLine, Numbered;
    if es == [] {
      NothingIsOrderly();
      StartCounts();
    } else {
      var front := es[..|es| - 1];
      RunCounts(front);
      ByLineFront(es);
      StepCounts(Run(front), es[|es| - 1]);
    }
  }

  lemma StartCounts()
    ensures Counts(START) && Numbered(START.log)
  {
  }

  /** Every line of the log carries its line number exactly when every frame entered under it; such a run is orderly. */
  lemma NumberedExactly(es: seq<Event>)
    ensures Numbered(Run(es).log) <==> ByLine(es)
    ensures ByLine(es) ==> Orderly(es)
  {
    hide Run, ByLine, Orderly, Numbered, Rises;
    RunCounts(es);
    RisesExactly(es);
    if ByLine(es) { NumberedRises(Run(es).log); }
  }

  lemma CountStep(w: World, e: Event)
    requires (!w.handle.Gone? ==> w.count == |w.log|) && (e.AppendOnDisk? || e.AppendAs? ==> w.handle.Gone?)
    ensures var v := Step(w, e); !v.handle.Gone? ==> v.count == |v.log|
  {
    hide Attached, Subscribed, Finish, CheckTerminal, Newest;
  }

  /** A handle is never behind while nothing is written past it. */
  lemma {:induction false} NotBehind(es: seq<Event>)
    requires forall k :: 0 <= k < |es| ==> (es[k].AppendOnDisk? ==> Run(es[..k]).handle.Gone?) && !es[k].AppendAs?
    ensures ByLine(es) && !Behind(Run(es)) && (!Run(es).handle.Gone? ==> Run(es).count == |Run(es).log|)
  {
    hide ByLine, Step;
    if es == [] {
      NothingIsOrderly();
      assert Run(es) == START;
    } else {
      var front := es[..|es| - 1];
      assert forall k :: 0 <= k < |front| ==> es[..k] == front[..k] && es[k] == front[k];
      NotBehind(front);
      ByLineFront(es);
      assert (es[|es| - 1].AppendOnDisk? ==> Run(es[..|es| - 1]).handle.Gone?) && !es[|es| - 1].AppendAs?;
      CountStep(Run(front), es[|es| - 1]);
    }
  }
}
