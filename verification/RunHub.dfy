/**
 * The run handle and the subscription code, with their loops: appending with fan-out,
 * reading the log file, bridging from the ring, and the timers.
 */
module RunHub {
  import opened Basics
  import opened RunFrameLog
  import opened RunEnding

  class Hub {
    var log: seq<Entry>
    var count: nat
    var ring: seq<Entry>
    var handle: Handle
    var status: Status
    var subs: seq<Sub>
    ghost var trace: seq<Event>

    function View(): World
      reads this
    {
      World(log, count, ring, handle, status, subs)
    }

    ghost predicate Valid()
      reads this
    {
      View() == Run(trace)
    }

    constructor ()
      ensures Valid() && trace == []
    {
      log, count, ring, handle, status, subs, trace := [], 0, [], Active, Running, [], [];
    }

    ghost method Extend(w: World, e: Event)
      requires w == Run(trace) && View() == Step(w, e)
      modifies `trace
      ensures trace == old(trace) + [e] && Valid()
    {
      assert (trace + [e])[..|trace|] == trace;
      trace := trace + [e];
    }

    method AppendRunFrame(frame: Frame) returns (seqNo: int)
      requires Valid()
      modifies this
      ensures Valid() && trace == old(trace) + [Append(frame)]
      ensures seqNo == if old(handle).Gone? then -1 else old(count) + 1
      ensures ByLine(trace) && !handle.Gone? ==> seqNo == |log|
    {
      hide Run, Newest, ByLine;
      ghost var w := View();
      if handle.Gone? {
        seqNo := -1;
      } else {
        count := count + 1;
        var entry := Entry(count, frame);
        log := log + [entry];
        RunFits(trace);
        ring := ring + [entry];
        PushShift(w.ring, entry);
        if |ring| > RING_MAX {
          ring := ring[1..];
        }
        subs := NotifyAll(subs, entry);
        seqNo := count;
      }
      Extend(w, Append(frame));
      if ByLine(trace) { NumberIsLine(trace); }
    }

    /** appendRunFrameOnDisk: the file alone, numbered by its lines. */
    method AppendOnDisk(frame: Frame) returns (seqNo: Number)
      requires Valid()
      modifies this
      ensures Valid() && trace == old(trace) + [RunFrameLog.AppendOnDisk(frame)]
      ensures log == old(log) + [Entry(seqNo, frame)] && seqNo == |log| && ring == old(ring) && subs == old(subs)
    {
      hide Run;
      ghost var w := View();
      seqNo := |log| + 1;
      log := log + [Entry(seqNo, frame)];
      Extend(w, RunFrameLog.AppendOnDisk(frame));
    }

    /** The host writes synthesized tool results, one line each, counting its numbers up from 900001. */
    method AppendSynthesized(frames: seq<Frame>)
      requires Valid()
      modifies this
      ensures Valid() && ring == old(ring) && subs == old(subs) && |log| == |old(log)| + |frames|
      ensures old(log) <= log && forall k :: 0 <= k < |frames| ==> log[|old(log)| + k] == Entry(900001 + k, frames[k])
    {
      hide Run;
      var synthSeq := 900000;
      for i := 0 to |frames|
        invariant Valid() && ring == old(ring) && subs == old(subs) && |log| == |old(log)| + i && synthSeq == 900000 + i
        invariant old(log) <= log && forall k :: 0 <= k < i ==> log[|old(log)| + k] == Entry(900001 + k, frames[k])
      {
        ghost var w := View();
        synthSeq := synthSeq + 1;
        log := log + [Entry(synthSeq, frames[i])];
        Extend(w, AppendAs(synthSeq, frames[i]));
      }
    }

    method NotifyTerminal(name: string)
      modifies `subs
      ensures subs == SentinelAll(old(subs), name)
    {
      var i, all := 0, [];
      while i < |subs|
        invariant i <= |subs| && all == SentinelAll(subs, name)[..i]
      {
        all := all + [Sentinel(subs[i], name)];
        i := i + 1;
      }
      subs := all;
    }

    method FinalizeRun(name: string, userStopped: bool)
      requires Valid()
      modifies this
      ensures Valid() && trace == old(trace) + [Finalize(name, userStopped)]
      ensures old(handle).Active? ==> status == Terminal(name, userStopped) && |subs| == |old(subs)|
      ensures old(handle).Active? ==> forall k :: 0 <= k < |subs| && old(subs)[k].listening ==> subs[k].draining == Some(name)
    {
      hide Run;
      RunDrains(trace);
      ghost var w := View();
      if handle.Active? {
        status := Terminal(name, userStopped);
        handle := Grace;
        NotifyTerminal(name);
      }
      Extend(w, Finalize(name, userStopped));
    }

    /** finalizeRunOnDisk: through the handle if there is one, else by rewriting the record of a running run. */
    method FinalizeOnDisk(name: string) returns (flipped: bool)
      requires Valid()
      modifies this
      ensures Valid() && trace == old(trace) + [RunFrameLog.FinalizeOnDisk(name)]
      ensures status.Terminal? && flipped == old(status).Running? && (!flipped ==> status == old(status))
    {
      hide Run;
      ghost var w := View();
      RunFits(trace);
      flipped := status.Running?;
      if handle.Active? {
        status := Terminal(name, false);
        handle := Grace;
        NotifyTerminal(name);
      } else if flipped {
        status := Terminal(name, false);
      }
      Extend(w, RunFrameLog.FinalizeOnDisk(name));
    }

    /** The process dies: the handle, its ring and every subscription go, the files stay. */
    method Restart()
      requires Valid()
      modifies this
      ensures Valid() && trace == old(trace) + [RunFrameLog.Restart] && log == old(log) && status == old(status)
      ensures handle.Gone? && forall k :: 0 <= k < |subs| ==> subs[k].stopped
    {
      hide Run;
      ghost var w := View();
      handle, ring, subs := Gone, [], StopAll(subs);
      Extend(w, RunFrameLog.Restart);
    }

    /** The boot sweep: a run still marked running is failed and gets its closing frames. */
    method SweepOnBoot(stop: Frame, turnDone: Frame) returns (swept: bool)
      requires Valid() && handle.Gone?
      modifies this
      ensures Valid() && swept == old(status).Running? && status.Terminal? && subs == old(subs) && handle.Gone?
      ensures log == if swept then old(log) + [Entry(|old(log)| + 1, stop), Entry(|old(log)| + 2, turnDone)] else old(log)
    {
      swept := status.Running?;
      if swept {
        swept := FinalizeOnDisk("failed");
        var _ := AppendOnDisk(stop);
        var _ := AppendOnDisk(turnDone);
      }
    }

    method GraceTimerFires()
      requires Valid()
      modifies this
      ensures Valid() && trace == old(trace) + [GraceExpires]
    {
      hide Run;
      ghost var w := View();
      if handle.Grace? {
        handle := Gone;
        ring := [];
        subs := DropListeners(subs);
      }
      Extend(w, GraceExpires);
    }

    /** Reads the whole file and delivers every line above the last one sent. */
    method Read(s: Sub) returns (r: Sub)
      ensures r == ReadAndEmit(s, log)
    {
      r := Deliver(s, log);
    }

    method CheckTerminalAndMaybeFinish(s: Sub) returns (r: Sub)
      ensures r == CheckTerminal(s, log, status)
    {
      hide ReadAndEmit;
      if s.stopped || status.Running? { return s; }
      r := Read(s);
      r := Stop(r.(done := Some(Done(r.lastSent, status.name, false))));
    }

    method SubscribeToRun(cursor: int) returns (i: nat)
      requires Valid()
      modifies this
      ensures Valid() && trace == old(trace) + [Subscribe(cursor)]
      ensures i == |old(subs)| && |subs| == i + 1
    {
      hide Run, ReadAndEmit, CheckTerminal;
      ghost var w := View();
      i := |subs|;
      var s := NewSub(cursor);
      if |log| == 0 {
        s := Stop(s.(notFound := true));
      } else if status.Terminal? && status.userStopped {
        s := Stop(s.(done := Some(Done(s.lastSent, status.name, true))));
      } else {
        s := Read(s);
        s := CheckTerminalAndMaybeFinish(s);
      }
      subs := subs + [s];
      Extend(w, Subscribe(cursor));
    }

    /** Attaches to the live fan-out, filling a gap from disk and the rest from the ring; or watches the file. */
    method AttachLive(i: nat)
      requires Valid() && i < |subs|
      modifies this
      ensures Valid() && trace == old(trace) + [Attach(i)]
    {
      hide Run, ReadAndEmit, CheckTerminal, EmitAll, Above;
      ghost var w := View();
      var s := subs[i];
      if !s.stopped && s.phase == CaughtUp {
        if handle.Gone? {
          s := s.(phase := Watching);
        } else {
          var pending := RingAbove(ring, s.lastSent);
          s := s.(phase := Live, listening := true);
          if |pending| > 0 && pending[0].seqNo > s.lastSent + 1 {
            s := Read(s);
          }
          s := Deliver(s, pending);
          s := CheckTerminalAndMaybeFinish(s);
        }
      }
      subs := subs[i := s];
      Extend(w, Attach(i));
    }

    method DrainTimerFires(i: nat)
      requires Valid() && i < |subs| && subs[i].draining.Some?
      modifies this
      ensures Valid() && trace == old(trace) + [DrainFires(i)]
    {
      hide Run, ReadAndEmit;
      ghost var w := View();
      var s := subs[i];
      if !s.stopped {
        var r := Read(s);
        r := Stop(r.(done := Some(Done(r.lastSent, s.draining.value, false))));
        subs := subs[i := r];
      }
      Extend(w, DrainFires(i));
    }

    method FileChanged(i: nat)
      requires Valid() && i < |subs|
      modifies this
      ensures Valid() && trace == old(trace) + [WatchFires(i)]
    {
      hide Run, ReadAndEmit, CheckTerminal;
      ghost var w := View();
      var s := subs[i];
      if s.phase.Watching? && !s.stopped {
        s := Read(s);
        s := CheckTerminalAndMaybeFinish(s);
        subs := subs[i := s];
      }
      Extend(w, WatchFires(i));
    }

    method Close(i: nat)
      requires Valid() && i < |subs|
      modifies this
      ensures Valid() && trace == old(trace) + [Unsubscribe(i)]
    {
      hide Run;
      ghost var w := View();
      subs := subs[i := Stop(subs[i])];
      Extend(w, Unsubscribe(i));
    }
  }

  /** In a run by line numbers a frame appended gets the number of its line. */
  lemma NumberIsLine(trace: seq<Event>)
    requires ByLine(trace) && trace != [] && trace[|trace| - 1].Append?
    ensures Run(trace).handle.Gone? || Run(trace).count == |Run(trace).log|
  {
    hide ByLine, Numbered;
    ByLineFront(trace);
    RunCounts(trace[..|trace| - 1]);
  }

  lemma PushShift(ring: seq<Entry>, e: Entry)
    requires |ring| <= RING_MAX
    ensures var pushed := ring + [e];
            Newest(pushed, RING_MAX) == if |pushed| > RING_MAX then pushed[1..] else pushed
  {
  }

  method NotifyAll(subs: seq<Sub>, e: Entry) returns (all: seq<Sub>)
    ensures all == HeardAll(subs, e)
  {
    var i := 0;
    all := [];
    while i < |subs|
      invariant i <= |subs| && all == HeardAll(subs, e)[..i]
    {
      var s := subs[i];
      if s.listening && !s.stopped && e.seqNo > s.lastSent {
        s := s.(delivered := s.delivered + [e], lastSent := e.seqNo);
      }
      all := all + [s];
      i := i + 1;
    }
  }

  /** Delivers the entries in order, skipping those already sent. */
  method Deliver(s: Sub, es: seq<Entry>) returns (r: Sub)
    ensures r == EmitAll(s, es)
  {
    r := s;
    for k := 0 to |es|
      invariant r == EmitAll(s, es[..k])
    {
      assert es[..k + 1][..k] == es[..k];
      if !r.stopped && es[k].seqNo > r.lastSent {
        r := r.(delivered := r.delivered + [es[k]], lastSent := es[k].seqNo);
      }
    }
    assert es[..|es|] == es;
  }

  method RingAbove(ring: seq<Entry>, n: nat) returns (r: seq<Entry>)
    ensures r == Above(ring, n)
  {
    r := [];
    for k := 0 to |ring|
      invariant r == Above(ring[..k], n)
    {
      assert ring[..k + 1][..k] == ring[..k];
      if ring[k].seqNo > n {
        r := r + [ring[k]];
      }
    }
    assert ring[..|ring|] == ring;
  }
}
