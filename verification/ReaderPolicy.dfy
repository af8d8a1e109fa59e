/** The session's reader thread follows the bulk reader's error policy: over any interleaving it
    leaves its loop exactly at the events the policy names, and a stream nobody stops goes on. */
module ReaderPolicy {
  import opened SampleQueue
  import opened StreamProtocol
  import opened StreamSafety
  import opened StreamLiveness
  import opened Transport

  /** The events the reader's timed waits yielded along a run, in order. */
  function Received(from: Session, run: seq<Action>): seq<Event>
    requires After(from, run).Some?
  {
    if run == [] then []
    else
      var was, a := run[..|run| - 1], run[|run| - 1];
      var m := After(from, was).value;
      if a.Reader? && m.r.RWait? then Received(from, was) + [a.e] else Received(from, was)
  }

  ghost predicate NoneEnds(trace: seq<Event>, size: nat) {
    forall i | 0 <= i < |trace| :: !EndsStream(trace, i, size)
  }

  /** Still polling: neither past the loop nor given up. */
  predicate Polling(r: ReaderPc) {
    r.RHead? || r.RHeadStop? || r.RWait? || r.RAcquire? || r.RHold? || r.RNotify?
  }

  predicate LeftLoop(r: ReaderPc) {
    r.RDrain? || r.RClear? || r.RShut? || r.RShutNotify? || r.RDone?
  }

  /** The reader's count is the passing failures since the last full transfer, and nothing it has
      seen so far ends the stream. */
  ghost predicate CountsTrace(s: Session, trace: seq<Event>) {
    Polling(s.r) ==>
      && s.failures == Failures(trace, AfterLastGood(trace, |trace|, s.size), |trace|, s.size)
      && s.failures <= 64
      && forall i | 0 <= i < |trace| :: !Ends(trace, i, s.size)
  }

  lemma {:induction false} TracePrefix(trace: seq<Event>, more: seq<Event>, a: nat, n: nat, size: nat)
    requires a <= n <= |trace|
    ensures AfterLastGood(trace + more, n, size) == AfterLastGood(trace, n, size)
    ensures Failures(trace + more, a, n, size) == Failures(trace, a, n, size)
  {
    hide Is;
    if n > 0 {
      assert (trace + more)[n - 1] == trace[n - 1];
      if a < n {
        TracePrefix(trace, more, a, n - 1, size);
      } else {
        TracePrefix(trace, more, n - 1, n - 1, size);
      }
    }
  }

  lemma EndsPrefix(trace: seq<Event>, e: Event, i: nat, size: nat)
    requires i < |trace|
    ensures Ends(trace + [e], i, size) <==> Ends(trace, i, size)
  {
    hide Is;
    TracePrefix(trace, [e], AfterLastGood(trace, i, size), i, size);
    assert (trace + [e])[i] == trace[i];
  }

  /** What one received event does to the count, and whether it ends the stream. */
  lemma CountStep(trace: seq<Event>, e: Event, size: nat)
    ensures var t, n := trace + [e], |trace|;
            var was := Failures(trace, AfterLastGood(trace, n, size), n, size);
            && (Ends(t, n, size) <==> Unrecoverable(e) || (Passing(e, size) && was == 64))
            && Failures(t, AfterLastGood(t, n + 1, size), n + 1, size)
               == if FullTransfer(e, size) then 0 else if Passing(e, size) then was + 1 else was
  {
    hide Passing, Unrecoverable, FullTransfer;
    var t, n := trace + [e], |trace|;
    ClassesAre(e, size);
    assert t[n] == e;
    TracePrefix(trace, [e], AfterLastGood(trace, n, size), n, size);
  }

  /** One completed wait of the session, over the events. */
  lemma WaitStep(s: Session, opens: bool, e: Event)
    requires s.r.RWait? && s.failures <= 64
    ensures var z := ReaderStep(s, opens, e);
            && z.size == s.size
            && (FullTransfer(e, s.size) ==> z.r == RAcquire && z.failures == 0 && z.h.good == s.h.good + 1)
            && (Unrecoverable(e) || (Passing(e, s.size) && s.failures == 64) ==> z.r == RDrain(15))
            && (Passing(e, s.size) ==> z.failures == s.failures + 1 && (s.failures < 64 ==> z.r == RHead))
            && (e == Timeout ==> z == s.(r := RHead))
            && (!FullTransfer(e, s.size) ==> z.h == s.h)
            && z.sh == s.sh
  {
  }

  lemma EveryEventIs(e: Event, size: nat)
    ensures e == Timeout || FullTransfer(e, size) || Unrecoverable(e) || Passing(e, size)
    ensures !(FullTransfer(e, size) && (Unrecoverable(e) || Passing(e, size))) && !(Unrecoverable(e) && Passing(e, size))
    ensures e == Timeout ==> !FullTransfer(e, size) && !Unrecoverable(e) && !Passing(e, size)
  {
    match e {
      case Timeout =>
      case Completed(c) =>
        match c {
          case Arrived(_) =>
          case Failed(error) =>
            match error {
              case Disconnected =>
              case Stall =>
              case InvalidArgument =>
              case Cancelled =>
              case Fault =>
              case Unknown =>
            }
        }
    }
  }

  lemma ReaderElsewhereCounts(s: Session, a: Action)
    requires Enabled(s, a) && !(a.Reader? && s.r.RWait?)
    ensures var z := Step(s, a);
            && z.size == s.size && z.failures == s.failures
            && (Polling(z.r) ==> Polling(s.r) || s.r.ROpen?)
  {
  }

  lemma {:induction false} CountsAlways(size: nat, run: seq<Action>)
    requires After(Started(size), run).Some?
    ensures var z := After(Started(size), run).value;
            && z.size == size && CountsTrace(z, Received(Started(size), run))
            && (z.r.ROpen? ==> Received(Started(size), run) == [] && z.failures == 0)
  {
    hide Step, Enabled, Failures, Ends, Passing, FullTransfer, Unrecoverable;
    if run == [] {
      NothingReceived(size);
    } else {
      var was, a := run[..|run| - 1], run[|run| - 1];
      CountsAlways(size, was);
      var m, trace := After(Started(size), was).value, Received(Started(size), was);
      if a.Reader? && m.r.RWait? {
        CountsAfterWait(m, a.opens, a.e, trace);
      } else {
        ReaderElsewhereCounts(m, a);
        OpensOnce(m, a);
        if m.r.ROpen? {
          NoFailuresYet(size);
        }
      }
    }
  }

  lemma NothingReceived(size: nat)
    ensures Received(Started(size), []) == []
  {
  }

  lemma NoFailuresYet(size: nat)
    ensures Failures([], AfterLastGood([], 0, size), 0, size) == 0
  {
  }

  lemma OpensOnce(s: Session, a: Action)
    requires Enabled(s, a)
    ensures Step(s, a).r.ROpen? ==> s.r.ROpen? && Step(s, a).failures == s.failures
  {
  }

  lemma CountsAfterWait(m: Session, opens: bool, e: Event, trace: seq<Event>)
    requires m.r.RWait? && CountsTrace(m, trace)
    ensures var z := Step(m, Reader(opens, e));
            z.size == m.size && CountsTrace(z, trace + [e]) && !z.r.ROpen?
    ensures Step(m, Reader(opens, e)).r.RDrain? <==> Ends(trace + [e], |trace|, m.size)
    ensures Step(m, Reader(opens, e)).r.RDrain? ==> Step(m, Reader(opens, e)).r == RDrain(15)
    ensures Step(m, Reader(opens, e)).r.RAcquire? <==> e == Completed(Arrived(m.size))
  {
    hide Ends, Passing, Unrecoverable, Failures, AfterLastGood, ReaderStep;
    EveryEventIs(e, m.size);
    WaitStep(m, opens, e);
    CountStep(trace, e, m.size);
    forall i | 0 <= i < |trace|
      ensures Ends(trace + [e], i, m.size) <==> Ends(trace, i, m.size)
    {
      EndsPrefix(trace, e, i, m.size);
    }
  }

  /** Over every run of a session: the reader has counted exactly the passing failures since the last
      full transfer, nothing it received so far ends the stream, and the event it is given next makes
      it leave its loop, with the fifteen other transfers to cancel, if and only if that event does. */
  lemma ReaderFollowsPolicy(size: nat, run: seq<Action>, opens: bool, e: Event)
    requires After(Started(size), run).Some? && After(Started(size), run).value.r.RWait?
    ensures var s, trace := After(Started(size), run).value, Received(Started(size), run);
            var z := Step(s, Reader(opens, e));
            && s.failures == Failures(trace, AfterLastGood(trace, |trace|, size), |trace|, size)
            && NoneEnds(trace, size)
            && (z.r.RDrain? <==> EndsStream(trace + [e], |trace|, size))
            && (z.r.RDrain? ==> z.r == RDrain(15))
            && (z.r.RAcquire? <==> e == Completed(Arrived(size)))
  {
    hide Step, Enabled, EndsStream, Ends, Failures, AfterLastGood;
    CountsAlways(size, run);
    var s, trace := After(Started(size), run).value, Received(Started(size), run);
    CountsAfterWait(s, opens, e, trace);
    EndsIff(trace + [e], |trace|, size);
    forall i | 0 <= i < |trace|
      ensures !EndsStream(trace, i, size)
    {
      EndsIff(trace, i, size);
    }
  }

  // ---------- once it has left, the stream ends ----------

  /** Steps to the end once the loop is left. */
  function LeftRank(r: ReaderPc): nat {
    match r
    case RDrain(left) => 4 + left
    case RClear => 3
    case RShut => 2
    case RShutNotify => 1
    case _ => 0
  }

  lemma LeftStep(s: Session, a: Action)
    requires LeftLoop(s.r) && Enabled(s, a)
    ensures var z := Step(s, a);
            && LeftLoop(z.r) && LeftRank(z.r) + (if a.Reader? then 1 else 0) <= LeftRank(s.r)
            && z.h.good == s.h.good
            && (a.Reader? && a.e.Timeout? ==> LeftRank(z.r) <= 3)
    ensures s.r.RDone? <==> LeftRank(s.r) == 0
  {
  }

  /** An endpoint that does not open is one way to leave. */
  lemma EndpointMustOpen(s: Session, e: Event)
    requires s.r.ROpen?
    ensures LeftLoop(Step(s, Reader(false, e)).r) && Step(s, Reader(true, e)) == s.(r := RHead)
  {
  }

  /** Whatever made the reader leave its loop, at most `4 + left` more of its own steps end it, fewer
      after the first timeout, no further transfer is taken, and the queue is shut down. */
  lemma {:induction false} LeftReaderEnds(s: Session, run: seq<Action>)
    requires Inv(s) && LeftLoop(s.r) && After(s, run).Some?
    ensures var z := After(s, run).value;
            && Inv(z) && LeftLoop(z.r) && z.h.good == s.h.good
            && ReaderSteps(run) + LeftRank(z.r) <= LeftRank(s.r) <= 20
            && (z.r.RDone? <==> LeftRank(z.r) == 0) && (z.r.RDone? ==> Stopping(z))
  {
    hide Inv, Step, Enabled;
    if run != [] {
      var was, a := run[..|run| - 1], run[|run| - 1];
      LeftReaderEnds(s, was);
      InvKept(After(s, was).value, a);
      LeftStep(After(s, was).value, a);
    }
    LeftBound(s);
    LeftBound(After(s, run).value);
    ReaderEndMeansStopping(After(s, run).value);
  }

  lemma LeftBound(s: Session)
    requires Inv(s)
    ensures LeftLoop(s.r) ==> LeftRank(s.r) <= 20 && (s.r.RDone? <==> LeftRank(s.r) == 0)
  {
  }

  // ---------- and a stream nobody stops goes on ----------

  /** Nobody asks for a stop in this step: not the owner, not the callback, not the endpoint. */
  predicate Undisturbed(s: Session, a: Action) {
    && !a.CallStop?
    && (a.Consumer? && s.c.CCallback? ==> a.keep)
    && (a.Reader? && s.r.ROpen? ==> a.opens)
  }

  /** Every step of the run is undisturbed. */
  predicate UndisturbedRun(from: Session, run: seq<Action>)
    requires After(from, run).Some?
  {
    run == [] ||
    (UndisturbedRun(from, run[..|run| - 1]) && Undisturbed(After(from, run[..|run| - 1]).value, run[|run| - 1]))
  }

  /** All flags up and both threads in their loops. */
  predicate InFullSwing(s: Session) {
    && Running(s) && !s.sh.q.shutdown
    && (s.r.ROpen? || Polling(s.r))
    && !s.c.CClear? && !s.c.CDiscard? && !s.c.CDiscardNotify? && !s.c.CExit? && !s.c.CDone?
    && (s.c.CRecycle? ==> s.c.keep) && (s.c.CRecycleNotify? ==> s.c.keep)
    && (s.o.OIdle? || s.o.OReap? || s.o.OReapStop?)
  }

  lemma SwingKept(s: Session, a: Action)
    requires InFullSwing(s) && Enabled(s, a) && Undisturbed(s, a)
    ensures InFullSwing(Step(s, a)) || (s.r.RWait? && a.Reader? && Step(s, a).r.RDrain?)
  {
    hide Acquired, Pushed, PopPass;
    PopPassSleeps(s.sh.q);
    QueueStaysOpen(s.sh.q, s.r);
  }

  lemma PopPassSleeps(q: QueueState<Buf>)
    requires !q.shutdown
    ensures !PopPass(q).1.ShutDown? && !PopPass(q).0.shutdown
  {
  }

  lemma QueueStaysOpen(q: QueueState<Buf>, r: ReaderPc)
    requires !q.shutdown
    ensures !Acquired(q).0.shutdown && forall b: Buf :: !Pushed(q, RAW_BUFFER_COUNT, b).shutdown
  {
  }

  /** As long as no stop is asked for, every callback says to go on, the endpoint opens and nothing
      received ends the stream, it runs: the flags stay up and both threads stay in their loops, whatever
      the interleaving, however far behind the consumer falls and even if start_rx is called again. */
  lemma {:induction false} StreamGoesOn(size: nat, run: seq<Action>)
    requires After(Started(size), run).Some? && UndisturbedRun(Started(size), run)
    requires NoneEnds(Received(Started(size), run), size)
    ensures InFullSwing(After(Started(size), run).value)
  {
    hide Step, Enabled, EndsStream, Undisturbed, InFullSwing;
    if run == [] {
      StartsInFullSwing(size);
    } else {
      var was, a := run[..|run| - 1], run[|run| - 1];
      var m := After(Started(size), was).value;
      EarlierEvents(size, run);
      StreamGoesOn(size, was);
      SwingKept(m, a);
      if m.r.RWait? && a.Reader? {
        ReaderFollowsPolicy(size, was, a.opens, a.e);
        var trace := Received(Started(size), run);
        assert !EndsStream(trace, |trace| - 1, size);
      }
    }
  }

  lemma StartsInFullSwing(size: nat)
    ensures InFullSwing(Started(size))
  {
  }

  lemma EarlierEvents(size: nat, run: seq<Action>)
    requires run != [] && After(Started(size), run).Some?
    requires NoneEnds(Received(Started(size), run), size)
    ensures NoneEnds(Received(Started(size), run[..|run| - 1]), size)
  {
    hide Ends, EndsStream, Step, Enabled;
    var was, now := Received(Started(size), run[..|run| - 1]), Received(Started(size), run);
    if now != was {
      var e := now[|now| - 1];
      assert now == was + [e];
      forall i | 0 <= i < |was|
        ensures !EndsStream(was, i, size)
      {
        EndsIff(was, i, size);
        EndsIff(now, i, size);
        EndsPrefix(was, e, i, size);
      }
    }
  }
}
