/** Nobody sleeps through a wake-up, nothing deadlocks, and a stopped session winds down in a
    bounded number of steps, so both joins return. Callbacks and timed waits are single steps
    here: that they return at all is the assumption. */
module StreamLiveness {
  import opened StreamProtocol
  import opened StreamSafety
  import opened StreamTheorems
  import Transport

  /** Both threads have ended and the owner is in no call. */
  predicate Quiet(s: Session) {
    s.r.RDone? && s.c.CDone? && (s.o.OIdle? || s.o.ODone?)
  }

  /** A thread that is not asleep can always take a step of its own; the owner's joins wait only
      for threads that will end. */
  predicate SomeStep(s: Session) {
    Enabled(s, Reader(true, Transport.Timeout)) || Enabled(s, Consumer(true)) || Enabled(s, Owner)
  }

  /** In every reachable state some thread can run, unless all are done: a consumer asleep on data
      or on a shutdown has its notification on the way. */
  lemma NoDeadlock(s: Session)
    requires Inv(s)
    ensures s.c.CAsleep? && (s.sh.q.filled != [] || s.sh.q.shutdown) ==> NotifyPending(s)
    ensures !Quiet(s) ==> SomeStep(s)
  {
  }

  /** A sleeper may wake for no reason at any time; it looks again and, as long as there is nothing to
      take and no shutdown, goes back to sleep with nothing changed. */
  lemma SpuriousWakeHarmless(s: Session, keep: bool)
    requires s.c.CAsleep?
    ensures Enabled(s, SpuriousWake)
    ensures var z := Step(s, SpuriousWake);
            Enabled(z, Consumer(keep)) && (s.sh.q.filled == [] && !s.sh.q.shutdown ==> Step(z, Consumer(keep)) == s)
  {
  }

  // ---------- the reader winds down by itself ----------

  /** Steps the reader still has to take once the stream is not running. */
  function ReaderRank(s: Session): nat {
    match s.r
    case RDone => 0
    case RShutNotify => 1
    case RShut => 2
    case RClear => 3
    case RDrain(left) => 4 + left
    case RHead => Transport.TRANSFER_COUNT + (if s.sh.streaming then 6 else 5)
    case RNotify => Transport.TRANSFER_COUNT + 7
    case RHold(_) => Transport.TRANSFER_COUNT + 8
    case RAcquire => Transport.TRANSFER_COUNT + 9
    case RWait => Transport.TRANSFER_COUNT + 10
    case RHeadStop => Transport.TRANSFER_COUNT + (if s.sh.stopRequested then 5 else 11)
    case ROpen => Transport.TRANSFER_COUNT + 12
  }

  /** Every step of the reader's own brings it closer to its end, no step of anyone else pushes it
      back, and it is never blocked. */
  lemma ReaderWindsDown(s: Session, a: Action)
    requires FlagsAgree(s) && !Running(s) && Enabled(s, a)
    ensures ReaderRank(Step(s, a)) <= ReaderRank(s)
    ensures a.Reader? ==> ReaderRank(Step(s, a)) < ReaderRank(s)
    ensures !s.r.RDone? ==> forall e :: Enabled(s, Reader(true, e))
  {
  }

  function ReaderSteps(run: seq<Action>): nat {
    if run == [] then 0 else ReaderSteps(run[..|run| - 1]) + if run[|run| - 1].Reader? then 1 else 0
  }

  /** However the others interleave, the reader takes at most 28 steps after the stream has stopped
      running, and then has shut the queue down. */
  lemma {:induction false} ReaderEnds(s: Session, run: seq<Action>)
    requires Inv(s) && !Running(s) && After(s, run).Some?
    ensures var z := After(s, run).value;
            && Inv(z) && !Running(z)
            && ReaderSteps(run) + ReaderRank(z) <= ReaderRank(s) <= 28
            && (z.r.RDone? ==> Stopping(z))
  {
    hide Step, Enabled;
    RankBound(s);
    if run != [] {
      var was, a := run[..|run| - 1], run[|run| - 1];
      ReaderEnds(s, was);
      var m := After(s, was).value;
      InvKept(m, a);
      hide Inv;
      InvParts(m);
      ReaderWindsDown(m, a);
      StoppedStep(m, a);
    }
    ReaderEndMeansStopping(After(s, run).value);
  }

  lemma ReaderEndMeansStopping(s: Session)
    requires Inv(s)
    ensures s.r.RDone? ==> Stopping(s)
  {
  }

  // ---------- then everybody does ----------

  /** The stop has reached the queue. */
  predicate Stopping(s: Session) {
    !s.sh.streaming && s.sh.q.shutdown
  }

  function ConsumerRank(c: ConsumerPc): nat {
    match c
    case CDone => 0
    case CExit => 1
    case CPop => 2
    case CHead => 2
    case CDiscardNotify => 2
    case CAsleep => 3
    case CHeadStop => 3
    case CClear => 3
    case CDiscard(_) => 3
    case CRecycleNotify(_) => 4
    case CRecycle(_, _) => 5
    case CCallback(_) => 6
    case CConvert(_) => 7
    case CGotStop(_) => 8
    case CGot(_) => 9
  }

  function OwnerRank(o: OwnerPc): nat {
    match o
    case ODone => 0
    case OUnrequest => 1
    case OJoinConsumer(_) => 2
    case OJoinReader(_) => 3
    case OShutNotify(_) => 4
    case OShut(_) => 5
    case OClear => 6
    case OMode => 7
    case OReap => 8
    case OIdle => 9
    case OReapStop => 10
  }

  /** Steps the whole session can still take. */
  function Rank(s: Session): nat {
    ReaderRank(s) + ConsumerRank(s.c) + OwnerRank(s.o)
  }

  lemma ReaderStepRanks(s: Session, opens: bool, e: Transport.Event)
    requires FlagsAgree(s) && Stopping(s) && !s.r.RDone?
    ensures var s' := ReaderStep(s, opens, e);
            && ReaderRank(s') < ReaderRank(s) && ConsumerRank(s'.c) <= ConsumerRank(s.c) && s'.o == s.o
            && Stopping(s')
  {
  }

  lemma ConsumerStepRanks(s: Session, keep: bool)
    requires Stopping(s) && !s.c.CDone? && !s.c.CAsleep?
    ensures var s' := ConsumerStep(s, keep);
            && s'.r == s.r && s'.o == s.o && ConsumerRank(s'.c) < ConsumerRank(s.c)
            && s'.sh.stopRequested == s.sh.stopRequested && Stopping(s')
  {
  }

  lemma OwnerStepRanks(s: Session)
    requires FlagsAgree(s) && Stopping(s) && Enabled(s, Owner)
    ensures var s' := OwnerStep(s);
            && s'.r == s.r && OwnerRank(s'.o) < OwnerRank(s.o) && ConsumerRank(s'.c) <= ConsumerRank(s.c)
            && ReaderRank(s') <= ReaderRank(s) && Stopping(s')
  {
  }

  /** Once stopping, every step of anybody, spurious wake-ups included, uses up rank. */
  lemma EveryStepRanks(s: Session, a: Action)
    requires FlagsAgree(s) && Stopping(s) && Enabled(s, a)
    ensures Rank(Step(s, a)) < Rank(s) && Stopping(Step(s, a))
  {
    hide ReaderStep, ConsumerStep, OwnerStep;
    match a {
      case Reader(opens, e) => ReaderStepRanks(s, opens, e);
      case Consumer(keep) => ConsumerStepRanks(s, keep);
      case Owner => OwnerStepRanks(s);
      case _ =>
    }
  }

  /** So a stopping session takes at most `Rank` more steps, whatever the interleaving; and if it
      can take none, both threads have ended and any join has returned. */
  lemma {:induction false} JoinsReturn(s: Session, run: seq<Action>)
    requires Inv(s) && Stopping(s) && After(s, run).Some?
    ensures var z := After(s, run).value;
            && Inv(z) && Stopping(z)
            && |run| + Rank(z) <= Rank(s) <= 47
            && (SomeStep(z) || Quiet(z))
  {
    hide Step, Enabled;
    RankBound(s);
    if run != [] {
      var was, a := run[..|run| - 1], run[|run| - 1];
      JoinsReturn(s, was);
      var m := After(s, was).value;
      InvKept(m, a);
      hide Inv;
      InvParts(m);
      EveryStepRanks(m, a);
    }
    NoDeadlock(After(s, run).value);
  }

  lemma RankBound(s: Session)
    requires FlagsAgree(s)
    ensures ReaderRank(s) <= 28 && Rank(s) <= 47
  {
  }
}
