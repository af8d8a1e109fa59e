/** The blocking iterator over a stream: the callback is a send into a bounded channel, and the
    owner thread receives, or drops the iterator. Dropping disconnects the channel first and
    calls stop_rx second; `swapped` is the other order. */
module BlockIterator {
  import opened MachineInts
  import opened SampleQueue
  import opened StreamProtocol
  import opened StreamSafety
  import opened StreamTheorems
  import opened StreamLiveness
  import Transport

  const CHANNEL := RAW_BUFFER_COUNT

  /** `alive`: the receiving end exists. `got`: what `next` has returned. */
  datatype Bridge = Bridge(s: Session, chan: seq<Entry<Buf>>, alive: bool, got: seq<Entry<Buf>>)

  datatype BridgeAction =
    | Lift(a: Action)    // a step of the session other than the callback and the owner's calls
    | Send               // the callback: a send that blocks while the channel is full
    | Receive            // `next` takes a block
    | Disconnect         // the receiver is dropped
    | BeginStop          // stop_rx is called

  function Opened(size: nat): Bridge {
    Bridge(Started(size), [], true, [])
  }

  predicate BridgeEnabled(b: Bridge, x: BridgeAction, swapped: bool) {
    match x
    case Lift(a) => Enabled(b.s, a) && a != CallStop && a != CallStart && !(a.Consumer? && b.s.c.CCallback?)
    case Send => b.s.c.CCallback? && (!b.alive || |b.chan| < CHANNEL)
    case Receive => b.alive && b.s.o.OIdle? && b.chan != []
    case Disconnect => b.alive && if swapped then b.s.o.ODone? else b.s.o.OIdle?
    case BeginStop => b.s.o.OIdle? && b.alive == swapped
  }

  function BridgeStep(b: Bridge, x: BridgeAction, swapped: bool): Bridge
    requires BridgeEnabled(b, x, swapped)
  {
    match x
    case Lift(a) => b.(s := Step(b.s, a))
    case Send =>
      // A disconnected send fails, and a failed send is a callback that says stop.
      if b.alive then b.(s := Step(b.s, Consumer(true)), chan := b.chan + [b.s.c.e])
      else b.(s := Step(b.s, Consumer(false)))
    case Receive => b.(chan := b.chan[1..], got := b.got + [b.chan[0]])
    case Disconnect => b.(alive := false, chan := [])
    case BeginStop => b.(s := Step(b.s, CallStop))
  }

  function BridgeAfter(from: Bridge, run: seq<BridgeAction>, swapped: bool): Option<Bridge> {
    if run == [] then Some(from)
    else
      match BridgeAfter(from, run[..|run| - 1], swapped)
      case None => None
      case Some(m) =>
        if BridgeEnabled(m, run[|run| - 1], swapped) then Some(BridgeStep(m, run[|run| - 1], swapped)) else None
  }

  // ---------- the iterator sees a prefix of the deliveries ----------

  /** Deliveries whose send has completed. */
  function SentSoFar(s: Session): seq<Entry<Buf>> {
    if s.c.CCallback? && s.h.begun != [] then s.h.begun[..|s.h.begun| - 1] else s.h.begun
  }

  predicate InCallback(s: Session) {
    s.c.CCallback? ==> s.h.begun != [] && s.h.begun[|s.h.begun| - 1] == s.c.e
  }

  ghost predicate BridgeInv(b: Bridge) {
    && Inv(b.s)
    && InCallback(b.s)
    && |b.chan| <= CHANNEL
    && (!b.alive ==> b.chan == [])
    && (b.alive ==> b.got + b.chan == SentSoFar(b.s))
    && b.got <= SentSoFar(b.s)
  }

  lemma CallbackKept(s: Session, a: Action)
    requires InCallback(s) && Enabled(s, a)
    ensures InCallback(Step(s, a))
    ensures !(a.Consumer? && s.c.CCallback?) ==> SentSoFar(Step(s, a)) == SentSoFar(s)
    ensures a.Consumer? && s.c.CCallback? ==> SentSoFar(Step(s, a)) == SentSoFar(s) + [s.c.e]
  {
    if a.Consumer? && s.c.CConvert? {
      assert (s.h.begun + [s.c.e])[..|s.h.begun|] == s.h.begun;
    }
  }

  lemma BridgeInvKept(b: Bridge, x: BridgeAction, swapped: bool)
    requires BridgeInv(b) && BridgeEnabled(b, x, swapped)
    ensures BridgeInv(BridgeStep(b, x, swapped))
  {
    hide Inv, Step, SentSoFar, InCallback;
    match x {
      case Lift(a) =>
        InvKept(b.s, a);
        CallbackKept(b.s, a);
      case Send =>
        InvKept(b.s, Consumer(b.alive));
        CallbackKept(b.s, Consumer(b.alive));
        if b.alive {
          assert b.got + (b.chan + [b.s.c.e]) == (b.got + b.chan) + [b.s.c.e];
        }
      case Receive =>
        assert (b.got + [b.chan[0]]) + b.chan[1..] == b.got + b.chan;
      case Disconnect =>
      case BeginStop =>
        InvKept(b.s, CallStop);
        CallbackKept(b.s, CallStop);
    }
  }

  /** Under every interleaving what the iterator has returned is a prefix of the entries callbacks
      were begun for, in order: nothing is skipped, repeated or reordered on the way. */
  lemma {:induction false} IteratorSeesPrefix(size: nat, run: seq<BridgeAction>, swapped: bool)
    ensures BridgeAfter(Opened(size), run, swapped).Some? ==>
              var b := BridgeAfter(Opened(size), run, swapped).value;
              BridgeInv(b) && b.got <= b.s.h.begun && b.got <= b.s.h.queued
  {
    hide Inv, BridgeStep, BridgeEnabled;
    if run == [] {
      InvStart(size);
    } else {
      var was := run[..|run| - 1];
      IteratorSeesPrefix(size, was, swapped);
      var m := BridgeAfter(Opened(size), was, swapped);
      if m.Some? && BridgeEnabled(m.value, run[|run| - 1], swapped) {
        BridgeInvKept(m.value, run[|run| - 1], swapped);
        DeliveriesAreQueued(BridgeStep(m.value, run[|run| - 1], swapped).s);
      }
    }
  }

  /** Some step is possible without the owner choosing to receive, disconnect or stop. */
  predicate BridgeMoves(b: Bridge, swapped: bool) {
    || BridgeEnabled(b, Lift(Reader(true, Transport.Timeout)), swapped)
    || BridgeEnabled(b, Lift(Consumer(true)), swapped)
    || BridgeEnabled(b, Lift(Owner), swapped)
    || BridgeEnabled(b, Send, swapped)
  }

  /** `next` returns `None` only once the sending side is gone and the channel is empty; by then
      the iterator has returned every delivery there was. */
  lemma NoneMeansAll(b: Bridge)
    requires BridgeInv(b) && b.alive && b.s.c.CDone? && b.chan == []
    ensures b.got == b.s.h.begun
  {
  }

  /** While the iterator is in use, only its own idleness can hold the stream up. */
  lemma IteratingNeverStuck(b: Bridge)
    requires BridgeInv(b) && b.alive && b.s.o.OIdle?
    ensures Quiet(b.s) || BridgeMoves(b, false) || BridgeEnabled(b, Receive, false)
  {
    NoDeadlock(b.s);
  }

  // ---------- teardown in the source's order ----------

  /** Once the receiver is gone no state is stuck: a consumer blocked in the full channel is let go
      with an error, and everything else moves as without a channel. */
  lemma DisconnectedNeverStuck(b: Bridge, swapped: bool)
    requires BridgeInv(b) && !b.alive
    ensures Quiet(b.s) || BridgeMoves(b, swapped)
  {
    NoDeadlock(b.s);
  }

  /** From the moment the stop has reached the queue: whatever runs then takes at most 47 steps, is
      never stuck before both threads have ended, and delivers nothing more to the iterator. */
  lemma {:induction false} TeardownTerminates(b: Bridge, run: seq<BridgeAction>)
    requires BridgeInv(b) && !b.alive && Stopping(b.s) && BridgeAfter(b, run, false).Some?
    ensures var z := BridgeAfter(b, run, false).value;
            && BridgeInv(z) && !z.alive && Stopping(z.s) && z.got == b.got
            && |run| + Rank(z.s) <= Rank(b.s) <= 47
            && (Quiet(z.s) || BridgeMoves(z, false))
  {
    hide Inv, Step, SentSoFar, InCallback, Rank, BridgeMoves, Quiet;
    BridgeParts(b);
    RankBound(b.s);
    if run != [] {
      var was, x := run[..|run| - 1], run[|run| - 1];
      TeardownTerminates(b, was);
      var m := BridgeAfter(b, was, false).value;
      BridgeInvKept(m, x, false);
      BridgeParts(m);
      TeardownStep(m, x);
    }
    DisconnectedNeverStuck(BridgeAfter(b, run, false).value, false);
  }

  lemma BridgeParts(b: Bridge)
    requires BridgeInv(b)
    ensures FlagsAgree(b.s)
  {
  }

  lemma TeardownStep(b: Bridge, x: BridgeAction)
    requires FlagsAgree(b.s) && !b.alive && Stopping(b.s) && BridgeEnabled(b, x, false)
    ensures var z := BridgeStep(b, x, false);
            !z.alive && Stopping(z.s) && z.got == b.got && Rank(z.s) < Rank(b.s)
  {
    hide Step, Rank;
    match x {
      case Lift(a) => EveryStepRanks(b.s, a);
      case Send => EveryStepRanks(b.s, Consumer(false));
      case BeginStop => EveryStepRanks(b.s, CallStop);
    }
  }

  /** The receiver is gone, stop_rx about to be called or on its way to the queue's shutdown. */
  predicate Dropping(b: Bridge) {
    !b.alive && DropRank(b.s.o) > 0
  }

  /** Steps the owner still has to take until then. */
  function DropRank(o: OwnerPc): (n: nat)
    ensures n <= 4
  {
    match o
    case OIdle => 4
    case OMode => 3
    case OClear => 2
    case OShut(stop) => if stop then 1 else 0
    case _ => 0
  }

  predicate OwnersMove(x: BridgeAction) {
    x.BeginStop? || x == Lift(Owner)
  }

  function OwnersMoves(run: seq<BridgeAction>): nat {
    if run == [] then 0 else OwnersMoves(run[..|run| - 1]) + if OwnersMove(run[|run| - 1]) then 1 else 0
  }

  lemma DropStep(b: Bridge, x: BridgeAction)
    requires FlagsAgree(b.s) && Dropping(b) && BridgeEnabled(b, x, false)
    ensures var z := BridgeStep(b, x, false);
            && !z.alive && z.got == b.got
            && (Stopping(z.s)
                || (Dropping(z) && DropRank(z.s.o) + (if OwnersMove(x) then 1 else 0) <= DropRank(b.s.o)))
  {
    if x == Lift(Owner) {
      OwnerDrops(b.s);
    }
  }

  lemma OwnerDrops(s: Session)
    requires FlagsAgree(s) && DropRank(s.o) > 0 && Enabled(s, Owner)
    ensures Stopping(OwnerStep(s)) || DropRank(OwnerStep(s).o) + 1 == DropRank(s.o)
    ensures DropRank(s.o) == 1 ==> Stopping(OwnerStep(s))
  {
  }

  /** From the drop of the receiver until the stop has reached the queue: the owner's next step is
      never blocked, four of them suffice, and nothing more is delivered to the iterator. */
  lemma {:induction false} DropReachesQueue(b: Bridge, run: seq<BridgeAction>)
    requires BridgeInv(b) && Dropping(b) && BridgeAfter(b, run, false).Some?
    ensures var z := BridgeAfter(b, run, false).value;
            && BridgeInv(z) && !z.alive && z.got == b.got
            && (Stopping(z.s)
                || (Dropping(z) && OwnersMoves(run) + DropRank(z.s.o) <= DropRank(b.s.o)
                    && (BridgeEnabled(z, BeginStop, false) || BridgeEnabled(z, Lift(Owner), false))))
  {
    hide Inv, Step, SentSoFar, InCallback, DropRank, BridgeStep;
    if run != [] {
      var was, x := run[..|run| - 1], run[|run| - 1];
      DropReachesQueue(b, was);
      var m := BridgeAfter(b, was, false).value;
      BridgeInvKept(m, x, false);
      BridgeParts(m);
      if Stopping(m.s) {
        TeardownStep(m, x);
      } else {
        DropStep(m, x);
      }
    }
    OwnerCanDrop(BridgeAfter(b, run, false).value);
  }

  lemma OwnerCanDrop(b: Bridge)
    ensures Dropping(b) ==> BridgeEnabled(b, BeginStop, false) || BridgeEnabled(b, Lift(Owner), false)
  {
  }

  lemma {:induction false} BridgeAfterSplit(b: Bridge, run: seq<BridgeAction>, k: nat)
    requires k <= |run| && BridgeAfter(b, run, false).Some?
    ensures BridgeAfter(b, run[..k], false).Some?
    ensures BridgeAfter(BridgeAfter(b, run[..k], false).value, run[k..], false) == BridgeAfter(b, run, false)
  {
    hide BridgeStep, BridgeEnabled;
    if k == |run| {
      assert run[..k] == run;
    } else {
      var n := |run| - 1;
      BridgeAfterSplit(b, run[..n], k);
      assert run[..n][..k] == run[..k];
      assert run[k..][..|run[k..]| - 1] == run[..n][k..];
    }
  }

  /** Dropping the iterator always ends with both threads joined, from the moment the receiver is
      gone: four steps of the owner, none of which is ever blocked, bring the stop to the queue,
      and after any point where it is there at most 47 more steps of anybody follow, never stuck
      before both threads have ended. */
  lemma DropTerminates(b: Bridge, run: seq<BridgeAction>, k: nat)
    requires BridgeInv(b) && Dropping(b) && BridgeAfter(b, run, false).Some? && k <= |run|
    ensures BridgeAfter(b, run[..k], false).Some?
    ensures var m, z := BridgeAfter(b, run[..k], false).value, BridgeAfter(b, run, false).value;
            && z.got == b.got
            && (OwnersMoves(run) >= 4 ==> Stopping(z.s))
            && (!Stopping(z.s) ==> BridgeEnabled(z, BeginStop, false) || BridgeEnabled(z, Lift(Owner), false))
            && (Stopping(m.s) ==> Stopping(z.s) && |run| - k <= 47 && (Quiet(z.s) || BridgeMoves(z, false)))
  {
    hide Inv, Step, BridgeStep, SentSoFar, InCallback, BridgeMoves, Quiet, Stopping, DropRank, BridgeEnabled;
    DropReachesQueue(b, run);
    BridgeAfterSplit(b, run, k);
    DropReachesQueue(b, run[..k]);
    var m := BridgeAfter(b, run[..k], false).value;
    if Stopping(m.s) {
      TeardownTerminates(m, run[k..]);
    }
  }

  // ---------- what a send means ----------

  lemma SendStep(b: Bridge)
    requires BridgeInv(b) && BridgeEnabled(b, Send, false)
    ensures var z := BridgeStep(b, Send, false);
            && z.s.h.saidStop == (b.s.h.saidStop || !b.alive)
            && SaidStopLeads(z.s)
            && z.s.h.begun == b.s.h.begun
            && (b.alive ==> |b.chan| < 8 && z.chan == b.chan + [b.s.c.e])
  {
    hide Partition, Accounted, FlagsAgree, NoLostWakeup, LateBound, DeliveredInOrder, SentSoFar, InCallback, Acquired, Pushed;
  }

  lemma BridgeSaidStop(b: Bridge, x: BridgeAction)
    requires SaidStopLeads(b.s) && b.s.h.saidStop && BridgeEnabled(b, x, false)
    ensures var z := BridgeStep(b, x, false);
            SaidStopLeads(z.s) && z.s.h.saidStop && z.s.h.begun == b.s.h.begun
  {
    hide Step, SaidStopLeads;
    match x {
      case Lift(a) =>
        SaidStopKept(b.s, a);
        SaidStopStep(b.s, a);
      case Send =>
        SaidStopKept(b.s, Consumer(b.alive));
        SaidStopStep(b.s, Consumer(b.alive));
      case BeginStop =>
        SaidStopKept(b.s, CallStop);
        SaidStopStep(b.s, CallStop);
      case _ =>
    }
  }

  /** A send that finds the receiver gone stops the stream as a callback that says stop: no further
      callback ever begins, whether or not `stop_rx` is called. A send into the channel never does. */
  lemma {:induction false} FailedSendIsLast(b: Bridge, run: seq<BridgeAction>)
    requires BridgeInv(b) && !b.alive && BridgeEnabled(b, Send, false)
    requires BridgeAfter(BridgeStep(b, Send, false), run, false).Some?
    ensures var z := BridgeAfter(BridgeStep(b, Send, false), run, false).value;
            z.s.h.begun == b.s.h.begun && z.s.h.saidStop && SaidStopLeads(z.s)
  {
    hide BridgeInv, BridgeStep, BridgeEnabled, SaidStopLeads;
    if run == [] {
      SendStep(b);
    } else {
      FailedSendIsLast(b, run[..|run| - 1]);
      BridgeSaidStop(BridgeAfter(BridgeStep(b, Send, false), run[..|run| - 1], false).value, run[|run| - 1]);
    }
  }

  // ---------- the other order deadlocks ----------

  ghost predicate BridgeLeads(b: Bridge, z: Bridge) {
    exists run :: BridgeAfter(b, run, true) == Some(z)
  }

  lemma BridgeThen(b: Bridge, m: Bridge, x: BridgeAction) returns (z: Bridge)
    requires BridgeLeads(b, m) && BridgeEnabled(m, x, true)
    ensures BridgeLeads(b, z) && z == BridgeStep(m, x, true)
  {
    hide BridgeStep, BridgeEnabled;
    var run :| BridgeAfter(b, run, true) == Some(m);
    z := BridgeStep(m, x, true);
    assert (run + [x])[..|run|] == run;
    assert BridgeAfter(b, run + [x], true) == Some(z);
  }

  /** Between two deliveries, nothing stopped, the ring empty. */
  predicate Idle(b: Bridge) {
    && b.alive && b.s.r.RHead? && b.s.c.CHead? && b.s.o.OIdle? && Running(b.s)
    && b.s.sh.q.filled == [] && !b.s.sh.q.shutdown && b.s.sh.q.free != []
  }

  /** One more transfer received, queued, popped, and its callback begun. */
  lemma IntoCallback(b0: Bridge, b: Bridge) returns (z: Bridge)
    requires BridgeLeads(b0, b) && Idle(b)
    ensures BridgeLeads(b0, z) && z.s.c.CCallback? && z.chan == b.chan
    ensures z.alive && z.s.r.RHead? && z.s.o.OIdle? && Running(z.s) && z.s.sh.q.filled == [] && !z.s.sh.q.shutdown
  {
    hide BridgeLeads;
    z := Receiving(b0, b);
    z := Delivering(b0, z);
  }

  lemma Receiving(b0: Bridge, b: Bridge) returns (z: Bridge)
    requires BridgeLeads(b0, b) && Idle(b)
    ensures BridgeLeads(b0, z) && z == b.(s := AfterDelivery(b.s))
  {
    hide BridgeLeads;
    var full := Lift(Reader(true, Transport.Completed(Transport.Arrived(b.s.size))));
    z := BridgeThen(b0, b, full);
    z := BridgeThen(b0, z, full);
    z := BridgeThen(b0, z, full);
    assert z.s == b.s.(r := RAcquire, h := b.s.h.(good := b.s.h.good + 1), failures := 0);
    z := BridgeThen(b0, z, full);
    z := BridgeThen(b0, z, full);
    z := BridgeThen(b0, z, full);
    assert z.s == AfterDelivery(b.s);
  }

  lemma Delivering(b0: Bridge, b: Bridge) returns (z: Bridge)
    requires BridgeLeads(b0, b) && b.s.c.CHead? && Running(b.s) && |b.s.sh.q.filled| == 1 && !b.s.sh.q.shutdown
    ensures BridgeLeads(b0, z) && z.s.c.CCallback? && z.chan == b.chan && z.alive == b.alive
    ensures z.s.r == b.s.r && z.s.o == b.s.o && Running(z.s) && z.s.sh.q.filled == [] && !z.s.sh.q.shutdown
  {
    hide BridgeLeads;
    var go := Lift(Consumer(true));
    z := BridgeThen(b0, b, go);
    z := BridgeThen(b0, z, go);
    z := BridgeThen(b0, z, go);
    assert z.s.c.CGot? && z.s.sh.q.filled == [];
    z := BridgeThen(b0, z, go);
    z := BridgeThen(b0, z, go);
    z := BridgeThen(b0, z, go);
  }

  /** One more block in the channel, nobody receiving. */
  lemma OneMore(b0: Bridge, b: Bridge) returns (z: Bridge)
    requires BridgeLeads(b0, b) && Idle(b) && |b.chan| < CHANNEL
    ensures BridgeLeads(b0, z) && Idle(z) && |z.chan| == |b.chan| + 1
  {
    hide BridgeLeads;
    z := IntoCallback(b0, b);
    z := BridgeThen(b0, z, Send);
    z := BridgeThen(b0, z, Lift(Consumer(true)));
    z := BridgeThen(b0, z, Lift(Consumer(true)));
  }

  lemma {:induction false} FillChannel(size: nat, n: nat) returns (z: Bridge)
    requires n <= CHANNEL
    ensures BridgeLeads(Opened(size), z) && Idle(z) && |z.chan| == n
  {
    if n == 0 {
      assert BridgeAfter(Opened(size), [], true) == Some(Opened(size));
      z := BridgeThen(Opened(size), Opened(size), Lift(Reader(true, Transport.Timeout)));
    } else {
      hide BridgeLeads, Idle;
      z := FillChannel(size, n - 1);
      z := OneMore(Opened(size), z);
    }
  }

  /** Nobody can take any step, and the session is not over. */
  ghost predicate Deadlocked(b: Bridge) {
    !Quiet(b.s) && |b.chan| == 8 && forall x :: !BridgeEnabled(b, x, true)
  }

  /** Calling stop_rx before disconnecting can hang for good: with the channel full and a ninth
      block being sent, the owner waits for the consumer and the consumer for the owner. */
  lemma SwappedOrderDeadlocks(size: nat)
    ensures exists z :: BridgeLeads(Opened(size), z) && Deadlocked(z)
  {
    hide BridgeLeads;
    var b0 := Opened(size);
    var z := FillChannel(size, CHANNEL);
    z := IntoCallback(b0, z);
    z := BridgeThen(b0, z, BeginStop);
    z := OwnerToJoin(b0, z);
    z := ReaderToEnd(b0, z);
    z := BridgeThen(b0, z, Lift(Owner));
    assert z.s.o.OJoinConsumer? && z.s.c.CCallback? && z.s.r.RDone? && z.alive && |z.chan| == CHANNEL;
    assert Deadlocked(z);
  }

  lemma OwnerToJoin(b0: Bridge, b: Bridge) returns (z: Bridge)
    requires BridgeLeads(b0, b) && b.s.o.OMode? && b.s.c.CCallback?
    ensures BridgeLeads(b0, z) && z.s.o.OJoinReader? && !z.s.sh.streaming
    ensures z.s.c == b.s.c && z.s.r == b.s.r && z.chan == b.chan && z.alive == b.alive
  {
    hide BridgeLeads;
    z := BridgeThen(b0, b, Lift(Owner));
    z := BridgeThen(b0, z, Lift(Owner));
    z := BridgeThen(b0, z, Lift(Owner));
    z := BridgeThen(b0, z, Lift(Owner));
  }

  lemma ReaderToEnd(b0: Bridge, b: Bridge) returns (z: Bridge)
    requires BridgeLeads(b0, b) && b.s.r.RHead? && !b.s.sh.streaming && b.s.c.CCallback?
    ensures BridgeLeads(b0, z) && z.s.r.RDone?
    ensures z.s.c == b.s.c && z.s.o == b.s.o && z.chan == b.chan && z.alive == b.alive
  {
    hide BridgeLeads;
    var step := Lift(Reader(true, Transport.Timeout));
    z := BridgeThen(b0, b, step);
    z := BridgeThen(b0, z, step);
    z := BridgeThen(b0, z, step);
    z := BridgeThen(b0, z, step);
    z := BridgeThen(b0, z, step);
  }
}
