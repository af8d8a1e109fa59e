/** The streaming engine's promises, over every interleaving. */
module StreamTheorems {
  import opened MachineInts
  import opened SampleQueue
  import opened StreamProtocol
  import opened StreamSafety
  import Transport

  // ---------- buffers ----------

  lemma {:induction false} KeysOfPool(size: nat, n: nat, k: (nat, nat))
    requires n <= POOL
    ensures Keys(InitialPool(size)[..n])[k] == if k.0 < n && k.1 == size then 1 else 0
  {
    if n > 0 {
      assert InitialPool(size)[..n][..n - 1] == InitialPool(size)[..n - 1];
      KeysOfPool(size, n - 1, k);
    }
  }

  /** In every reachable state each of the nine buffers is in exactly one place, at the length the
      stream latched: so the reader's copy of a full transfer always fits the buffer it holds. */
  lemma BuffersConserved(s: Session, k: (nat, nat))
    requires Inv(s)
    ensures Places(s)[k] == if k.0 < 9 && k.1 == s.size then 1 else 0
    ensures |s.sh.q.filled| <= 8
    ensures s.r.RHold? ==> s.r.buf.size == s.size
  {
    hide Keys, EntryKeys;
    assert InitialPool(s.size)[..POOL] == InitialPool(s.size);
    KeysOfPool(s.size, POOL, k);
    if s.r.RHold? {
      KeysOfPool(s.size, POOL, Key(s.r.buf));
      assert Key(s.r.buf) in Places(s);
    }
  }

  // ---------- drop accounting ----------

  function SumDropped(queued: seq<Entry<Buf>>, n: nat): nat
    requires n <= |queued|
  {
    if n == 0 then 0 else SumDropped(queued, n - 1) + queued[n - 1].dropped
  }

  /** Up to the counter's range, `n` entries and the drops they carry account for every transfer
      up to and including the last of them. */
  lemma {:induction false} DropsAddUp(queued: seq<Entry<Buf>>, n: nat)
    requires n <= |queued| && forall i | 0 <= i < |queued| :: GapExact(queued, i)
    ensures n + SumDropped(queued, n) <= LastTransfer(queued, n) + 1
    ensures LastTransfer(queued, n) < U32_MAX ==> n + SumDropped(queued, n) == LastTransfer(queued, n) + 1
  {
    if n > 0 {
      DropsAddUp(queued, n - 1);
      assert GapExact(queued, n - 1);
    }
  }

  /** Every good transfer is popped, queued, carried or pending as a drop, or in the reader's hand. */
  lemma TransfersConserved(s: Session)
    requires Inv(s)
    ensures s.h.queued == s.h.popped + s.sh.q.filled
    ensures |s.h.popped| + |s.sh.q.filled| + SumDropped(s.h.queued, |s.h.queued|) + s.sh.q.dropped + InFlight(s) <= s.h.good
    ensures s.h.good <= U32_MAX ==>
              |s.h.popped| + |s.sh.q.filled| + SumDropped(s.h.queued, |s.h.queued|) + s.sh.q.dropped + InFlight(s) == s.h.good
  {
    DropsAddUp(s.h.queued, |s.h.queued|);
  }

  function SumSamples(queued: seq<Entry<Buf>>, n: nat, count: nat): nat
    requires n <= |queued|
  {
    if n == 0 then 0 else SumSamples(queued, n - 1, count) + queued[n - 1].dropped * count + count
  }

  /** A listener that adds up, over its deliveries, each block's `dropped_samples` and its samples
      knows exactly where in the device's sample stream every block starts. */
  lemma PositionsExact(s: Session, i: nat, count: nat)
    requires Inv(s) && s.h.good <= U32_MAX && i < |s.h.begun|
    ensures i < |s.h.queued| && s.h.begun[i] == s.h.queued[i]
    ensures SumSamples(s.h.queued, i, count) + s.h.begun[i].dropped * count == s.h.begun[i].buf.transfer * count
  {
    DeliveriesAreQueued(s);
    TransferBound(s, i);
    hide Inv;
    PositionOf(s.h.queued, i, count);
  }

  lemma PositionOf(queued: seq<Entry<Buf>>, i: nat, count: nat)
    requires i < |queued| && forall j | 0 <= j < |queued| :: GapExact(queued, j)
    requires queued[i].buf.transfer < U32_MAX
    ensures SumSamples(queued, i, count) + queued[i].dropped * count == queued[i].buf.transfer * count
  {
    DropsAddUp(queued, i + 1);
    SamplesAddUp(queued, i, count);
    var a, d := i + SumDropped(queued, i), queued[i].dropped;
    assert queued[i].buf.transfer == a + d;
    assert (a + d) * count == a * count + d * count;
  }

  lemma DeliveriesAreQueued(s: Session)
    requires Inv(s)
    ensures s.h.begun <= s.h.popped <= s.h.queued
    ensures forall j | 0 <= j < |s.h.queued| :: GapExact(s.h.queued, j)
  {
  }

  lemma {:induction false} SamplesAddUp(queued: seq<Entry<Buf>>, n: nat, count: nat)
    requires n <= |queued|
    ensures SumSamples(queued, n, count) == (n + SumDropped(queued, n)) * count
  {
    if n > 0 {
      SamplesAddUp(queued, n - 1, count);
      var a, d := n - 1 + SumDropped(queued, n - 1), queued[n - 1].dropped;
      assert (a + d + 1) * count == a * count + d * count + count;
    }
  }

  lemma {:induction false} TransferMonotone(queued: seq<Entry<Buf>>, i: nat, n: nat)
    requires i <= n <= |queued| && forall j | 0 <= j < |queued| :: GapExact(queued, j)
    ensures LastTransfer(queued, i) <= LastTransfer(queued, n)
  {
    if i < n {
      TransferMonotone(queued, i, n - 1);
      assert GapExact(queued, n - 1);
    }
  }

  lemma TransferBound(s: Session, i: nat)
    requires Inv(s) && i < |s.h.queued|
    ensures s.h.queued[i].buf.transfer < s.h.good
  {
    TransferMonotone(s.h.queued, i + 1, |s.h.queued|);
  }

  /** `dropped_samples` is computed in 64 bits and never wraps. */
  lemma DroppedSamplesFit(dropped: nat, count: nat)
    requires dropped <= U32_MAX && count <= 262144
    ensures dropped * count < 0x1_0000_0000_0000_0000
  {
    assert dropped * count <= dropped * 262144;
  }

  // ---------- stopping ----------

  /** Whether the consumer is already cleared to begin one more callback. */
  function StillToBegin(s: Session): nat {
    if s.c.CConvert? || (s.c.CGotStop? && !s.sh.stopRequested) then 1 else 0
  }

  lemma StoppedStep(s: Session, a: Action)
    requires FlagsAgree(s) && !Running(s) && Enabled(s, a)
    ensures !Running(Step(s, a))
    ensures |Step(s, a).h.begun| + StillToBegin(Step(s, a)) <= |s.h.begun| + StillToBegin(s)
  {
  }

  lemma SaidStopStep(s: Session, a: Action)
    requires SaidStopLeads(s) && s.h.saidStop && Enabled(s, a)
    ensures Step(s, a).h.saidStop && Step(s, a).h.begun == s.h.begun
  {
  }

  lemma DoneStep(s: Session, a: Action)
    requires FlagsAgree(s) && s.o.ODone?
    ensures !Enabled(s, a)
  {
  }

  /** Once the stream is not running it never runs again, although stop_rx lowers its request flag
      at the end; at most one callback still begins, none if a callback has said stop, and once
      stop_rx has returned nothing moves at all. */
  lemma {:induction false} StopIsFinal(s: Session, run: seq<Action>)
    requires Inv(s) && !Running(s) && After(s, run).Some?
    ensures var z := After(s, run).value;
            && Inv(z) && !Running(z)
            && |z.h.begun| + StillToBegin(z) <= |s.h.begun| + StillToBegin(s) <= |s.h.begun| + 1
            && (s.h.saidStop ==> z.h.saidStop && z.h.begun == s.h.begun)
            && (s.o.ODone? ==> run == [])
  {
    hide Inv, Step, Enabled;
    if run != [] {
      var was, a := run[..|run| - 1], run[|run| - 1];
      StopIsFinal(s, was);
      var m := After(s, was).value;
      InvParts(m);
      InvKept(m, a);
      StoppedStep(m, a);
      if s.h.saidStop {
        SaidStopStep(m, a);
      }
      if s.o.ODone? {
        DoneStep(m, a);
      }
    }
  }

  /** Whether the consumer is already past its checks and about to take one more entry. */
  function StillToPop(s: Session): nat {
    if s.c.CPop? || s.c.CAsleep? || (s.c.CHeadStop? && !s.sh.stopRequested) then 1 else 0
  }

  lemma StoppedPopStep(s: Session, a: Action)
    requires FlagsAgree(s) && !Running(s) && Enabled(s, a)
    ensures |Step(s, a).h.popped| + StillToPop(Step(s, a)) <= |s.h.popped| + StillToPop(s)
  {
  }

  /** Once the stream is not running the consumer takes at most one more entry off the ring, however
      much is queued: what is left is never delivered. */
  lemma {:induction false} AtMostOneMorePop(s: Session, run: seq<Action>)
    requires Inv(s) && !Running(s) && After(s, run).Some?
    ensures var z := After(s, run).value;
            |z.h.popped| + StillToPop(z) <= |s.h.popped| + StillToPop(s) <= |s.h.popped| + 1
  {
    hide Inv, Step, Enabled;
    if run != [] {
      var was, a := run[..|run| - 1], run[|run| - 1];
      AtMostOneMorePop(s, was);
      StopIsFinal(s, was);
      var m := After(s, was).value;
      InvParts(m);
      StoppedPopStep(m, a);
    }
  }

  lemma InvParts(s: Session)
    requires Inv(s)
    ensures FlagsAgree(s) && SaidStopLeads(s) && NoLostWakeup(s)
  {
  }

  /** And no callback begins after one has said stop, running or not. */
  lemma {:induction false} SaidStopIsLast(s: Session, run: seq<Action>)
    requires Inv(s) && s.h.saidStop && After(s, run).Some?
    ensures Inv(After(s, run).value) && After(s, run).value.h.saidStop
    ensures After(s, run).value.h.begun == s.h.begun
  {
    hide Inv, Step, Enabled;
    if run != [] {
      var was, a := run[..|run| - 1], run[|run| - 1];
      SaidStopIsLast(s, was);
      var m := After(s, was).value;
      InvParts(m);
      InvKept(m, a);
      SaidStopStep(m, a);
    }
  }

  /** Some interleaving from here begins another callback. */
  ghost predicate CanStillBegin(s: Session) {
    exists z :: Leads(s, z) && |z.h.begun| > |s.h.begun|
  }

  /** Once the stream is not running, another callback can begin exactly if the consumer is already
      cleared for it: converting, or past the load of `streaming` with no stop requested. */
  lemma LateCallbackIff(s: Session)
    requires Inv(s) && !Running(s)
    ensures CanStillBegin(s) <==> StillToBegin(s) == 1
  {
    hide Leads, Inv;
    if StillToBegin(s) == 1 {
      LeadsNowhere(s);
      var z := s;
      if s.c.CGotStop? {
        z := Then(s, z, Consumer(true));
      }
      z := Then(s, z, Consumer(true));
      assert |z.h.begun| > |s.h.begun|;
    }
    if z :| Leads(s, z) && |z.h.begun| > |s.h.begun| {
      LaterBounded(s, z);
    }
  }

  lemma LaterBounded(s: Session, z: Session)
    requires Inv(s) && !Running(s) && Leads(s, z)
    ensures |z.h.begun| <= |s.h.begun| + StillToBegin(s)
  {
    hide Inv;
    var run :| After(s, run) == Some(z);
    StopIsFinal(s, run);
  }

  /** At the request itself: a callback can begin after `stop_rx` is called on a running stream exactly
      if the consumer had passed its last check. */
  lemma LateCallbackAtStopIff(s: Session)
    requires Inv(s) && Running(s) && s.o.OIdle?
    ensures CanStillBegin(Step(s, CallStop)) <==> s.c.CConvert?
  {
    hide Inv, CanStillBegin;
    InvKept(s, CallStop);
    LateCallbackIff(Step(s, CallStop));
  }

  /** The one late callback is real: an interleaving in which a stop request falls between the
      consumer's last check and its callback. */
  lemma LateCallbackHappens(size: nat)
    ensures exists z :: Reachable(z, size) && z.h.lateCallbacks == 1 && z.sh.stopRequested
  {
    hide Leads;
    var s := Started(size);
    LeadsNowhere(s);
    var z := Then(s, s, Reader(true, Transport.Timeout));
    Delivery(s, z);
    z := AfterDelivery(z);
    assert z.c == CHead;
    Taking(s, z);
    z := AfterTaking(z);
    assert z.o == OIdle && z.h.lateCallbacks == 0;
    z := Then(s, z, CallStop);
    z := Then(s, z, Consumer(true));
    assert Reachable(z, size);
  }
}
