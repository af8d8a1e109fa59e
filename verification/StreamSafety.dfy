/** What every reachable state of a streaming session satisfies: where the buffers are, what
    the drop counts mean, who wakes whom, and that a stop is final. */
module StreamSafety {
  import opened MachineInts
  import opened SampleQueue
  import opened StreamProtocol
  import Transport

  // ---------- buffers ----------

  /** What never changes about a buffer: which one it is and how long. */
  function Key(b: Buf): (nat, nat) {
    (b.id, b.size)
  }

  function Keys(bufs: seq<Buf>): multiset<(nat, nat)> {
    if bufs == [] then multiset{} else Keys(bufs[..|bufs| - 1]) + multiset{Key(bufs[|bufs| - 1])}
  }

  function EntryKeys(es: seq<Entry<Buf>>): multiset<(nat, nat)> {
    if es == [] then multiset{} else EntryKeys(es[..|es| - 1]) + multiset{Key(es[|es| - 1].buf)}
  }

  /** The buffer in the reader's hand, if any. */
  function ReaderHand(r: ReaderPc): Option<Buf> {
    match r
    case RHold(b) => Some(b)
    case _ => None
  }

  /** The buffer in the consumer's hand, if any. */
  function ConsumerHand(c: ConsumerPc): Option<Buf> {
    match c
    case CGot(e) => Some(e.buf)
    case CGotStop(e) => Some(e.buf)
    case CConvert(e) => Some(e.buf)
    case CCallback(e) => Some(e.buf)
    case CRecycle(b, _) => Some(b)
    case CDiscard(b) => Some(b)
    case _ => None
  }

  function HandKeys(hand: Option<Buf>): multiset<(nat, nat)> {
    match hand
    case None => multiset{}
    case Some(b) => multiset{Key(b)}
  }

  function Places(s: Session): multiset<(nat, nat)> {
    Keys(s.sh.q.free) + EntryKeys(s.sh.q.filled) + HandKeys(ReaderHand(s.r)) + HandKeys(ConsumerHand(s.c))
  }

  /** Free, queued, in the reader's hand and in the consumer's hand: together exactly the buffers
      the session started with, each once, at its length; and the ring never overflows. */
  ghost predicate Partition(s: Session) {
    && Places(s) == Keys(InitialPool(s.size))
    && |s.sh.q.filled| <= RAW_BUFFER_COUNT
  }

  // ---------- drop accounting ----------

  /** Index of the last transfer queued among the first `n` entries, -1 before any. */
  function LastTransfer(queued: seq<Entry<Buf>>, n: nat): int
    requires n <= |queued|
  {
    if n == 0 then -1 else queued[n - 1].buf.transfer
  }

  function Saturated(n: int): int {
    if n <= U32_MAX then n else U32_MAX
  }

  /** Transfers that have arrived but are neither queued nor dropped yet: at most the one the
      reader is working on. */
  function InFlight(s: Session): nat {
    if s.r.RAcquire? || s.r.RHold? then 1 else 0
  }

  /** Entry `i` carries exactly the number of transfers lost between the one queued before it and
      itself, up to saturation of the counter. */
  ghost predicate GapExact(queued: seq<Entry<Buf>>, i: nat)
    requires i < |queued|
  {
    var lost := queued[i].buf.transfer - LastTransfer(queued, i) - 1;
    lost >= 0 && queued[i].dropped == Saturated(lost)
  }

  ghost predicate Accounted(s: Session) {
    && s.h.queued == s.h.popped + s.sh.q.filled
    && (forall i | 0 <= i < |s.h.queued| :: GapExact(s.h.queued, i))
    && var lost := s.h.good - InFlight(s) - LastTransfer(s.h.queued, |s.h.queued|) - 1;
       lost >= 0 && s.sh.q.dropped == Saturated(lost)
  }

  // ---------- flags and program counters ----------

  predicate StopCall(o: OwnerPc) {
    match o
    case OMode => true
    case OClear => true
    case OShut(stop) => stop
    case OShutNotify(stop) => stop
    case OJoinReader(stop) => stop
    case OJoinConsumer(stop) => stop
    case OUnrequest => true
    case _ => false
  }

  predicate PastShut(o: OwnerPc) {
    o.OShutNotify? || o.OJoinReader? || o.OJoinConsumer? || o.OUnrequest? || o.ODone?
  }

  predicate PastClear(o: OwnerPc) {
    o.OShut? || PastShut(o)
  }

  predicate PastReaderJoin(o: OwnerPc) {
    o.OJoinConsumer? || o.OUnrequest? || o.ODone?
  }

  ghost predicate FlagsAgree(s: Session) {
    && s.sh.stopRequested == StopCall(s.o)
    && (PastClear(s.o) || s.r.RShut? || s.r.RShutNotify? || s.r.RDone? || s.c.CDone? ==> !s.sh.streaming)
    && (PastShut(s.o) || s.r.RShutNotify? || s.r.RDone? ==> s.sh.q.shutdown)
    && (s.sh.q.shutdown ==> !s.sh.streaming)
    && (PastReaderJoin(s.o) ==> s.r.RDone?)
    && (s.o.OUnrequest? || s.o.ODone? ==> s.c.CDone?)
    && (s.r.RDrain? ==> s.r.left <= Transport.TRANSFER_COUNT)
  }

  /** Some thread has changed the guarded state and unlocked, but not notified yet. */
  predicate NotifyPending(s: Session) {
    s.r.RNotify? || s.r.RShutNotify? || s.o.OShutNotify?
  }

  /** A consumer asleep on data or on shutdown is about to be woken. */
  predicate NoLostWakeup(s: Session) {
    s.c.CAsleep? && (s.sh.q.filled != [] || s.sh.q.shutdown) ==> NotifyPending(s)
  }

  /** Once a stop is requested at most one more callback begins, namely one already cleared. */
  predicate LateBound(s: Session) {
    && s.h.lateCallbacks + (if s.sh.stopRequested && s.c.CConvert? then 1 else 0) <= 1
    && (!s.sh.stopRequested && !s.o.ODone? ==> s.h.lateCallbacks == 0)
  }

  /** After a callback has said stop, the consumer is on its way out and delivers nothing. */
  predicate SaidStopLeads(s: Session) {
    s.h.saidStop ==>
      || (s.c.CRecycle? && !s.c.keep) || (s.c.CRecycleNotify? && !s.c.keep) || s.c.CClear?
      || ((s.c.CHead? || s.c.CExit? || s.c.CDone?) && !s.sh.streaming)
  }

  /** Every popped entry is delivered, in order, except possibly a last one that a stop raced. */
  predicate DeliveredInOrder(s: Session) {
    match s.c
    case CGot(e) => s.h.popped == s.h.begun + [e]
    case CGotStop(e) => s.h.popped == s.h.begun + [e]
    case CConvert(e) => s.h.popped == s.h.begun + [e]
    case CDiscard(_) => |s.h.begun| < |s.h.popped| && s.h.begun == s.h.popped[..|s.h.popped| - 1]
    case CDiscardNotify => |s.h.begun| < |s.h.popped| && s.h.begun == s.h.popped[..|s.h.popped| - 1]
    case CExit => s.h.begun == s.h.popped || (|s.h.begun| < |s.h.popped| && s.h.begun == s.h.popped[..|s.h.popped| - 1])
    case CDone => s.h.begun == s.h.popped || (|s.h.begun| < |s.h.popped| && s.h.begun == s.h.popped[..|s.h.popped| - 1])
    case _ => s.h.begun == s.h.popped
  }

  ghost predicate Inv(s: Session) {
    Partition(s) && Accounted(s) && FlagsAgree(s) && NoLostWakeup(s) && LateBound(s) && SaidStopLeads(s)
    && DeliveredInOrder(s)
  }

  // ---------- the invariant holds ----------

  lemma InvStart(size: nat)
    ensures Inv(Started(size))
  {
  }

  lemma KeysSnoc(bufs: seq<Buf>, b: Buf)
    ensures Keys(bufs + [b]) == Keys(bufs) + multiset{Key(b)}
  {
    assert (bufs + [b])[..|bufs|] == bufs;
  }

  lemma EntryKeysSnoc(es: seq<Entry<Buf>>, e: Entry<Buf>)
    ensures EntryKeys(es + [e]) == EntryKeys(es) + multiset{Key(e.buf)}
  {
    assert (es + [e])[..|es|] == es;
  }

  lemma {:induction false} EntryKeysFirst(es: seq<Entry<Buf>>)
    requires es != []
    ensures EntryKeys(es) == multiset{Key(es[0].buf)} + EntryKeys(es[1..])
  {
    if |es| > 1 {
      var was := es[..|es| - 1];
      EntryKeysFirst(was);
      assert es[1..][..|es| - 2] == was[1..];
    }
  }

  lemma PlacesAcquire(s: Session)
    requires s.r.RAcquire?
    ensures Places(AfterAcquire(s)) == Places(s)
  {
    var free, n := s.sh.q.free, |s.sh.q.free| - 1;
    var s' := AfterAcquire(s);
    assert ReaderHand(s.r) == None && s'.sh.q.filled == s.sh.q.filled && s'.c == s.c;
    if n >= 0 {
      assert s'.sh.q.free == free[..n] && ReaderHand(s'.r) == Some(free[n]);
      assert Keys(free) == Keys(free[..n]) + multiset{Key(free[n])};
      hide AfterAcquire, Keys, EntryKeys, HandKeys, ReaderHand, ConsumerHand;
      HandKeysAre(free[n]);
      FromFree(Keys(free[..n]), multiset{Key(free[n])}, EntryKeys(s.sh.q.filled), HandKeys(ConsumerHand(s.c)));
    } else {
      assert s'.sh.q.free == free && ReaderHand(s'.r) == None;
      hide AfterAcquire, Keys, EntryKeys, HandKeys, ReaderHand, ConsumerHand;
    }
  }

  lemma PlacesPush(s: Session)
    requires s.r.RHold?
    ensures Places(AfterPush(s, s.r.buf)) == Places(s)
  {
    hide Keys, EntryKeys, ConsumerHand;
    var full := s.r.buf.(transfer := s.h.good - 1);
    assert Key(full) == Key(s.r.buf);
    var k := multiset{Key(s.r.buf)};
    KeysSnoc(s.sh.q.free, full);
    EntryKeysSnoc(s.sh.q.filled, Entry(full, s.sh.q.dropped));
    FromFree(Keys(s.sh.q.free), k, EntryKeys(s.sh.q.filled), HandKeys(ConsumerHand(s.c)));
    IntoRing(Keys(s.sh.q.free), k, EntryKeys(s.sh.q.filled), HandKeys(ConsumerHand(s.c)));
  }

  /** Nothing moved. */
  lemma PlacesSame(s: Session, s': Session)
    requires s'.sh.q.free == s.sh.q.free && s'.sh.q.filled == s.sh.q.filled
    requires ReaderHand(s'.r) == ReaderHand(s.r) && ConsumerHand(s'.c) == ConsumerHand(s.c)
    ensures Places(s') == Places(s)
  {
  }

  lemma PlacesPop(s: Session)
    requires s.c.CPop?
    ensures Places(AfterPop(s)) == Places(s)
  {
    hide Keys, EntryKeys, HandKeys, ReaderHand;
    var filled := s.sh.q.filled;
    if s.sh.q.shutdown || filled == [] {
      hide Places;
      PlacesSame(s, AfterPop(s));
    } else {
      var s' := AfterPop(s);
      assert s'.sh.q.filled == filled[1..] && s'.sh.q.free == s.sh.q.free && s'.r == s.r;
      assert ConsumerHand(s.c) == None && ConsumerHand(s'.c) == Some(filled[0].buf);
      hide AfterPop, ConsumerHand;
      EntryKeysFirst(filled);
      HandKeysAre(filled[0].buf);
      OutOfRing(Keys(s.sh.q.free), multiset{Key(filled[0].buf)}, EntryKeys(filled[1..]), HandKeys(ReaderHand(s.r)));
    }
  }

  lemma HandKeysAre(b: Buf)
    ensures HandKeys(None) == multiset{} && HandKeys(Some(b)) == multiset{Key(b)}
  {
  }

  lemma PlacesReturn(s: Session, b: Buf, c: ConsumerPc)
    requires ConsumerHand(s.c) == Some(b) && ConsumerHand(c) == None
    ensures Places(s.(sh := GiveBack(s.sh, b), c := c)) == Places(s)
  {
    hide Keys, EntryKeys, ReaderHand, ConsumerHand;
    KeysSnoc(s.sh.q.free, b);
    Returned(Keys(s.sh.q.free), multiset{Key(b)}, EntryKeys(s.sh.q.filled), HandKeys(ReaderHand(s.r)));
  }

  lemma FromFree(f: multiset<(nat, nat)>, k: multiset<(nat, nat)>, e: multiset<(nat, nat)>, c: multiset<(nat, nat)>)
    ensures f + k + e + multiset{} + c == f + e + k + c
  {
  }

  lemma IntoRing(f: multiset<(nat, nat)>, k: multiset<(nat, nat)>, e: multiset<(nat, nat)>, c: multiset<(nat, nat)>)
    ensures f + (e + k) + multiset{} + c == f + e + k + c
  {
  }

  lemma OutOfRing(f: multiset<(nat, nat)>, k: multiset<(nat, nat)>, e: multiset<(nat, nat)>, r: multiset<(nat, nat)>)
    ensures f + (k + e) + r + multiset{} == f + e + r + k
  {
  }

  lemma Returned(f: multiset<(nat, nat)>, k: multiset<(nat, nat)>, e: multiset<(nat, nat)>, r: multiset<(nat, nat)>)
    ensures f + k + e + r + multiset{} == f + e + r + k
  {
  }

  /** The steps that touch no buffer. */
  lemma ReaderElsewhere(s: Session, opens: bool, e: Transport.Event)
    requires !s.r.RAcquire? && !s.r.RHold?
    ensures ReaderStep(s, opens, e).sh.q.free == s.sh.q.free
    ensures ReaderStep(s, opens, e).sh.q.filled == s.sh.q.filled
    ensures ReaderHand(ReaderStep(s, opens, e).r) == None
    ensures ConsumerHand(ReaderStep(s, opens, e).c) == ConsumerHand(s.c)
  {
  }

  lemma WokenHoldsNothing(c: ConsumerPc)
    ensures ConsumerHand(Woken(c)) == ConsumerHand(c)
  {
  }

  lemma ConsumerElsewhere(s: Session, keep: bool)
    requires !s.c.CPop? && !s.c.CRecycle? && !s.c.CDiscard?
    ensures var s' := ConsumerStep(s, keep);
            s'.sh.q == s.sh.q && s'.r == s.r && ConsumerHand(s'.c) == ConsumerHand(s.c)
  {
  }

  lemma OwnerElsewhere(s: Session)
    ensures OwnerStep(s).sh.q.free == s.sh.q.free
    ensures OwnerStep(s).sh.q.filled == s.sh.q.filled
    ensures OwnerStep(s).r == s.r
    ensures ConsumerHand(OwnerStep(s).c) == ConsumerHand(s.c)
  {
  }

  lemma PlacesReader(s: Session, opens: bool, e: Transport.Event)
    ensures Places(ReaderStep(s, opens, e)) == Places(s)
  {
    hide Places;
    if s.r.RAcquire? {
      PlacesAcquire(s);
    } else if s.r.RHold? {
      PlacesPush(s);
    } else {
      ReaderElsewhere(s, opens, e);
      PlacesSame(s, ReaderStep(s, opens, e));
    }
  }

  lemma PlacesConsumer(s: Session, keep: bool)
    ensures Places(ConsumerStep(s, keep)) == Places(s)
  {
    hide Places;
    if s.c.CPop? {
      PlacesPop(s);
    } else if s.c.CRecycle? {
      PlacesReturn(s, s.c.buf, CRecycleNotify(s.c.keep));
    } else if s.c.CDiscard? {
      PlacesReturn(s, s.c.buf, CDiscardNotify);
    } else {
      ConsumerElsewhere(s, keep);
      PlacesSame(s, ConsumerStep(s, keep));
    }
  }

  lemma PlacesKept(s: Session, a: Action)
    requires Enabled(s, a)
    ensures Places(Step(s, a)) == Places(s)
  {
    hide Places, ReaderStep, ConsumerStep, OwnerStep;
    match a {
      case Reader(opens, e) => PlacesReader(s, opens, e);
      case Consumer(keep) => PlacesConsumer(s, keep);
      case Owner =>
        OwnerElsewhere(s);
        PlacesSame(s, OwnerStep(s));
      case _ =>
        WokenHoldsNothing(s.c);
        PlacesSame(s, Step(s, a));
    }
  }

  lemma RingBounded(s: Session, a: Action)
    requires Enabled(s, a) && |s.sh.q.filled| <= RAW_BUFFER_COUNT
    ensures |Step(s, a).sh.q.filled| <= RAW_BUFFER_COUNT && Step(s, a).size == s.size
  {
  }

  lemma PartitionKept(s: Session, a: Action)
    requires Partition(s) && Enabled(s, a)
    ensures Partition(Step(s, a))
  {
    hide Keys, EntryKeys, ReaderHand, ConsumerHand, Step, Enabled;
    PlacesKept(s, a);
    RingBounded(s, a);
  }

  lemma AccountedPush(s: Session)
    requires Accounted(s) && s.r.RHold?
    ensures Accounted(AfterPush(s, s.r.buf))
  {
    var s' := AfterPush(s, s.r.buf);
    var n := |s.h.queued|;
    if |s.sh.q.filled| < RAW_BUFFER_COUNT {
      forall i | 0 <= i <= n
        ensures GapExact(s'.h.queued, i)
      {
        if i < n {
          assert GapExact(s.h.queued, i);
        }
      }
    }
  }

  lemma AccountedPop(s: Session)
    requires Accounted(s) && s.c.CPop?
    ensures Accounted(AfterPop(s))
  {
    if s.sh.q.filled != [] && !s.sh.q.shutdown {
      assert (s.h.popped + [s.sh.q.filled[0]]) + s.sh.q.filled[1..] == s.h.popped + s.sh.q.filled;
    }
  }

  /** Neither the log nor what is still to be logged changes. */
  lemma AccountedSame(s: Session, s': Session)
    requires Accounted(s)
    requires s'.h.queued == s.h.queued && s'.h.popped == s.h.popped && s'.sh.q.filled == s.sh.q.filled
    requires s'.h.good - InFlight(s') == s.h.good - InFlight(s) && s'.sh.q.dropped == s.sh.q.dropped
    ensures Accounted(s')
  {
  }

  lemma AccountedAcquire(s: Session)
    requires Accounted(s) && s.r.RAcquire?
    ensures Accounted(AfterAcquire(s))
  {
    hide GapExact;
  }

  lemma AccountedReader(s: Session, opens: bool, e: Transport.Event)
    requires Accounted(s)
    ensures Accounted(ReaderStep(s, opens, e))
  {
    hide Accounted;
    if s.r.RAcquire? {
      AccountedAcquire(s);
    } else if s.r.RHold? {
      AccountedPush(s);
    } else {
      AccountedSame(s, ReaderStep(s, opens, e));
    }
  }

  lemma AccountedConsumer(s: Session, keep: bool)
    requires Accounted(s)
    ensures Accounted(ConsumerStep(s, keep))
  {
    hide Accounted;
    if s.c.CPop? {
      AccountedPop(s);
    } else {
      AccountedSame(s, ConsumerStep(s, keep));
    }
  }

  lemma AccountedKept(s: Session, a: Action)
    requires Accounted(s) && Enabled(s, a)
    ensures Accounted(Step(s, a))
  {
    hide Accounted, ReaderStep, ConsumerStep;
    match a {
      case Reader(opens, e) => AccountedReader(s, opens, e);
      case Consumer(keep) => AccountedConsumer(s, keep);
      case _ => AccountedSame(s, Step(s, a));
    }
  }

  lemma FlagsReader(s: Session, opens: bool, e: Transport.Event)
    requires FlagsAgree(s) && !s.r.RDone?
    ensures FlagsAgree(ReaderStep(s, opens, e))
  {
  }

  lemma FlagsConsumer(s: Session, keep: bool)
    requires FlagsAgree(s) && !s.c.CDone?
    ensures FlagsAgree(ConsumerStep(s, keep))
  {
  }

  lemma FlagsKept(s: Session, a: Action)
    requires FlagsAgree(s) && Enabled(s, a)
    ensures FlagsAgree(Step(s, a))
  {
    hide ReaderStep, ConsumerStep;
    match a {
      case Reader(opens, e) => FlagsReader(s, opens, e);
      case Consumer(keep) => FlagsConsumer(s, keep);
      case _ =>
    }
  }

  lemma WakeupKept(s: Session, a: Action)
    requires NoLostWakeup(s) && Enabled(s, a)
    ensures NoLostWakeup(Step(s, a))
  {
  }

  lemma LateKept(s: Session, a: Action)
    requires FlagsAgree(s) && LateBound(s) && Enabled(s, a)
    ensures LateBound(Step(s, a))
  {
    hide Acquired, Pushed, PopPass;
  }

  lemma SaidStopKept(s: Session, a: Action)
    requires SaidStopLeads(s) && Enabled(s, a)
    ensures SaidStopLeads(Step(s, a))
  {
    hide Acquired, Pushed;
  }

  lemma DeliveryKept(s: Session, a: Action)
    requires DeliveredInOrder(s) && Enabled(s, a)
    ensures DeliveredInOrder(Step(s, a))
  {
  }

  lemma InvKept(s: Session, a: Action)
    requires Inv(s) && Enabled(s, a)
    ensures Inv(Step(s, a))
  {
    hide Partition, Accounted, FlagsAgree, NoLostWakeup, LateBound, SaidStopLeads, DeliveredInOrder;
    DeliveryKept(s, a);
    PartitionKept(s, a);
    FlagsKept(s, a);
    WakeupKept(s, a);
    LateKept(s, a);
    SaidStopKept(s, a);
    AccountedKept(s, a);
  }

  /** Every state any interleaving reaches satisfies the invariant. */
  lemma {:induction false} InvAlways(size: nat, run: seq<Action>)
    ensures After(Started(size), run).Some? ==> Inv(After(Started(size), run).value)
  {
    hide Inv, Step, Enabled;
    if run == [] {
      InvStart(size);
    } else {
      InvAlways(size, run[..|run| - 1]);
      var m := After(Started(size), run[..|run| - 1]);
      if m.Some? && Enabled(m.value, run[|run| - 1]) {
        InvKept(m.value, run[|run| - 1]);
      }
    }
  }
}
