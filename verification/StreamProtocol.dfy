/** One streaming session as an interleaving of atomic steps: the reader thread, the consumer
    thread and the owner calling `stop_rx` (or `start_rx` again). Every shared load, store,
    critical section and notification is a step of its own. */
module StreamProtocol {
  import opened MachineInts
  import opened SampleQueue
  import Transport

  /** Ring slots, and buffers in the pool. */
  const RAW_BUFFER_COUNT := 8
  const POOL := 9

  /** A pool buffer: which one it is, its byte length, and the index of the good transfer whose
      data it holds. */
  datatype Buf = Buf(id: nat, size: nat, transfer: int)

  datatype ReaderPc =
    | ROpen                      // about to open the endpoint
    | RHead                      // loop head: about to load `streaming`
    | RHeadStop                  // about to load `stop_requested`
    | RWait                      // in the timed wait
    | RAcquire                   // a full transfer arrived, about to take a free buffer
    | RHold(buf: Buf)            // holding a buffer, about to copy and push
    | RNotify                    // pushed and unlocked, about to notify
    | RDrain(left: nat)          // cancelling what is in flight
    | RClear                     // about to store `streaming = false`
    | RShut                      // about to set `shutdown`
    | RShutNotify                // set and unlocked, about to notify
    | RDone

  datatype ConsumerPc =
    | CHead                      // loop head: about to load `streaming`
    | CHeadStop                  // about to load `stop_requested`
    | CPop                       // about to take the lock in `pop_filled`
    | CAsleep                    // waiting on the condvar
    | CGot(e: Entry<Buf>)        // popped, about to load `streaming` again
    | CGotStop(e: Entry<Buf>)    // about to load `stop_requested` again
    | CConvert(e: Entry<Buf>)    // cleared to deliver, the callback not yet begun
    | CCallback(e: Entry<Buf>)   // in the callback
    | CRecycle(buf: Buf, keep: bool)
    | CRecycleNotify(keep: bool)
    | CClear                     // the callback said stop, about to store `streaming = false`
    | CDiscard(buf: Buf)         // a stop raced the pop, about to recycle undelivered
    | CDiscardNotify
    | CExit                      // out of the loop, about to store `streaming = false`
    | CDone

  datatype OwnerPc =
    | OIdle
    | OMode                      // stop requested, the receiver-off command under way
    | OClear                     // about to store `streaming = false`
    | OReap                      // start_rx: about to load `streaming`
    | OReapStop                  // about to load `stop_requested`
    | OShut(stop: bool)          // about to set `shutdown`
    | OShutNotify(stop: bool)
    | OJoinReader(stop: bool)
    | OJoinConsumer(stop: bool)
    | OUnrequest                 // about to store `stop_requested = false`
    | ODone

  /** What the threads share: the mutex-guarded queue and the two atomic flags. */
  datatype Shared = Shared(q: QueueState<Buf>, streaming: bool, stopRequested: bool)

  /** What has happened so far; no step depends on it. */
  datatype History = History(
    good: nat,                   // good transfers
    queued: seq<Entry<Buf>>,     // every entry ever queued
    popped: seq<Entry<Buf>>,     // every entry ever popped
    begun: seq<Entry<Buf>>,      // every delivery whose callback began
    lateCallbacks: nat,          // callbacks begun after a stop was requested
    saidStop: bool               // a callback returned false
  )

  /** `size` is the latched buffer size, `failures` the reader's consecutive-error count. */
  datatype Session = Session(sh: Shared, r: ReaderPc, c: ConsumerPc, o: OwnerPc, size: nat, failures: nat, h: History)

  datatype Action =
    | Reader(opens: bool, e: Transport.Event)  // `opens`: whether the endpoint opens
    | Consumer(keep: bool)                     // `keep`: what the callback returns
    | SpuriousWake
    | CallStop                                 // the owner calls stop_rx
    | CallStart                                // the owner calls start_rx again
    | Owner                                    // the owner's next step inside such a call

  function InitialPool(size: nat): seq<Buf> {
    seq(POOL, i requires 0 <= i < POOL => Buf(i, size, -1))
  }

  /** Right after start_rx has spawned both threads. */
  function Started(size: nat): Session {
    Session(Shared(QueueState([], InitialPool(size), 0, false), true, false), ROpen, CHead, OIdle,
            size, 0, History(0, [], [], [], 0, false))
  }

  /** `running`: the stream is live. */
  predicate Running(s: Session) {
    s.sh.streaming && !s.sh.stopRequested
  }

  predicate Enabled(s: Session, a: Action) {
    match a
    case Reader(_, _) => !s.r.RDone?
    case Consumer(_) => !s.c.CDone? && !s.c.CAsleep?
    case SpuriousWake => s.c.CAsleep?
    case CallStop => s.o.OIdle?
    case CallStart => s.o.OIdle?
    case Owner =>
      match s.o
      case OIdle => false
      case ODone => false
      case OJoinReader(_) => s.r.RDone?
      case OJoinConsumer(_) => s.c.CDone?
      case _ => true
  }

  /** `notify_all`: the consumer is the only thread that ever waits. */
  function Woken(c: ConsumerPc): ConsumerPc {
    if c.CAsleep? then CPop else c
  }

  function Cleared(sh: Shared): Shared {
    sh.(streaming := false)
  }

  function WithShutdown(sh: Shared): Shared {
    sh.(q := sh.q.(shutdown := true))
  }

  function AfterCompletion(s: Session, e: Transport.Event): Session {
    match e
    case Timeout => s.(r := RHead)
    case Completed(c) =>
      match Transport.Classify(c, s.size)
      case Good => s.(r := RAcquire, h := s.h.(good := s.h.good + 1), failures := 0)
      case Fatal => s.(r := RDrain(Transport.TRANSFER_COUNT - 1))
      case Transient =>
        var n := s.failures + 1;
        var giveUp := n > Transport.MAX_CONSECUTIVE_TRANSFER_ERRORS;
        s.(failures := n, r := if giveUp then RDrain(Transport.TRANSFER_COUNT - 1) else RHead)
  }

  function AfterAcquire(s: Session): Session {
    var (q, b) := Acquired(s.sh.q);
    s.(sh := s.sh.(q := q), r := if b.None? then RHead else RHold(b.value))
  }

  /** `push_filled` of the buffer the transfer was copied into. */
  function AfterPush(s: Session, b: Buf): Session {
    var full := b.(transfer := s.h.good - 1);
    var queued := if |s.sh.q.filled| >= RAW_BUFFER_COUNT then s.h.queued else s.h.queued + [Entry(full, s.sh.q.dropped)];
    s.(sh := s.sh.(q := Pushed(s.sh.q, RAW_BUFFER_COUNT, full)), r := RNotify, h := s.h.(queued := queued))
  }

  function ReaderStep(s: Session, opens: bool, e: Transport.Event): Session {
    match s.r
    case ROpen => s.(r := if opens then RHead else RClear)
    case RHead => s.(r := if s.sh.streaming then RHeadStop else RDrain(Transport.TRANSFER_COUNT))
    case RHeadStop => s.(r := if s.sh.stopRequested then RDrain(Transport.TRANSFER_COUNT) else RWait)
    case RWait => AfterCompletion(s, e)
    case RAcquire => AfterAcquire(s)
    case RHold(b) => AfterPush(s, b)
    case RNotify => s.(c := Woken(s.c), r := RHead)
    case RDrain(left) => s.(r := if left == 0 || e.Timeout? then RClear else RDrain(left - 1))
    case RClear => s.(sh := Cleared(s.sh), r := RShut)
    case RShut => s.(sh := WithShutdown(s.sh), r := RShutNotify)
    case RShutNotify => s.(c := Woken(s.c), r := RDone)
    case RDone => s
  }

  function AfterPop(s: Session): Session {
    var (q, p) := PopPass(s.sh.q);
    match p
    case ShutDown => s.(c := CExit)
    case MustWait => s.(c := CAsleep)
    case Got(e) => s.(sh := s.sh.(q := q), c := CGot(e), h := s.h.(popped := s.h.popped + [e]))
  }

  function Begin(h: History, e: Entry<Buf>, late: bool): History {
    h.(begun := h.begun + [e], lateCallbacks := h.lateCallbacks + if late then 1 else 0)
  }

  function GiveBack(sh: Shared, b: Buf): Shared {
    sh.(q := Recycled(sh.q, b))
  }

  function ConsumerStep(s: Session, keep: bool): Session {
    match s.c
    case CHead => s.(c := if s.sh.streaming then CHeadStop else CExit)
    case CHeadStop => s.(c := if s.sh.stopRequested then CExit else CPop)
    case CPop => AfterPop(s)
    case CGot(e) => s.(c := if s.sh.streaming then CGotStop(e) else CDiscard(e.buf))
    case CGotStop(e) => s.(c := if s.sh.stopRequested then CDiscard(e.buf) else CConvert(e))
    case CConvert(e) => s.(c := CCallback(e), h := Begin(s.h, e, s.sh.stopRequested))
    case CCallback(e) => s.(c := CRecycle(e.buf, keep), h := s.h.(saidStop := s.h.saidStop || !keep))
    case CRecycle(b, k) => s.(sh := GiveBack(s.sh, b), c := CRecycleNotify(k))
    case CRecycleNotify(k) => s.(c := if k then CHead else CClear)
    case CClear => s.(sh := Cleared(s.sh), c := CHead)
    case CDiscard(b) => s.(sh := GiveBack(s.sh, b), c := CDiscardNotify)
    case CDiscardNotify => s.(c := CExit)
    case CExit => s.(sh := Cleared(s.sh), c := CDone)
    case CAsleep => s
    case CDone => s
  }

  function OwnerStep(s: Session): Session {
    match s.o
    case OMode => s.(o := OClear)
    case OClear => s.(sh := Cleared(s.sh), o := OShut(true))
    case OReap => s.(o := if s.sh.streaming then OReapStop else OShut(false))
    case OReapStop => s.(o := if s.sh.stopRequested then OShut(false) else OIdle)
    case OShut(stop) => s.(sh := WithShutdown(s.sh), o := OShutNotify(stop))
    case OShutNotify(stop) => s.(c := Woken(s.c), o := OJoinReader(stop))
    case OJoinReader(stop) => s.(o := OJoinConsumer(stop))
    case OJoinConsumer(stop) => s.(o := if stop then OUnrequest else ODone)
    case OUnrequest => s.(sh := s.sh.(stopRequested := false), o := ODone)
    case OIdle => s
    case ODone => s
  }

  function Step(s: Session, a: Action): Session
    requires Enabled(s, a)
  {
    match a
    case Reader(opens, e) => ReaderStep(s, opens, e)
    case Consumer(keep) => ConsumerStep(s, keep)
    case SpuriousWake => s.(c := CPop)
    case CallStop => s.(sh := s.sh.(stopRequested := true), o := OMode)
    case CallStart => s.(o := OReap)
    case Owner => OwnerStep(s)
  }

  /** Where the steps `run` lead, if each is enabled where it is taken. */
  function After(from: Session, run: seq<Action>): Option<Session> {
    if run == [] then Some(from)
    else
      match After(from, run[..|run| - 1])
      case None => None
      case Some(m) => if Enabled(m, run[|run| - 1]) then Some(Step(m, run[|run| - 1])) else None
  }

  /** Some interleaving leads from `s` to `z`. */
  ghost predicate Leads(s: Session, z: Session) {
    exists run :: After(s, run) == Some(z)
  }

  /** Some interleaving of a fresh session leads to `s`. */
  ghost predicate Reachable(s: Session, size: nat) {
    Leads(Started(size), s)
  }

  lemma LeadsNowhere(s: Session)
    ensures Leads(s, s)
  {
    assert After(s, []) == Some(s);
  }

  /** One more step. */
  lemma Then(s: Session, m: Session, a: Action) returns (z: Session)
    requires Leads(s, m) && Enabled(m, a)
    ensures Leads(s, z) && z == Step(m, a)
  {
    hide Step, Enabled;
    var run :| After(s, run) == Some(m);
    z := Step(m, a);
    assert (run + [a])[..|run|] == run;
    assert After(s, run + [a]) == Some(z);
  }

  // ---------- two stretches every stream consists of ----------

  /** The state after the reader has received, copied and queued one full transfer. */
  function AfterDelivery(s: Session): Session
    requires s.sh.q.free != []
  {
    var free, n := s.sh.q.free, |s.sh.q.free| - 1;
    var e := Entry(free[n].(transfer := s.h.good), s.sh.q.dropped);
    s.(sh := s.sh.(q := s.sh.q.(filled := s.sh.q.filled + [e], free := free[..n], dropped := 0)),
       c := Woken(s.c), failures := 0,
       h := s.h.(good := s.h.good + 1, queued := s.h.queued + [e]))
  }

  lemma Delivery(s0: Session, s: Session)
    requires Leads(s0, s)
    requires s.r.RHead? && Running(s) && s.sh.q.free != [] && |s.sh.q.filled| < RAW_BUFFER_COUNT
    ensures Leads(s0, AfterDelivery(s))
  {
    hide Leads;
    var full := Reader(true, Transport.Completed(Transport.Arrived(s.size)));
    var z := Then(s0, s, full);
    z := Then(s0, z, full);
    z := Then(s0, z, full);
    assert z == s.(r := RAcquire, h := s.h.(good := s.h.good + 1), failures := 0);
    z := Then(s0, z, full);
    z := Then(s0, z, full);
    z := Then(s0, z, full);
    assert z == AfterDelivery(s);
  }

  /** The state after the consumer has taken the first entry and is cleared to deliver it. */
  function AfterTaking(s: Session): Session
    requires s.sh.q.filled != []
  {
    var e := s.sh.q.filled[0];
    s.(sh := s.sh.(q := s.sh.q.(filled := s.sh.q.filled[1..])), c := CConvert(e),
       h := s.h.(popped := s.h.popped + [e]))
  }

  lemma Taking(s0: Session, s: Session)
    requires Leads(s0, s)
    requires s.c.CHead? && Running(s) && s.sh.q.filled != [] && !s.sh.q.shutdown
    ensures Leads(s0, AfterTaking(s))
  {
    hide Leads;
    var go := Consumer(true);
    var z := Then(s0, s, go);
    z := Then(s0, z, go);
    z := Then(s0, z, go);
    z := Then(s0, z, go);
    z := Then(s0, z, go);
    assert z == AfterTaking(s);
  }
}
