/** The session's steps touch the shared queue only through the queue object's operations: any
    interleaving can be played against a real queue, which goes through exactly the session's
    queue states. */
module QueueSession {
  import opened MachineInts
  import opened SampleQueue
  import opened StreamProtocol

  /** The critical section a step is, if it is one. */
  datatype Operation = Nothing | Acquire | Push(buf: Buf) | Pop | GiveBackBuf(buf: Buf) | SetShutdown

  /** Each thread passes only what it holds. */
  function OperationOf(s: Session, a: Action): Operation {
    match a
    case Reader(_, _) =>
      (match s.r
       case RAcquire => Acquire
       case RHold(b) => Push(b.(transfer := s.h.good - 1))
       case RShut => SetShutdown
       case _ => Nothing)
    case Consumer(_) =>
      (match s.c
       case CPop => Pop
       case CRecycle(b, _) => GiveBackBuf(b)
       case CDiscard(b) => GiveBackBuf(b)
       case _ => Nothing)
    case Owner => if s.o.OShut? then SetShutdown else Nothing
    case _ => Nothing
  }

  function Performed(q: QueueState<Buf>, op: Operation): QueueState<Buf> {
    match op
    case Nothing => q
    case Acquire => Acquired(q).0
    case Push(b) => Pushed(q, RAW_BUFFER_COUNT, b)
    case Pop => PopPass(q).0
    case GiveBackBuf(b) => Recycled(q, b)
    case SetShutdown => q.(shutdown := true)
  }

  /** A step changes the guarded state by its one critical section and in no other way. */
  lemma StepIsOperation(s: Session, a: Action)
    requires Enabled(s, a)
    ensures Step(s, a).sh.q == Performed(s.sh.q, OperationOf(s, a))
  {
  }

  method Perform(queue: Queue<Buf>, op: Operation)
    requires queue.Valid() && queue.capacity == RAW_BUFFER_COUNT
    modifies queue
    ensures queue.Valid() && queue.State() == Performed(old(queue.State()), op)
  {
    match op {
      case Nothing =>
      case Acquire => var buf := queue.TryAcquireFree();
      case Push(b) => queue.PushFilled(b);
      case Pop => var popped := queue.PopFilledPass();
      case GiveBackBuf(b) => queue.Recycle(b);
      case SetShutdown => queue.Shutdown();
    }
  }

  /** Any interleaving of a fresh session, played against a queue object. */
  method Play(size: nat, run: seq<Action>) returns (s: Session, queue: Queue<Buf>)
    requires After(Started(size), run).Some?
    ensures After(Started(size), run) == Some(s)
    ensures fresh(queue) && queue.Valid() && queue.State() == s.sh.q
  {
    hide Step, Enabled, Performed, OperationOf;
    s := Started(size);
    queue := new Queue<Buf>.WithPool(RAW_BUFFER_COUNT, InitialPool(size));
    assert run[..|run|] == run;
    for i := 0 to |run|
      invariant After(Started(size), run[..i]) == Some(s)
      invariant fresh(queue) && queue.Valid() && queue.capacity == RAW_BUFFER_COUNT && queue.State() == s.sh.q
    {
      PrefixRuns(size, run, i);
      StepIsOperation(s, run[i]);
      Perform(queue, OperationOf(s, run[i]));
      s := Step(s, run[i]);
    }
  }

  /** Every prefix of a run is a run, and its next step is enabled. */
  lemma {:induction false} PrefixRuns(size: nat, run: seq<Action>, i: nat)
    requires i < |run| && After(Started(size), run).Some?
    ensures var m := After(Started(size), run[..i]);
            && m.Some? && Enabled(m.value, run[i])
            && After(Started(size), run[..i + 1]) == Some(Step(m.value, run[i]))
  {
    hide Step, Enabled;
    var n := |run| - 1;
    assert run[..i + 1][..i] == run[..i];
    if i < n {
      PrefixRuns(size, run[..n], i);
      assert run[..n][..i] == run[..i] && run[..n][..i + 1] == run[..i + 1];
    } else {
      assert run[..i + 1] == run;
    }
  }
}
