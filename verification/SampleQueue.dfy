/** The ring and recycling pool between reader and consumer: each operation's critical section
    as a function of the guarded state, and the queue object that performs it. */
module SampleQueue {
  import opened MachineInts

  /** A filled buffer and the drops counted before it was queued. */
  datatype Entry<B> = Entry(buf: B, dropped: nat)

  /** Everything the mutex guards. */
  datatype QueueState<B> = QueueState(filled: seq<Entry<B>>, free: seq<B>, dropped: nat, shutdown: bool)

  datatype Popped<B> = ShutDown | Got(entry: Entry<B>) | MustWait

  /** `try_acquire_free`: the most recently recycled buffer, or a counted drop. */
  function Acquired<B>(q: QueueState<B>): (QueueState<B>, Option<B>) {
    if q.free == [] then (q.(dropped := SaturatingInc(q.dropped, U32_MAX)), None)
    else (q.(free := q.free[..|q.free| - 1]), Some(q.free[|q.free| - 1]))
  }

  /** `push_filled`: on a full ring the buffer is recycled and the drop counted. */
  function Pushed<B>(q: QueueState<B>, capacity: nat, buf: B): QueueState<B> {
    if |q.filled| >= capacity then q.(dropped := SaturatingInc(q.dropped, U32_MAX), free := q.free + [buf])
    else q.(filled := q.filled + [Entry(buf, q.dropped)], dropped := 0)
  }

  /** One pass of `pop_filled` under the lock; shutdown wins over queued data. */
  function PopPass<B>(q: QueueState<B>): (QueueState<B>, Popped<B>) {
    if q.shutdown then (q, ShutDown)
    else if q.filled == [] then (q, MustWait)
    else (q.(filled := q.filled[1..]), Got(q.filled[0]))
  }

  function Recycled<B>(q: QueueState<B>, buf: B): QueueState<B> {
    q.(free := q.free + [buf])
  }

  /** The pool is last in, first out. */
  lemma RecycledFirst<B>(q: QueueState<B>, buf: B)
    ensures Acquired(Recycled(q, buf)) == (q, Some(buf))
  {
  }

  class Queue<B(==)> {
    var filled: seq<Entry<B>>
    var free: seq<B>
    var dropped: nat
    var shutdown: bool
    const capacity: nat

    ghost predicate Valid()
      reads this
    {
      |filled| <= capacity && dropped <= U32_MAX
    }

    ghost function State(): QueueState<B>
      reads this
    {
      QueueState(filled, free, dropped, shutdown)
    }

    constructor WithPool(slots: nat, pool: seq<B>)
      ensures Valid() && capacity == slots
      ensures State() == QueueState([], pool, 0, false)
    {
      filled, free, dropped, shutdown := [], pool, 0, false;
      capacity := slots;
    }

    method TryAcquireFree() returns (buf: Option<B>)
      requires Valid()
      modifies this
      ensures Valid() && (State(), buf) == Acquired(old(State()))
    {
      if |free| == 0 {
        dropped := SaturatingInc(dropped, U32_MAX);
        buf := None;
      } else {
        buf := Some(free[|free| - 1]);
        free := free[..|free| - 1];
      }
    }

    method PushFilled(buf: B)
      requires Valid()
      modifies this
      ensures Valid() && State() == Pushed(old(State()), capacity, buf)
    {
      if |filled| >= capacity {
        dropped := SaturatingInc(dropped, U32_MAX);
        free := free + [buf];
        return;
      }
      var taken := dropped;
      dropped := 0;
      filled := filled + [Entry(buf, taken)];
    }

    /** What `pop_filled` does each time it holds the lock; `MustWait` is where it sleeps. */
    method PopFilledPass() returns (p: Popped<B>)
      requires Valid()
      modifies this
      ensures Valid() && (State(), p) == PopPass(old(State()))
    {
      if shutdown {
        return ShutDown;
      }
      if |filled| > 0 {
        p := Got(filled[0]);
        filled := filled[1..];
        return;
      }
      p := MustWait;
    }

    method Recycle(buf: B)
      requires Valid()
      modifies this
      ensures Valid() && State() == Recycled(old(State()), buf)
    {
      free := free + [buf];
    }

    method Shutdown()
      requires Valid()
      modifies this
      ensures Valid() && State() == old(State()).(shutdown := true)
    {
      shutdown := true;
    }
  }
}
