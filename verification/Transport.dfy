/** The bulk reader's error policy: which completions it tolerates, when it gives up, and how
    many transfers it keeps in flight. */
module Transport {
  import opened MachineInts

  const MAX_CONSECUTIVE_TRANSFER_ERRORS := 64
  const TRANSFER_COUNT := 16

  datatype TransferError = Disconnected | Stall | InvalidArgument | Cancelled | Fault | Unknown

  /** A completed bulk transfer: the bytes that arrived, or why none did. */
  datatype Completion = Arrived(len: nat) | Failed(error: TransferError)

  /** What one timed wait yields; `Timeout` leaves the transfer pending. */
  datatype Event = Timeout | Completed(c: Completion)

  datatype Verdict = Good | Fatal | Transient

  function Classify(c: Completion, bufferSize: nat): Verdict {
    match c
    case Arrived(len) => if len == bufferSize then Good else Transient
    case Failed(Disconnected) => Fatal
    case Failed(Stall) => Fatal
    case Failed(InvalidArgument) => Fatal
    case Failed(_) => Transient
  }

  // ---------- the policy, read off the trace ----------

  predicate Is(e: Event, v: Verdict, bufferSize: nat) {
    e.Completed? && Classify(e.c, bufferSize) == v
  }

  /** The position after the last full-size success among the first `n` events. */
  function AfterLastGood(trace: seq<Event>, n: nat, bufferSize: nat): (r: nat)
    requires n <= |trace|
    ensures r <= n
  {
    if n == 0 then 0
    else if Is(trace[n - 1], Good, bufferSize) then n
    else AfterLastGood(trace, n - 1, bufferSize)
  }

  /** Transient failures among events `a..b`. */
  function Failures(trace: seq<Event>, a: nat, b: nat, bufferSize: nat): (r: nat)
    requires a <= b <= |trace|
    ensures r <= b - a
  {
    if a == b then 0
    else Failures(trace, a, b - 1, bufferSize) + if Is(trace[b - 1], Transient, bufferSize) then 1 else 0
  }

  /** Event `i` ends the stream: an unrecoverable error, or the 65th transient failure since the
      last full-size success. */
  predicate Ends(trace: seq<Event>, i: nat, bufferSize: nat)
    requires i < |trace|
  {
    || Is(trace[i], Fatal, bufferSize)
    || (Is(trace[i], Transient, bufferSize)
        && Failures(trace, AfterLastGood(trace, i, bufferSize), i, bufferSize) == MAX_CONSECUTIVE_TRANSFER_ERRORS)
  }

  /** The three ways a completion is handled, and which is which. */
  lemma EveryCompletion(c: Completion, bufferSize: nat)
    ensures Classify(c, bufferSize) == Good <==> c == Arrived(bufferSize)
    ensures Classify(c, bufferSize) == Fatal <==>
              c == Failed(Disconnected) || c == Failed(Stall) || c == Failed(InvalidArgument)
    ensures Classify(c, bufferSize) == Transient <==>
              (c.Arrived? && c.len != bufferSize) || c == Failed(Cancelled) || c == Failed(Fault) || c == Failed(Unknown)
  {
    match c {
      case Arrived(_) =>
      case Failed(error) =>
        match error {
          case Disconnected =>
          case Stall =>
          case InvalidArgument =>
          case Cancelled =>
          case Fault =>
          case Unknown =>
        }
    }
  }

  // ---------- the reader ----------

  class Reader {
    const bufferSize: nat
    /** Tolerated and fatal-run failures, for the summary, and failures since the last success. */
    var total: nat
    var consecutive: nat
    /** Transfers submitted to the endpoint and not yet completed. */
    var pending: nat

    /** Priming: every transfer of the pool is submitted. */
    constructor (bufferSize: nat)
      ensures this.bufferSize == bufferSize
      ensures total == 0 && consecutive == 0 && pending == 16
    {
      this.bufferSize := bufferSize;
      total, consecutive, pending := 0, 0, 0;
      new;
      for i := 0 to TRANSFER_COUNT
        invariant pending == i && total == 0 && consecutive == 0
      {
        pending := pending + 1;
      }
    }

    method RecordTransient() returns (keep: bool)
      modifies this`total, this`consecutive
      ensures total == SaturatingInc(old(total), U64_MAX)
      ensures consecutive == SaturatingInc(old(consecutive), U64_MAX)
      ensures keep == (consecutive <= 64)
    {
      total := SaturatingInc(total, U64_MAX);
      consecutive := SaturatingInc(consecutive, U64_MAX);
      keep := consecutive <= MAX_CONSECUTIVE_TRANSFER_ERRORS;
    }

    method ResubmitOrStop() returns (keep: bool)
      modifies this
      ensures total == SaturatingInc(old(total), U64_MAX)
      ensures consecutive == SaturatingInc(old(consecutive), U64_MAX)
      ensures keep == (consecutive <= 64)
      ensures pending == old(pending) + if keep then 1 else 0
    {
      keep := RecordTransient();
      if keep {
        pending := pending + 1;
      }
    }

    method HandleBulkCompletion(c: Completion) returns (keep: bool)
      modifies this
      ensures c == Arrived(bufferSize) ==>
                keep && consecutive == 0 && total == old(total) && pending == old(pending) + 1
      ensures c == Failed(Disconnected) || c == Failed(Stall) || c == Failed(InvalidArgument) ==>
                !keep && consecutive == old(consecutive) && total == old(total) && pending == old(pending)
      ensures (c.Arrived? && c.len != bufferSize) || c == Failed(Cancelled) || c == Failed(Fault) || c == Failed(Unknown) ==>
                && consecutive == SaturatingInc(old(consecutive), U64_MAX)
                && total == SaturatingInc(old(total), U64_MAX)
                && keep == (consecutive <= 64)
                && pending == old(pending) + if keep then 1 else 0
    {
      match c {
        case Arrived(len) =>
          if len == bufferSize {
            consecutive := 0;
            pending := pending + 1;
            return true;
          }
          keep := ResubmitOrStop();
        case Failed(error) =>
          if error == Disconnected || error == Stall || error == InvalidArgument {
            return false;
          }
          keep := ResubmitOrStop();
      }
    }

    /** The completion loop, over any trace of timed waits during which nobody else ends the
        stream. It stops exactly at the first event that ends it; until then the whole pool is in
        flight at every loop head. */
    method RunBulkStream(trace: seq<Event>) returns (handled: nat, stopped: bool)
      requires total == 0 && consecutive == 0 && pending == 16
      modifies this
      ensures handled <= |trace|
      ensures stopped ==> handled > 0 && Ends(trace, handled - 1, bufferSize)
      ensures !stopped ==> handled == |trace|
      ensures forall i | 0 <= i < (if stopped then handled - 1 else handled) :: !Ends(trace, i, bufferSize)
      ensures total == Min(Failures(trace, 0, handled, bufferSize), U64_MAX)
      ensures pending == if stopped then 15 else 16
    {
      handled, stopped := 0, false;
      while handled < |trace|
        invariant handled <= |trace|
        invariant pending == 16
        invariant consecutive == Failures(trace, AfterLastGood(trace, handled, bufferSize), handled, bufferSize)
        invariant consecutive <= MAX_CONSECUTIVE_TRANSFER_ERRORS
        invariant total == Min(Failures(trace, 0, handled, bufferSize), U64_MAX)
        invariant forall i | 0 <= i < handled :: !Ends(trace, i, bufferSize)
      {
        var e := trace[handled];
        handled := handled + 1;
        if e == Timeout {
          continue;
        }
        EveryCompletion(e.c, bufferSize);
        pending := pending - 1;
        var keep := HandleBulkCompletion(e.c);
        if !keep {
          return handled, true;
        }
      }
    }
  }

  // ---------- the policy, over the events themselves ----------

  /** The three errors no resubmission can cure. */
  predicate Unrecoverable(e: Event) {
    e == Completed(Failed(Disconnected)) || e == Completed(Failed(Stall)) || e == Completed(Failed(InvalidArgument))
  }

  predicate FullTransfer(e: Event, bufferSize: nat) {
    e == Completed(Arrived(bufferSize))
  }

  /** A short or overlong transfer, or an error that may pass. */
  predicate Passing(e: Event, bufferSize: nat) {
    || (e.Completed? && e.c.Arrived? && e.c.len != bufferSize)
    || e == Completed(Failed(Cancelled)) || e == Completed(Failed(Fault)) || e == Completed(Failed(Unknown))
  }

  /** The passing failures among events `a..b`. */
  function PassingSet(trace: seq<Event>, a: nat, b: nat, bufferSize: nat): set<nat>
    requires a <= b <= |trace|
  {
    set k | a <= k < b && Passing(trace[k], bufferSize)
  }

  /** Event `i` is unrecoverable, or the 65th passing failure since the last full transfer. */
  ghost predicate EndsStream(trace: seq<Event>, i: nat, bufferSize: nat)
    requires i < |trace|
  {
    || Unrecoverable(trace[i])
    || (Passing(trace[i], bufferSize)
        && exists a: nat | a <= i && NoFullSince(trace, a, i, bufferSize) :: |PassingSet(trace, a, i, bufferSize)| == 64)
  }

  /** `a` is just behind the last full transfer before event `i`, or the start. */
  predicate NoFullSince(trace: seq<Event>, a: nat, i: nat, bufferSize: nat)
    requires a <= i <= |trace|
  {
    (a == 0 || FullTransfer(trace[a - 1], bufferSize)) && forall k | a <= k < i :: !FullTransfer(trace[k], bufferSize)
  }

  lemma ClassesAre(e: Event, bufferSize: nat)
    ensures Is(e, Good, bufferSize) <==> FullTransfer(e, bufferSize)
    ensures Is(e, Fatal, bufferSize) <==> Unrecoverable(e)
    ensures Is(e, Transient, bufferSize) <==> Passing(e, bufferSize)
  {
    if e.Completed? {
      EveryCompletion(e.c, bufferSize);
    }
  }

  lemma {:induction false} FailuresAre(trace: seq<Event>, a: nat, b: nat, bufferSize: nat)
    requires a <= b <= |trace|
    ensures Failures(trace, a, b, bufferSize) == |PassingSet(trace, a, b, bufferSize)|
  {
    hide Is, Passing;
    if a < b {
      FailuresAre(trace, a, b - 1, bufferSize);
      ClassesAre(trace[b - 1], bufferSize);
      var was := PassingSet(trace, a, b - 1, bufferSize);
      if Passing(trace[b - 1], bufferSize) {
        assert PassingSet(trace, a, b, bufferSize) == was + {b - 1};
      } else {
        assert PassingSet(trace, a, b, bufferSize) == was;
      }
    } else {
      assert PassingSet(trace, a, b, bufferSize) == {};
    }
  }

  lemma {:induction false} LastGoodIs(trace: seq<Event>, i: nat, bufferSize: nat)
    requires i <= |trace|
    ensures NoFullSince(trace, AfterLastGood(trace, i, bufferSize), i, bufferSize)
    ensures forall a: nat | a <= i && NoFullSince(trace, a, i, bufferSize) :: a == AfterLastGood(trace, i, bufferSize)
  {
    hide Is, FullTransfer;
    if i > 0 {
      ClassesAre(trace[i - 1], bufferSize);
      LastGoodIs(trace, i - 1, bufferSize);
      forall a: nat | a <= i && NoFullSince(trace, a, i, bufferSize)
        ensures a == AfterLastGood(trace, i, bufferSize)
      {
        if a < i {
          assert !FullTransfer(trace[i - 1], bufferSize);
          assert NoFullSince(trace, a, i - 1, bufferSize);
        }
      }
    }
  }

  /** The policy followed is the one over the events. */
  lemma EndsIff(trace: seq<Event>, i: nat, bufferSize: nat)
    requires i < |trace|
    ensures Ends(trace, i, bufferSize) <==> EndsStream(trace, i, bufferSize)
  {
    hide Is, Passing, Unrecoverable, NoFullSince, PassingSet;
    ClassesAre(trace[i], bufferSize);
    LastGoodIs(trace, i, bufferSize);
    FailuresAre(trace, AfterLastGood(trace, i, bufferSize), i, bufferSize);
  }

  /** The first event of a stream ends it exactly if it is one of the three unrecoverable errors. */
  lemma OneEvent(e: Event, bufferSize: nat)
    ensures Ends([e], 0, bufferSize) <==>
              e == Completed(Failed(Disconnected)) || e == Completed(Failed(Stall)) || e == Completed(Failed(InvalidArgument))
  {
  }

  /** Nothing but passing failures, of any kinds. */
  predicate Storm(storm: seq<Event>, bufferSize: nat) {
    forall i | 0 <= i < |storm| :: Passing(storm[i], bufferSize)
  }

  /** Up to 64 failures in a row are invisible, 65 are not. */
  lemma FaultStorm(storm: seq<Event>, bufferSize: nat)
    requires Storm(storm, bufferSize)
    ensures (exists i | 0 <= i < |storm| :: Ends(storm, i, bufferSize)) <==> |storm| > 64
  {
    hide Passing;
    forall i | 0 <= i < |storm|
      ensures Ends(storm, i, bufferSize) <==> i == 64
    {
      StormCount(storm, 0, i, bufferSize);
      ClassesAre(storm[i], bufferSize);
      Exclusive(storm[i], bufferSize);
    }
    if |storm| > 64 {
      assert Ends(storm, 64, bufferSize);
    }
  }

  lemma Exclusive(e: Event, bufferSize: nat)
    ensures Passing(e, bufferSize) ==> !Unrecoverable(e) && !FullTransfer(e, bufferSize)
  {
  }

  lemma {:induction false} StormCount(trace: seq<Event>, a: nat, b: nat, bufferSize: nat)
    requires a <= b <= |trace| && forall i | a <= i < b :: Passing(trace[i], bufferSize)
    ensures AfterLastGood(trace, b, bufferSize) == AfterLastGood(trace, a, bufferSize)
    ensures forall c: nat | c <= a :: Failures(trace, c, b, bufferSize) == Failures(trace, c, a, bufferSize) + b - a
  {
    hide Passing, Is;
    if a < b {
      StormCount(trace, a, b - 1, bufferSize);
      ClassesAre(trace[b - 1], bufferSize);
      Exclusive(trace[b - 1], bufferSize);
    }
  }

  /** A transfer between two storms restarts the count exactly if it has the full length: whatever
      else arrives is one more failure. */
  lemma StormRestarts(before: seq<Event>, len: nat, after: seq<Event>, bufferSize: nat)
    requires Storm(before, bufferSize) && Storm(after, bufferSize) && |before| <= 64
    ensures var trace := before + [Completed(Arrived(len))] + after;
            (exists i | 0 <= i < |trace| :: Ends(trace, i, bufferSize)) <==>
              (if len == bufferSize then |after| > 64 else |before| + 1 + |after| > 64)
  {
    hide Passing;
    var e := Completed(Arrived(len));
    var trace, n := before + [e] + after, |before|;
    if len == bufferSize {
      assert FullTransfer(e, bufferSize) && trace[n] == e;
      forall i | 0 <= i < n
        ensures !Ends(trace, i, bufferSize)
      {
        StormEvent(trace, 0, i, bufferSize);
      }
      ClassesAre(e, bufferSize);
      assert !Ends(trace, n, bufferSize);
      assert AfterLastGood(trace, n + 1, bufferSize) == n + 1;
      forall i | n < i < |trace|
        ensures Ends(trace, i, bufferSize) <==> i == n + 65
      {
        StormEvent(trace, n + 1, i, bufferSize);
      }
      if |after| > 64 {
        assert Ends(trace, n + 65, bufferSize);
      }
    } else {
      PassingArrival(len, bufferSize);
      assert Storm(trace, bufferSize);
      FaultStorm(trace, bufferSize);
    }
  }

  lemma PassingArrival(len: nat, bufferSize: nat)
    requires len != bufferSize
    ensures Passing(Completed(Arrived(len)), bufferSize)
  {
  }

  /** An event of a storm that has been going on since a restart at `a`. */
  lemma StormEvent(trace: seq<Event>, a: nat, i: nat, bufferSize: nat)
    requires a <= i < |trace| && AfterLastGood(trace, a, bufferSize) == a
    requires forall k | a <= k <= i :: Passing(trace[k], bufferSize)
    ensures Ends(trace, i, bufferSize) <==> i == a + 64
  {
    hide Passing, Is;
    StormCount(trace, a, i, bufferSize);
    ClassesAre(trace[i], bufferSize);
    Exclusive(trace[i], bufferSize);
    assert Failures(trace, a, i, bufferSize) == Failures(trace, a, a, bufferSize) + i - a;
  }
}
