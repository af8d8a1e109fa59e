/** The float IQ converter, in place, over exact arithmetic. */
module IqConverterFloat {
  import opened Interleaving
  import opened IqFloatSpec
  import opened SampleHistory

  /** The source's FIR queue length multiplier; the queue works with any from 2 on. */
  const SIZE_FACTOR := 32

  /** The last place the front can start from lies clear of the first. */
  lemma QueueSize(n: nat, len: nat, factor: nat)
    requires n <= len && factor >= 2
    ensures n <= n * (factor - 1) && n * (factor - 1) + n == n * factor <= len * factor
  {
    assert len * factor == n * factor + (len - n) * factor;
    assert n * (factor - 1) == n + n * (factor - 2);
  }

  class Converter {
    const firKernel: seq<real>
    const sizeFactor: nat
    const firQueue: array<real>
    const delayLine: array<real>
    const hbc: real
    var firIndex: nat
    var delayIndex: nat
    var avg: real

    ghost predicate Valid()
      reads this, firQueue, delayLine
    {
      && 1 <= |firKernel|
      && 2 <= sizeFactor && |firKernel| * sizeFactor <= firQueue.Length
      && firIndex + |firKernel| <= firQueue.Length
      && delayIndex < delayLine.Length
      && firQueue != delayLine
    }

    ghost function Hist(): (h: seq<real>)
      requires Valid()
      reads this, firQueue, delayLine
      ensures |h| == |firKernel| - 1
    {
      firQueue[firIndex + 1..firIndex + |firKernel|]
    }

    ghost function Line(): (l: seq<real>)
      requires Valid()
      reads this, firQueue, delayLine
      ensures |l| == delayLine.Length
    {
      delayLine[delayIndex..] + delayLine[..delayIndex]
    }

    ghost function Now(): (s: State)
      requires Valid()
      reads this, firQueue, delayLine
      ensures |s.hist| == |firKernel| - 1
    {
      State(avg, Hist(), Line())
    }

    constructor (hbKernel: seq<real>, sizeFactor: nat)
      requires |hbKernel| >= 2 && sizeFactor >= 2
      ensures Valid() && this.sizeFactor == sizeFactor && fresh(firQueue) && fresh(delayLine)
      ensures firKernel == Evens(hbKernel) && hbc == hbKernel[|hbKernel| / 2]
      ensures Now() == FreshState(hbKernel)
    {
      var len := |hbKernel| / 2 + 1;
      this.sizeFactor := sizeFactor;
      firKernel := Evens(hbKernel);
      QueueSize(|Evens(hbKernel)|, len, sizeFactor);
      firQueue := new real[len * sizeFactor](_ => 0.0);
      delayLine := new real[len / 2](_ => 0.0);
      hbc := hbKernel[|hbKernel| / 2];
      firIndex, delayIndex, avg := 0, 0, 0.0;
      new;
      assert Hist() == Zeros(|firKernel| - 1);
      assert Line() == Zeros(len / 2);
    }

    /** Store a sample in front of the history and show the window the kernel sees. */
    method Enter(x: real) returns (window: seq<real>)
      requires Valid()
      modifies firQueue
      ensures Valid() && Hist() == old(Hist()) && Line() == old(Line()) && firQueue[firIndex] == x
      ensures window == [x] + Hist() == firQueue[firIndex..firIndex + |firKernel|]
    {
      firQueue[firIndex] := x;
      window := firQueue[firIndex..firIndex + |firKernel|];
      assert window == [x] + Hist();
    }

    /** Move the front back by one, copying the newest entries to the far end on wrap. */
    method Slide(ghost x: real)
      requires Valid() && firQueue[firIndex] == x
      modifies this`firIndex, firQueue
      ensures Valid() && Line() == old(Line())
      ensures Hist() == HistAfter(old(Hist()), [x])
    {
      var n := |firKernel|;
      ghost var window := firQueue[firIndex..firIndex + n];
      HistAfterOne(Hist(), x);
      assert window == [x] + Hist();
      QueueSize(n, n, sizeFactor);
      if firIndex == 0 {
        firIndex := n * (sizeFactor - 1);
        forall j | 0 <= j < n - 1 {
          firQueue[firIndex + 1 + j] := firQueue[j];
        }
      } else {
        firIndex := firIndex - 1;
      }
      assert Hist() == window[..n - 1];
    }

    method SymmetricStep(x: real) returns (y: real)
      requires Valid()
      modifies this`firIndex, firQueue
      ensures Valid() && Line() == old(Line())
      ensures y == Tap(Symmetric, firKernel, [x] + old(Hist()))
      ensures Hist() == HistAfter(old(Hist()), [x])
    {
      hide Tap, HistAfter;
      var queue := Enter(x);
      y := PairSum(firKernel, queue);
      Slide(x);
    }

    method FirSymmetric(samples: array<real>)
      requires Valid() && samples != delayLine && samples != firQueue
      modifies this`firIndex, firQueue, samples
      ensures Valid() && Line() == old(Line())
      ensures Evens(samples[..]) == FirOut(Symmetric, firKernel, old(Hist()), Evens(old(samples[..])))
      ensures Odds(samples[..]) == Odds(old(samples[..]))
      ensures Hist() == HistAfter(old(Hist()), Evens(old(samples[..])))
    {
      ghost var was, h0 := samples[..], Hist();
      ghost var es, ys := Evens(was), [];
      StartOfRun(Symmetric, firKernel, h0, was);
      hide Tap, FirOut, HistAfter, Weave, Evens, Odds;
      var i := 0;
      while i < samples.Length
        invariant i == 2 * |ys| && |ys| <= |es|
        invariant Valid() && Line() == old(Line())
        invariant samples[..] == Weave(was, ys, 0)
        invariant Hist() == HistAfter(h0, es[..|ys|])
        invariant ys == FirOut(Symmetric, firKernel, h0, es[..|ys|])
      {
        FirOutSnoc(Symmetric, firKernel, h0, es, |ys|);
        WeaveStep(was, ys, 0, 0.0);
        var y := SymmetricStep(samples[i]);
        samples[i] := y;
        WeaveStep(was, ys, 0, y);
        i, ys := i + 2, ys + [y];
      }
      assert es[..|ys|] == es;
      WeaveAllEven(was, ys);
    }

    method GenericStep(x: real) returns (y: real)
      requires Valid()
      modifies this`firIndex, firQueue
      ensures Valid() && Line() == old(Line())
      ensures y == Tap(Generic, firKernel, [x] + old(Hist()))
      ensures Hist() == HistAfter(old(Hist()), [x])
    {
      hide Tap, HistAfter;
      var queue := Enter(x);
      y := ProcessFirTaps(firKernel, queue);
      Slide(x);
    }

    method FirGeneric(samples: array<real>)
      requires Valid() && samples != delayLine && samples != firQueue
      modifies this`firIndex, firQueue, samples
      ensures Valid() && Line() == old(Line())
      ensures Evens(samples[..]) == FirOut(Generic, firKernel, old(Hist()), Evens(old(samples[..])))
      ensures Odds(samples[..]) == Odds(old(samples[..]))
      ensures Hist() == HistAfter(old(Hist()), Evens(old(samples[..])))
    {
      ghost var was, h0 := samples[..], Hist();
      ghost var es, ys := Evens(was), [];
      StartOfRun(Generic, firKernel, h0, was);
      hide Tap, FirOut, HistAfter, Weave, Evens, Odds;
      var i := 0;
      while i < samples.Length
        invariant i == 2 * |ys| && |ys| <= |es|
        invariant Valid() && Line() == old(Line())
        invariant samples[..] == Weave(was, ys, 0)
        invariant Hist() == HistAfter(h0, es[..|ys|])
        invariant ys == FirOut(Generic, firKernel, h0, es[..|ys|])
      {
        FirOutSnoc(Generic, firKernel, h0, es, |ys|);
        WeaveStep(was, ys, 0, 0.0);
        var y := GenericStep(samples[i]);
        samples[i] := y;
        WeaveStep(was, ys, 0, y);
        i, ys := i + 2, ys + [y];
      }
      assert es[..|ys|] == es;
      WeaveAllEven(was, ys);
    }

    method FirInterleaved(samples: array<real>)
      requires Valid() && samples != delayLine && samples != firQueue
      modifies this`firIndex, firQueue, samples
      ensures Valid() && Line() == old(Line())
      ensures Evens(samples[..]) == FirOut(FormFor(firKernel), firKernel, old(Hist()), Evens(old(samples[..])))
      ensures Odds(samples[..]) == Odds(old(samples[..]))
      ensures Hist() == HistAfter(old(Hist()), Evens(old(samples[..])))
    {
      if |firKernel| in SYMMETRIC_FIR_LENGTHS {
        FirSymmetric(samples);
      } else {
        FirGeneric(samples);
      }
    }

    method DelayStep(x: real) returns (y: real)
      requires Valid()
      modifies this`delayIndex, delayLine
      ensures Valid() && Hist() == old(Hist())
      ensures [y] + Line() == old(Line()) + [x]
    {
      y := delayLine[delayIndex];
      delayLine[delayIndex] := x;
      delayIndex := delayIndex + 1;
      if delayIndex >= delayLine.Length {
        delayIndex := 0;
      }
      assert Line() == old(Line())[1..] + [x];
    }

    method DelayInterleaved(samples: array<real>)
      requires Valid() && samples != delayLine && samples != firQueue
      modifies this`delayIndex, delayLine, samples
      ensures Valid() && Hist() == old(Hist())
      ensures Evens(samples[..]) == Evens(old(samples[..]))
      ensures Odds(samples[..]) == DelayOut(old(Line()), Odds(old(samples[..])))
      ensures Line() == DelayAfter(old(Line()), Odds(old(samples[..])))
    {
      ghost var was, line := samples[..], Line();
      ghost var os, ys := Odds(was), [];
      WeaveNone(was, 1);
      hide Weave, DelayOut, DelayAfter;
      var i := 1;
      while i < samples.Length
        invariant i == 2 * |ys| + 1 && |ys| <= |os|
        invariant Valid() && Hist() == old(Hist())
        invariant samples[..] == Weave(was, ys, 1)
        invariant ys + Line() == line + os[..|ys|]
      {
        ghost var before := Line();
        WeaveStep(was, ys, 1, before[0]);
        var y := DelayStep(samples[i]);
        samples[i] := y;
        QueueStep(ys, before, Line(), y, os, line);
        i, ys := i + 2, ys + [y];
      }
      assert os[..|ys|] == os;
      QueueEnd(ys, Line(), os, line);
      WeaveAllOdd(was, ys);
    }

    method RemoveDc(samples: array<real>)
      requires Valid() && samples != delayLine && samples != firQueue
      modifies this`avg, samples
      ensures Valid() && Hist() == old(Hist()) && Line() == old(Line())
      ensures samples[..] == DcOut(old(avg), old(samples[..]))
      ensures avg == AvgAfter(old(avg), old(samples[..]))
    {
      ghost var a0, xs := avg, samples[..];
      var a := avg;
      assert xs[..0] == [] && AvgAfter(a0, []) == a0 && DcOut(a0, []) == [];
      hide AvgAfter, DcOut;
      for i := 0 to samples.Length
        invariant a == AvgAfter(a0, xs[..i])
        invariant samples[..i] == DcOut(a0, xs[..i])
        invariant samples[i..] == xs[i..]
        modifies samples
      {
        DcSnoc(a0, xs, i);
        assert samples[i] == samples[i..][0] == xs[i];
        var y := samples[i] - a;
        a := a + DC_SCALE * y;
        hide *;
        samples[i] := y;
      }
      assert xs[..samples.Length] == xs;
      avg := a;
    }

    method TranslateFs4(samples: array<real>)
      requires Valid() && samples != delayLine && samples != firQueue
      modifies this`firIndex, this`delayIndex, firQueue, delayLine, samples
      ensures Valid()
      ensures var p := Phased(old(samples[..]), hbc);
              && samples[..] == TranslateOut(firKernel, old(Hist()), old(Line()), p)
              && Hist() == HistAfter(old(Hist()), Evens(p))
              && Line() == DelayAfter(old(Line()), Odds(p))
    {
      hide Phased, HistAfter, FirOut, DelayOut, DelayAfter, Interleave, Evens, Odds;
      ApplyPhases(samples, hbc);
      FirInterleaved(samples);
      DelayInterleaved(samples);
      Reassemble(samples[..]);
    }

    method Process(samples: array<real>)
      requires Valid() && samples != delayLine && samples != firQueue
      modifies this, firQueue, delayLine, samples
      ensures Valid()
      ensures samples[..] == ProcessOut(firKernel, hbc, old(Now()), old(samples[..]))
      ensures Now() == ProcessState(hbc, old(Now()), old(samples[..]))
    {
      RemoveDc(samples);
      TranslateFs4(samples);
    }
  }

  lemma StartOfRun(form: Form, kernel: seq<real>, h0: seq<real>, was: seq<real>)
    requires |kernel| <= |h0| + 1
    ensures HistAfter(h0, []) == h0 && FirOut(form, kernel, h0, []) == []
    ensures Weave(was, [], 0) == was
  {
  }

  /** The inner loop of the symmetric-pair form. */
  method PairSum(kernel: seq<real>, queue: seq<real>) returns (acc: real)
    requires |kernel| == |queue|
    ensures acc == Tap(Symmetric, kernel, queue)
  {
    acc := 0.0;
    for k := 0 to |kernel| / 2
      invariant acc == PairDot(kernel, queue, k)
    {
      acc := acc + kernel[k] * (queue[k] + queue[|kernel| - 1 - k]);
    }
  }

  lemma Dot2(kernel: seq<real>, queue: seq<real>, k: nat)
    requires k + 2 <= |kernel| <= |queue|
    ensures Dot(kernel, queue, k + 2)
         == Dot(kernel, queue, k) + (kernel[k] * queue[k] + kernel[k + 1] * queue[k + 1])
  {
    assert Dot(kernel, queue, k + 1) == Dot(kernel, queue, k) + kernel[k] * queue[k];
  }

  lemma Dot4(kernel: seq<real>, queue: seq<real>, k: nat)
    requires k + 4 <= |kernel| <= |queue|
    ensures Dot(kernel, queue, k + 4)
         == Dot(kernel, queue, k) + (kernel[k] * queue[k] + kernel[k + 1] * queue[k + 1]
          + kernel[k + 2] * queue[k + 2] + kernel[k + 3] * queue[k + 3])
  {
    hide Dot;
    Dot2(kernel, queue, k);
    Dot2(kernel, queue, k + 2);
  }

  /** The generic form: blocks of eight taps, then four, then two; a last odd tap is ignored. */
  method ProcessFirTaps(kernel: seq<real>, queue: seq<real>) returns (sum: real)
    requires |kernel| == |queue|
    ensures sum == Tap(Generic, kernel, queue)
  {
    assert Dot(kernel, queue, 0) == 0.0;
    hide Dot;
    sum := 0.0;
    var len, k := |kernel|, 0;
    ghost var pairs := 0;
    while len >= 8
      invariant 0 <= len && k + len == |kernel| && k == 2 * pairs
      invariant sum == Dot(kernel, queue, k)
    {
      Dot4(kernel, queue, k);
      Dot4(kernel, queue, k + 4);
      sum := sum + (kernel[k] * queue[k]
        + kernel[k + 1] * queue[k + 1]
        + kernel[k + 2] * queue[k + 2]
        + kernel[k + 3] * queue[k + 3]
        + kernel[k + 4] * queue[k + 4]
        + kernel[k + 5] * queue[k + 5]
        + kernel[k + 6] * queue[k + 6]
        + kernel[k + 7] * queue[k + 7]);
      k, len, pairs := k + 8, len - 8, pairs + 4;
    }
    if len >= 4 {
      Dot4(kernel, queue, k);
      sum := sum + (kernel[k] * queue[k]
        + kernel[k + 1] * queue[k + 1]
        + kernel[k + 2] * queue[k + 2]
        + kernel[k + 3] * queue[k + 3]);
      k, len, pairs := k + 4, len - 4, pairs + 2;
    }
    if len >= 2 {
      Dot2(kernel, queue, k);
      sum := sum + (kernel[k] * queue[k] + kernel[k + 1] * queue[k + 1]);
      k, len, pairs := k + 2, len - 2, pairs + 1;
    }
    assert |kernel| / 2 == pairs;
  }

  method ApplyPhases(samples: array<real>, hbc: real)
    modifies samples
    ensures samples[..] == Phased(old(samples[..]), hbc)
  {
    hide Phase;
    ghost var was := samples[..];
    var i := 0;
    ghost var q := 0;
    while i + 4 <= samples.Length
      invariant i == 4 * q && i <= samples.Length
      invariant forall j | 0 <= j < i :: samples[j] == Phase(j, was[j], hbc)
      invariant forall j | i <= j < samples.Length :: samples[j] == was[j]
    {
      PhaseOfChunk(q, was[i], was[i + 1], was[i + 2], was[i + 3], hbc);
      samples[i] := -samples[i];
      samples[i + 1] := -samples[i + 1] * hbc;
      samples[i + 3] := samples[i + 3] * hbc;
      i, q := i + 4, q + 1;
    }
    assert i == |was| / 4 * 4;
  }

  lemma PhaseOfChunk(q: nat, a: real, b: real, c: real, d: real, hbc: real)
    ensures Phase(4 * q, a, hbc) == -a
    ensures Phase(4 * q + 1, b, hbc) == -b * hbc
    ensures Phase(4 * q + 2, c, hbc) == c
    ensures Phase(4 * q + 3, d, hbc) == d * hbc
  {
    assert (4 * q) % 4 == 0 && (4 * q + 1) % 4 == 1 && (4 * q + 2) % 4 == 2 && (4 * q + 3) % 4 == 3;
  }
}
