/** The fixed-point IQ converter itself: in-place loops over a backward-sliding FIR queue
    and a circular delay line, each method proved against IqInt16Spec. */
module IqConverterInt16 {
  import opened MachineInts
  import opened Interleaving
  import opened SampleHistory
  import opened IqInt16Spec

  /** The source's FIR queue length multiplier; the queue works with any from 2 on. */
  const SIZE_FACTOR := 16

  /** The taps the converter keeps: every other one. */
  function KeptTaps(hbKernel: seq<i16>): seq<i16> {
    Evens(hbKernel)
  }

  /** The history of a fresh converter: nothing but zeros before the start. */
  function Zeros(n: nat): (r: seq<i16>)
    ensures |r| == n
  {
    seq(n, i => 0)
  }

  function FreshState(hbKernel: seq<i16>): ConvState
    requires |hbKernel| >= 2
  {
    ConvState(DC_FRESH, Zeros(|KeptTaps(hbKernel)| - 1), Zeros((|hbKernel| / 2 + 1) / 2))
  }

  /** The last place the front can start from lies clear of the first. */
  lemma QueueSize(n: nat, len: nat, factor: nat)
    requires n <= len && factor >= 2
    ensures n <= n * (factor - 1) && n * (factor - 1) + n == n * factor <= len * factor
  {
    assert len * factor == n * factor + (len - n) * factor;
    assert n * (factor - 1) == n + n * (factor - 2);
  }

  class Converter {
    const firKernel: seq<i16>
    const sizeFactor: nat
    const firQueue: array<i32>
    const delayLine: array<i16>
    var firIndex: nat
    var delayIndex: nat
    var oldX: i16
    var oldY: i16
    var oldE: i32

    ghost predicate Valid()
      reads this, firQueue, delayLine
    {
      && 1 <= |firKernel|
      && 2 <= sizeFactor && |firKernel| * sizeFactor <= firQueue.Length
      && firIndex + |firKernel| <= firQueue.Length
      && delayIndex < delayLine.Length
    }

    /** The FIR's memory: the part of the queue behind the slot written next, newest first. */
    ghost function Hist(): (h: seq<int>)
      requires Valid()
      reads this, firQueue, delayLine
      ensures |h| == |firKernel| - 1
    {
      firQueue[firIndex + 1..firIndex + |firKernel|]
    }

    /** The delay line's contents, oldest first. */
    ghost function Line(): (l: seq<i16>)
      requires Valid()
      reads this, firQueue, delayLine
      ensures |l| == delayLine.Length
    {
      delayLine[delayIndex..] + delayLine[..delayIndex]
    }

    ghost function Dc(): DcState
      reads this
    {
      DcState(oldX, oldY, oldE)
    }

    ghost function State(): (s: ConvState)
      requires Valid()
      reads this, firQueue, delayLine
      ensures |s.hist| == |firKernel| - 1
    {
      ConvState(Dc(), Hist(), Line())
    }

    constructor (hbKernel: seq<i16>, sizeFactor: nat)
      requires |hbKernel| >= 2 && sizeFactor >= 2
      ensures Valid() && this.sizeFactor == sizeFactor && fresh(firQueue) && fresh(delayLine)
      ensures firKernel == KeptTaps(hbKernel)
      ensures State() == FreshState(hbKernel)
    {
      var len := |hbKernel| / 2 + 1;
      this.sizeFactor := sizeFactor;
      firKernel := Evens(hbKernel);
      QueueSize(|Evens(hbKernel)|, len, sizeFactor);
      firQueue := new i32[len * sizeFactor](_ => 0);
      delayLine := new i16[len / 2](_ => 0);
      firIndex, delayIndex := 0, 0;
      oldX, oldY, oldE := 0, 0, 0;
      new;
      assert Hist() == Zeros(|firKernel| - 1);
      assert Line() == Zeros(len / 2);
    }

    /** A reset converter is a fresh one. */
    method Reset(ghost hbKernel: seq<i16>)
      requires Valid() && |hbKernel| >= 2
      requires firKernel == KeptTaps(hbKernel) && delayLine.Length == (|hbKernel| / 2 + 1) / 2
      modifies this, firQueue, delayLine
      ensures Valid() && State() == FreshState(hbKernel)
    {
      firIndex, delayIndex := 0, 0;
      oldX, oldY, oldE := 0, 0, 0;
      forall i | 0 <= i < delayLine.Length {
        delayLine[i] := 0;
      }
      forall i | 0 <= i < firQueue.Length {
        firQueue[i] := 0;
      }
      assert Hist() == Zeros(|firKernel| - 1);
      assert Line() == Zeros(delayLine.Length);
    }

    /** The wrapping multiply-accumulate over the window the kernel sees. */
    method Accumulate() returns (acc: i32)
      requires Valid()
      ensures acc == Wrap32(Dot(firKernel, firQueue[firIndex..firIndex + |firKernel|], |firKernel|))
    {
      assert Wrap32(0) == 0;
      hide Wrap32;
      ghost var window := firQueue[firIndex..firIndex + |firKernel|];
      acc := 0;
      for j := 0 to |firKernel|
        invariant acc == Wrap32(Dot(firKernel, window, j))
      {
        Wrap32Absorbs(Dot(firKernel, window, j), firKernel[j] * window[j]);
        acc := Wrap32(acc + Wrap32(firKernel[j] * firQueue[firIndex + j]));
      }
    }

    /** Move the front back by one, copying the newest `n - 1` entries to the far end when it has
        reached the start. */
    method Slide(ghost x: int)
      requires Valid() && firQueue[firIndex] == x
      modifies this`firIndex, firQueue
      ensures Valid() && Hist() == HistAfter(old(Hist()), [x])
    {
      var firLen := |firKernel|;
      ghost var window := firQueue[firIndex..firIndex + firLen];
      HistAfterOne(Hist(), x);
      assert window == [x] + Hist();
      QueueSize(firLen, firLen, sizeFactor);
      if firIndex == 0 {
        firIndex := firLen * (sizeFactor - 1);
        forall j | 0 <= j < firLen - 1 {
          firQueue[firIndex + 1 + j] := firQueue[j];
        }
      } else {
        firIndex := firIndex - 1;
      }
      assert Hist() == window[..firLen - 1];
    }

    /** One I sample through the sliding queue: store it in front of the history, take the dot
        product, move on. */
    method FirStep(x: i16) returns (y: i16)
      requires Valid()
      modifies this`firIndex, firQueue
      ensures Valid()
      ensures y == FirTap(firKernel, [x as int] + old(Hist()))
      ensures Hist() == HistAfter(old(Hist()), [x as int])
    {
      hide Wrap16, Wrap32, Dot, HistAfter;
      firQueue[firIndex] := x;
      assert Hist() == old(Hist());
      assert firQueue[firIndex..firIndex + |firKernel|] == [x as int] + old(Hist());
      var acc := Accumulate();
      Slide(x);
      y := Wrap16(acc / Q15);
    }

    method FirInterleaved(samples: array<i16>)
      requires Valid() && samples != delayLine
      modifies this`firIndex, firQueue, samples
      ensures Valid()
      ensures Evens(samples[..]) == FirOut(firKernel, old(Hist()), Evens(old(samples[..])))
      ensures Odds(samples[..]) == Odds(old(samples[..]))
      ensures Hist() == HistAfter(old(Hist()), Evens(old(samples[..])))
    {
      ghost var was, h0 := samples[..], Hist();
      ghost var es, ys := Evens(was), [];
      assert HistAfter(h0, []) == h0 && FirOut(firKernel, h0, []) == [];
      WeaveNone(was, 0);
      hide Wrap16, Wrap32, FirTap, HistAfter, FirOut, Weave, Evens;
      var i := 0;
      while i < samples.Length
        invariant i == 2 * |ys| && |ys| <= |es|
        invariant Valid()
        invariant samples[..] == Weave(was, ys, 0)
        invariant Hist() == HistAfter(h0, es[..|ys|])
        invariant ys == FirOut(firKernel, h0, es[..|ys|])
      {
        FirOutSnoc(firKernel, h0, es, |ys|);
        WeaveStep(was, ys, 0, 0);
        var y := FirStep(samples[i]);
        samples[i] := y;
        WeaveStep(was, ys, 0, y);
        i, ys := i + 2, ys + [y];
      }
      assert es[..|ys|] == es;
      WeaveAllEven(was, ys);
    }

    /** One Q sample through the circular delay. */
    method DelayStep(x: i16) returns (y: i16)
      requires Valid()
      modifies this`delayIndex, delayLine
      ensures Valid()
      ensures [y] + Line() == old(Line()) + [x]
    {
      y := delayLine[delayIndex];
      delayLine[delayIndex] := x;
      delayIndex := delayIndex + 1;
      if delayIndex >= delayLine.Length {
        delayIndex := 0;
      }
      assert Line() == old(Line())[1..] + [x];
    }

    method DelayInterleaved(samples: array<i16>)
      requires Valid() && samples != delayLine
      modifies this`delayIndex, delayLine, samples
      ensures Valid()
      ensures Evens(samples[..]) == Evens(old(samples[..]))
      ensures Odds(samples[..]) == DelayOut(old(Line()), Odds(old(samples[..])))
      ensures Line() == DelayAfter(old(Line()), Odds(old(samples[..])))
    {
      ghost var was, line := samples[..], Line();
      ghost var os, ys := Odds(was), [];
      WeaveNone(was, 1);
      hide Weave, DelayOut, DelayAfter;
      var i := 1;
      while i < samples.Length
        invariant i == 2 * |ys| + 1 && |ys| <= |os|
        invariant Valid()
        invariant samples[..] == Weave(was, ys, 1)
        invariant ys + Line() == line + os[..|ys|]
      {
        ghost var before := Line();
        WeaveStep(was, ys, 1, before[0]);
        var y := DelayStep(samples[i]);
        samples[i] := y;
        QueueStep(ys, before, Line(), y, os, line);
        i, ys := i + 2, ys + [y];
      }
      assert os[..|ys|] == os;
      QueueEnd(ys, Line(), os, line);
      WeaveAllOdd(was, ys);
    }

    method RemoveDc(samples: array<i16>)
      requires Valid() && samples != delayLine
      modifies this`oldX, this`oldY, this`oldE, samples
      ensures Valid() && Hist() == old(Hist()) && Line() == old(Line())
      ensures samples[..] == DcOut(old(Dc()), old(samples[..]))
      ensures Dc() == DcAfter(old(Dc()), old(samples[..]))
    {
      hide Wrap16, Wrap32;
      ghost var s0, xs := Dc(), samples[..];
      var x0: i16, y0: i16, e0: i32 := oldX, oldY, oldE;
      for i := 0 to samples.Length
        invariant DcState(x0, y0, e0) == DcAfter(s0, xs[..i])
        invariant samples[..i] == DcOut(s0, xs[..i])
        invariant samples[i..] == xs[i..]
        modifies samples
      {
        DcSnoc(s0, xs, i);
        assert samples[i] == samples[i..][0] == xs[i];
        var x := samples[i];
        var w := Wrap16(x - x0);
        var u := Wrap32(e0 + Wrap32(y0 * DC_POLE_Q15));
        var sh := Wrap16(u / Q15);
        var y := Wrap16(w + sh);
        e0 := Wrap32(u - Wrap32(sh * Q15));
        x0 := x;
        y0 := y;
        hide *;
        samples[i] := y;
      }
      assert xs[..samples.Length] == xs;
      oldX, oldY, oldE := x0, y0, e0;
    }

    method TranslateFs4(samples: array<i16>)
      requires Valid() && samples != delayLine
      modifies this`firIndex, this`delayIndex, firQueue, delayLine, samples
      ensures Valid() && Dc() == old(Dc())
      ensures var p := Phased(old(samples[..]));
              && samples[..] == TranslateOut(firKernel, old(Hist()), old(Line()), p)
              && Hist() == HistAfter(old(Hist()), Evens(p))
              && Line() == DelayAfter(old(Line()), Odds(p))
    {
      hide Wrap16, FirTap, Phased, HistAfter, FirOut, DelayOut, DelayAfter, Interleave, Evens, Odds;
      ApplyFs4Phases(samples);
      FirInterleaved(samples);
      DelayInterleaved(samples);
      Reassemble(samples[..]);
    }

    method Process(samples: array<i16>)
      requires Valid() && samples != delayLine
      modifies this, firQueue, delayLine, samples
      ensures Valid()
      ensures samples[..] == ProcessOut(firKernel, old(State()), old(samples[..]))
      ensures State() == ProcessState(old(State()), old(samples[..]))
    {
      RemoveDc(samples);
      TranslateFs4(samples);
    }
  }

  method ApplyFs4Phases(samples: array<i16>)
    modifies samples
    ensures samples[..] == Phased(old(samples[..]))
  {
    hide Wrap16, Phase;
    ghost var was := samples[..];
    var i := 0;
    ghost var q := 0;
    while i + 4 <= samples.Length
      invariant i == 4 * q && i <= samples.Length
      invariant forall j | 0 <= j < i :: samples[j] == Phase(j, was[j])
      invariant forall j | i <= j < samples.Length :: samples[j] == was[j]
    {
      PhaseOfChunk(q, was[i], was[i + 1], was[i + 2], was[i + 3]);
      samples[i] := Wrap16(-(samples[i] as int));
      samples[i + 1] := Wrap16(-(samples[i + 1] as int) / 2);
      samples[i + 3] := Wrap16(samples[i + 3] / 2);
      i, q := i + 4, q + 1;
    }
    if i < samples.Length {
      PhaseOfChunk(q, was[i], 0, 0, 0);
      samples[i] := Wrap16(-(samples[i] as int));
    }
    if i + 1 < samples.Length {
      PhaseOfChunk(q, 0, was[i + 1], 0, 0);
      samples[i + 1] := Wrap16(-(samples[i + 1] as int) / 2);
    }
    if i + 2 < samples.Length {
      PhaseOfChunk(q, 0, 0, was[i + 2], 0);
    }
  }

  lemma PhaseOfChunk(q: nat, a: i16, b: i16, c: i16, d: i16)
    ensures Phase(4 * q, a) == Wrap16(-(a as int))
    ensures Phase(4 * q + 1, b) == Wrap16(-(b as int) / 2)
    ensures Phase(4 * q + 2, c) == c
    ensures Phase(4 * q + 3, d) == Wrap16(d / 2)
  {
    hide Wrap16;
    assert (4 * q) % 4 == 0 && (4 * q + 1) % 4 == 1 && (4 * q + 2) % 4 == 2 && (4 * q + 3) % 4 == 3;
  }
}
