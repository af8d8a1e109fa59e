/** The filter the converter approximates: the same recurrences over unbounded integers with
    no cast anywhere, and the input range on which the converter is that filter. */
module ExactFilter {
  import opened MachineInts
  import opened Interleaving
  import opened SampleHistory
  import opened IqInt16Spec
  import opened DcProperties
  import opened FirProperties
  import opened ConverterProperties

  datatype DcLevel = DcLevel(x: int, y: int, e: int)

  function LevelStep(s: DcLevel, x: int): DcLevel {
    var u := s.e + s.y * DC_POLE_Q15;
    DcLevel(x, x - s.x + u / Q15, u % Q15)
  }

  function LevelAfter(s: DcLevel, xs: seq<int>): DcLevel {
    if xs == [] then s else LevelStep(LevelAfter(s, xs[..|xs| - 1]), xs[|xs| - 1])
  }

  function Levelled(s: DcLevel, xs: seq<int>): (r: seq<int>)
    ensures |r| == |xs|
  {
    if xs == [] then [] else Levelled(s, xs[..|xs| - 1]) + [LevelAfter(s, xs).y]
  }

  function Rotated(ys: seq<int>): (r: seq<int>)
    ensures |r| == |ys|
  {
    seq(|ys|, i requires 0 <= i < |ys| =>
      match i % 4 case 0 => -ys[i] case 1 => -ys[i] / 2 case 2 => ys[i] case _ => ys[i] / 2)
  }

  /** The phasor multiplied by `j` at every sample, from -1 on: its real and imaginary parts. */
  function Phasor(i: nat): (int, int) {
    if i == 0 then (-1, 0) else var (re, im) := Phasor(i - 1); (-im, re)
  }

  lemma {:induction false} PhasorCycle(i: nat)
    ensures Phasor(i) == match i % 4 case 0 => (-1, 0) case 1 => (0, -1) case 2 => (1, 0) case _ => (0, 1)
  {
    if i > 0 {
      PhasorCycle(i - 1);
    }
  }

  /** The shift of one sample, unbounded. */
  function Shifted(i: nat, w: int): int {
    var (re, im) := Phasor(i);
    if i % 2 == 0 then re * w else im * w / 2
  }

  lemma ShiftedIs(i: nat, w: int)
    ensures Shifted(i, w) == match i % 4 case 0 => -w case 1 => -w / 2 case 2 => w case _ => w / 2
  {
    hide Phasor;
    PhasorCycle(i);
    EvenOrOdd(i);
  }

  /** The sign pattern is a quarter-rate frequency shift: each sample times the rotating phasor,
      of which even positions keep the real part and odd ones half the imaginary part. */
  lemma RotationIsShift(ys: seq<int>, i: nat)
    requires i < |ys|
    ensures Rotated(ys)[i] == Shifted(i, ys[i])
    ensures var (re, im) := Phasor(i); if i % 2 == 0 then im == 0 else re == 0
  {
    hide Shifted, Phasor;
    ShiftedIs(i, ys[i]);
    PhasorCycle(i);
    EvenOrOdd(i);
  }

  lemma EvenOrOdd(i: nat)
    ensures i % 2 == 0 <==> i % 4 == 0 || i % 4 == 2
  {
  }

  /** The source's truncating pattern is that shift too, but for the one sample whose negation does
      not fit. */
  lemma PhaseIsShift(i: nat, v: i16)
    ensures Phase(i, v) == Shifted(i, v) <==> !(v == -32768 && i % 4 == 0)
  {
    hide Wrap16, Shifted;
    var w: int := v;
    ShiftedIs(i, w);
    if i % 4 != 0 {
      Wrap16Fits(-w / 2);
      Wrap16Fits(w / 2);
    } else if w == -32768 {
      Wrap16Unique(-w, -32768, 1);
    } else {
      Wrap16Fits(-w);
    }
  }

  function Filtered(kernel: seq<int>, hist: seq<int>, xs: seq<int>): (r: seq<int>)
    requires |kernel| <= |hist| + 1
    ensures |r| == |xs|
  {
    if xs == [] then []
    else
      var was := xs[..|xs| - 1];
      Filtered(kernel, hist, was) + [Dot(kernel, [xs[|xs| - 1]] + HistAfter(hist, was), |kernel|) / Q15]
  }

  datatype FilterState = FilterState(dc: DcLevel, hist: seq<int>, line: seq<int>)

  function Output(kernel: seq<int>, s: FilterState, xs: seq<int>): (r: seq<int>)
    requires |kernel| <= |s.hist| + 1
    ensures |r| == |xs|
  {
    var p := Rotated(Levelled(s.dc, xs));
    Interleave(Filtered(kernel, s.hist, Evens(p)), DelayOut(s.line, Odds(p)))
  }

  function Next(s: FilterState, xs: seq<int>): (r: FilterState)
    ensures |r.hist| == |s.hist|
  {
    var p := Rotated(Levelled(s.dc, xs));
    FilterState(LevelAfter(s.dc, xs), HistAfter(s.hist, Evens(p)), DelayAfter(s.line, Odds(p)))
  }

  function Lift(s: ConvState): FilterState {
    FilterState(DcLevel(s.dc.x, s.dc.y, s.dc.e), s.hist, s.line)
  }

  /** The converter has only ever seen inputs in `lo..hi`. */
  predicate InSpan(s: ConvState, lo: int, hi: int) {
    InHull(s.dc, lo, hi) && |s.hist| == 23 && Bounded(s.hist, hi - lo)
  }

  lemma {:induction false} LevelIsExact(s: DcState, xs: seq<i16>, lo: int, hi: int)
    requires InHull(s, lo, hi) && Within(xs, lo, hi) && hi - lo <= 32767
    ensures InHull(DcAfter(s, xs), lo, hi)
    ensures DcOut(s, xs) == Levelled(DcLevel(s.x, s.y, s.e), xs)
    ensures var z := DcAfter(s, xs); LevelAfter(DcLevel(s.x, s.y, s.e), xs) == DcLevel(z.x, z.y, z.e)
    ensures Bounded(DcOut(s, xs), hi - lo)
  {
    hide DcStep, Wrap16, Turns16;
    if xs != [] {
      var n := |xs| - 1;
      LevelIsExact(s, xs[..n], lo, hi);
      var m := DcAfter(s, xs[..n]);
      HullStep(m, xs[n], lo, hi);
      ErrorFeedbackLosesNothing(m, xs[n]);
    }
  }

  lemma RotateOne(i: nat, v: i16, s: int)
    requires -s <= v <= s && 0 <= s <= 32767
    ensures var w: int := v;
            Phase(i, v) == (match i % 4 case 0 => -w case 1 => -w / 2 case 2 => w case _ => w / 2)
    ensures -s <= Phase(i, v) <= s
  {
    hide Wrap16;
    var w: int := v;
    Wrap16Fits(-w);
    Wrap16Fits(-w / 2);
    Wrap16Fits(w / 2);
  }

  lemma RotationIsExact(ys: seq<i16>, s: int)
    requires Bounded(ys, s) && 0 <= s <= 32767
    ensures Phased(ys) == Rotated(ys)
    ensures Bounded(Phased(ys), s)
  {
    hide Phase;
    forall i | 0 <= i < |ys|
      ensures Phased(ys)[i] == Rotated(ys)[i] && -s <= Phased(ys)[i] <= s
    {
      RotateOne(i, ys[i], s);
    }
  }

  lemma {:induction false} HistoryStaysBounded(hist: seq<int>, xs: seq<int>, s: int)
    requires Bounded(hist, s) && Bounded(xs, s)
    ensures Bounded(HistAfter(hist, xs), s)
  {
    if xs != [] {
      HistoryStaysBounded(hist, xs[..|xs| - 1], s);
    }
  }

  /** The window the FIR sees at the `t`-th new sample, newest first. */
  function Window(hist: seq<int>, xs: seq<int>, t: nat): (r: seq<int>)
    requires t < |xs|
    ensures |r| == |hist| + 1
  {
    [xs[t]] + HistAfter(hist, xs[..t])
  }

  /** The filter loses nothing on a run if its casts lose nothing on any window of the run. */
  lemma {:induction false} FilterIsExact(hist: seq<int>, xs: seq<int>)
    requires |hist| == 23
    requires forall t | 0 <= t < |xs| :: FirTap(STOCK_TAPS, Window(hist, xs, t)) == Dot(STOCK_TAPS, Window(hist, xs, t), 24) / Q15
    ensures FirOut(STOCK_TAPS, hist, xs) == Filtered(STOCK_TAPS, hist, xs)
  {
    hide FirTap, Dot;
    if xs != [] {
      var was := xs[..|xs| - 1];
      forall t | 0 <= t < |was|
        ensures Window(hist, was, t) == Window(hist, xs, t)
      {
        assert was[..t] == xs[..t];
      }
      FilterIsExact(hist, was);
      var t := |xs| - 1;
      assert FirTap(STOCK_TAPS, Window(hist, xs, t)) == Dot(STOCK_TAPS, Window(hist, xs, t), 24) / Q15;
    }
  }

  lemma SmallWindowsAreExact(hist: seq<int>, xs: seq<int>, t: nat)
    requires |hist| == 23 && Bounded(hist, 27889) && Bounded(xs, 27889) && t < |xs|
    ensures FirTap(STOCK_TAPS, Window(hist, xs, t)) == Dot(STOCK_TAPS, Window(hist, xs, t), 24) / Q15
  {
    hide FirTap, Dot, HistAfter;
    HistoryStaysBounded(hist, xs[..t], 27889);
    FirTapExact(Window(hist, xs, t));
  }

  /** The same branches, whether the samples are seen as 16-bit or as unbounded integers. */
  lemma SameTypedBranches(p: seq<i16>, line: seq<i16>)
    ensures Evens<i16>(p) == Evens<int>(p) && Odds<i16>(p) == Odds<int>(p)
    ensures DelayOut<i16>(line, Odds(p)) == DelayOut<int>(line, Odds(p))
    ensures DelayAfter<i16>(line, Odds(p)) == DelayAfter<int>(line, Odds(p))
  {
  }

  lemma SameInterleaving(e: seq<i16>, o: seq<i16>)
    requires |e| == |o| || |e| == |o| + 1
    ensures Interleave<i16>(e, o) == Interleave<int>(e, o)
  {
  }

  lemma BoundedEvens(p: seq<int>, s: int)
    requires Bounded(p, s)
    ensures Bounded(Evens(p), s)
  {
  }

  /** One call on inputs spanning at most 32767: the state is the exact filter's, and so is all the
      FIR and the delay are fed. */
  lemma StateIsExact(s: ConvState, xs: seq<i16>, lo: int, hi: int)
    requires InSpan(s, lo, hi) && Within(xs, lo, hi) && hi - lo <= 32767
    ensures Phased(DcOut(s.dc, xs)) == Rotated(Levelled(Lift(s).dc, xs))
    ensures Bounded(Evens<int>(Phased(DcOut(s.dc, xs))), hi - lo)
    ensures InSpan(ProcessState(s, xs), lo, hi)
    ensures Lift(ProcessState(s, xs)) == Next(Lift(s), xs)
  {
    hide DcAfter, DcOut, LevelAfter, Levelled, Phased, Rotated, HistAfter, Evens, Odds, DelayAfter;
    LevelIsExact(s.dc, xs, lo, hi);
    RotationIsExact(DcOut(s.dc, xs), hi - lo);
    var p := Phased(DcOut(s.dc, xs));
    SameTypedBranches(p, s.line);
    BoundedEvens(p, hi - lo);
    HistoryStaysBounded(s.hist, Evens(p), hi - lo);
  }

  /** Then a call is the exact filter's whenever the FIR's casts lose nothing. */
  lemma OutputIsExact(s: ConvState, xs: seq<i16>, p: seq<i16>)
    requires |s.hist| == 23 && p == Phased(DcOut(s.dc, xs)) == Rotated(Levelled(Lift(s).dc, xs))
    requires FirOut(STOCK_TAPS, s.hist, Evens<int>(p)) == Filtered(STOCK_TAPS, s.hist, Evens<int>(p))
    ensures ProcessOut(STOCK_TAPS, s, xs) == Output(STOCK_TAPS, Lift(s), xs)
  {
    hide DcOut, Levelled, Phased, Rotated, FirOut, Filtered, Evens, Odds, Interleave, DelayOut;
    SameTypedBranches(p, s.line);
    SameInterleaving(FirOut(STOCK_TAPS, s.hist, Evens(p)), DelayOut(s.line, Odds(p)));
  }

  /** One call on inputs spanning at most 27889, from any state that has seen only such inputs: no
      cast on the DC, phase or FIR path loses anything. */
  lemma CallIsExact(s: ConvState, xs: seq<i16>, lo: int, hi: int)
    requires InSpan(s, lo, hi) && Within(xs, lo, hi) && hi - lo <= 27889
    ensures InSpan(ProcessState(s, xs), lo, hi)
    ensures ProcessOut(STOCK_TAPS, s, xs) == Output(STOCK_TAPS, Lift(s), xs)
    ensures Lift(ProcessState(s, xs)) == Next(Lift(s), xs)
  {
    hide DcOut, Levelled, Phased, Rotated, FirOut, FirTap, Dot, Filtered, Evens, Odds, ProcessOut, ProcessState, Output, Next;
    StateIsExact(s, xs, lo, hi);
    var p := Phased(DcOut(s.dc, xs));
    var e := Evens<int>(p);
    assert Bounded(e, 27889);
    forall t | 0 <= t < |e|
      ensures FirTap(STOCK_TAPS, Window(s.hist, e, t)) == Dot(STOCK_TAPS, Window(s.hist, e, t), 24) / Q15
    {
      SmallWindowsAreExact(s.hist, e, t);
    }
    FilterIsExact(s.hist, e);
    OutputIsExact(s, xs, p);
  }

  function FilterRun(kernel: seq<int>, s: FilterState, blocks: seq<seq<int>>): seq<int>
    requires |kernel| <= |s.hist| + 1
  {
    if blocks == [] then []
    else
      var was := blocks[..|blocks| - 1];
      FilterRun(kernel, s, was) + Output(kernel, FilterStateAfter(s, was), blocks[|blocks| - 1])
  }

  function FilterStateAfter(s: FilterState, blocks: seq<seq<int>>): (r: FilterState)
    ensures |r.hist| == |s.hist|
  {
    if blocks == [] then s
    else Next(FilterStateAfter(s, blocks[..|blocks| - 1]), blocks[|blocks| - 1])
  }
}
