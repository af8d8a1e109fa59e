/** Where the FIR's output cast does lose something: inputs that reach it with no blocker output
    truncated before. One is a single call of large amplitude, the other a stream of harmless
    amplitude cut into calls that do not end on phase boundaries. */
module FirOverflow {
  import opened MachineInts
  import opened Interleaving
  import opened SampleHistory
  import opened IqInt16Spec
  import opened IqConverterInt16
  import opened DcProperties
  import opened FirProperties
  import opened ConverterProperties
  import opened ExactFilter
  import opened ExactRange

  // ---------- runs on which the blocker is exact ----------

  /** No blocker output of the run is truncated. */
  ghost predicate NoTurns(s: DcState, xs: seq<i16>) {
    forall i | 0 <= i < |xs| :: Turns16(Unwrapped(DcAfter(s, xs[..i]), xs[i])) == 0
  }

  lemma {:induction false} LevelledWithoutTurns(s: DcState, xs: seq<i16>)
    requires 0 <= s.e < Q15 && NoTurns(s, xs)
    ensures DcOut(s, xs) == Levelled(DcLevel(s.x, s.y, s.e), xs)
    ensures var z := DcAfter(s, xs); 0 <= z.e < Q15 && LevelAfter(DcLevel(s.x, s.y, s.e), xs) == DcLevel(z.x, z.y, z.e)
  {
    hide DcStep, Turns16, Unwrapped;
    if xs != [] {
      var n := |xs| - 1;
      assert NoTurns(s, xs[..n]) by {
        forall i | 0 <= i < n
          ensures Turns16(Unwrapped(DcAfter(s, xs[..n][..i]), xs[..n][i])) == 0
        {
          assert xs[..n][..i] == xs[..i];
        }
      }
      LevelledWithoutTurns(s, xs[..n]);
      ExactStep(DcAfter(s, xs[..n]), xs[n]);
    }
  }

  lemma ExactStep(s: DcState, x: i16)
    requires 0 <= s.e < Q15 && Turns16(Unwrapped(s, x)) == 0
    ensures var z := DcStep(s, x); 0 <= z.e < Q15 && LevelStep(DcLevel(s.x, s.y, s.e), x) == DcLevel(z.x, z.y, z.e)
  {
    hide DcStep;
    ErrorFeedbackLosesNothing(s, x);
  }

  lemma FilteredAt(hist: seq<int>, e: seq<int>, t: nat)
    requires |hist| == 23 && t < |e|
    ensures Filtered(STOCK_TAPS, hist, e)[t] == Dot(STOCK_TAPS, Window(hist, e, t), 24) / Q15
  {
    hide Dot, HistAfter;
    var was := e[..|e| - 1];
    if t < |was| {
      FilteredAt(hist, was, t);
      assert was[..t] == e[..t];
    }
  }

  lemma ProcessOutAt(s: ConvState, xs: seq<i16>, t: nat)
    requires |s.hist| == 23 && 2 * t < |xs|
    ensures ProcessOut(STOCK_TAPS, s, xs)[2 * t]
         == FirTap(STOCK_TAPS, Window(s.hist, Evens<int>(Phased(DcOut(s.dc, xs))), t))
  {
    hide DcOut, Phased, FirOut, FirTap, HistAfter, Interleave, DelayOut;
    var p := Phased(DcOut(s.dc, xs));
    SameTypedBranches(p, s.line);
    FirOutAt(STOCK_TAPS, s.hist, Evens<int>(p), t);
    var out := ProcessOut(STOCK_TAPS, s, xs);
    assert out[2 * t] == Evens(out)[t];
  }

  lemma OutputAt(s: FilterState, xs: seq<int>, t: nat)
    requires |s.hist| == 23 && 2 * t < |xs|
    ensures Output(STOCK_TAPS, s, xs)[2 * t]
         == Dot(STOCK_TAPS, Window(s.hist, Evens(Rotated(Levelled(s.dc, xs))), t), 24) / Q15
  {
    hide Levelled, Rotated, Filtered, Dot, HistAfter, Interleave, DelayOut;
    var p := Rotated(Levelled(s.dc, xs));
    FilteredAt(s.hist, Evens(p), t);
    var out := Output(STOCK_TAPS, s, xs);
    assert out[2 * t] == Evens(out)[t];
  }

  // ---------- one call ----------

  /** Alternating samples, the signs exchanged after twelve pairs. */
  function Probe(x: i16): (r: seq<i16>)
    requires x > -32768
    ensures |r| == 47
  {
    seq(47, i requires 0 <= i < 47 => if (i % 2 == 0) == (i < 24) then x else -(x as int))
  }

  /** Between one I sample and the next the blocker's level swings out and back. */
  predicate Swinging(s: DcState, x: int) {
    s.x == x && -400 <= Level(s) <= 400 && 0 <= s.e < Q15
  }

  lemma Swing(s: DcState, x: i16, next: i16)
    requires Swinging(s, x) && (28400 <= x <= 31500 || -31500 <= x <= -28400) && -31500 <= next <= 31500
    ensures var q := DcStep(s, -(x as int));
            && Turns16(Unwrapped(s, -(x as int))) == 0
            && Turns16(Unwrapped(q, next)) == 0
            && Swinging(DcStep(q, next), next)
  {
    hide DcStep;
    var q := DcStep(s, -(x as int));
    ErrorFeedbackLosesNothing(s, -(x as int));
    assert Feedback(s) == Q15 * (Feedback(s) / Q15) + Feedback(s) % Q15;
    assert -1100 <= Level(q) <= 1100;
    ErrorFeedbackLosesNothing(q, next);
    assert Feedback(q) == Q15 * (Feedback(q) / Q15) + Feedback(q) % Q15;
  }

  lemma ProbeStart(x: i16)
    requires 28400 <= x <= 31500
    ensures Swinging(DcAfter(DC_FRESH, Probe(x)[..1]), x) && NoTurns(DC_FRESH, Probe(x)[..1])
  {
    hide DcStep;
    assert Probe(x)[..1] == [] + [x];
    DcOutSnoc(DC_FRESH, [], x);
    ErrorFeedbackLosesNothing(DC_FRESH, x);
    Wrap16Fits(x);
  }

  lemma NoTurnsSnoc(s: DcState, xs: seq<i16>, n: nat)
    requires n < |xs| && NoTurns(s, xs[..n]) && Turns16(Unwrapped(DcAfter(s, xs[..n]), xs[n])) == 0
    ensures NoTurns(s, xs[..n + 1])
  {
    hide DcAfter, Turns16, Unwrapped;
    var ys := xs[..n + 1];
    forall i | 0 <= i < |ys|
      ensures Turns16(Unwrapped(DcAfter(s, ys[..i]), ys[i])) == 0
    {
      assert ys[..i] == xs[..i];
      if i < n {
        assert xs[..n][..i] == xs[..i];
        assert Turns16(Unwrapped(DcAfter(s, xs[..n][..i]), xs[..n][i])) == 0;
      }
    }
  }

  lemma {:induction false} ProbeRuns(x: i16, m: nat)
    requires 28400 <= x <= 31500 && m < 24
    ensures Swinging(DcAfter(DC_FRESH, Probe(x)[..2 * m + 1]), if m < 12 then x else -(x as int))
    ensures NoTurns(DC_FRESH, Probe(x)[..2 * m + 1])
  {
    hide DcStep, DcAfter, NoTurns, Swinging, Turns16, Unwrapped;
    if m == 0 {
      ProbeStart(x);
    } else {
      var xs := Probe(x);
      ProbeRuns(x, m - 1);
      var s := DcAfter(DC_FRESH, xs[..2 * m - 1]);
      assert 2 * m - 1 < 24 <==> m <= 12;
      DcSnoc(DC_FRESH, xs, 2 * m - 1);
      DcSnoc(DC_FRESH, xs, 2 * m);
      Swing(s, if m <= 12 then x else -(x as int), xs[2 * m]);
      NoTurnsSnoc(DC_FRESH, xs, 2 * m - 1);
      NoTurnsSnoc(DC_FRESH, xs, 2 * m);
    }
  }

  /** So every I output of the blocker stays near its input, and nothing is truncated before the FIR. */
  lemma ProbeOutputs(x: i16)
    requires 28400 <= x <= 31500
    ensures NoTurns(DC_FRESH, Probe(x))
    ensures forall m | 0 <= m < 24 ::
              (var y := DcOut(DC_FRESH, Probe(x))[2 * m];
               if m < 12 then x - 400 <= y <= x + 400 else -x - 400 <= y <= -(x as int) + 400)
  {
    hide DcAfter, DcOut, NoTurns, Probe;
    ProbeRuns(x, 23);
    var xs := Probe(x);
    assert xs[..2 * 23 + 1] == xs;
    forall m | 0 <= m < 24
      ensures var y := DcOut(DC_FRESH, xs)[2 * m];
              if m < 12 then x - 400 <= y <= x + 400 else -x - 400 <= y <= -(x as int) + 400
    {
      ProbeRuns(x, m);
      DcOutAt(DC_FRESH, xs, 2 * m);
    }
  }

  lemma TapSigns(j: nat)
    requires j < 24
    ensures STOCK_TAPS[j] > 0 <==> (j % 2 == 1) == (j < 12)
    ensures STOCK_TAPS[j] != 0
  {
    if j < 8 {
      assert STOCK_TAPS[j] == TAPS_ROW0[j];
    } else if j < 14 {
      assert STOCK_TAPS[j] == TAPS_ROW1[j - 8];
    } else if j < 21 {
      assert STOCK_TAPS[j] == TAPS_ROW2[j - 14];
    } else {
      assert STOCK_TAPS[j] == TAPS_ROW3[j - 21];
    }
  }

  /** The sample has the tap's sign and at least the given size. */
  predicate Aligned(k: int, v: int, a: int) {
    if k > 0 then v >= a else v <= -a
  }

  lemma {:induction false} DotAligned(kernel: seq<int>, w: seq<int>, n: nat, a: int)
    requires n <= |kernel| == |w| && forall j | 0 <= j < |w| :: Aligned(kernel[j], w[j], a)
    ensures Dot(kernel, w, n) >= AbsSum(kernel, n) * a
  {
    hide Abs, Aligned;
    if n > 0 {
      DotAligned(kernel, w, n - 1, a);
      ProductAligned(kernel[n - 1], w[n - 1], a);
      assert AbsSum(kernel, n) * a == AbsSum(kernel, n - 1) * a + Abs(kernel[n - 1]) * a;
    }
  }

  lemma ProductAligned(k: int, v: int, a: int)
    requires Aligned(k, v, a)
    ensures k * v >= Abs(k) * a
  {
    if k > 0 {
      assert k * v >= k * a;
    } else {
      assert -k * -v >= -k * a;
    }
  }

  lemma ProbeFed(x: i16, j: nat)
    requires 28400 <= x <= 31500 && j < 24
    ensures Aligned(STOCK_TAPS[j], At(Fed(Probe(x)), 23 - j), x - 400)
    ensures -32767 <= At(Fed(Probe(x)), 23 - j) <= 32767
  {
    hide DcOut, Probe, Fed, NoTurns;
    ProbeOutputs(x);
    var m := 23 - j;
    var y := DcOut(DC_FRESH, Probe(x))[2 * m];
    assert if m < 12 then x - 400 <= y <= x + 400 else -x - 400 <= y <= -(x as int) + 400;
    FedIs(Probe(x), m);
    TapSigns(j);
    assert m % 2 == 0 <==> j % 2 == 1;
  }

  /** When the probe's 24th I sample arrives every tap sees a large sample of its own sign. */
  lemma ProbeWindow(x: i16)
    requires 28400 <= x <= 31500
    ensures var w := Window(Zeros(23), Fed(Probe(x)), 23);
            Bounded(w, 32767) && forall j | 0 <= j < 24 :: Aligned(STOCK_TAPS[j], w[j], x - 400)
  {
    hide Probe, Fed, Aligned, HistAfter;
    var w := Window(Zeros(23), Fed(Probe(x)), 23);
    forall j | 0 <= j < 24
      ensures Aligned(STOCK_TAPS[j], w[j], x - 400) && -32767 <= w[j] <= 32767
    {
      WindowAt(Fed(Probe(x)), 23, j);
      ProbeFed(x, j);
    }
  }

  lemma LargeDotWraps(w: seq<i16>, a: int)
    requires |w| == 24 && a >= 28000 && forall j | 0 <= j < 24 :: Aligned(STOCK_TAPS[j], w[j], a)
    ensures FirTap(STOCK_TAPS, w) == Dot(STOCK_TAPS, w, 24) / Q15 - 0x1_0000
  {
    hide Wrap16, Wrap32, Dot, AbsSum, Aligned;
    StockTapsSum();
    DotAligned(STOCK_TAPS, w, 24, a);
    assert Bounded(w, 32768);
    DotBound(STOCK_TAPS, w, 24, 32768);
    AccumulatorNeverWraps(w, 24);
    var v := Dot(STOCK_TAPS, w, 24) / Q15;
    Wrap16Unique(v, v - 0x1_0000, 1);
  }

  lemma RotatedEven(ys: seq<int>, m: nat)
    requires 2 * m < |ys|
    ensures Evens(Rotated(ys))[m] == if m % 2 == 0 then -ys[2 * m] else ys[2 * m]
  {
    assert 2 * m % 4 == 2 * (m % 2);
  }

  /** What the FIR is fed at even positions is exact unless a blocker output is the lowest of all. */
  lemma FedIsRotated(xs: seq<i16>)
    requires forall m | 0 <= 2 * m < |xs| :: DcOut(DC_FRESH, xs)[2 * m] > -32768
    ensures Fed(xs) == Evens<int>(Rotated(DcOut(DC_FRESH, xs)))
  {
    hide DcOut, Fed, Rotated, Evens;
    var e := Evens<int>(Rotated(DcOut(DC_FRESH, xs)));
    forall m | 0 <= m < |e|
      ensures Fed(xs)[m] == e[m]
    {
      FedIs(xs, m);
      RotatedEven(DcOut(DC_FRESH, xs), m);
    }
  }

  lemma ProbeIsExact(x: i16)
    requires 28400 <= x <= 31500
    ensures DcOut(DC_FRESH, Probe(x)) == Levelled(Lift(SILENT).dc, Probe(x))
    ensures Fed(Probe(x)) == Evens<int>(Rotated(Levelled(Lift(SILENT).dc, Probe(x))))
  {
    hide DcOut, Levelled, Rotated, Probe, Fed, Evens, NoTurns;
    ProbeOutputs(x);
    LevelledWithoutTurns(DC_FRESH, Probe(x));
    forall m | 0 <= 2 * m < |Probe(x)|
      ensures DcOut(DC_FRESH, Probe(x))[2 * m] > -32768
    {
      assert 0 <= m < 24;
    }
    FedIsRotated(Probe(x));
  }

  /** A real input on which the FIR's cast is the one that fails: over the whole call the blocker
      puts out exactly what the exact one does, yet the 24th I output is off by 2^16. */
  lemma FirCastWraps(x: i16)
    requires 28400 <= x <= 31500
    ensures DcOut(DC_FRESH, Probe(x)) == Levelled(Lift(SILENT).dc, Probe(x))
    ensures ProcessOut(STOCK_TAPS, SILENT, Probe(x))[46] == Output(STOCK_TAPS, Lift(SILENT), Probe(x))[46] - 0x1_0000
  {
    ProbeIsExact(x);
    var xs := Probe(x);
    ProcessOutAt(SILENT, xs, 23);
    OutputAt(Lift(SILENT), xs, 23);
    ProbeWindow(x);
    var w := Window(Zeros(23), Fed(xs), 23);
    hide *;
    LargeDotWraps(w, x - 400);
  }
}
