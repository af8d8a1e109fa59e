/** What the converter is, all of it: the half-band filter of the table, all 47 taps, applied to the
    DC-free signal shifted by a quarter of the sample rate, of which every other complex output is
    kept. The two branches, the kept taps, the delay and the halved Q samples are that filter's
    zeros and its centre tap, arranged. */
module HalfBand {
  import opened MachineInts
  import opened Interleaving
  import opened SampleHistory
  import opened IqInt16Spec
  import opened IqConverterInt16
  import opened DcProperties
  import opened FirProperties
  import opened ConverterProperties
  import opened ExactFilter
  import opened ExactRange
  import opened FirOverflow
  import opened Filters

  /** The signal times the phasor: real and imaginary part. */
  function Real(ys: seq<int>): (r: seq<int>)
    ensures |r| == |ys|
  {
    seq(|ys|, n requires 0 <= n < |ys| => Phasor(n).0 * ys[n])
  }

  function Imaginary(ys: seq<int>): (r: seq<int>)
    ensures |r| == |ys|
  {
    seq(|ys|, n requires 0 <= n < |ys| => Phasor(n).1 * ys[n])
  }

  lemma PhasorParity(n: nat)
    ensures n % 2 == 0 ==> Phasor(n).1 == 0
    ensures n % 2 == 1 ==> Phasor(n).0 == 0
  {
    PhasorCycle(n);
    EvenOrOdd(n);
  }

  /** The real part is zero at odd times, the imaginary part at even ones. */
  lemma PartsAt(ys: seq<int>, n: int)
    ensures n % 2 == 1 ==> At(Real(ys), n) == 0
    ensures n % 2 == 0 ==> At(Imaginary(ys), n) == 0
    ensures 0 <= n < |ys| && n % 2 == 0 ==> At(Real(ys), n) == Rotated(ys)[n]
    ensures 0 <= n < |ys| && n % 2 == 1 ==> At(Imaginary(ys), n) / 2 == Rotated(ys)[n]
  {
    if 0 <= n < |ys| {
      PhasorParity(n);
      hide Phasor, Rotated;
      RotationIsShift(ys, n);
    }
  }

  /** The taps the kept ones leave out: zeros around the centre. */
  const LEFT_OUT: seq<i16> := [0, 0, 0, 0, 0, 0, 0, 0] + [0, 0, 0, 16384, 0, 0] + [0, 0, 0, 0, 0, 0, 0] + [0, 0]

  lemma LeftOut()
    ensures |HB_KERNEL_INT16| == 47 && Odds(HB_KERNEL_INT16) == LEFT_OUT
  {
    assert Odds(HB_ROW0) == [0, 0, 0, 0, 0, 0, 0, 0];
    assert Odds(HB_ROW1) == [0, 0, 0, 16384, 0, 0];
    assert Odds(HB_ROW2) == [0, 0, 0, 0, 0, 0, 0];
    assert Odds(HB_ROW3) == [0, 0];
    EvensAppend(HB_ROW0, HB_ROW1);
    EvensAppend(HB_ROW0 + HB_ROW1, HB_ROW2);
    EvensAppend(HB_ROW0 + HB_ROW1 + HB_ROW2, HB_ROW3);
  }

  lemma LeftOutAt(j: nat)
    requires j < 23
    ensures |LEFT_OUT| == 23 && LEFT_OUT[j] == if j == 11 then 16384 else 0
  {
  }

  lemma OddsAt<T>(a: seq<T>, j: nat)
    requires 2 * j + 1 < |a|
    ensures Odds(a)[j] == a[2 * j + 1]
  {
  }

  lemma EvensAt<T>(a: seq<T>, j: nat)
    requires 2 * j < |a|
    ensures Evens(a)[j] == a[2 * j]
  {
  }

  /** A half-band table: the kept taps `k` at even places, a lone centre of one half at the odd. */
  predicate HalfBandTable(h: seq<int>, k: seq<int>) {
    && |h| == 47 && |k| == 24
    && (forall j | 0 <= j < 24 :: h[2 * j] == k[j])
    && (forall j | 0 <= j < 23 :: h[2 * j + 1] == if j == 11 then 16384 else 0)
  }

  lemma TableIsHalfBand()
    ensures HalfBandTable(HB_KERNEL_INT16, STOCK_TAPS)
  {
    LeftOut();
    StockTaps();
    hide Evens, Odds;
    forall j | 0 <= j < 24
      ensures HB_KERNEL_INT16[2 * j] == STOCK_TAPS[j]
    {
      EvensAt(HB_KERNEL_INT16, j);
    }
    forall j | 0 <= j < 23
      ensures HB_KERNEL_INT16[2 * j + 1] == if j == 11 then 16384 else 0
    {
      OddsAt(HB_KERNEL_INT16, j);
      LeftOutAt(j);
    }
  }

  lemma TableAt(h: seq<int>, k: seq<int>, i: nat)
    requires HalfBandTable(h, k) && i < 47
    ensures i % 2 == 0 ==> h[i] == k[i / 2]
    ensures i % 2 == 1 ==> h[i] == if i == 23 then 16384 else 0
  {
    assert i == 2 * (i / 2) + i % 2;
  }

  lemma ConvolutionStep(kernel: seq<int>, xs: seq<int>, t: nat, n: nat)
    requires n < |kernel|
    ensures Convolution(kernel, xs, t, n + 1) == Convolution(kernel, xs, t, n) + kernel[n] * At(xs, t - n)
    ensures Convolution(kernel, xs, t, 0) == 0
  {
  }

  /** On the real part only the even taps meet anything. */
  lemma {:induction false} RealConvolution(h: seq<int>, k: seq<int>, ys: seq<int>, t: nat, m: nat)
    requires HalfBandTable(h, k) && 2 * t < |ys| && 1 <= m <= 24
    ensures Convolution(h, Real(ys), 2 * t, 2 * m - 1) == Convolution(k, Evens(Rotated(ys)), t, m)
  {
    hide Real, Rotated, At, Convolution, Evens;
    TableAt(h, k, 2 * m - 2);
    EvenAt(ys, t - (m - 1));
    ConvolutionStep(h, Real(ys), 2 * t, 2 * m - 2);
    ConvolutionStep(k, Evens(Rotated(ys)), t, m - 1);
    if m > 1 {
      RealConvolution(h, k, ys, t, m - 1);
      ConvolutionStep(h, Real(ys), 2 * t, 2 * m - 3);
      PartsAt(ys, 2 * t - (2 * m - 3));
    }
  }

  lemma EvenAt(ys: seq<int>, j: int)
    ensures At(Evens(Rotated(ys)), j) == At(Real(ys), 2 * j)
  {
    hide Real, Rotated;
    if 0 <= 2 * j < |ys| {
      PartsAt(ys, 2 * j);
    }
  }

  /** On the imaginary part only the centre tap does. */
  lemma {:induction false} ImaginaryConvolution(h: seq<int>, k: seq<int>, ys: seq<int>, t: nat, n: nat)
    requires HalfBandTable(h, k) && n <= 47
    ensures Convolution(h, Imaginary(ys), 2 * t, n) == if n <= 23 then 0 else 16384 * At(Imaginary(ys), 2 * t - 23)
  {
    hide Imaginary, At, Convolution;
    ConvolutionStep(h, Imaginary(ys), 2 * t, if n > 0 then n - 1 else 0);
    if n > 0 {
      ImaginaryConvolution(h, k, ys, t, n - 1);
      TableAt(h, k, n - 1);
      PartsAt(ys, 2 * t - (n - 1));
    }
  }

  lemma {:induction false} WindowDot(e: seq<int>, t: nat, n: nat)
    requires t < |e| && n <= 24
    ensures Dot(STOCK_TAPS, Window(Zeros(23), e, t), n) == Convolution(STOCK_TAPS, e, t, n)
  {
    if n > 0 {
      WindowDot(e, t, n - 1);
      WindowAt(e, t, n - 1);
    }
  }

  /** The unbounded filter from its start is the half-band filter of the shifted signal, decimated by
      two and scaled down by 2^15, in both parts. */
  lemma ExactIsHalfBand(xs: seq<int>, t: nat)
    ensures |HB_KERNEL_INT16| == 47
    ensures var ys, out := Levelled(Lift(SILENT).dc, xs), Output(STOCK_TAPS, Lift(SILENT), xs);
            && (2 * t < |xs| ==> out[2 * t] == Convolution(HB_KERNEL_INT16, Real(ys), 2 * t, 47) / 32768)
            && (2 * t + 1 < |xs| ==> out[2 * t + 1] == Convolution(HB_KERNEL_INT16, Imaginary(ys), 2 * t, 47) / 32768)
  {
    TableIsHalfBand();
    var ys := Levelled(Lift(SILENT).dc, xs);
    if 2 * t < |xs| {
      RealOutput(xs, ys, t);
    }
    if 2 * t + 1 < |xs| {
      ImaginaryOutput(xs, ys, t);
    }
  }

  lemma RealOutput(xs: seq<int>, ys: seq<int>, t: nat)
    requires ys == Levelled(Lift(SILENT).dc, xs) && 2 * t < |xs|
    ensures |HB_KERNEL_INT16| == 47
    ensures Output(STOCK_TAPS, Lift(SILENT), xs)[2 * t] == Convolution(HB_KERNEL_INT16, Real(ys), 2 * t, 47) / 32768
  {
    hide Levelled, Rotated, Evens, Dot, Convolution, Window, Output, Real;
    OutputAt(Lift(SILENT), xs, t);
    WindowDot(Evens(Rotated(ys)), t, 24);
    TableIsHalfBand();
    RealConvolution(HB_KERNEL_INT16, STOCK_TAPS, ys, t, 24);
  }

  lemma ImaginaryOutput(xs: seq<int>, ys: seq<int>, t: nat)
    requires ys == Levelled(Lift(SILENT).dc, xs) && 2 * t + 1 < |xs|
    ensures |HB_KERNEL_INT16| == 47
    ensures Output(STOCK_TAPS, Lift(SILENT), xs)[2 * t + 1] == Convolution(HB_KERNEL_INT16, Imaginary(ys), 2 * t, 47) / 32768
  {
    hide Levelled, Rotated, Convolution, Filtered, DelayOut, Imaginary, Interleave;
    var out, p := Output(STOCK_TAPS, Lift(SILENT), xs), Rotated(ys);
    assert Odds(out) == DelayOut<int>(Zeros(12), Odds(p));
    assert out[2 * t + 1] == Odds(out)[t];
    ZerosDelay(Odds(p), t);
    TableIsHalfBand();
    ImaginaryConvolution(HB_KERNEL_INT16, STOCK_TAPS, ys, t, 47);
    OddAt(ys, t - 12);
    Halved(At(Imaginary(ys), 2 * t - 23));
  }

  lemma ZerosDelay(xs: seq<int>, t: nat)
    requires t < |xs|
    ensures DelayOut<int>(Zeros(12), xs)[t] == At(xs, t - 12)
  {
  }

  lemma OddAt(ys: seq<int>, j: int)
    requires 2 * j + 1 < |ys|
    ensures At(Odds(Rotated(ys)), j) == At(Imaginary(ys), 2 * j + 1) / 2
  {
    hide Imaginary, Rotated;
    PartsAt(ys, 2 * j + 1);
  }

  lemma Halved(v: int)
    ensures 16384 * v / 32768 == v / 2
  {
  }

  /** So a call of the fixed-point converter from its fresh state, on inputs that with 0 span at most
      32767, is exactly that: nothing else happens to the signal but the DC removal before. */
  lemma ConverterIsHalfBand(xs: seq<i16>, lo: int, hi: int, t: nat)
    requires lo <= 0 <= hi && hi - lo <= 32767 && Within(xs, lo, hi)
    ensures |HB_KERNEL_INT16| == 47
    ensures var ys, out := DcOut(DC_FRESH, xs), ProcessOut(STOCK_TAPS, SILENT, xs);
            && (2 * t < |xs| ==> out[2 * t] == Convolution(HB_KERNEL_INT16, Real(ys), 2 * t, 47) / 32768)
            && (2 * t + 1 < |xs| ==> out[2 * t + 1] == Convolution(HB_KERNEL_INT16, Imaginary(ys), 2 * t, 47) / 32768)
  {
    hide DcOut, Levelled, ProcessOut, Output, Convolution, Real, Imaginary, DcAfter, LevelAfter;
    FreshInHull(lo, hi);
    LevelIsExact(DC_FRESH, xs, lo, hi);
    FreshCallIsExact(xs, lo, hi);
    ExactIsHalfBand(xs, t);
  }
}
