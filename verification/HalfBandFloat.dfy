/** The float converter is the same filter: the 47 float taps on the DC-free signal shifted by a
    quarter of the sample rate, every other complex output kept. The two tables are one, rounded. */
module HalfBandFloat {
  import opened Interleaving
  import opened SampleHistory
  import opened IqFloatSpec
  import opened FloatProperties
  import opened Filters
  import ExactFilter
  import FirProperties
  import HalfBand

  function At(xs: seq<real>, i: int): real {
    if 0 <= i < |xs| then xs[i] else 0.0
  }

  /** The first `n` terms of the convolution of `kernel` with `xs` at time `t`. */
  function Convolution(kernel: seq<real>, xs: seq<real>, t: nat, n: nat): real
    requires n <= |kernel|
  {
    if n == 0 then 0.0 else Convolution(kernel, xs, t, n - 1) + kernel[n - 1] * At(xs, t - (n - 1))
  }

  /** The signal times the phasor: real and imaginary part. */
  function Real(ys: seq<real>): (r: seq<real>)
    ensures |r| == |ys|
  {
    seq(|ys|, n requires 0 <= n < |ys| => ExactFilter.Phasor(n).0 as real * ys[n])
  }

  function Imaginary(ys: seq<real>): (r: seq<real>)
    ensures |r| == |ys|
  {
    seq(|ys|, n requires 0 <= n < |ys| => ExactFilter.Phasor(n).1 as real * ys[n])
  }

  lemma PhaseIsShift(i: nat, v: real, hbc: real)
    ensures var (re, im) := ExactFilter.Phasor(i);
            && Phase(i, v, hbc) == (if i % 2 == 0 then re as real * v else im as real * v * hbc)
            && (if i % 2 == 0 then im == 0 else re == 0)
  {
    ExactFilter.PhasorCycle(i);
    ExactFilter.EvenOrOdd(i);
  }

  /** In whole chunks the phases are that shift: real parts at even, scaled imaginary parts at odd
      positions, and zero where the other part is. */
  lemma PartsAt(ys: seq<real>, hbc: real, n: int)
    requires |ys| % 4 == 0
    ensures n % 2 == 1 ==> At(Real(ys), n) == 0.0
    ensures n % 2 == 0 ==> At(Imaginary(ys), n) == 0.0
    ensures 0 <= n < |ys| && n % 2 == 0 ==> At(Real(ys), n) == Phased(ys, hbc)[n]
    ensures 0 <= n < |ys| && n % 2 == 1 ==> hbc * At(Imaginary(ys), n) == Phased(ys, hbc)[n]
  {
    hide Real, Imaginary, Phased;
    if 0 <= n < |ys| {
      if n % 2 == 0 {
        EvenPart(ys, hbc, n);
      } else {
        OddPart(ys, hbc, n);
      }
    }
  }

  lemma EvenPart(ys: seq<real>, hbc: real, n: nat)
    requires |ys| % 4 == 0 && n < |ys| && n % 2 == 0
    ensures At(Real(ys), n) == Phased(ys, hbc)[n] && At(Imaginary(ys), n) == 0.0
  {
    hide Real, Imaginary, Phased, At, Phase, ExactFilter.Phasor;
    PhasedAt(ys, hbc, n);
    PhaseIsShift(n, ys[n], hbc);
    RealAt(ys, n);
    Scaled(0.0, ys[n], hbc);
  }

  lemma OddPart(ys: seq<real>, hbc: real, n: nat)
    requires |ys| % 4 == 0 && n < |ys| && n % 2 == 1
    ensures hbc * At(Imaginary(ys), n) == Phased(ys, hbc)[n] && At(Real(ys), n) == 0.0
  {
    hide Real, Imaginary, Phased, At, Phase, ExactFilter.Phasor;
    PhasedAt(ys, hbc, n);
    PhaseIsShift(n, ys[n], hbc);
    RealAt(ys, n);
    Scaled(ExactFilter.Phasor(n).1 as real, ys[n], hbc);
  }

  lemma Scaled(im: real, y: real, hbc: real)
    ensures hbc * (im * y) == im * y * hbc
    ensures 0.0 * y == 0.0
  {
  }

  lemma PhasedAt(ys: seq<real>, hbc: real, n: nat)
    requires |ys| % 4 == 0 && n < |ys|
    ensures Phased(ys, hbc)[n] == Phase(n, ys[n], hbc)
  {
    hide Phase;
  }

  lemma RealAt(ys: seq<real>, n: nat)
    requires n < |ys|
    ensures At(Real(ys), n) == ExactFilter.Phasor(n).0 as real * ys[n]
    ensures At(Imaginary(ys), n) == ExactFilter.Phasor(n).1 as real * ys[n]
  {
    hide ExactFilter.Phasor;
  }

  /** A half-band table: the kept taps at even places, a lone centre at the odd. */
  predicate HalfBandTable(h: seq<real>, k: seq<real>, centre: real) {
    && |h| == 47 && |k| == 24
    && (forall j | 0 <= j < 24 :: h[2 * j] == k[j])
    && (forall j | 0 <= j < 23 :: h[2 * j + 1] == if j == 11 then centre else 0.0)
  }

  lemma TableAt(h: seq<real>, k: seq<real>, centre: real, i: nat)
    requires HalfBandTable(h, k, centre) && i < 47
    ensures i % 2 == 0 ==> h[i] == k[i / 2]
    ensures i % 2 == 1 ==> h[i] == if i == 23 then centre else 0.0
  {
    assert i == 2 * (i / 2) + i % 2;
  }

  lemma ConvolutionStep(kernel: seq<real>, xs: seq<real>, t: nat, n: nat)
    requires n < |kernel|
    ensures Convolution(kernel, xs, t, n + 1) == Convolution(kernel, xs, t, n) + kernel[n] * At(xs, t - n)
    ensures Convolution(kernel, xs, t, 0) == 0.0
  {
  }

  lemma EvenAt(ys: seq<real>, hbc: real, j: int)
    requires |ys| % 4 == 0
    ensures At(Evens(Phased(ys, hbc)), j) == At(Real(ys), 2 * j)
  {
    hide Real, Phased;
    if 0 <= 2 * j < |ys| {
      PartsAt(ys, hbc, 2 * j);
    }
  }

  /** On the real part only the even taps meet anything. */
  lemma {:induction false} RealConvolution(h: seq<real>, k: seq<real>, hbc: real, ys: seq<real>, t: nat, m: nat)
    requires HalfBandTable(h, k, hbc) && |ys| % 4 == 0 && 2 * t < |ys| && 1 <= m <= 24
    ensures Convolution(h, Real(ys), 2 * t, 2 * m - 1) == Convolution(k, Evens(Phased(ys, hbc)), t, m)
  {
    hide Real, Phased, At, Convolution, Evens;
    TableAt(h, k, hbc, 2 * m - 2);
    EvenAt(ys, hbc, t - (m - 1));
    ConvolutionStep(h, Real(ys), 2 * t, 2 * m - 2);
    ConvolutionStep(k, Evens(Phased(ys, hbc)), t, m - 1);
    if m > 1 {
      RealConvolution(h, k, hbc, ys, t, m - 1);
      ConvolutionStep(h, Real(ys), 2 * t, 2 * m - 3);
      PartsAt(ys, hbc, 2 * t - (2 * m - 3));
    }
  }

  /** On the imaginary part only the centre tap does. */
  lemma {:induction false} ImaginaryConvolution(h: seq<real>, k: seq<real>, hbc: real, ys: seq<real>, t: nat, n: nat)
    requires HalfBandTable(h, k, hbc) && |ys| % 4 == 0 && n <= 47
    ensures Convolution(h, Imaginary(ys), 2 * t, n) == if n <= 23 then 0.0 else hbc * At(Imaginary(ys), 2 * t - 23)
  {
    hide Imaginary, At, Convolution;
    ConvolutionStep(h, Imaginary(ys), 2 * t, if n > 0 then n - 1 else 0);
    if n > 0 {
      ImaginaryConvolution(h, k, hbc, ys, t, n - 1);
      TableAt(h, k, hbc, n - 1);
      PartsAt(ys, hbc, 2 * t - (n - 1));
    }
  }

  lemma {:induction false} WindowDot(k: seq<real>, e: seq<real>, t: nat, n: nat)
    requires t < |e| && n <= 24 == |k|
    ensures Dot(k, [e[t]] + HistAfter(Zeros(23), e[..t]), n) == Convolution(k, e, t, n)
  {
    hide HistAfter;
    if n > 0 {
      WindowDot(k, e, t, n - 1);
      if n > 1 {
        HistoryIsReversedPast(Zeros(23), e[..t], n - 2);
      }
    }
  }

  lemma RealOutput(h: seq<real>, k: seq<real>, hbc: real, xs: seq<real>, t: nat)
    requires HalfBandTable(h, k, hbc) && Palindromic(k) && |xs| % 4 == 0 && 2 * t < |xs|
    ensures ProcessOut(k, hbc, State(0.0, Zeros(23), Zeros(12)), xs)[2 * t]
         == Convolution(h, Real(DcOut(0.0, xs)), 2 * t, 47)
  {
    hide DcOut, Phased, FirOut, Evens, HistAfter, Convolution, Tap, Real, Palindromic, FormFor, Interleave, DelayOut;
    var p := Phased(DcOut(0.0, xs), hbc);
    var out := ProcessOut(k, hbc, State(0.0, Zeros(23), Zeros(12)), xs);
    assert Evens(out) == FirOut(FormFor(k), k, Zeros(23), Evens(p));
    assert out[2 * t] == Evens(out)[t] by { EvensAt(out, t); }
    FirOutAt(FormFor(k), k, Zeros(23), Evens(p), t);
    var w := [Evens(p)[t]] + HistAfter(Zeros(23), Evens(p)[..t]);
    TapIsDot(FormFor(k), k, w);
    WindowDot(k, Evens(p), t, 24);
    RealConvolution(h, k, hbc, DcOut(0.0, xs), t, 24);
  }

  lemma EvensAt<T>(a: seq<T>, j: nat)
    requires 2 * j < |a|
    ensures Evens(a)[j] == a[2 * j]
  {
  }

  lemma TapIsDot(form: Form, k: seq<real>, w: seq<real>)
    requires |k| == |w| == 24 && Palindromic(k)
    ensures Tap(form, k, w) == Dot(k, w, 24)
  {
    hide Dot, PairDot;
    FormsAgreeIff(k);
    assert Tap(Symmetric, k, w) == Tap(Generic, k, w);
  }

  lemma OddsAt<T>(a: seq<T>, j: nat)
    requires 2 * j + 1 < |a|
    ensures Odds(a)[j] == a[2 * j + 1]
  {
  }

  /** A delay of twelve Q samples is one of 23 positions from the I sample before. */
  lemma DelayedOdd(ys: seq<real>, hbc: real, t: nat)
    requires |ys| % 4 == 0 && 2 * t + 1 < |ys|
    ensures DelayOut(Zeros(12), Odds(Phased(ys, hbc)))[t] == hbc * At(Imaginary(ys), 2 * t - 23)
  {
    hide Phased, Imaginary, Odds;
    if t >= 12 {
      PartsAt(ys, hbc, 2 * t - 23);
      OddsAt(Phased(ys, hbc), t - 12);
    } else {
      assert At(Imaginary(ys), 2 * t - 23) == 0.0;
      Scaled(0.0, 0.0, hbc);
    }
  }

  lemma ImaginaryOutput(h: seq<real>, k: seq<real>, hbc: real, xs: seq<real>, t: nat)
    requires HalfBandTable(h, k, hbc) && |xs| % 4 == 0 && 2 * t + 1 < |xs|
    ensures ProcessOut(k, hbc, State(0.0, Zeros(23), Zeros(12)), xs)[2 * t + 1]
         == Convolution(h, Imaginary(DcOut(0.0, xs)), 2 * t, 47)
  {
    hide DcOut, Phased, FirOut, Convolution, Imaginary, FormFor, Interleave, Odds, Evens, DelayOut, At, HalfBandTable;
    TableSizes(h, k, hbc);
    var ys := DcOut(0.0, xs);
    var out, p := ProcessOut(k, hbc, State(0.0, Zeros(23), Zeros(12)), xs), Phased(ys, hbc);
    assert Odds(out) == DelayOut(Zeros(12), Odds(p));
    OddsAt(out, t);
    DelayedOdd(ys, hbc, t);
    ImaginaryConvolution(h, k, hbc, ys, t, 47);
  }

  lemma TableSizes(h: seq<real>, k: seq<real>, centre: real)
    requires HalfBandTable(h, k, centre)
    ensures |h| == 47 && |k| == 24
  {
  }

  lemma TableIsHalfBand()
    ensures HalfBandTable(HB_KERNEL_FLOAT, Evens(HB_KERNEL_FLOAT), 0.5)
  {
    assert Odds(HB_FLOAT_HALF) == [0.0, 0.0, 0.0, 0.0, 0.0, 0.0, 0.0, 0.0, 0.0, 0.0, 0.0];
    assert Odds(HB_FLOAT_CENTRE) == [0.5, 0.0];
    assert Odds(HB_FLOAT_OTHER_HALF) == [0.0, 0.0, 0.0, 0.0, 0.0, 0.0, 0.0, 0.0, 0.0, 0.0];
    EvensAppend(HB_FLOAT_HALF, HB_FLOAT_CENTRE);
    EvensAppend(HB_FLOAT_HALF + HB_FLOAT_CENTRE, HB_FLOAT_OTHER_HALF);
  }

  /** A call on whole chunks, from a fresh stock converter: I and Q are the two parts of the half-band
      filter of the shifted DC-free signal at every other time, exactly. */
  lemma ConverterIsHalfBand(xs: seq<real>, t: nat)
    requires |xs| % 4 == 0
    ensures |HB_KERNEL_FLOAT| == 47 && |Evens(HB_KERNEL_FLOAT)| == 24
    ensures FreshState(HB_KERNEL_FLOAT) == State(0.0, Zeros(23), Zeros(12))
    ensures var ys, out := DcOut(0.0, xs), ProcessOut(Evens(HB_KERNEL_FLOAT), 0.5, FreshState(HB_KERNEL_FLOAT), xs);
            && (2 * t < |xs| ==> out[2 * t] == Convolution(HB_KERNEL_FLOAT, Real(ys), 2 * t, 47))
            && (2 * t + 1 < |xs| ==> out[2 * t + 1] == Convolution(HB_KERNEL_FLOAT, Imaginary(ys), 2 * t, 47))
  {
    hide DcOut, ProcessOut, Convolution, Real, Imaginary;
    TableIsHalfBand();
    StockKernelIsSymmetric();
    hide Evens, Palindromic, HalfBandTable, FormsAgree;
    if 2 * t < |xs| {
      RealOutput(HB_KERNEL_FLOAT, Evens(HB_KERNEL_FLOAT), 0.5, xs, t);
    }
    if 2 * t + 1 < |xs| {
      ImaginaryOutput(HB_KERNEL_FLOAT, Evens(HB_KERNEL_FLOAT), 0.5, xs, t);
    }
  }

  // ---------- one table, twice ----------

  /** `i` is the nearest 16-bit value to `f` in steps of 1/32768. */
  predicate Rounds(f: real, i: int) {
    -0.5 <= f * 32768.0 - i as real <= 0.5
  }

  lemma HalfRounds(j: nat)
    requires j < 11
    ensures Rounds(HALF[j], FirProperties.STOCK_TAPS[j])
  {
    var r0, r1 := FirProperties.TAPS_ROW0, FirProperties.TAPS_ROW1;
    assert j < 8 ==> FirProperties.STOCK_TAPS[j] == r0[j];
    assert j >= 8 ==> FirProperties.STOCK_TAPS[j] == r1[j - 8];
  }

  lemma CentreRounds()
    ensures Rounds(CENTRE[0], 10389) && FirProperties.STOCK_TAPS[11] == 10389
  {
    assert FirProperties.STOCK_TAPS[11] == FirProperties.TAPS_ROW1[3];
  }

  lemma KeptRounds(k: seq<real>, j: nat)
    requires k == HALF + CENTRE + OTHER_HALF && |k| == 24 && Palindromic(k) && j < 24
    ensures Rounds(k[j], FirProperties.STOCK_TAPS[j])
  {
    var i := if j < 12 then j else 23 - j;
    assert k[j] == k[i];
    StockMirrored(j);
    hide Rounds;
    if i < 11 {
      HalfRounds(i);
      assert k[i] == HALF[i];
    } else {
      CentreRounds();
      assert k[i] == CENTRE[0];
    }
  }

  lemma StockMirrored(j: nat)
    requires j < 24
    ensures FirProperties.STOCK_TAPS[j] == FirProperties.STOCK_TAPS[23 - j]
  {
  }

  /** Every tap of the fixed-point table is the float tap in steps of 2^-15, rounded to nearest. */
  lemma TablesAgree(i: nat)
    requires i < 47
    ensures |HB_KERNEL_FLOAT| == |HB_KERNEL_INT16| == 47
    ensures Rounds(HB_KERNEL_FLOAT[i], HB_KERNEL_INT16[i])
  {
    var f, h := HB_KERNEL_FLOAT, HB_KERNEL_INT16;
    TableIsHalfBand();
    HalfBand.TableIsHalfBand();
    StockKernelIsSymmetric();
    var k := Evens(HB_KERNEL_FLOAT);
    hide Evens, Palindromic, FormsAgree, HalfBandTable, HalfBand.HalfBandTable, Rounds;
    TableLengths();
    TableAt(f, k, 0.5, i);
    HalfBand.TableAt(h, FirProperties.STOCK_TAPS, i);
    if i % 2 == 0 {
      KeptRounds(k, i / 2);
    } else {
      LeftOutRounds();
    }
  }

  lemma TableLengths()
    ensures |HB_KERNEL_FLOAT| == |HB_KERNEL_INT16| == 47
  {
  }

  lemma LeftOutRounds()
    ensures Rounds(0.0, 0) && Rounds(0.5, 16384)
  {
  }
}
