/** The sliding-queue FIR is convolution, its accumulator never overflows with the stock
    kernel, and its output cast is lossless exactly up to amplitude 27889. */
module FirProperties {
  import opened MachineInts
  import opened Interleaving
  import opened SampleHistory
  import opened IqInt16Spec
  import opened IqConverterInt16
  import opened Filters

  // ---------- convolution ----------

  /** Sample `i` of a signal that is zero before its start. */
  function At(xs: seq<int>, i: int): int {
    if 0 <= i < |xs| then xs[i] else 0
  }

  /** The first `n` terms of the convolution of `kernel` with `xs` at time `t`. */
  function Convolution(kernel: seq<int>, xs: seq<int>, t: nat, n: nat): int
    requires n <= |kernel|
  {
    if n == 0 then 0 else Convolution(kernel, xs, t, n - 1) + kernel[n - 1] * At(xs, t - (n - 1))
  }

  lemma {:induction false} WindowIsPast(n: nat, hist: seq<int>, kernel: seq<int>, xs: seq<int>, t: nat)
    requires n <= |kernel| == |hist| + 1 && t < |xs|
    requires forall j | 0 <= j < |hist| :: hist[j] == 0
    ensures Dot(kernel, [xs[t]] + HistAfter(hist, xs[..t]), n) == Convolution(kernel, xs, t, n)
  {
    hide HistAfter;
    if n > 0 {
      WindowIsPast(n - 1, hist, kernel, xs, t);
      if n > 1 {
        HistoryIsReversedPast(hist, xs[..t], n - 2);
      }
    }
  }

  lemma {:induction false} FirOutAt(kernel: seq<int>, hist: seq<int>, xs: seq<int>, t: nat)
    requires |kernel| <= |hist| + 1 && t < |xs|
    ensures FirOut(kernel, hist, xs)[t] == FirTap(kernel, [xs[t]] + HistAfter(hist, xs[..t]))
  {
    hide FirTap, HistAfter;
    var was := xs[..|xs| - 1];
    if t < |was| {
      FirOutAt(kernel, hist, was, t);
      assert was[..t] == xs[..t];
    }
  }

  /** For every kernel and every signal, output `t` of a fresh FIR is the convolution at `t`
      (in wrapping 32-bit arithmetic), shifted down by 15 and truncated. */
  lemma FirIsConvolution(hbKernel: seq<i16>, xs: seq<i16>, t: nat)
    requires |hbKernel| >= 2 && t < |xs|
    ensures var k := KeptTaps(hbKernel);
            FirOut(k, FreshState(hbKernel).hist, xs)[t] == Wrap16(Wrap32(Convolution(k, xs, t, |k|)) / Q15)
  {
    hide Wrap16, Wrap32;
    var k, hist := KeptTaps(hbKernel), FreshState(hbKernel).hist;
    FirOutAt(k, hist, xs, t);
    WindowIsPast(|k|, hist, k, xs, t);
  }

  /** Splitting a signal into calls changes nothing: the history carries over. */
  lemma {:induction false} FirAppend(kernel: seq<int>, hist: seq<int>, a: seq<int>, b: seq<int>)
    requires |kernel| <= |hist| + 1
    ensures FirOut(kernel, hist, a + b) == FirOut(kernel, hist, a) + FirOut(kernel, HistAfter(hist, a), b)
  {
    hide FirTap, HistAfter;
    HistAppend(hist, a, b);
    if b == [] {
      assert a + b == a;
    } else {
      var m := |b| - 1;
      assert (a + b)[..|a + b| - 1] == a + b[..m];
      HistAppend(hist, a, b[..m]);
      FirAppend(kernel, hist, a, b[..m]);
    }
  }

  // ---------- the stock kernel ----------

  function Abs(x: int): nat {
    if x < 0 then -x else x
  }

  function AbsSum(kernel: seq<int>, n: nat): nat
    requires n <= |kernel|
  {
    if n == 0 then 0 else AbsSum(kernel, n - 1) + Abs(kernel[n - 1])
  }

  const TAPS_ROW0: seq<i16> := [-33, 56, -100, 166, -259, 389, -571, 829]
  const TAPS_ROW1: seq<i16> := [-1220, 1885, -3353, 10389, 10389, -3353]
  const TAPS_ROW2: seq<i16> := [1885, -1220, 829, -571, 389, -259, 166]
  const TAPS_ROW3: seq<i16> := [-100, 56, -33]

  /** The 24 taps the converter keeps of the stock kernel. */
  const STOCK_TAPS: seq<i16> := TAPS_ROW0 + TAPS_ROW1 + TAPS_ROW2 + TAPS_ROW3

  lemma StockTaps()
    ensures KeptTaps(HB_KERNEL_INT16) == STOCK_TAPS
  {
    assert Evens(HB_ROW0) == TAPS_ROW0;
    assert Evens(HB_ROW1) == TAPS_ROW1;
    assert Evens(HB_ROW2) == TAPS_ROW2;
    assert Evens(HB_ROW3) == TAPS_ROW3;
    EvensAppend(HB_ROW0, HB_ROW1);
    EvensAppend(HB_ROW0 + HB_ROW1, HB_ROW2);
    EvensAppend(HB_ROW0 + HB_ROW1 + HB_ROW2, HB_ROW3);
  }

  lemma {:induction false} AbsSumAppend(a: seq<int>, b: seq<int>, n: nat)
    requires n <= |b|
    ensures AbsSum(a + b, |a| + n) == AbsSum(a, |a|) + AbsSum(b, n)
  {
    if n > 0 {
      AbsSumAppend(a, b, n - 1);
    } else {
      AbsSumPrefix(a, b, |a|);
    }
  }

  lemma {:induction false} AbsSumPrefix(a: seq<int>, b: seq<int>, n: nat)
    requires n <= |a|
    ensures AbsSum(a + b, n) == AbsSum(a, n)
  {
    if n > 0 {
      AbsSumPrefix(a, b, n - 1);
    }
  }

  lemma StockTapsSum()
    ensures AbsSum(STOCK_TAPS, 24) == 38500
  {
    assert AbsSum(TAPS_ROW0, 4) == 355;
    assert AbsSum(TAPS_ROW0, 8) == 2403;
    assert AbsSum(TAPS_ROW1, 3) == 6458;
    assert AbsSum(TAPS_ROW1, 6) == 30589;
    assert AbsSum(TAPS_ROW2, 4) == 4505;
    assert AbsSum(TAPS_ROW2, 7) == 5319;
    assert AbsSum(TAPS_ROW3, 3) == 189;
    AbsSumAppend(TAPS_ROW0, TAPS_ROW1, 6);
    AbsSumAppend(TAPS_ROW0 + TAPS_ROW1, TAPS_ROW2, 7);
    AbsSumAppend(TAPS_ROW0 + TAPS_ROW1 + TAPS_ROW2, TAPS_ROW3, 3);
  }

  predicate Bounded(xs: seq<int>, s: int) {
    forall i | 0 <= i < |xs| :: -s <= xs[i] <= s
  }

  lemma ProductBound(a: int, b: int, s: int)
    requires -s <= b <= s
    ensures -(Abs(a) * s) <= a * b <= Abs(a) * s
  {
    if a >= 0 {
      assert a * b <= a * s && a * -s <= a * b;
    } else {
      assert -a * b <= -a * s && -a * -s <= -a * b;
    }
  }

  lemma {:induction false} DotBound(kernel: seq<int>, window: seq<int>, n: nat, s: int)
    requires n <= |kernel| && n <= |window| && Bounded(window, s)
    ensures -(AbsSum(kernel, n) * s) <= Dot(kernel, window, n) <= AbsSum(kernel, n) * s
  {
    if n > 0 {
      DotBound(kernel, window, n - 1, s);
      ProductBound(kernel[n - 1], window[n - 1], s);
      assert AbsSum(kernel, n) * s == AbsSum(kernel, n - 1) * s + Abs(kernel[n - 1]) * s;
    }
  }

  lemma {:induction false} AbsSumMonotone(kernel: seq<int>, n: nat, m: nat)
    requires n <= m <= |kernel|
    ensures AbsSum(kernel, n) <= AbsSum(kernel, m)
  {
    if n < m {
      AbsSumMonotone(kernel, n, m - 1);
    }
  }

  /** Every partial sum of the accumulator fits 32 bits, for every window of 16-bit samples. */
  lemma AccumulatorNeverWraps(window: seq<i16>, n: nat)
    requires |window| == 24 && n <= 24
    ensures Wrap32(Dot(STOCK_TAPS, window, n)) == Dot(STOCK_TAPS, window, n)
  {
    hide Wrap32, AbsSum, Dot;
    StockTapsSum();
    assert Bounded(window, 32768);
    DotBound(STOCK_TAPS, window, n, 32768);
    AbsSumMonotone(STOCK_TAPS, n, 24);
    Wrap32Fits(Dot(STOCK_TAPS, window, n));
  }

  // ---------- exactly when the output cast is lossless ----------

  /** No FIR output of the stock kernel is truncated while the samples stay within `s`. */
  ghost predicate CastLosslessUpTo(s: int) {
    forall window: seq<i16> | |window| == 24 && Bounded(window, s) ::
      FirTap(STOCK_TAPS, window) == Dot(STOCK_TAPS, window, 24) / Q15
  }

  lemma FirTapExact(window: seq<i16>)
    requires |window| == 24 && Bounded(window, 27889)
    ensures FirTap(STOCK_TAPS, window) == Dot(STOCK_TAPS, window, 24) / Q15
    ensures Turns16(Dot(STOCK_TAPS, window, 24) / Q15) == 0
  {
    hide Wrap16, Wrap32, AbsSum, Dot;
    StockTapsSum();
    DotBound(STOCK_TAPS, window, 24, 27889);
    AccumulatorNeverWraps(window, 24);
    Wrap16Fits(Dot(STOCK_TAPS, window, 24) / Q15);
  }

  /** The window to every tap of which the kernel gives the same sign. */
  function WorstWindow(kernel: seq<int>, s: i16): (r: seq<i16>)
    requires 0 <= s
    ensures |r| == |kernel| && Bounded(r, s)
  {
    seq(|kernel|, j requires 0 <= j < |kernel| => if kernel[j] < 0 then -s else s)
  }

  lemma SameSign(k: int, s: int)
    ensures k * (if k < 0 then -s else s) == Abs(k) * s
  {
  }

  lemma {:induction false} WorstWindowDot(kernel: seq<int>, s: i16, n: nat)
    requires 0 <= s && n <= |kernel|
    ensures Dot(kernel, WorstWindow(kernel, s), n) == AbsSum(kernel, n) * s
  {
    hide Abs;
    if n > 0 {
      WorstWindowDot(kernel, s, n - 1);
      SameSign(kernel[n - 1], s);
      assert AbsSum(kernel, n) * s == AbsSum(kernel, n - 1) * s + Abs(kernel[n - 1]) * s;
    }
  }

  lemma CastLosslessIff(s: int)
    requires 0 <= s <= 32767
    ensures CastLosslessUpTo(s) <==> s <= 27889
  {
    hide Wrap16, Wrap32, AbsSum, Dot;
    if s <= 27889 {
      forall window: seq<i16> | |window| == 24 && Bounded(window, s)
        ensures FirTap(STOCK_TAPS, window) == Dot(STOCK_TAPS, window, 24) / Q15
      {
        assert Bounded(window, 27889);
        FirTapExact(window);
      }
    } else {
      StockTapsSum();
      WorstWindowDot(STOCK_TAPS, s, 24);
      assert Dot(STOCK_TAPS, WorstWindow(STOCK_TAPS, s), 24) / Q15 > 32767;
    }
  }
}
