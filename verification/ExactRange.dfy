/** Exactly when the converter is the filter over unbounded integers. Run from its start in calls
    that end on phase boundaries, as the stream runs it, its casts lose nothing on a range of
    inputs around zero if and only if the range spans at most 32767: the fs/4 signs make the FIR
    add up differences of nearby blocker outputs, so its cast is never the first to fail. */
module ExactRange {
  import opened MachineInts
  import opened Interleaving
  import opened SampleHistory
  import opened IqInt16Spec
  import opened IqConverterInt16
  import opened DcProperties
  import opened FirProperties
  import opened ConverterProperties
  import opened ExactFilter

  // ---------- the tracked level is slow ----------

  /** The DC level the blocker tracks. */
  function Level(s: DcState): int {
    s.x - s.y
  }

  const MAX_DRIFT := 669

  lemma StepDrift(s: DcState, x: i16, lo: int, hi: int)
    requires InHull(s, lo, hi) && lo <= x <= hi && hi - lo <= 32767
    ensures -MAX_DRIFT <= Level(DcStep(s, x)) - Level(s) <= MAX_DRIFT
  {
    hide DcStep;
    HullStep(s, x, lo, hi);
    ErrorFeedbackLosesNothing(s, x);
  }

  lemma {:induction false} Drift(s: DcState, xs: seq<i16>, lo: int, hi: int)
    requires InHull(s, lo, hi) && Within(xs, lo, hi) && hi - lo <= 32767
    ensures InHull(DcAfter(s, xs), lo, hi)
    ensures -MAX_DRIFT * |xs| <= Level(DcAfter(s, xs)) - Level(s) <= MAX_DRIFT * |xs|
  {
    hide DcStep, Level;
    if xs != [] {
      var n := |xs| - 1;
      Drift(s, xs[..n], lo, hi);
      HullStep(DcAfter(s, xs[..n]), xs[n], lo, hi);
      StepDrift(DcAfter(s, xs[..n]), xs[n], lo, hi);
    }
  }

  lemma {:induction false} DcOutAt(s: DcState, xs: seq<i16>, i: nat)
    requires i < |xs|
    ensures DcOut(s, xs)[i] == DcAfter(s, xs[..i + 1]).y
    ensures DcAfter(s, xs[..i + 1]).x == xs[i]
  {
    hide DcStep;
    var n := |xs| - 1;
    DcSnoc(s, xs, i);
    assert DcStep(DcAfter(s, xs[..i]), xs[i]).x == xs[i] by { StepRemembers(DcAfter(s, xs[..i]), xs[i]); }
    if i < n {
      DcOutAt(s, xs[..n], i);
      assert xs[..n][..i + 1] == xs[..i + 1];
    } else {
      assert xs[..i + 1] == xs;
    }
  }

  lemma StepRemembers(s: DcState, x: i16)
    ensures DcStep(s, x).x == x
  {
  }

  /** Two outputs differ by little more than the inputs can: the level hardly moved in between. */
  lemma OutputsDiffer(xs: seq<i16>, i: nat, j: nat, lo: int, hi: int)
    requires i <= j < |xs| && lo <= 0 <= hi && Within(xs, lo, hi) && hi - lo <= 32767
    ensures var ys := DcOut(DC_FRESH, xs);
            -(hi - lo) - MAX_DRIFT * (j - i) <= ys[j] - ys[i] <= hi - lo + MAX_DRIFT * (j - i)
  {
    hide DcOut, DcAfter;
    DcOutAt(DC_FRESH, xs, i);
    DcOutAt(DC_FRESH, xs, j);
    HullRun(DC_FRESH, xs[..i + 1], lo, hi);
    assert xs[..j + 1] == xs[..i + 1] + xs[i + 1..j + 1];
    RunAppend(DC_FRESH, xs[..i + 1], xs[i + 1..j + 1]);
    Drift(DcAfter(DC_FRESH, xs[..i + 1]), xs[i + 1..j + 1], lo, hi);
  }

  // ---------- so the FIR's windows are small in pairs ----------

  /** The I samples of one call from a fresh converter. */
  function Fed(xs: seq<i16>): (r: seq<int>)
    ensures |r| == (|xs| + 1) / 2
  {
    Evens<int>(Phased(DcOut(DC_FRESH, xs)))
  }

  lemma PhaseOfEven(m: nat, v: i16)
    requires v > -32768
    ensures Phase(2 * m, v) == if m % 2 == 0 then -(v as int) else v
  {
    hide Wrap16;
    assert 2 * m % 4 == 2 * (m % 2);
    Wrap16Fits(-(v as int));
  }

  /** The I sample at `m` of a phase-shifted buffer. */
  lemma EvenPhased(ys: seq<i16>, m: nat)
    requires 2 * m < |ys| && ys[2 * m] > -32768
    ensures Evens<int>(Phased(ys))[m] == if m % 2 == 0 then -(ys[2 * m] as int) else ys[2 * m]
  {
    hide Phase;
    PhaseOfEven(m, ys[2 * m]);
  }

  lemma FedIs(xs: seq<i16>, m: nat)
    requires 2 * m < |xs| && DcOut(DC_FRESH, xs)[2 * m] > -32768
    ensures var y := DcOut(DC_FRESH, xs)[2 * m]; Fed(xs)[m] == if m % 2 == 0 then -(y as int) else y
  {
    hide DcOut;
    EvenPhased(DcOut(DC_FRESH, xs), m);
  }

  lemma FedAt(xs: seq<i16>, m: nat, lo: int, hi: int)
    requires 2 * m < |xs| && lo <= 0 <= hi && Within(xs, lo, hi) && hi - lo <= 32767
    ensures var y := DcOut(DC_FRESH, xs)[2 * m];
            Fed(xs)[m] == (if m % 2 == 0 then -(y as int) else y) && -(hi - lo) <= y <= hi - lo
  {
    hide DcOut, DcAfter, DcStep, NetTurns, InHull, Fed;
    FreshInHull(lo, hi);
    HullRun(DC_FRESH, xs, lo, hi);
    FedIs(xs, m);
  }

  lemma FreshInHull(lo: int, hi: int)
    requires lo <= 0 <= hi
    ensures InHull(DC_FRESH, lo, hi)
  {
  }

  /** Slot `j` of the window at time `t` is the sample `j` back, zero before the start. */
  lemma WindowAt(e: seq<int>, t: nat, j: nat)
    requires t < |e| && j < 24
    ensures Window(Zeros(23), e, t)[j] == At(e, t - j)
  {
    hide HistAfter;
    if j > 0 {
      HistoryIsReversedPast<int>(Zeros(23), e[..t], j - 1);
    }
  }

  /** Taps `j` and `23 - j` weigh the same and see samples of opposite phase. */
  lemma PairBound(xs: seq<i16>, t: nat, j: nat, lo: int, hi: int)
    requires t < |Fed(xs)| && j < 12
    requires lo <= 0 <= hi && Within(xs, lo, hi) && hi - lo <= 32767
    ensures -PairLimit(j) <= At(Fed(xs), t - j) + At(Fed(xs), t - (23 - j)) <= PairLimit(j)
  {
    hide Fed, DcOut, Within;
    var a, b := t - (23 - j), t - j;
    if b >= 0 {
      FedAt(xs, b, lo, hi);
      if a >= 0 {
        FedAt(xs, a, lo, hi);
        OutputsDiffer(xs, 2 * a, 2 * b, lo, hi);
        OppositeParity(a, 11 - j);
        assert b == a + 2 * (11 - j) + 1;
      }
    }
  }

  lemma OppositeParity(a: nat, d: nat)
    ensures a % 2 == 0 <==> (a + 2 * d + 1) % 2 != 0
  {
  }

  function PairLimit(j: nat): int {
    32767 + 2 * MAX_DRIFT * (23 - 2 * j)
  }

  function PairDot(w: seq<int>, n: nat): int
    requires |w| == 24 && n <= 12
  {
    if n == 0 then 0 else PairDot(w, n - 1) + STOCK_TAPS[n - 1] * (w[n - 1] + w[24 - n])
  }

  lemma {:induction false} DotInPairs(w: seq<int>, n: nat)
    requires |w| == 24 && n <= 12
    ensures Dot(STOCK_TAPS, w, 12 + n) - Dot(STOCK_TAPS, w, 12 - n) == PairDot(w, 12) - PairDot(w, 12 - n)
  {
    if n > 0 {
      DotInPairs(w, n - 1);
      assert STOCK_TAPS[12 - n] == STOCK_TAPS[11 + n];
      var k, a, b := STOCK_TAPS[12 - n], w[12 - n], w[11 + n];
      assert k * (a + b) == k * a + k * b;
    }
  }

  lemma DotIsPairDot(w: seq<int>)
    requires |w| == 24
    ensures Dot(STOCK_TAPS, w, 24) == PairDot(w, 12)
  {
    DotInPairs(w, 12);
  }

  function PairSum(n: nat): int
    requires n <= 12
  {
    if n == 0 then 0 else PairSum(n - 1) + Abs(STOCK_TAPS[n - 1]) * PairLimit(n - 1)
  }

  lemma {:induction false} PairDotBound(w: seq<int>, n: nat)
    requires |w| == 24 && n <= 12
    requires forall j | 0 <= j < 12 :: -PairLimit(j) <= w[j] + w[23 - j] <= PairLimit(j)
    ensures -PairSum(n) <= PairDot(w, n) <= PairSum(n)
  {
    hide PairLimit, Abs;
    if n > 0 {
      PairDotBound(w, n - 1);
      assert -PairLimit(n - 1) <= w[n - 1] + w[23 - (n - 1)] <= PairLimit(n - 1);
      ProductBound(STOCK_TAPS[n - 1], w[n - 1] + w[24 - n], PairLimit(n - 1));
    }
  }

  lemma PairSumFits()
    ensures PairSum(12) <= 0x3FFF_0000
  {
    assert PairSum(4) == 33 * PairLimit(0) + 56 * PairLimit(1) + 100 * PairLimit(2) + 166 * PairLimit(3);
    assert PairSum(8) == PairSum(4) + 259 * PairLimit(4) + 389 * PairLimit(5) + 571 * PairLimit(6) + 829 * PairLimit(7);
    assert PairSum(12) == PairSum(8) + 1220 * PairLimit(8) + 1885 * PairLimit(9) + 3353 * PairLimit(10) + 10389 * PairLimit(11);
  }

  lemma PairedWindowExact(w: seq<i16>)
    requires |w| == 24
    requires forall j | 0 <= j < 12 :: -PairLimit(j) <= w[j] + w[23 - j] <= PairLimit(j)
    ensures FirTap(STOCK_TAPS, w) == Dot(STOCK_TAPS, w, 24) / Q15
  {
    hide Wrap16, Wrap32, Dot, PairDot, PairSum, PairLimit;
    DotIsPairDot(w);
    PairDotBound(w, 12);
    PairSumFits();
    AccumulatorNeverWraps(w, 24);
    Wrap16Fits(Dot(STOCK_TAPS, w, 24) / Q15);
  }

  // ---------- exactly when ----------

  /** One call from a fresh stock converter is the exact filter on every input within `lo..hi`. */
  ghost predicate ExactOnCalls(lo: int, hi: int) {
    forall xs: seq<i16> | Within(xs, lo, hi) ::
      ProcessOut(STOCK_TAPS, SILENT, xs) == Output(STOCK_TAPS, Lift(SILENT), xs)
  }

  lemma CallWindowExact(xs: seq<i16>, t: nat, lo: int, hi: int)
    requires lo <= 0 <= hi && Within(xs, lo, hi) && hi - lo <= 32767 && t < |Fed(xs)|
    requires Bounded(Fed(xs), hi - lo)
    ensures FirTap(STOCK_TAPS, Window(Zeros(23), Fed(xs), t)) == Dot(STOCK_TAPS, Window(Zeros(23), Fed(xs), t), 24) / Q15
  {
    hide Fed, FirTap, Dot, HistAfter, PairLimit;
    HistoryStaysBounded(Zeros(23), Fed(xs)[..t], hi - lo);
    var w := Window(Zeros(23), Fed(xs), t);
    forall j | 0 <= j < 12
      ensures -PairLimit(j) <= w[j] + w[23 - j] <= PairLimit(j)
    {
      WindowAt(Fed(xs), t, j);
      WindowAt(Fed(xs), t, 23 - j);
      PairBound(xs, t, j, lo, hi);
    }
    PairedWindowExact(w);
  }

  lemma FreshCallIsExact(xs: seq<i16>, lo: int, hi: int)
    requires lo <= 0 <= hi && Within(xs, lo, hi) && hi - lo <= 32767
    ensures ProcessOut(STOCK_TAPS, SILENT, xs) == Output(STOCK_TAPS, Lift(SILENT), xs)
  {
    hide DcOut, Levelled, Phased, Rotated, FirOut, FirTap, Dot, Filtered, Evens, Odds, ProcessOut, ProcessState, Output, Next;
    StateIsExact(SILENT, xs, lo, hi);
    forall t | 0 <= t < |Fed(xs)|
      ensures FirTap(STOCK_TAPS, Window(Zeros(23), Fed(xs), t)) == Dot(STOCK_TAPS, Window(Zeros(23), Fed(xs), t), 24) / Q15
    {
      CallWindowExact(xs, t, lo, hi);
    }
    FilterIsExact(Zeros(23), Fed(xs));
    OutputIsExact(SILENT, xs, Phased(DcOut(DC_FRESH, xs)));
  }

  // ---------- and only when ----------

  lemma {:induction false} DotHead(a: int, b: int, h: seq<int>, n: nat)
    requires 1 <= n <= 24 && |h| == 23
    ensures Dot(STOCK_TAPS, [a] + h, n) - Dot(STOCK_TAPS, [b] + h, n) == -33 * (a - b)
  {
    if n > 1 {
      DotHead(a, b, h, n - 1);
    }
  }

  /** A newest sample that has been wrapped is felt by the FIR, wherever its own cast ends up. */
  lemma WrappedSampleIsFelt(v: i16, h: seq<int>)
    requires |h| == 23 && Bounded(h, 32767)
    ensures FirTap(STOCK_TAPS, [v as int] + h) != Dot(STOCK_TAPS, [v + 0x1_0000] + h, 24) / Q15
  {
    hide Wrap16, Wrap32, Dot;
    var w: seq<i16> := [v as int] + h;
    AccumulatorNeverWraps(w, 24);
    DotHead(v, v + 0x1_0000, h, 24);
    NotOff66(Dot(STOCK_TAPS, w, 24) / Q15);
  }

  lemma NotOff66(v: int)
    ensures Wrap16(v) != v - 66
  {
    hide Turns16;
  }

  /** The last I output of a buffer that ends on one. */
  lemma LastTap(line: seq<i16>, p: seq<i16>, v: i16)
    requires |p| % 2 == 0
    ensures TranslateOut(STOCK_TAPS, Zeros(23), line, p + [v])[|p|]
         == FirTap(STOCK_TAPS, [v as int] + HistAfter<int>(Zeros(23), Evens<int>(p)))
  {
    hide FirTap, HistAfter, FirOut;
    SameTypedBranches(p + [v], line);
    EvensSnoc<int>(p, v);
    var e := Evens<int>(p);
    FirOutAt(STOCK_TAPS, Zeros(23), e + [v as int], |p| / 2);
    assert (e + [v as int])[..|p| / 2] == e;
  }

  lemma EvensSnoc<T>(p: seq<T>, v: T)
    requires |p| % 2 == 0
    ensures Evens(p + [v]) == Evens(p) + [v]
  {
  }

  lemma LastFiltered(hist: seq<int>, e: seq<int>, v: int)
    requires |hist| == 23
    ensures Filtered(STOCK_TAPS, hist, e + [v])[|e|] == Dot(STOCK_TAPS, [v] + HistAfter(hist, e), 24) / Q15
  {
    hide Dot;
    assert (e + [v])[..|e|] == e;
  }

  function Turned(i: nat, y: int): int {
    if i % 4 == 0 then -y else y
  }

  lemma RotatedSnoc(ys: seq<int>, y: int)
    requires |ys| % 2 == 0
    ensures Rotated(ys + [y]) == Rotated(ys) + [Turned(|ys|, y)]
  {
    assert |ys| % 4 == 0 || |ys| % 4 == 2;
  }

  lemma PhasedSnoc(ys: seq<i16>, y: i16)
    ensures Phased(ys + [y]) == Phased(ys) + [Phase(|ys|, y)]
  {
    hide Phase;
  }

  lemma LevelledSnoc(s: DcLevel, xs: seq<int>, x: int)
    ensures LevelAfter(s, xs + [x]) == LevelStep(LevelAfter(s, xs), x)
    ensures Levelled(s, xs + [x]) == Levelled(s, xs) + [LevelAfter(s, xs + [x]).y]
  {
    hide LevelStep;
    assert (xs + [x])[..|xs|] == xs;
  }

  /** What `xs` leaves in the exact filter's history, and the sample the next input adds to it. */
  lemma LastOutput(xs: seq<int>, x: int, h: seq<int>, v: int)
    requires |xs| % 2 == 0
    requires h == HistAfter<int>(Zeros(23), Evens<int>(Rotated(Levelled(Lift(SILENT).dc, xs))))
    requires v == Turned(|xs|, LevelAfter(Lift(SILENT).dc, xs + [x]).y)
    ensures Output(STOCK_TAPS, Lift(SILENT), xs + [x])[|xs|] == Dot(STOCK_TAPS, [v] + h, 24) / Q15
  {
    hide Dot, HistAfter, LevelAfter, Levelled, Rotated, Filtered, DelayOut, Turned;
    var ys, y := Levelled(Lift(SILENT).dc, xs), LevelAfter(Lift(SILENT).dc, xs + [x]).y;
    LevelledSnoc(Lift(SILENT).dc, xs, x);
    RotatedSnoc(ys, y);
    EvensSnoc(Rotated(ys), v);
    LastFiltered(Zeros(23), Evens(Rotated(ys)), v);
  }

  lemma LastProcessed(xs: seq<i16>, p: seq<i16>, v: i16)
    requires Phased(DcOut(DC_FRESH, xs)) == p + [v] && |p| % 2 == 0
    ensures |p| < |xs|
    ensures ProcessOut(STOCK_TAPS, SILENT, xs)[|p|]
         == FirTap(STOCK_TAPS, [v as int] + HistAfter<int>(Zeros(23), Evens<int>(p)))
  {
    hide FirTap, HistAfter, DcOut, TranslateOut, Phased, Evens;
    LastTap(Zeros(12), p, v);
  }

  lemma DcOutSnoc(s: DcState, xs: seq<i16>, x: i16)
    ensures DcAfter(s, xs + [x]) == DcStep(DcAfter(s, xs), x)
    ensures DcOut(s, xs + [x]) == DcOut(s, xs) + [DcAfter(s, xs + [x]).y]
  {
    hide DcStep;
    assert (xs + [x])[..|xs|] == xs;
  }

  /** As long as nothing has been lost, the next exact blocker output is the unwrapped one. */
  lemma ExactSoFar(xs: seq<i16>, x: i16, lo: int, hi: int)
    requires lo <= 0 <= hi && hi - lo <= 32767 && Within(xs, lo, hi)
    ensures LevelAfter(Lift(SILENT).dc, xs + [x]).y == Unwrapped(DcAfter(DC_FRESH, xs), x)
  {
    hide DcAfter, DcOut, LevelAfter, Levelled;
    LevelIsExact(DC_FRESH, xs, lo, hi);
    LevelledSnoc(Lift(SILENT).dc, xs, x);
  }

  lemma HistoryIsExact(xs: seq<i16>, lo: int, hi: int)
    requires lo <= 0 <= hi && hi - lo <= 32767 && Within(xs, lo, hi)
    ensures Phased(DcOut(DC_FRESH, xs)) == Rotated(Levelled(Lift(SILENT).dc, xs))
    ensures Bounded(HistAfter<int>(Zeros(23), Evens<int>(Phased(DcOut(DC_FRESH, xs)))), 32767)
  {
    hide HistAfter, DcOut, Levelled, Phased, Rotated, Evens, ProcessState, Next;
    StateIsExact(SILENT, xs, lo, hi);
    HistoryStaysBounded(Zeros(23), Evens<int>(Phased(DcOut(DC_FRESH, xs))), hi - lo);
  }

  /** Inputs whose last one is the first to lose anything break the converter at that sample. */
  lemma LastInputBreaks(xs: seq<i16>, x: i16, lo: int, hi: int)
    requires |xs| % 2 == 0 && lo <= 0 <= hi && hi - lo <= 32767 && Within(xs, lo, hi)
    requires Phase(|xs|, DcAfter(DC_FRESH, xs + [x]).y) + 0x1_0000
          == Turned(|xs|, Unwrapped(DcAfter(DC_FRESH, xs), x))
    ensures ProcessOut(STOCK_TAPS, SILENT, xs + [x])[|xs|] != Output(STOCK_TAPS, Lift(SILENT), xs + [x])[|xs|]
  {
    hide FirTap, Dot, HistAfter, DcAfter, DcOut, LevelAfter, Levelled, Phased, Phase, Rotated, Turned, Evens,
         ProcessOut, Output, Unwrapped, Bounded, Within;
    HistoryIsExact(xs, lo, hi);
    ExactSoFar(xs, x, lo, hi);
    var h := HistAfter<int>(Zeros(23), Evens<int>(Phased(DcOut(DC_FRESH, xs))));
    var v := Phase(|xs|, DcAfter(DC_FRESH, xs + [x]).y);
    DcOutSnoc(DC_FRESH, xs, x);
    PhasedSnoc(DcOut(DC_FRESH, xs), DcAfter(DC_FRESH, xs + [x]).y);
    LastProcessed(xs + [x], Phased(DcOut(DC_FRESH, xs)), v);
    LastOutput(xs, x, h, (v as int) + 0x1_0000);
    WrappedSampleIsFelt(v, h);
  }

  lemma JumpWraps(xs: seq<i16>, lo: i16, hi: i16)
    requires lo <= 0 <= hi && hi - lo > 32767 && |xs| % 4 == 2
    requires Unwrapped(DcAfter(DC_FRESH, xs), hi) == hi - lo && 0 <= DcAfter(DC_FRESH, xs).e < Q15
    ensures Phase(|xs|, DcAfter(DC_FRESH, xs + [hi]).y) + 0x1_0000 == hi - lo
  {
    hide DcStep, DcAfter, DcOut, Unwrapped, Wrap16;
    DcOutSnoc(DC_FRESH, xs, hi);
    ErrorFeedbackLosesNothing(DcAfter(DC_FRESH, xs), hi);
    Wrap16Unique(hi - lo, hi - lo - 0x1_0000, 1);
  }

  lemma LowestWraps()
    ensures DcAfter(DC_FRESH, []) == DC_FRESH && Phase(0, DcAfter(DC_FRESH, [] + [-32768]).y) == -32768
  {
    hide DcStep, Wrap16;
    DcOutSnoc(DC_FRESH, [], -32768);
    ErrorFeedbackLosesNothing(DC_FRESH, -32768);
    Wrap16Fits(-32768);
    Wrap16Unique(32768, -32768, 1);
  }

  lemma LowestBreaks()
    ensures ProcessOut(STOCK_TAPS, SILENT, [-32768]) != Output(STOCK_TAPS, Lift(SILENT), [-32768])
  {
    hide DcStep, DcAfter, Phase, ProcessOut, Output;
    LowestWraps();
    LastInputBreaks([], -32768, 0, 0);
    assert [] + [-32768] == [-32768];
  }

  lemma JumpBreaks(xs: seq<i16>, lo: i16, hi: i16)
    requires -32768 < lo <= 0 <= hi && hi - lo > 32767 && |xs| % 4 == 2 && Within(xs, lo, lo)
    requires Unwrapped(DcAfter(DC_FRESH, xs), hi) == hi - lo && 0 <= DcAfter(DC_FRESH, xs).e < Q15
    ensures ProcessOut(STOCK_TAPS, SILENT, xs + [hi]) != Output(STOCK_TAPS, Lift(SILENT), xs + [hi])
  {
    hide DcStep, DcAfter, Phase, ProcessOut, Output, Unwrapped;
    JumpWraps(xs, lo, hi);
    LastInputBreaks(xs, hi, lo, 0);
  }

  /** Beyond a span of 32767 some input breaks a fresh converter: settle on the lowest, then jump to
      the highest. The very lowest input breaks it at once, as its negation does not fit. */
  lemma BreakingInput(lo: i16, hi: i16) returns (xs: seq<i16>)
    requires lo <= 0 <= hi && hi - lo > 32767
    ensures Within(xs, lo, hi)
    ensures ProcessOut(STOCK_TAPS, SILENT, xs) != Output(STOCK_TAPS, Lift(SILENT), xs)
  {
    hide DcStep, DcAfter, Unwrapped, ProcessOut, Output;
    if lo == -32768 {
      LowestBreaks();
      xs := [-32768];
    } else {
      var was := WrappingRun(lo, hi);
      JumpBreaks(was, lo, hi);
      xs := was + [hi];
    }
  }

  /** A single call from a fresh stock converter is the exact filter on a range of inputs around 0
      if and only if the range spans at most 32767. */
  lemma CallExactIff(lo: i16, hi: i16)
    requires lo <= 0 <= hi
    ensures ExactOnCalls(lo, hi) <==> hi - lo <= 32767
  {
    hide ProcessOut, Output;
    if hi - lo <= 32767 {
      forall xs: seq<i16> | Within(xs, lo, hi)
        ensures ProcessOut(STOCK_TAPS, SILENT, xs) == Output(STOCK_TAPS, Lift(SILENT), xs)
      {
        FreshCallIsExact(xs, lo, hi);
      }
    } else {
      var xs := BreakingInput(lo, hi);
      assert Within(xs, lo, hi);
    }
  }

  /** A stream of inputs within `lo..hi` in calls of whole phase cycles; the last call may be of any
      length. */
  predicate AlignedStream(blocks: seq<seq<i16>>, lo: int, hi: int) {
    && (forall i | 0 <= i < |blocks| - 1 :: |blocks[i]| % 4 == 0)
    && (forall i | 0 <= i < |blocks| :: Within(blocks[i], lo, hi))
  }

  /** Every such stream through a fresh stock converter gives what the exact filter makes of all its
      samples in one go. */
  ghost predicate ExactOnStreams(lo: int, hi: int) {
    forall blocks: seq<seq<i16>> | AlignedStream(blocks, lo, hi) ::
      RunOut(STOCK_TAPS, SILENT, blocks) == Output(STOCK_TAPS, Lift(SILENT), Concat(blocks))
  }

  lemma {:induction false} ConcatWithin(blocks: seq<seq<i16>>, lo: int, hi: int)
    requires forall i | 0 <= i < |blocks| :: Within(blocks[i], lo, hi)
    ensures Within(Concat(blocks), lo, hi)
  {
    if blocks != [] {
      ConcatWithin(blocks[..|blocks| - 1], lo, hi);
    }
  }

  lemma OneBlock(xs: seq<i16>)
    ensures RunOut(STOCK_TAPS, SILENT, [xs]) == ProcessOut(STOCK_TAPS, SILENT, xs)
    ensures Concat([xs]) == xs
  {
    hide ProcessOut, ProcessState;
    assert [xs][..0] == [];
  }

  /** The whole pipeline over whole streams, in the calls the streaming engine makes, is exact if
      and only if the inputs span at most 32767. */
  lemma StreamExactIff(lo: i16, hi: i16)
    requires lo <= 0 <= hi
    ensures ExactOnStreams(lo, hi) <==> hi - lo <= 32767
  {
    hide ProcessOut, Output, RunOut, RunState, Concat;
    if hi - lo <= 32767 {
      forall blocks: seq<seq<i16>> | AlignedStream(blocks, lo, hi)
        ensures RunOut(STOCK_TAPS, SILENT, blocks) == Output(STOCK_TAPS, Lift(SILENT), Concat(blocks))
      {
        BlocksAreOneCall(STOCK_TAPS, SILENT, blocks);
        ConcatWithin(blocks, lo, hi);
        FreshCallIsExact(Concat(blocks), lo, hi);
      }
    } else {
      var xs := BreakingInput(lo, hi);
      OneBlock(xs);
      assert AlignedStream([xs], lo, hi);
    }
  }
}
