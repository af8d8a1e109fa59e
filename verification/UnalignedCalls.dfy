/** A stream cut into calls at arbitrary places. The fs/4 phase restarts with every call, so the
    cuts choose the signs the FIR sees, and a stream that is exact in aligned calls can lose
    something in others. */
module UnalignedCalls {
  import opened MachineInts
  import opened Interleaving
  import opened SampleHistory
  import opened IqInt16Spec
  import opened IqConverterInt16
  import opened DcProperties
  import opened FirProperties
  import opened ConverterProperties
  import opened ExactFilter
  import opened ExactRange
  import opened FirOverflow
  import opened AnyCallsExact

  /** Every stream of inputs within `lo..hi`, in calls of any lengths, through a fresh stock
      converter is the exact filter over the same calls. */
  ghost predicate ExactOnAnyCalls(lo: int, hi: int) {
    forall blocks: seq<seq<i16>> | (forall i | 0 <= i < |blocks| :: Within(blocks[i], lo, hi)) ::
      RunOut(STOCK_TAPS, SILENT, blocks) == FilterRun(STOCK_TAPS, Lift(SILENT), blocks)
  }

  // ---------- the state stays exact ----------

  lemma {:induction false} StatesAreExact(blocks: seq<seq<i16>>, lo: int, hi: int)
    requires lo <= 0 <= hi && hi - lo <= 32767
    requires forall i | 0 <= i < |blocks| :: Within(blocks[i], lo, hi)
    ensures InSpan(RunState(SILENT, blocks), lo, hi)
    ensures Lift(RunState(SILENT, blocks)) == FilterStateAfter(Lift(SILENT), blocks)
  {
    hide ProcessOut, ProcessState, Output, Next;
    if blocks != [] {
      var was := blocks[..|blocks| - 1];
      StatesAreExact(was, lo, hi);
      StateIsExact(RunState(SILENT, was), blocks[|blocks| - 1], lo, hi);
    }
  }

  lemma {:induction false} RunLengths(blocks: seq<seq<i16>>)
    ensures |RunOut(STOCK_TAPS, SILENT, blocks)| == |FilterRun(STOCK_TAPS, Lift(SILENT), blocks)|
  {
    hide ProcessOut, ProcessState, Output, Next;
    if blocks != [] {
      RunLengths(blocks[..|blocks| - 1]);
    }
  }

  /** A call that differs makes the run differ. */
  lemma LastCallBreaks(was: seq<seq<i16>>, xs: seq<i16>, lo: int, hi: int)
    requires lo <= 0 <= hi && hi - lo <= 32767
    requires forall i | 0 <= i < |was| :: Within(was[i], lo, hi)
    requires var s := RunState(SILENT, was);
             |s.hist| == 23 && ProcessOut(STOCK_TAPS, s, xs) != Output(STOCK_TAPS, Lift(s), xs)
    ensures RunOut(STOCK_TAPS, SILENT, was + [xs]) != FilterRun(STOCK_TAPS, Lift(SILENT), was + [xs])
  {
    hide ProcessOut, ProcessState, Output, Next;
    StatesAreExact(was, lo, hi);
    RunLengths(was);
    assert (was + [xs])[..|was|] == was;
    var r, f := RunOut(STOCK_TAPS, SILENT, was), FilterRun(STOCK_TAPS, Lift(SILENT), was);
    var s := RunState(SILENT, was);
    var a, b := ProcessOut(STOCK_TAPS, s, xs), Output(STOCK_TAPS, Lift(s), xs);
    assert (r + a)[|r|..] == a && (f + b)[|f|..] == b;
  }

  // ---------- a burst ----------

  /** The burst works on any inputs that span this much. */
  const BURST := 31979

  /** How far at most the level is from the lowest input when tap `j` gets its sample. */
  const DRIFTS: seq<nat> := [
    8258, 7938, 7437, 7083, 6564, 6173, 5635, 5206, 4648,
    4177, 3598, 3082, 2480, 1866, 1278, 639, 0
  ]

  /** What tap `j` sees at least. */
  function Size(j: nat): int {
    if j < |DRIFTS| then BURST - DRIFTS[j] else 0
  }

  predicate Against(k: int, v: int, a: int) {
    if k < 0 then v >= a else v <= -a
  }

  /** Taps `c` to 16 of the final window are in place, each against its tap's sign; behind them all
      is quiet. */
  predicate Placed(hist: seq<int>, c: nat) {
    && c <= 17 && |hist| == 23
    && (forall j | c <= j < 17 :: Against(STOCK_TAPS[j], hist[j - c], Size(j)))
    && (forall i | 17 - c <= i < 23 :: hist[i] == 0)
  }

  /** The level is low enough for tap `c - 1`. */
  predicate Low(s: DcState, c: nat, lo: int) {
    && InHull(s, lo, lo + BURST)
    && (1 <= c <= |DRIFTS| ==> NextLevel(s) <= lo + DRIFTS[c - 1])
  }

  predicate Built(s: ConvState, c: nat, lo: int) {
    Placed(s.hist, c) && Low(s.dc, c, lo)
  }

  lemma PlaceTap(hist: seq<int>, v: int, c: nat)
    requires c >= 1 && Placed(hist, c) && Against(STOCK_TAPS[c - 1], v, Size(c - 1))
    ensures Placed([v] + hist[..22], c - 1)
  {
    hide Against, Size;
    var h := [v] + hist[..22];
    forall j | c - 1 <= j < 17
      ensures Against(STOCK_TAPS[j], h[j - (c - 1)], Size(j))
    {
      assert j >= c ==> h[j - (c - 1)] == hist[j - c];
    }
  }

  lemma OneOut(s: DcState, a: i16)
    ensures DcAfter(s, [a]) == DcStep(s, a) && DcOut(s, [a]) == [DcStep(s, a).y]
  {
    hide DcStep;
    assert [a][..0] == [];
  }

  lemma ThreeOut(s: DcState, a: i16, b: i16, c: i16)
    ensures var s1 := DcStep(s, a); var s2 := DcStep(s1, b); var s3 := DcStep(s2, c);
            DcAfter(s, [a, b, c]) == s3 && DcOut(s, [a, b, c]) == [s1.y, s2.y, s3.y]
  {
    hide DcStep;
    DcOutSnoc(s, [], a);
    DcOutSnoc(s, [a], b);
    DcOutSnoc(s, [a, b], c);
    assert [] + [a] == [a] && [a] + [b] == [a, b] && [a, b] + [c] == [a, b, c];
    assert DcAfter(s, []) == s && DcOut(s, []) == [];
  }

  lemma OnePhased(a: i16)
    requires a > -32768
    ensures Evens<int>(Phased([a])) == [-(a as int)]
  {
    hide Phase;
    PhaseOfEven(0, a);
  }

  lemma ThreePhased(a: i16, b: i16, c: i16)
    requires a > -32768 && c > -32768
    ensures Evens<int>(Phased([a, b, c])) == [-(a as int), c]
  {
    hide Phase;
    PhaseOfEven(0, a);
    PhaseOfEven(1, c);
  }

  lemma TakeCons(x: int, h: seq<int>, n: nat)
    requires n <= |h|
    ensures ([x] + h)[..n + 1] == [x] + h[..n]
  {
  }

  lemma HistAfterTwo(hist: seq<int>, a: int, b: int)
    requires |hist| == 23
    ensures HistAfter(hist, [a]) == [a] + hist[..22]
    ensures HistAfter(hist, [a, b]) == [b] + ([a] + hist[..22])[..22]
  {
    hide HistAfter;
    HistAfterOne(hist, a);
    TakeCons(a, hist, 22);
    HistAfterOne(HistAfter(hist, [a]), b);
    TakeCons(b, HistAfter(hist, [a]), 22);
    HistAppend(hist, [a], [b]);
    assert [a] + [b] == [a, b];
  }

  /** The state after a call of one sample, and of three. */
  lemma CallOfOne(s: ConvState, a: i16)
    requires |s.hist| == 23 && DcStep(s.dc, a).y > -32768
    ensures var y, z := DcStep(s.dc, a).y, ProcessState(s, [a]);
            z.dc == DcStep(s.dc, a) && z.hist == [-(y as int)] + s.hist[..22]
  {
    hide DcStep, DcAfter, DcOut, Phased, Evens, Odds, HistAfter, DelayAfter;
    var y := DcStep(s.dc, a).y;
    OneOut(s.dc, a);
    OnePhased(y);
    HistAfterTwo(s.hist, -(y as int), 0);
    SameTypedBranches(Phased([y]), s.line);
  }

  lemma CallOfThree(s: ConvState, a: i16, b: i16, c: i16)
    requires |s.hist| == 23
    requires var s1 := DcStep(s.dc, a); var s3 := DcStep(DcStep(s1, b), c); s1.y > -32768 && s3.y > -32768
    ensures var s1 := DcStep(s.dc, a); var s3 := DcStep(DcStep(s1, b), c); var z := ProcessState(s, [a, b, c]);
            z.dc == s3 && z.hist == [s3.y as int] + ([-(s1.y as int)] + s.hist[..22])[..22]
  {
    hide DcStep, DcAfter, DcOut, Phased, Evens, Odds, HistAfter, DelayAfter;
    var s1 := DcStep(s.dc, a);
    var s2 := DcStep(s1, b);
    var s3 := DcStep(s2, c);
    ThreeOut(s.dc, a, b, c);
    ThreePhased(s1.y, s2.y, s3.y);
    HistAfterTwo(s.hist, -(s1.y as int), s3.y);
    SameTypedBranches(Phased([s1.y, s2.y, s3.y]), s.line);
  }

  /** The drift from the tap before, with a low Q sample in between or without. */
  predicate Across(u: int, u': int) {
    32100 * ((668 * BURST + 32100 * u + 32767) / 32768) + 32767 < 32768 * (u' + 1)
  }

  predicate Direct(u: int, u': int) {
    668 * BURST + 32100 * u + 32767 < 32768 * (u' + 1)
  }

  /** Pairs of taps with a Q sample in between begin at the even ones down to 14, then at the odd. */
  predicate PairAt(c: nat) {
    c == 17 || c == 15 || (c <= 12 && c % 2 == 0 && c >= 2)
  }

  lemma DriftsAdd(c: nat)
    requires 1 <= c <= 17
    ensures |DRIFTS| == 17 && DRIFTS[16] == 0
    ensures PairAt(c) ==> Across(DRIFTS[c - 1], DRIFTS[c - 2]) && (c > 2 ==> Direct(DRIFTS[c - 2], DRIFTS[c - 3]))
    ensures c == 13 ==> Direct(DRIFTS[12], DRIFTS[11])
  {
  }

  /** The highest input is let through almost whole. */
  lemma HighStep(s: DcState, c: nat, lo: i16)
    requires Low(s, c, lo) && 1 <= c <= 17 && lo <= 0 <= lo + BURST <= 32767
    ensures var z := DcStep(s, lo + BURST);
            && InHull(z, lo, lo + BURST) && Size(c - 1) <= z.y <= 32767
            && 32768 * (NextLevel(z) - lo) <= 668 * BURST + 32100 * DRIFTS[c - 1] + 32767
  {
    hide DcStep, InHull, NextLevel;
    LevelStepped(s, lo + BURST, lo, lo + BURST);
  }

  /** A low Q sample behind it lets the level sink. */
  lemma LowStep(s: DcState, u: int, u': int, lo: i16)
    requires InHull(s, lo, lo + BURST) && lo <= 0 <= lo + BURST <= 32767
    requires 32768 * (NextLevel(s) - lo) <= 668 * BURST + 32100 * u + 32767 && Across(u, u')
    ensures var z := DcStep(s, lo); InHull(z, lo, lo + BURST) && NextLevel(z) <= lo + u'
  {
    hide DcStep, InHull, NextLevel;
    LevelStepped(s, lo, lo, lo + BURST);
  }

  lemma SizePositive(j: nat)
    requires j <= 16
    ensures Size(j) > 0
  {
  }

  lemma BuiltIndex(s: ConvState, c: nat, lo: int)
    requires Built(s, c, lo)
    ensures c <= 17 && |s.hist| == 23
  {
  }

  /** A call of one high sample places tap 12. */
  lemma BuildOne(s: ConvState, lo: i16)
    requires Built(s, 13, lo) && lo <= 0 <= lo + BURST <= 32767
    ensures Built(ProcessState(s, [lo + BURST]), 12, lo)
  {
    hide DcStep, ProcessState, Placed, Size, InHull, NextLevel;
    BuiltIndex(s, 13, lo);
    HighStep(s.dc, 13, lo);
    DriftsAdd(13);
    SizePositive(12);
    TapSigns(12);
    CallOfOne(s, lo + BURST);
    PlaceTap(s.hist, -(DcStep(s.dc, lo + BURST).y as int), 13);
  }

  /** The three steps of a call that places two taps. */
  lemma PairSteps(s: DcState, c: nat, lo: i16)
    requires Low(s, c, lo) && c <= 17 && PairAt(c) && lo <= 0 <= lo + BURST <= 32767
    ensures var s1 := DcStep(s, lo + BURST); var z := DcStep(DcStep(s1, lo), lo + BURST);
            && Size(c - 1) <= s1.y <= 32767 && Size(c - 2) <= z.y <= 32767
            && Low(z, c - 2, lo)
  {
    hide DcStep, Size, InHull, NextLevel;
    DriftsAdd(c);
    HighStep(s, c, lo);
    var s1 := DcStep(s, lo + BURST);
    LowStep(s1, DRIFTS[c - 1], DRIFTS[c - 2], lo);
    HighStep(DcStep(s1, lo), c - 1, lo);
  }

  lemma BuildTwo(s: ConvState, c: nat, lo: i16)
    requires Built(s, c, lo) && PairAt(c) && lo <= 0 <= lo + BURST <= 32767
    ensures Built(ProcessState(s, [lo + BURST, lo, lo + BURST]), c - 2, lo)
  {
    hide DcStep, ProcessState, Placed, Low, Size;
    BuiltIndex(s, c, lo);
    PairSteps(s.dc, c, lo);
    SizePositive(c - 1);
    SizePositive(c - 2);
    TapSigns(c - 1);
    TapSigns(c - 2);
    var s1 := DcStep(s.dc, lo + BURST);
    CallOfThree(s, lo + BURST, lo, lo + BURST);
    PlaceTap(s.hist, -(s1.y as int), c);
    PlaceTap([-(s1.y as int)] + s.hist[..22], DcStep(DcStep(s1, lo), lo + BURST).y, c - 1);
  }

  /** Quiet on the lowest input nothing is placed yet, and the level is lowest. */
  lemma BuiltFromQuiet(s: ConvState, lo: i16)
    requires lo <= 0 <= lo + BURST
    requires s.dc.x == lo && s.dc.y == 0 && 0 <= s.dc.e < Q15 && s.hist == Zeros(23)
    ensures Built(s, 17, lo)
  {
  }

  // ---------- the burst overflows ----------

  function BurstSum(n: nat): int
    requires n <= 17
  {
    if n == 0 then 0 else BurstSum(n - 1) + Abs(STOCK_TAPS[n - 1]) * Size(n - 1)
  }

  lemma {:induction false} BurstDot(w: seq<int>, n: nat)
    requires |w| == 24 && n <= 24
    requires forall j | 0 <= j < 17 :: Against(STOCK_TAPS[j], w[j], Size(j))
    requires forall j | 17 <= j < 24 :: w[j] == 0
    ensures Dot(STOCK_TAPS, w, n) <= -BurstSum(Min(n, 17))
  {
    hide Size, Abs;
    if n > 0 {
      BurstDot(w, n - 1);
      if n <= 17 {
        ProductAgainst(STOCK_TAPS[n - 1], w[n - 1], Size(n - 1));
      }
    }
  }

  lemma ProductAgainst(k: int, v: int, a: int)
    requires Against(k, v, a)
    ensures k * v <= -(Abs(k) * a)
  {
    if k < 0 {
      assert -k * v >= -k * a;
    } else {
      assert k * v <= k * -a;
    }
  }

  lemma BurstSumLarge()
    ensures BurstSum(17) > 0x4000_0000
  {
    assert BurstSum(1) == 782_793;
    assert BurstSum(2) == 2_129_089;
    assert BurstSum(4) == 8_716_025;
    assert BurstSum(6) == 25_337_044;
    assert BurstSum(8) == 62_574_285;
    assert BurstSum(10) == 148_324_875;
    assert BurstSum(12) == 543_697_301;
    assert BurstSum(14) == 951_131_301;
    assert BurstSum(16) == 1_047_237_486;
    assert BurstSum(17) == 1_073_748_077;
  }

  lemma BurstWraps(w: seq<i16>)
    requires |w| == 24
    requires forall j | 0 <= j < 17 :: Against(STOCK_TAPS[j], w[j], Size(j))
    requires forall j | 17 <= j < 24 :: w[j] == 0
    ensures FirTap(STOCK_TAPS, w) != Dot(STOCK_TAPS, w, 24) / Q15
  {
    hide Wrap16, Wrap32, Dot, BurstSum, Against, Size;
    BurstDot(w, 24);
    BurstSumLarge();
    AccumulatorNeverWraps(w, 24);
  }

  /** The last call of the burst: its second I output is the one that fails. */
  lemma BurstBreaks(s: ConvState, lo: i16)
    requires Built(s, 2, lo) && InSpan(s, lo, lo + BURST) && lo <= 0 <= lo + BURST <= 32767
    ensures ProcessOut(STOCK_TAPS, s, [lo + BURST, lo, lo + BURST]) != Output(STOCK_TAPS, Lift(s), [lo + BURST, lo, lo + BURST])
  {
    hide DcStep, DcOut, Levelled, Phased, Rotated, FirTap, Dot, HistAfter, ProcessOut, ProcessState, Output, Next, Against, Size, InHull, Evens,
         Low, Placed;
    var xs: seq<i16> := [lo + BURST, lo, lo + BURST];
    StateIsExact(s, xs, lo, lo + BURST);
    ProcessOutAt(s, xs, 1);
    OutputAt(Lift(s), xs, 1);
    var w := BurstWindow(s, lo);
    BurstWraps(w);
  }

  lemma BurstWindow(s: ConvState, lo: i16) returns (w: seq<i16>)
    requires Built(s, 2, lo) && InSpan(s, lo, lo + BURST) && lo <= 0 <= lo + BURST <= 32767
    ensures |Evens<int>(Phased(DcOut(s.dc, [lo + BURST, lo, lo + BURST])))| == 2
    ensures w == Window(s.hist, Evens<int>(Phased(DcOut(s.dc, [lo + BURST, lo, lo + BURST]))), 1)
    ensures |w| == 24
    ensures forall j | 0 <= j < 17 :: Against(STOCK_TAPS[j], w[j], Size(j))
    ensures forall j | 17 <= j < 24 :: w[j] == 0
  {
    hide DcStep, DcOut, Phased, HistAfter, Against, Size, InHull, Evens, ProcessState, Low, NextLevel;
    var s1 := DcStep(s.dc, lo + BURST);
    PairSteps(s.dc, 2, lo);
    SizePositive(1);
    SizePositive(0);
    var a, c := s1.y, DcStep(DcStep(s1, lo), lo + BURST).y;
    ThreeOut(s.dc, lo + BURST, lo, lo + BURST);
    ThreePhased(a, DcStep(s1, lo).y, c);
    HistAfterTwo(s.hist, -(a as int), c);
    w := [c as int] + ([-(a as int)] + s.hist[..22]);
    var e := Evens<int>(Phased(DcOut(s.dc, [lo + BURST, lo, lo + BURST])));
    assert e == [-(a as int), c as int] && e[..1] == [-(a as int)];
    BuildTwo(s, 2, lo);
    CallOfThree(s, lo + BURST, lo, lo + BURST);
    var z := ProcessState(s, [lo + BURST, lo, lo + BURST]);
    forall j | 0 <= j < 17
      ensures Against(STOCK_TAPS[j], w[j], Size(j))
    {
      assert w[j] == z.hist[j];
    }
  }

  // ---------- so cutting a stream elsewhere can lose something ----------

  /** Calls that end quiet: settled on the lowest input, nothing but zeros in the history. */
  lemma QuietCalls(lo: i16, hi: i16) returns (blocks: seq<seq<i16>>)
    requires lo <= 0 <= hi && hi - lo <= 32767
    ensures forall i | 0 <= i < |blocks| :: Within(blocks[i], lo, hi)
    ensures var s := RunState(SILENT, blocks);
            s.dc.x == lo && s.dc.y == 0 && 0 <= s.dc.e < Q15 && s.hist == Zeros(23)
  {
    hide DcAfter, ProcessOut;
    var xs := SettledRun(lo, 0);
    var zs := Repeat(lo, 46);
    RepeatFront(lo, 46);
    blocks := [xs, zs];
    CallNext([], xs);
    CallNext([xs], zs);
    assert [] + [xs] == [xs] && [xs] + [zs] == blocks;
    SettledCall(ProcessState(SILENT, xs), lo);
  }

  lemma SettledCall(s: ConvState, x: i16)
    requires s.dc.x == x && s.dc.y == 0 && 0 <= s.dc.e < Q15 && |s.hist| == 23
    ensures var z := ProcessState(s, Repeat(x, 46)); z.dc == s.dc && z.hist == Zeros(23)
  {
    hide DcStep, HistAfter, Phased, Repeat;
    StaysSettled(s.dc, x, 46);
    SettledOut(s.dc, x, 46);
    SilencePhases(46);
    forall j | 0 <= j < 23
      ensures HistAfter<int>(s.hist, Zeros(23))[j] == 0
    {
      HistoryIsReversedPast<int>(s.hist, Zeros(23), j);
    }
    assert HistAfter<int>(s.hist, Zeros(23)) == Zeros(23);
  }

  lemma {:induction false} SettledOut(s: DcState, x: i16, n: nat)
    requires s.x == x && s.y == 0 && 0 <= s.e < Q15
    ensures DcOut(s, Repeat(x, n)) == Zeros(n)
  {
    hide DcStep, DcAfter;
    if n > 0 {
      SettledOut(s, x, n - 1);
      assert Repeat(x, n)[..n - 1] == Repeat(x, n - 1);
      StaysSettled(s, x, n);
      assert DcAfter(s, Repeat(x, n)) == s;
      assert Zeros(n) == Zeros(n - 1) + [0];
    }
  }

  /** One more call. */
  lemma CallNext(blocks: seq<seq<i16>>, xs: seq<i16>)
    ensures RunState(SILENT, blocks + [xs]) == ProcessState(RunState(SILENT, blocks), xs)
  {
    assert (blocks + [xs])[..|blocks|] == blocks;
  }

  /** The calls up to the one that fails. The cuts make the fs/4 signs follow the taps', where the two
      middle ones agree. */
  lemma Burst(lo: i16) returns (blocks: seq<seq<i16>>)
    requires lo <= 0 <= lo + BURST <= 32767
    ensures forall i | 0 <= i < |blocks| :: Within(blocks[i], lo, lo + BURST)
    ensures Built(RunState(SILENT, blocks), 2, lo)
  {
    hide Built, ProcessState, RunState;
    var hi: i16 := lo + BURST;
    blocks := QuietCalls(lo, hi);
    BuiltFromQuiet(RunState(SILENT, blocks), lo);
    var c := 17;
    while c > 2
      invariant PairAt(c)
      invariant forall i | 0 <= i < |blocks| :: Within(blocks[i], lo, hi)
      invariant Built(RunState(SILENT, blocks), c, lo)
    {
      CallNext(blocks, [hi, lo, hi]);
      BuildTwo(RunState(SILENT, blocks), c, lo);
      blocks := blocks + [[hi, lo, hi]];
      c := c - 2;
      if c == 13 {
        CallNext(blocks, [hi]);
        BuildOne(RunState(SILENT, blocks), lo);
        blocks := blocks + [[hi]];
        c := 12;
      }
    }
  }

  lemma WithinWider(blocks: seq<seq<i16>>, lo: int, hi: int, lo': int, hi': int)
    requires lo' <= lo && hi <= hi' && forall i | 0 <= i < |blocks| :: Within(blocks[i], lo, hi)
    ensures forall i | 0 <= i < |blocks| :: Within(blocks[i], lo', hi')
  {
  }

  /** In calls of any lengths a stream of inputs that with 0 span at most 31506 is exact, and one
      spanning the burst or more need not be, although in aligned calls it is up to 32767. */
  lemma AnyCalls(lo: i16, hi: i16)
    requires lo <= 0 <= hi
    ensures hi - lo <= SPAN ==> ExactOnAnyCalls(lo, hi)
    ensures hi - lo >= BURST ==> !ExactOnAnyCalls(lo, hi)
  {
    hide RunOut, FilterRun, RunState, FilterStateAfter, ProcessOut, ProcessState, Output, Next, Built, Tracked;
    if hi - lo <= SPAN {
      forall blocks: seq<seq<i16>> | forall i | 0 <= i < |blocks| :: Within(blocks[i], lo, hi)
        ensures RunOut(STOCK_TAPS, SILENT, blocks) == FilterRun(STOCK_TAPS, Lift(SILENT), blocks)
      {
        WithinWider(blocks, lo, hi, lo, lo + SPAN);
        var marks := AnyCallsAreExact(blocks, lo);
      }
    } else if hi - lo >= BURST {
      var low: i16 := if lo < -BURST then -BURST else lo;
      var last: seq<i16> := [low + BURST, low, low + BURST];
      var was := Burst(low);
      StatesAreExact(was, low, low + BURST);
      BurstBreaks(RunState(SILENT, was), low);
      LastCallBreaks(was, last, low, low + BURST);
      WithinWider(was + [last], low, low + BURST, lo, hi);
    }
  }
}
