/** Why a stream is exact in calls of any lengths up to a span of 31506: the blocker's level moves
    towards every input it lets through, so no cuts and no inputs make all taps of one window see
    large samples at once. */
module AnyCallsExact {
  import opened MachineInts
  import opened Interleaving
  import opened SampleHistory
  import opened IqInt16Spec
  import opened IqConverterInt16
  import opened DcProperties
  import opened FirProperties
  import opened ConverterProperties
  import opened ExactFilter
  import opened ExactRange

  const SPAN := 31506
  const MIDDLE := 15753

  // ---------- levels between I samples ----------

  /** An I sample as the blocker saw it: the input and its own level, both from the lowest input. */
  datatype Mark = Mark(x: int, l: int)

  predicate InRange(m: Mark) {
    0 <= m.x <= SPAN && 0 <= m.l <= SPAN
  }

  /** What one sample does to the level: it takes 668/32768 of the way to the input, rounded. */
  predicate OneStep(x: int, l: int, l': int) {
    -32767 <= 32768 * l' - (668 * x + 32100 * l) <= 32767
  }

  const UNIT := 0x4000_0000
  /** The least parts, of `UNIT`, that input and level keep in the level at the next I sample, a Q
      sample in between or not. */
  const FROM_INPUT := 21_442_800
  const FROM_LEVEL := 1_030_410_000

  /** A level at the next I sample, bounded below, and by symmetry above. */
  predicate Follows(m: Mark, l': int) {
    && UNIT * (l' + 2) >= FROM_INPUT * m.x + FROM_LEVEL * m.l
    && UNIT * (SPAN - l' + 2) >= FROM_INPUT * (SPAN - m.x) + FROM_LEVEL * (SPAN - m.l)
  }

  lemma FollowsOne(m: Mark, l': int)
    requires InRange(m) && OneStep(m.x, m.l, l')
    ensures Follows(m, l')
  {
  }

  lemma FollowsTwo(m: Mark, l1: int, q: int, l2: int)
    requires InRange(m) && 0 <= q <= SPAN && OneStep(m.x, m.l, l1) && OneStep(q, l1, l2)
    ensures Follows(m, l2)
  {
  }

  /** The I samples of a window, newest first. */
  predicate Trail(ms: seq<Mark>) {
    && (forall i | 0 <= i < |ms| :: InRange(ms[i]))
    && (forall i | 0 < i < |ms| :: Follows(ms[i], ms[i - 1].l))
  }

  // ---------- a bound for every window ----------

  /** At most so much can the newest `n` taps add up to... */
  const MOST: seq<nat> := [
    0, 1039698, 2783338, 5880001, 10997732, 18950817, 30854176,
    48276505, 73515046, 110623372, 168025276, 270655685, 593101467, 909422836,
    998435286, 1040429260, 1061686867, 1071240264, 1073475429, 1073522775, 1073567431,
    1073609765, 1073650057, 1073688521, 1073725319
  ]
  /** ...less so much for every step of the level away from the nearer end of the range. */
  const LESS: seq<nat> := [
    0, 33, 86, 179, 330, 562, 905,
    1403, 2119, 3168, 4798, 7765, 17530, 26511,
    27735, 27392, 26412, 25120, 23673, 22328, 21167,
    20146, 19232, 18399, 17623
  ]

  function Near(l: int): int {
    if l <= MIDDLE then l else SPAN - l
  }

  function Weight(ms: seq<Mark>, n: nat): int
    requires n <= 24 && n <= |ms|
  {
    if n == 0 then 0 else Weight(ms, n - 1) + Abs(STOCK_TAPS[n - 1]) * Abs(ms[n - 1].x - ms[n - 1].l)
  }

  /** The conditions on the two bounds under which one more tap of weight `k` is accounted for. */
  predicate Accounts(k: int, a: int, b: int, a': int, b': int) {
    && k >= 0 && b >= 0 && b' >= 0 && a' >= a + 2 * b
    && (UNIT * k < FROM_INPUT * b || UNIT * (a + 2 * b) + (UNIT * k - FROM_INPUT * b) * SPAN <= UNIT * a')
    && UNIT * b' <= UNIT * k + FROM_LEVEL * b
    && (UNIT * k - FROM_LEVEL * b + UNIT * b') * MIDDLE <= UNIT * (a' - a - 2 * b)
    && (UNIT * k - FROM_LEVEL * b) * SPAN <= UNIT * (a' - a - 2 * b)
    && (UNIT * k >= FROM_INPUT * b || UNIT * b' <= (FROM_INPUT + FROM_LEVEL) * b)
  }

  /** A sum of two scaled terms times a third is not negative if both factors are not. */
  lemma Scaled(c: int, p: int, d: int, q: int, v: int)
    requires c * p + d * q >= 0 && v >= 0
    ensures c * (p * v) + d * (q * v) >= 0
  {
    assert (c * p + d * q) * v == c * (p * v) + d * (q * v);
  }

  /** The level at the next I sample, times `b`. */
  lemma FollowsScaled(b: int, m: Mark, l': int)
    requires b >= 0 && Follows(m, l')
    ensures UNIT * (b * l') + 2 * UNIT * b >= FROM_INPUT * (b * m.x) + FROM_LEVEL * (b * m.l)
  {
    var u, v, w := l' + 2, m.x, m.l;
    assert UNIT * u - FROM_INPUT * v - FROM_LEVEL * w >= 0;
    assert b * (UNIT * u - FROM_INPUT * v - FROM_LEVEL * w)
        == UNIT * (b * u) - FROM_INPUT * (b * v) - FROM_LEVEL * (b * w);
    assert b * u == b * l' + 2 * b;
  }

  lemma Split(k: int, x: int, l: int)
    ensures k * (x - l) == k * x - k * l
  {
  }

  /** The sample lies above the level, and the earlier bound counts from the low end. */
  lemma AboveLow(k: int, a: int, b: int, a': int, b': int, m: Mark, l': int)
    requires Accounts(k, a, b, a', b') && InRange(m) && Follows(m, l') && m.x >= m.l
    ensures k * (m.x - m.l) + a - b * l' <= a' - b' * m.l
  {
    FollowsScaled(b, m, l');
    Split(k, m.x, m.l);
    if UNIT * k >= FROM_INPUT * b {
      Scaled(UNIT, k, -FROM_INPUT, b, SPAN - m.x);
      Split(k, SPAN, m.x);
      Split(b, SPAN, m.x);
      ScaledThree(UNIT, k, FROM_LEVEL, b, -UNIT, b', m.l);
      hide Follows, InRange;
    } else {
      Scaled(FROM_INPUT, b, -UNIT, k, m.x - m.l);
      Split(b, m.x, m.l);
      Scaled(FROM_INPUT + FROM_LEVEL, b, -UNIT, b', m.l);
      hide Follows, InRange;
    }
  }

  lemma ScaledThree(c: int, p: int, d: int, q: int, e: int, r: int, v: int)
    requires c * p + d * q + e * r >= 0 && v >= 0
    ensures c * (p * v) + d * (q * v) + e * (r * v) >= 0
  {
    assert (c * p + d * q + e * r) * v == c * (p * v) + d * (q * v) + e * (r * v);
  }

  lemma BelowBound(k: int, a: int, b: int, m: Mark, l': int)
    requires k >= 0 && b >= 0 && InRange(m) && Follows(m, l')
    ensures UNIT * (k * (m.l - m.x) + a - b * l') <= UNIT * (k * m.l) - FROM_LEVEL * (b * m.l) + UNIT * (a + 2 * b)
  {
    FollowsScaled(b, m, l');
    Split(k, m.l, m.x);
    Scaled(1, k, 0, 0, m.x);
    Scaled(1, b, 0, 0, m.x);
    hide Follows;
  }

  lemma NearLow(k: int, b: int, b': int, c: int, l: int)
    requires 0 <= l <= MIDDLE && c >= 0
    requires (UNIT * k - FROM_LEVEL * b + UNIT * b') * MIDDLE <= c
    ensures UNIT * (k * l) - FROM_LEVEL * (b * l) + UNIT * (b' * l) <= c
  {
    var t := UNIT * k - FROM_LEVEL * b + UNIT * b';
    assert t * l == UNIT * (k * l) - FROM_LEVEL * (b * l) + UNIT * (b' * l);
    AtMost(t, l, MIDDLE, c);
  }

  lemma AtMost(t: int, l: int, top: int, c: int)
    requires 0 <= l <= top && c >= 0 && t * top <= c
    ensures t * l <= c
  {
    if t >= 0 {
      Scaled(1, t, 0, 0, top - l);
      Split(t, top, l);
    } else {
      Scaled(-1, t, 0, 0, l);
    }
  }

  lemma NearHigh(k: int, b: int, b': int, c: int, l: int)
    requires MIDDLE <= l <= SPAN
    requires (UNIT * k - FROM_LEVEL * b + UNIT * b') * MIDDLE <= c && (UNIT * k - FROM_LEVEL * b) * SPAN <= c
    ensures UNIT * (k * l) - FROM_LEVEL * (b * l) + UNIT * (b' * (SPAN - l)) <= c
  {
    var t := UNIT * k - FROM_LEVEL * b - UNIT * b';
    assert t * l == UNIT * (k * l) - FROM_LEVEL * (b * l) - UNIT * (b' * l);
    Split(b', SPAN, l);
    if t >= 0 {
      Scaled(1, t, 0, 0, SPAN - l);
      Split(t, SPAN, l);
    } else {
      Scaled(-1, t, 0, 0, l - MIDDLE);
      Split(t, l, MIDDLE);
    }
  }

  /** The sample lies below the level. */
  lemma BelowLow(k: int, a: int, b: int, a': int, b': int, m: Mark, l': int)
    requires Accounts(k, a, b, a', b') && InRange(m) && Follows(m, l') && m.x < m.l
    ensures k * (m.l - m.x) + a - b * l' <= a' - b' * Near(m.l)
  {
    hide Follows;
    BelowBound(k, a, b, m, l');
    if m.l <= MIDDLE {
      NearLow(k, b, b', UNIT * (a' - a - 2 * b), m.l);
    } else {
      NearHigh(k, b, b', UNIT * (a' - a - 2 * b), m.l);
    }
  }

  lemma FromLow(k: int, a: int, b: int, a': int, b': int, m: Mark, l': int)
    requires Accounts(k, a, b, a', b') && InRange(m) && Follows(m, l')
    ensures k * Abs(m.x - m.l) + a - b * l' <= a' - b' * Near(m.l)
  {
    if m.x >= m.l {
      AboveLow(k, a, b, a', b', m, l');
      if m.l > MIDDLE {
        Split(b', m.l, SPAN - m.l);
        Scaled(1, b', 0, 0, m.l - (SPAN - m.l));
      }
    } else {
      BelowLow(k, a, b, a', b', m, l');
    }
  }

  /** One more tap, whichever end of the range the level is nearer to. */
  lemma OneMoreTap(k: int, a: int, b: int, a': int, b': int, m: Mark, l': int)
    requires Accounts(k, a, b, a', b') && InRange(m) && Follows(m, l')
    ensures k * Abs(m.x - m.l) + a - b * Near(l') <= a' - b' * Near(m.l)
  {
    if l' <= MIDDLE {
      FromLow(k, a, b, a', b', m, l');
    } else {
      FromLow(k, a, b, a', b', Mark(SPAN - m.x, SPAN - m.l), SPAN - l');
    }
  }

  function SomeNext(m: Mark): (l': int)
    requires InRange(m)
    ensures Follows(m, l')
  {
    (FROM_INPUT * m.x + FROM_LEVEL * m.l) / UNIT
  }

  lemma Accounted0()
    ensures |MOST| == |LESS| == 25
    ensures forall n | 0 <= n < 4 :: Accounts(Abs(STOCK_TAPS[n]), MOST[n], LESS[n], MOST[n + 1], LESS[n + 1])
  {
    assert Accounts(Abs(STOCK_TAPS[0]), MOST[0], LESS[0], MOST[1], LESS[1]);
    assert Accounts(Abs(STOCK_TAPS[1]), MOST[1], LESS[1], MOST[2], LESS[2]);
    assert Accounts(Abs(STOCK_TAPS[2]), MOST[2], LESS[2], MOST[3], LESS[3]);
    assert Accounts(Abs(STOCK_TAPS[3]), MOST[3], LESS[3], MOST[4], LESS[4]);
  }

  lemma Accounted4()
    ensures |MOST| == |LESS| == 25
    ensures forall n | 4 <= n < 8 :: Accounts(Abs(STOCK_TAPS[n]), MOST[n], LESS[n], MOST[n + 1], LESS[n + 1])
  {
    assert Accounts(Abs(STOCK_TAPS[4]), MOST[4], LESS[4], MOST[5], LESS[5]);
    assert Accounts(Abs(STOCK_TAPS[5]), MOST[5], LESS[5], MOST[6], LESS[6]);
    assert Accounts(Abs(STOCK_TAPS[6]), MOST[6], LESS[6], MOST[7], LESS[7]);
    assert Accounts(Abs(STOCK_TAPS[7]), MOST[7], LESS[7], MOST[8], LESS[8]);
  }

  lemma Accounted8()
    ensures |MOST| == |LESS| == 25
    ensures forall n | 8 <= n < 12 :: Accounts(Abs(STOCK_TAPS[n]), MOST[n], LESS[n], MOST[n + 1], LESS[n + 1])
  {
    assert Accounts(Abs(STOCK_TAPS[8]), MOST[8], LESS[8], MOST[9], LESS[9]);
    assert Accounts(Abs(STOCK_TAPS[9]), MOST[9], LESS[9], MOST[10], LESS[10]);
    assert Accounts(Abs(STOCK_TAPS[10]), MOST[10], LESS[10], MOST[11], LESS[11]);
    assert Accounts(Abs(STOCK_TAPS[11]), MOST[11], LESS[11], MOST[12], LESS[12]);
  }

  lemma Accounted12()
    ensures |MOST| == |LESS| == 25
    ensures forall n | 12 <= n < 16 :: Accounts(Abs(STOCK_TAPS[n]), MOST[n], LESS[n], MOST[n + 1], LESS[n + 1])
  {
    assert Accounts(Abs(STOCK_TAPS[12]), MOST[12], LESS[12], MOST[13], LESS[13]);
    assert Accounts(Abs(STOCK_TAPS[13]), MOST[13], LESS[13], MOST[14], LESS[14]);
    assert Accounts(Abs(STOCK_TAPS[14]), MOST[14], LESS[14], MOST[15], LESS[15]);
    assert Accounts(Abs(STOCK_TAPS[15]), MOST[15], LESS[15], MOST[16], LESS[16]);
  }

  lemma Accounted16()
    ensures |MOST| == |LESS| == 25
    ensures forall n | 16 <= n < 20 :: Accounts(Abs(STOCK_TAPS[n]), MOST[n], LESS[n], MOST[n + 1], LESS[n + 1])
  {
    assert Accounts(Abs(STOCK_TAPS[16]), MOST[16], LESS[16], MOST[17], LESS[17]);
    assert Accounts(Abs(STOCK_TAPS[17]), MOST[17], LESS[17], MOST[18], LESS[18]);
    assert Accounts(Abs(STOCK_TAPS[18]), MOST[18], LESS[18], MOST[19], LESS[19]);
    assert Accounts(Abs(STOCK_TAPS[19]), MOST[19], LESS[19], MOST[20], LESS[20]);
  }

  lemma Accounted20()
    ensures |MOST| == |LESS| == 25
    ensures forall n | 20 <= n < 24 :: Accounts(Abs(STOCK_TAPS[n]), MOST[n], LESS[n], MOST[n + 1], LESS[n + 1])
  {
    assert Accounts(Abs(STOCK_TAPS[20]), MOST[20], LESS[20], MOST[21], LESS[21]);
    assert Accounts(Abs(STOCK_TAPS[21]), MOST[21], LESS[21], MOST[22], LESS[22]);
    assert Accounts(Abs(STOCK_TAPS[22]), MOST[22], LESS[22], MOST[23], LESS[23]);
    assert Accounts(Abs(STOCK_TAPS[23]), MOST[23], LESS[23], MOST[24], LESS[24]);
  }

  lemma AllAccounted(n: nat)
    requires n < 24
    ensures |MOST| == |LESS| == 25 && MOST[0] == 0 && LESS[0] == 0 && MOST[24] == 1_073_725_319
    ensures Accounts(Abs(STOCK_TAPS[n]), MOST[n], LESS[n], MOST[n + 1], LESS[n + 1])
  {
    hide Accounts, Abs;
    Accounted0();
    Accounted4();
    Accounted8();
    Accounted12();
    Accounted16();
    Accounted20();
  }

  lemma {:induction false} WeightBound(ms: seq<Mark>, n: nat)
    requires 1 <= n <= 24 && n <= |ms| && Trail(ms)
    ensures |MOST| == |LESS| == 25
    ensures Weight(ms, n) <= MOST[n] - LESS[n] * Near(ms[n - 1].l)
  {
    hide Follows, Near, Accounts, Abs;
    AllAccounted(n - 1);
    var k, m := Abs(STOCK_TAPS[n - 1]), ms[n - 1];
    if n == 1 {
      OneMoreTap(k, 0, 0, MOST[1], LESS[1], m, SomeNext(m));
    } else {
      WeightBound(ms, n - 1);
      OneMoreTap(k, MOST[n - 1], LESS[n - 1], MOST[n], LESS[n], m, ms[n - 2].l);
    }
  }

  // ---------- so no window of a stream overflows ----------

  /** The samples a window holds are, up to sign, the blocker's outputs at the marks. */
  predicate Marked(w: seq<int>, ms: seq<Mark>) {
    |w| == |ms| && forall i | 0 <= i < |w| :: Abs(w[i]) == Abs(ms[i].x - ms[i].l)
  }

  lemma AbsProduct(k: int, v: int)
    ensures Abs(k * v) == Abs(k) * Abs(v)
  {
  }

  lemma {:induction false} MarkedDot(w: seq<int>, ms: seq<Mark>, n: nat)
    requires n <= 24 <= |w| && Marked(w, ms)
    ensures Abs(Dot(STOCK_TAPS, w, n)) <= Weight(ms, n)
  {
    if n > 0 {
      MarkedDot(w, ms, n - 1);
      AbsProduct(STOCK_TAPS[n - 1], w[n - 1]);
    }
  }

  lemma MarkedWindowExact(w: seq<i16>, ms: seq<Mark>)
    requires |w| == 24 && Marked(w, ms) && Trail(ms)
    ensures FirTap(STOCK_TAPS, w) == Dot(STOCK_TAPS, w, 24) / Q15
  {
    hide Wrap16, Wrap32, Dot, Weight, Accounts, Follows, Marked;
    assert |ms| == 24 by { MarkedLength(w, ms); }
    MarkedDot(w, ms, 24);
    WeightBound(ms, 24);
    AllAccounted(0);
    WeightAtMost(ms);
    AccumulatorNeverWraps(w, 24);
    Wrap16Fits(Dot(STOCK_TAPS, w, 24) / Q15);
  }

  lemma MarkedLength(w: seq<int>, ms: seq<Mark>)
    requires Marked(w, ms)
    ensures |w| == |ms|
  {
  }

  lemma WeightAtMost(ms: seq<Mark>)
    requires |ms| == 24 && Trail(ms)
    ensures Weight(ms, 24) <= 1_073_725_319
  {
    hide Weight, Accounts, Follows;
    WeightBound(ms, 24);
    AllAccounted(0);
    Scaled(1, LESS[24], 0, 0, Near(ms[23].l));
  }

  /** The level the blocker's next output is taken from, whatever the input. */
  function NextLevel(s: DcState): int {
    s.x - Feedback(s) / Q15
  }

  lemma LevelStepped(s: DcState, x: i16, lo: int, hi: int)
    requires lo <= 0 <= hi && hi - lo <= 32767 && InHull(s, lo, hi) && lo <= x <= hi
    ensures var z := DcStep(s, x);
            && InHull(z, lo, hi) && z.y == x - NextLevel(s) && z.y > -32768
            && lo <= NextLevel(s) <= hi
            && OneStep(x - lo, NextLevel(s) - lo, NextLevel(z) - lo)
  {
    hide DcStep;
    HullStep(s, x, lo, hi);
    ErrorFeedbackLosesNothing(s, x);
    LevelMovesTowardsInput(s, x);
  }

  lemma TrailPush(ms: seq<Mark>, m: Mark)
    requires |ms| > 0 && Trail(ms) && InRange(m) && Follows(ms[0], m.l)
    ensures Trail([m] + ms) && Trail(([m] + ms)[..|ms|])
  {
    hide Follows, InRange;
    var t := [m] + ms;
    forall i | 0 < i < |t|
      ensures Follows(t[i], t[i - 1].l)
    {
      assert t[i] == ms[i - 1] && (i > 1 ==> t[i - 1] == ms[i - 2]);
    }
  }

  lemma MarkedPush(w: seq<int>, ms: seq<Mark>, v: int, m: Mark)
    requires Marked(w, ms) && Abs(v) == Abs(m.x - m.l)
    ensures Marked([v] + w, [m] + ms) && Marked(([v] + w)[..|w|], ([m] + ms)[..|ms|])
  {
    hide Abs;
  }

  /** A converter that has seen only inputs from `lo` up to the span, and the marks of its history. */
  predicate Tracked(dc: DcState, hist: seq<int>, ms: seq<Mark>, lo: int) {
    && InHull(dc, lo, lo + SPAN)
    && |hist| == |ms| == 23 && Trail(ms) && Marked(hist, ms)
    && Follows(ms[0], NextLevel(dc) - lo)
  }

  /** The marks of the window an I sample `x` completes. */
  function WindowMarks(dc: DcState, ms: seq<Mark>, x: int, lo: int): (r: seq<Mark>)
    ensures |r| == |ms| + 1
  {
    [Mark(x - lo, NextLevel(dc) - lo)] + ms
  }

  lemma TrackedWindow(dc: DcState, hist: seq<int>, ms: seq<Mark>, x: i16, v: int, lo: int)
    requires Tracked(dc, hist, ms, lo) && lo <= 0 <= lo + SPAN && lo <= x <= lo + SPAN
    requires Abs(v) == Abs(DcStep(dc, x).y)
    ensures var w := WindowMarks(dc, ms, x, lo);
            && Trail(w) && Marked([v] + hist, w)
            && Trail(w[..23]) && Marked(([v] + hist)[..23], w[..23])
  {
    hide DcStep, Follows, InHull, Marked, Trail, NextLevel;
    LevelStepped(dc, x, lo, lo + SPAN);
    TrailPush(ms, Mark(x - lo, NextLevel(dc) - lo));
    MarkedPush(hist, ms, v, Mark(x - lo, NextLevel(dc) - lo));
  }

  /** After the I sample alone, and after a Q sample behind it. */
  lemma TrackedStep(dc: DcState, hist: seq<int>, ms: seq<Mark>, x: i16, v: int, lo: int)
    requires Tracked(dc, hist, ms, lo) && lo <= 0 <= lo + SPAN && lo <= x <= lo + SPAN
    requires Abs(v) == Abs(DcStep(dc, x).y)
    ensures var z, w, h := DcStep(dc, x), WindowMarks(dc, ms, x, lo)[..23], ([v] + hist)[..23];
            && Tracked(z, h, w, lo)
            && forall q: i16 | lo <= q <= lo + SPAN :: Tracked(DcStep(z, q), h, w, lo)
  {
    hide DcStep, Follows, InHull, Marked, Trail, OneStep, NextLevel;
    LevelStepped(dc, x, lo, lo + SPAN);
    TrackedWindow(dc, hist, ms, x, v, lo);
    var z, m := DcStep(dc, x), Mark(x - lo, NextLevel(dc) - lo);
    FollowsOne(m, NextLevel(z) - lo);
    forall q: i16 | lo <= q <= lo + SPAN
      ensures InHull(DcStep(z, q), lo, lo + SPAN) && Follows(m, NextLevel(DcStep(z, q)) - lo)
    {
      LevelStepped(z, q, lo, lo + SPAN);
      FollowsTwo(m, NextLevel(z) - lo, q - lo, NextLevel(DcStep(z, q)) - lo);
    }
  }

  /** What one call feeds the FIR. */
  function Branch(s: ConvState, xs: seq<i16>): (r: seq<int>)
    ensures |r| == (|xs| + 1) / 2
  {
    Evens<int>(Phased(DcOut(s.dc, xs)))
  }

  lemma BranchAt(s: ConvState, xs: seq<i16>, m: nat, lo: int)
    requires lo <= 0 <= lo + SPAN && InHull(s.dc, lo, lo + SPAN) && Within(xs, lo, lo + SPAN) && 2 * m < |xs|
    ensures var d := DcAfter(s.dc, xs[..2 * m]);
            && DcAfter(s.dc, xs[..2 * m + 1]) == DcStep(d, xs[2 * m])
            && Abs(Branch(s, xs)[m]) == Abs(DcStep(d, xs[2 * m]).y)
  {
    hide DcStep, DcAfter, DcOut, InHull, Phased, Evens, NextLevel;
    HullRun(s.dc, xs[..2 * m], lo, lo + SPAN);
    DcSnoc(s.dc, xs, 2 * m);
    DcOutAt(s.dc, xs, 2 * m);
    LevelStepped(DcAfter(s.dc, xs[..2 * m]), xs[2 * m], lo, lo + SPAN);
    EvenPhased(DcOut(s.dc, xs), m);
  }

  lemma {:induction false} InCall(s: ConvState, xs: seq<i16>, ms: seq<Mark>, lo: int, m: nat) returns (marks: seq<Mark>)
    requires lo <= 0 <= lo + SPAN && Tracked(s.dc, s.hist, ms, lo) && Within(xs, lo, lo + SPAN)
    requires m <= |Branch(s, xs)|
    ensures Tracked(DcAfter(s.dc, xs[..Min(2 * m, |xs|)]), HistAfter(s.hist, Branch(s, xs)[..m]), marks, lo)
  {
    hide DcStep, Branch, Tracked, WindowMarks;
    if m == 0 {
      marks := ms;
    } else {
      var n, e := 2 * m - 2, Branch(s, xs);
      var was := InCall(s, xs, ms, lo, m - 1);
      var d, h := DcAfter(s.dc, xs[..n]), HistAfter(s.hist, e[..m - 1]);
      HullOf(s.dc, s.hist, ms, lo);
      HullOf(d, h, was, lo);
      BranchAt(s, xs, m - 1, lo);
      TrackedStep(d, h, was, xs[n], e[m - 1], lo);
      HistAfterSnoc(s.hist, e, m - 1);
      HistAfterOne(h, e[m - 1]);
      if n + 1 < |xs| {
        DcSnoc(s.dc, xs, n + 1);
      }
      marks := WindowMarks(d, was, xs[n], lo)[..23];
    }
  }

  lemma HullOf(dc: DcState, hist: seq<int>, ms: seq<Mark>, lo: int)
    requires Tracked(dc, hist, ms, lo)
    ensures InHull(dc, lo, lo + SPAN) && |hist| == |ms| == 23
  {
  }

  lemma CallWindow(s: ConvState, xs: seq<i16>, ms: seq<Mark>, lo: int, t: nat)
    requires lo <= 0 <= lo + SPAN && Tracked(s.dc, s.hist, ms, lo) && Within(xs, lo, lo + SPAN)
    requires t < |Branch(s, xs)| && Bounded(s.hist, SPAN) && Bounded(Branch(s, xs), SPAN)
    ensures |s.hist| == 23
    ensures FirTap(STOCK_TAPS, Window(s.hist, Branch(s, xs), t)) == Dot(STOCK_TAPS, Window(s.hist, Branch(s, xs), t), 24) / Q15
  {
    hide DcStep, DcAfter, Branch, Tracked, HistAfter, FirTap, Dot, Trail, Marked;
    var e := Branch(s, xs);
    HullOf(s.dc, s.hist, ms, lo);
    var marks := InCall(s, xs, ms, lo, t);
    BranchAt(s, xs, t, lo);
    TrackedWindow(DcAfter(s.dc, xs[..2 * t]), HistAfter(s.hist, e[..t]), marks, xs[2 * t], e[t], lo);
    HistoryStaysBounded(s.hist, e[..t], SPAN);
    MarkedWindowExact(Window(s.hist, e, t), WindowMarks(DcAfter(s.dc, xs[..2 * t]), marks, xs[2 * t], lo));
  }

  /** One call of any length, from any state in which the marks can be tracked. */
  lemma TrackedCall(s: ConvState, xs: seq<i16>, ms: seq<Mark>, lo: int) returns (marks: seq<Mark>)
    requires lo <= 0 <= lo + SPAN && Tracked(s.dc, s.hist, ms, lo) && InSpan(s, lo, lo + SPAN) && Within(xs, lo, lo + SPAN)
    ensures ProcessOut(STOCK_TAPS, s, xs) == Output(STOCK_TAPS, Lift(s), xs)
    ensures Lift(ProcessState(s, xs)) == Next(Lift(s), xs)
    ensures var z := ProcessState(s, xs); Tracked(z.dc, z.hist, marks, lo) && InSpan(z, lo, lo + SPAN)
  {
    hide DcAfter, DcOut, Levelled, Phased, Rotated, FirOut, FirTap, Dot, Filtered, Evens, Tracked, HistAfter, InHull,
         ProcessOut, Output, Next;
    StateIsExact(s, xs, lo, lo + SPAN);
    var e := Branch(s, xs);
    forall t | 0 <= t < |e|
      ensures FirTap(STOCK_TAPS, Window(s.hist, e, t)) == Dot(STOCK_TAPS, Window(s.hist, e, t), 24) / Q15
    {
      CallWindow(s, xs, ms, lo, t);
    }
    FilterIsExact(s.hist, e);
    OutputIsExact(s, xs, Phased(DcOut(s.dc, xs)));
    marks := InCall(s, xs, ms, lo, |e|);
    assert e[..|e|] == e && xs[..Min(2 * |e|, |xs|)] == xs;
    SameTypedBranches(Phased(DcOut(s.dc, xs)), s.line);
  }

  /** Before the start it is as if the input had always been 0. */
  lemma SilentTracked(lo: int) returns (marks: seq<Mark>)
    requires lo <= 0 <= lo + SPAN
    ensures Tracked(SILENT.dc, SILENT.hist, marks, lo) && InSpan(SILENT, lo, lo + SPAN)
  {
    marks := seq(23, _ => Mark(-lo, -lo));
  }

  /** In calls of any lengths a fresh stock converter is the exact filter over the same calls, on
      inputs that with 0 span at most 31506. */
  lemma {:induction false} AnyCallsAreExact(blocks: seq<seq<i16>>, lo: int) returns (marks: seq<Mark>)
    requires lo <= 0 <= lo + SPAN && forall i | 0 <= i < |blocks| :: Within(blocks[i], lo, lo + SPAN)
    ensures RunOut(STOCK_TAPS, SILENT, blocks) == FilterRun(STOCK_TAPS, Lift(SILENT), blocks)
    ensures Lift(RunState(SILENT, blocks)) == FilterStateAfter(Lift(SILENT), blocks)
    ensures var z := RunState(SILENT, blocks); Tracked(z.dc, z.hist, marks, lo) && InSpan(z, lo, lo + SPAN)
  {
    hide ProcessOut, ProcessState, Output, Next, Tracked, InSpan;
    if blocks == [] {
      marks := SilentTracked(lo);
    } else {
      var was := blocks[..|blocks| - 1];
      marks := AnyCallsAreExact(was, lo);
      marks := TrackedCall(RunState(SILENT, was), blocks[|blocks| - 1], marks, lo);
    }
  }
}
