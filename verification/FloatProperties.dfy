/** When the float converter's two FIR forms are the same filter, and where its calls may be
    split, over exact arithmetic. */
module FloatProperties {
  import opened Interleaving
  import opened SampleHistory
  import opened IqFloatSpec
  import opened Filters

  predicate Palindromic(kernel: seq<real>) {
    forall j | 0 <= j < |kernel| :: kernel[j] == kernel[|kernel| - 1 - j]
  }

  /** Both forms give the same output on every window. */
  ghost predicate FormsAgree(kernel: seq<real>) {
    forall w: seq<real> | |w| == |kernel| :: Tap(Symmetric, kernel, w) == Tap(Generic, kernel, w)
  }

  lemma OnePair(kernel: seq<real>, w: seq<real>, m: nat)
    requires |w| == |kernel| && 0 < m && 2 * m <= |kernel| && Palindromic(kernel)
    ensures var n, x, y := |kernel|, kernel[m - 1] * w[m - 1], kernel[m - 1] * w[|kernel| - m];
            && PairDot(kernel, w, m) == PairDot(kernel, w, m - 1) + (x + y)
            && Dot(kernel, w, m) == Dot(kernel, w, m - 1) + x
            && Dot(kernel, w, n - (m - 1)) == Dot(kernel, w, n - m) + y
  {
    var k := kernel[m - 1];
    assert kernel[|kernel| - m] == k;
    Distribute(k, w[m - 1], w[|kernel| - m]);
  }

  /** The first `m` pairs are the two outer stretches of the dot product. */
  lemma {:induction false} PairsFromBothEnds(kernel: seq<real>, w: seq<real>, m: nat)
    requires |w| == |kernel| && 2 * m <= |kernel| && Palindromic(kernel)
    ensures PairDot(kernel, w, m)
         == Dot(kernel, w, m) + (Dot(kernel, w, |kernel|) - Dot(kernel, w, |kernel| - m))
  {
    if m > 0 {
      hide Dot, PairDot;
      PairsFromBothEnds(kernel, w, m - 1);
      OnePair(kernel, w, m);
    }
  }

  lemma Distribute(k: real, x: real, y: real)
    ensures k * (x + y) == k * x + k * y
  {
  }

  function Unit(n: nat, u: nat): (w: seq<real>)
    ensures |w| == n
  {
    seq(n, i => if i == u then 1.0 else 0.0)
  }

  lemma {:induction false} DotOfUnit(kernel: seq<real>, u: nat, m: nat)
    requires m <= |kernel| && u < |kernel|
    ensures Dot(kernel, Unit(|kernel|, u), m) == if u < m then kernel[u] else 0.0
  {
    if m > 0 {
      DotOfUnit(kernel, u, m - 1);
    }
  }

  lemma {:induction false} PairDotOfUnit(kernel: seq<real>, j: nat, m: nat)
    requires 2 * m <= |kernel| && 2 * j < |kernel| - 1
    ensures PairDot(kernel, Unit(|kernel|, |kernel| - 1 - j), m) == if j < m then kernel[j] else 0.0
  {
    if m > 0 {
      PairDotOfUnit(kernel, j, m - 1);
    }
  }

  /** For an even number of taps the symmetric-pair form is the generic dot product on every
      window if and only if the taps are a palindrome. */
  lemma FormsAgreeIff(kernel: seq<real>)
    requires |kernel| % 2 == 0
    ensures FormsAgree(kernel) <==> Palindromic(kernel)
  {
    var n := |kernel|;
    if Palindromic(kernel) {
      forall w: seq<real> | |w| == n
        ensures Tap(Symmetric, kernel, w) == Tap(Generic, kernel, w)
      {
        PairsFromBothEnds(kernel, w, n / 2);
      }
    }
    if FormsAgree(kernel) {
      forall j | 0 <= j < n
        ensures kernel[j] == kernel[n - 1 - j]
      {
        var i := if j < n / 2 then j else n - 1 - j;
        var w := Unit(n, n - 1 - i);
        assert Tap(Symmetric, kernel, w) == Tap(Generic, kernel, w);
        DotOfUnit(kernel, n - 1 - i, n);
        PairDotOfUnit(kernel, i, n / 2);
      }
    }
  }

  /** So on a palindrome of even length the two forms run alike over any samples, and as both
      leave the same history behind, over any sequence of calls. */
  lemma {:induction false} FormsRunAlike(kernel: seq<real>, hist: seq<real>, xs: seq<real>)
    requires |kernel| % 2 == 0 && |kernel| == |hist| + 1 && Palindromic(kernel)
    ensures FirOut(Symmetric, kernel, hist, xs) == FirOut(Generic, kernel, hist, xs)
  {
    hide Tap, HistAfter;
    if xs != [] {
      var was := xs[..|xs| - 1];
      FormsRunAlike(kernel, hist, was);
      FormsAgreeIff(kernel);
      var w := [xs[|xs| - 1]] + HistAfter(hist, was);
      assert Tap(Symmetric, kernel, w) == Tap(Generic, kernel, w);
    }
  }

  // ---------- the stock kernel ----------

  const HALF: seq<real> := [
    -0.00099860627294751, 0.001695637278417295, -0.003054430179754289, 0.005055504379767936,
    -0.007901319195893647, 0.011873357051047719, -0.017411159379930066, 0.025304817427568772,
    -0.037225225204559217, 0.057533286997004301, -0.10232746200425935
  ]
  const CENTRE: seq<real> := [0.3170344725089474, 0.3170344725089474]
  const OTHER_HALF: seq<real> := [
    -0.10232746200425935, 0.057533286997004301, -0.037225225204559217, 0.025304817427568772,
    -0.017411159379930066, 0.011873357051047719, -0.007901319195893647, 0.005055504379767936,
    -0.003054430179754289, 0.001695637278417295, -0.00099860627294751
  ]

  /** The stock kernel takes the symmetric form, rightly. */
  lemma StockKernelIsSymmetric()
    ensures var k := Evens(HB_KERNEL_FLOAT);
            && k == HALF + CENTRE + OTHER_HALF
            && |k| == 24 && FormFor(k) == Symmetric && Palindromic(k) && FormsAgree(k)
  {
    assert Evens(HB_FLOAT_HALF) == HALF;
    assert Evens(HB_FLOAT_CENTRE) == CENTRE;
    assert Evens(HB_FLOAT_OTHER_HALF) == OTHER_HALF;
    EvensAppend(HB_FLOAT_HALF, HB_FLOAT_CENTRE);
    EvensAppend(HB_FLOAT_HALF + HB_FLOAT_CENTRE, HB_FLOAT_OTHER_HALF);
    var k := Evens(HB_KERNEL_FLOAT);
    assert k == HALF + CENTRE + OTHER_HALF;
    Mirrored();
    forall j | 0 <= j < 24
      ensures k[j] == k[23 - j]
    {
      if j < 11 {
        assert k[j] == HALF[j] && k[23 - j] == OTHER_HALF[10 - j];
      } else if j < 13 {
        assert k[j] == CENTRE[j - 11] && k[23 - j] == CENTRE[12 - j];
      } else {
        assert k[j] == OTHER_HALF[j - 13] && k[23 - j] == HALF[23 - j];
      }
    }
    FormsAgreeIff(k);
  }

  lemma Mirrored()
    ensures |HALF| == |OTHER_HALF| == 11
    ensures forall j | 0 <= j < 11 :: HALF[j] == OTHER_HALF[10 - j]
  {
  }

  // ---------- block boundaries ----------

  lemma {:induction false} DcAppend(avg: real, a: seq<real>, b: seq<real>)
    ensures AvgAfter(avg, a + b) == AvgAfter(AvgAfter(avg, a), b)
    ensures DcOut(avg, a + b) == DcOut(avg, a) + DcOut(AvgAfter(avg, a), b)
  {
    if b == [] {
      assert a + b == a;
    } else {
      var m := |b| - 1;
      assert (a + b)[..|a + b| - 1] == a + b[..m];
      DcAppend(avg, a, b[..m]);
    }
  }

  lemma PhasedAppend(a: seq<real>, b: seq<real>, hbc: real)
    requires |a| % 4 == 0
    ensures Phased(a + b, hbc) == Phased(a, hbc) + Phased(b, hbc)
  {
    hide Phase;
    var ab := Phased(a + b, hbc);
    assert |a + b| / 4 * 4 == |a| + |b| / 4 * 4 && |a| / 4 * 4 == |a|;
    forall i | 0 <= i < |ab|
      ensures ab[i] == (Phased(a, hbc) + Phased(b, hbc))[i]
    {
      if i >= |a| {
        SamePhase(i, i - |a|, (a + b)[i], hbc);
      }
    }
  }

  lemma SamePhase(i: nat, j: nat, v: real, hbc: real)
    requires (i - j) % 4 == 0
    ensures Phase(i, v, hbc) == Phase(j, v, hbc)
  {
    assert i % 4 == j % 4;
  }

  lemma {:induction false} FirAppend(form: Form, kernel: seq<real>, hist: seq<real>, a: seq<real>, b: seq<real>)
    requires |kernel| <= |hist| + 1
    ensures FirOut(form, kernel, hist, a + b)
         == FirOut(form, kernel, hist, a) + FirOut(form, kernel, HistAfter(hist, a), b)
  {
    hide Tap, HistAfter;
    if b == [] {
      assert a + b == a;
      assert FirOut(form, kernel, HistAfter(hist, a), b) == [];
    } else {
      var m := |b| - 1;
      assert (a + b)[..|a + b| - 1] == a + b[..m];
      HistAppend(hist, a, b[..m]);
      FirAppend(form, kernel, hist, a, b[..m]);
    }
  }

  lemma TranslateAppend(kernel: seq<real>, hist: seq<real>, line: seq<real>, p: seq<real>, q: seq<real>)
    requires |kernel| <= |hist| + 1 && |p| % 2 == 0
    ensures TranslateOut(kernel, hist, line, p + q)
         == TranslateOut(kernel, hist, line, p)
          + TranslateOut(kernel, HistAfter(hist, Evens(p)), DelayAfter(line, Odds(p)), q)
  {
    hide Evens, Odds, Interleave, HistAfter, FirOut, DelayOut, DelayAfter, FormFor;
    EvensAppend(p, q);
    var form := FormFor(kernel);
    FirAppend(form, kernel, hist, Evens(p), Evens(q));
    DelayAppend(line, Odds(p), Odds(q));
    var hist', line' := HistAfter(hist, Evens(p)), DelayAfter(line, Odds(p));
    InterleaveAppend(FirOut(form, kernel, hist, Evens(p)), DelayOut(line, Odds(p)),
                     FirOut(form, kernel, hist', Evens(q)), DelayOut(line', Odds(q)));
  }

  /** A call on `a` then a call on `b` is one call on `a + b`, when `a` is whole chunks of four. */
  lemma ProcessAppend(kernel: seq<real>, hbc: real, s: State, a: seq<real>, b: seq<real>)
    requires |kernel| <= |s.hist| + 1 && |a| % 4 == 0
    ensures ProcessOut(kernel, hbc, s, a + b)
         == ProcessOut(kernel, hbc, s, a) + ProcessOut(kernel, hbc, ProcessState(hbc, s, a), b)
    ensures ProcessState(hbc, s, a + b) == ProcessState(hbc, ProcessState(hbc, s, a), b)
  {
    hide AvgAfter, DcOut, Evens, Odds, Phased, HistAfter, DelayAfter, TranslateOut;
    DcAppend(s.avg, a, b);
    var p, q := Phased(DcOut(s.avg, a), hbc), Phased(DcOut(AvgAfter(s.avg, a), b), hbc);
    PhasedAppend(DcOut(s.avg, a), DcOut(AvgAfter(s.avg, a), b), hbc);
    TranslateAppend(kernel, s.hist, s.line, p, q);
    EvensAppend(p, q);
    HistAppend(s.hist, Evens(p), Evens(q));
    DelayAppend(s.line, Odds(p), Odds(q));
  }

  // ---------- and only then ----------

  /** No split after `n` samples can ever be seen. */
  ghost predicate SplitInvisible(kernel: seq<real>, hbc: real, n: nat)
    requires |kernel| >= 1
  {
    forall s: State, a: seq<real>, b: seq<real> | |s.hist| == |kernel| - 1 && s.line != [] && |a| == n ::
      ProcessOut(kernel, hbc, s, a + b)
      == ProcessOut(kernel, hbc, s, a) + ProcessOut(kernel, hbc, ProcessState(hbc, s, a), b)
  }

  function Silent(h: nat, d: nat): State {
    State(0.0, Zeros(h), Zeros(d))
  }

  lemma {:induction false} SilenceDc(n: nat)
    ensures AvgAfter(0.0, Zeros(n)) == 0.0 && DcOut(0.0, Zeros(n)) == Zeros(n)
  {
    if n > 0 {
      SilenceDc(n - 1);
      assert Zeros(n)[..n - 1] == Zeros(n - 1);
      assert Zeros(n) == Zeros(n - 1) + [0.0];
    }
  }

  lemma {:induction false} SilenceHist(h: nat, n: nat)
    ensures HistAfter(Zeros(h), Zeros(n)) == Zeros(h)
  {
    if n > 0 {
      SilenceHist(h, n - 1);
      assert Zeros(n)[..n - 1] == Zeros(n - 1);
    }
  }

  lemma SilencePhases(n: nat, hbc: real)
    ensures Phased(Zeros(n), hbc) == Zeros(n)
    ensures Evens(Zeros(n)) == Zeros((n + 1) / 2) && Odds(Zeros(n)) == Zeros(n / 2)
  {
  }

  lemma SilenceKeepsSilent(h: nat, d: nat, hbc: real, n: nat)
    ensures ProcessState(hbc, Silent(h, d), Zeros(n)) == Silent(h, d)
  {
    hide AvgAfter, DcOut, Phased, Evens, Odds, HistAfter;
    SilenceDc(n);
    SilencePhases(n, hbc);
    SilenceHist(h, (n + 1) / 2);
    assert DelayAfter(Zeros(d), Zeros(n / 2)) == Zeros(d);
  }

  lemma {:induction false} FirOutAt(form: Form, kernel: seq<real>, hist: seq<real>, xs: seq<real>, t: nat)
    requires |kernel| <= |hist| + 1 && t < |xs|
    ensures FirOut(form, kernel, hist, xs)[t] == Tap(form, kernel, [xs[t]] + HistAfter(hist, xs[..t]))
  {
    hide Tap, HistAfter;
    var was := xs[..|xs| - 1];
    if t < |was| {
      FirOutAt(form, kernel, hist, was, t);
      assert was[..t] == xs[..t];
    }
  }

  lemma {:induction false} DotOfImpulse(kernel: seq<real>, v: real, n: nat)
    requires 1 <= n <= |kernel|
    ensures Dot(kernel, [v] + Zeros(|kernel| - 1), n) == kernel[0] * v
  {
    if n > 1 {
      DotOfImpulse(kernel, v, n - 1);
    }
  }

  lemma {:induction false} PairDotOfImpulse(kernel: seq<real>, v: real, n: nat)
    requires 1 <= n && 2 * n <= |kernel|
    ensures PairDot(kernel, [v] + Zeros(|kernel| - 1), n) == kernel[0] * v
  {
    if n > 1 {
      PairDotOfImpulse(kernel, v, n - 1);
    }
  }

  /** In either form an impulse first meets the first tap. */
  lemma TapOfImpulse(form: Form, kernel: seq<real>, v: real)
    requires |kernel| >= 2
    ensures Tap(form, kernel, [v] + Zeros(|kernel| - 1)) == kernel[0] * v
  {
    DotOfImpulse(kernel, v, |kernel| / 2 * 2);
    PairDotOfImpulse(kernel, v, |kernel| / 2);
  }

  const IMPULSE := [1.0, 0.0, 0.0, 0.0]

  /** A whole chunk with one sample in front, after `n` silent ones. */
  lemma ImpulsePhased(n: nat, hbc: real)
    ensures var p := Phased(DcOut(0.0, Zeros(n) + IMPULSE), hbc);
            |p| == n + 4 && p[..n] == Zeros(n) && p[n] == Phase(n, 1.0, hbc)
  {
    hide Phase;
    SilenceDc(n);
    DcAppend(0.0, Zeros(n), IMPULSE);
    var ys := DcOut(0.0, Zeros(n) + IMPULSE);
    assert ys == Zeros(n) + DcOut(0.0, IMPULSE);
    ImpulseFirst();
    forall i | 0 <= i < n
      ensures Phased(ys, hbc)[i] == 0.0
    {
      PhaseOfZero(i, hbc);
    }
  }

  lemma {:induction false} DcOutFirst(xs: seq<real>)
    requires xs != []
    ensures DcOut(0.0, xs)[0] == xs[0]
  {
    if |xs| > 1 {
      DcOutFirst(xs[..|xs| - 1]);
    }
  }

  lemma ImpulseFirst()
    ensures DcOut(0.0, IMPULSE)[0] == 1.0
  {
    DcOutFirst(IMPULSE);
  }

  lemma PhaseOfZero(i: nat, hbc: real)
    ensures Phase(i, 0.0, hbc) == 0.0
  {
  }

  /** What the impulse's own output is. */
  lemma ImpulseAfterSilence(kernel: seq<real>, hbc: real, d: nat, n: nat)
    requires |kernel| >= 2 && d >= 1
    ensures ProcessOut(kernel, hbc, Silent(|kernel| - 1, d), Zeros(n) + IMPULSE)[n]
         == match n % 4 case 0 => -kernel[0] case 2 => kernel[0] case _ => 0.0
  {
    hide Phased, DcOut, TranslateOut, Phase, Zeros;
    var p := Phased(DcOut(0.0, Zeros(n) + IMPULSE), hbc);
    ImpulsePhased(n, hbc);
    ImpulseTranslated(kernel, d, p, n);
    EvenPhases(n);
    PhaseOfOne(n, hbc);
  }

  lemma PhaseOfOne(n: nat, hbc: real)
    ensures n % 4 == 0 ==> Phase(n, 1.0, hbc) == -1.0
    ensures n % 4 == 2 ==> Phase(n, 1.0, hbc) == 1.0
  {
  }

  lemma EvenPhases(n: nat)
    ensures n % 2 == 0 <==> n % 4 == 0 || n % 4 == 2
  {
  }

  lemma ImpulseTranslated(kernel: seq<real>, d: nat, p: seq<real>, n: nat)
    requires |kernel| >= 2 && d >= 1 && n < |p| && p[..n] == Zeros(n)
    ensures TranslateOut(kernel, Zeros(|kernel| - 1), Zeros(d), p)[n] == if n % 2 == 0 then kernel[0] * p[n] else 0.0
  {
    hide FirOut, HistAfter, Tap, FormFor;
    if n % 2 == 0 {
      var e := Evens(p);
      FirOutAt(FormFor(kernel), kernel, Zeros(|kernel| - 1), e, n / 2);
      assert forall i | 0 <= i < n / 2 :: e[i] == p[..n][2 * i];
      assert e[..n / 2] == Zeros(n / 2);
      SilenceHist(|kernel| - 1, n / 2);
      TapOfImpulse(FormFor(kernel), kernel, p[n]);
    } else {
      assert forall i | 0 <= i < n / 2 :: Odds(p)[i] == p[..n][2 * i + 1];
    }
  }

  /** The float converter's phase restarts with every call as well, and a partial tail is not even
      multiplied: for every kernel whose first tap is not zero a split is invisible if and only if it
      falls on a whole chunk of four. */
  lemma SplitInvisibleIff(kernel: seq<real>, hbc: real, n: nat)
    requires |kernel| >= 2 && kernel[0] != 0.0
    ensures SplitInvisible(kernel, hbc, n) <==> n % 4 == 0
  {
    hide ProcessOut, ProcessState;
    if n % 4 == 0 {
      forall s: State, a: seq<real>, b: seq<real> | |s.hist| == |kernel| - 1 && s.line != [] && |a| == n
        ensures ProcessOut(kernel, hbc, s, a + b)
             == ProcessOut(kernel, hbc, s, a) + ProcessOut(kernel, hbc, ProcessState(hbc, s, a), b)
      {
        ProcessAppend(kernel, hbc, s, a, b);
      }
    } else {
      var s := Silent(|kernel| - 1, 1);
      ImpulseAfterSilence(kernel, hbc, 1, n);
      ImpulseAfterSilence(kernel, hbc, 1, 0);
      assert Zeros(0) + IMPULSE == IMPULSE;
      SilenceKeepsSilent(|kernel| - 1, 1, hbc, n);
      assert ProcessOut(kernel, hbc, s, Zeros(n) + IMPULSE)[n]
          != (ProcessOut(kernel, hbc, s, Zeros(n)) + ProcessOut(kernel, hbc, s, IMPULSE))[n];
    }
  }
}
