/** The whole fixed-point converter over any sequence of calls: when block boundaries are
    invisible, and when it equals the filter over unbounded integers. */
module ConverterProperties {
  import opened MachineInts
  import opened Interleaving
  import opened SampleHistory
  import opened IqInt16Spec
  import opened IqConverterInt16
  import opened DcProperties
  import opened FirProperties
  import opened Filters
  import opened Bits

  // ---------- the output in closed form ----------

  lemma DelayIsShift(d: nat, xs: seq<i16>, t: nat)
    requires t < |xs|
    ensures DelayOut(Zeros(d), xs)[t] == At(xs, t - d)
  {
  }

  /** Everything a fresh converter puts out, for every kernel and every input: I is the shifted-down
      convolution of the even phase samples, Q the odd ones delayed by a quarter of the kernel. */
  lemma OutputInClosedForm(hbKernel: seq<i16>, xs: seq<i16>, t: nat)
    requires |hbKernel| >= 2
    ensures var k, p := KeptTaps(hbKernel), Phased(DcOut(DC_FRESH, xs));
            var out := ProcessOut(k, FreshState(hbKernel), xs);
            && (2 * t < |xs| ==> out[2 * t] == Wrap16(Wrap32(Convolution(k, Evens(p), t, |k|)) / Q15))
            && (2 * t + 1 < |xs| ==> out[2 * t + 1] == At(Odds(p), t - (|hbKernel| / 2 + 1) / 2))
  {
    hide Wrap16, Wrap32, DcOut, Phased, FirOut, DelayOut, Convolution, Interleave, KeptTaps, Zeros;
    var k, s, p := KeptTaps(hbKernel), FreshState(hbKernel), Phased(DcOut(DC_FRESH, xs));
    var out := ProcessOut(k, s, xs);
    assert Evens(out) == FirOut(k, s.hist, Evens(p)) && Odds(out) == DelayOut(s.line, Odds(p));
    if 2 * t < |xs| {
      assert out[2 * t] == Evens(out)[t];
      FirIsConvolution(hbKernel, Evens(p), t);
    }
    if 2 * t + 1 < |xs| {
      assert out[2 * t + 1] == Odds(out)[t];
      DelayIsShift((|hbKernel| / 2 + 1) / 2, Odds(p), t);
    }
  }

  // ---------- block boundaries ----------

  lemma PhasedAppend(a: seq<i16>, b: seq<i16>)
    requires |a| % 4 == 0
    ensures Phased(a + b) == Phased(a) + Phased(b)
  {
    hide Phase;
    forall i | |a| <= i < |a| + |b|
      ensures Phased(a + b)[i] == Phased(b)[i - |a|]
    {
      SamePhase(i, i - |a|, (a + b)[i]);
    }
  }

  lemma SamePhase(i: nat, j: nat, v: i16)
    requires (i - j) % 4 == 0
    ensures Phase(i, v) == Phase(j, v)
  {
    hide Wrap16;
    assert i % 4 == j % 4;
  }

  lemma TranslateAppend(kernel: seq<int>, hist: seq<int>, line: seq<i16>, p: seq<i16>, q: seq<i16>)
    requires |kernel| <= |hist| + 1 && |p| % 2 == 0
    ensures TranslateOut(kernel, hist, line, p + q)
         == TranslateOut(kernel, hist, line, p)
          + TranslateOut(kernel, HistAfter(hist, Evens(p)), DelayAfter(line, Odds(p)), q)
  {
    hide Evens, Odds, Interleave, HistAfter, FirOut, DelayOut, DelayAfter;
    EvensAppend(p, q);
    FirAppend(kernel, hist, Evens(p), Evens(q));
    DelayAppend(line, Odds(p), Odds(q));
    var hist', line' := HistAfter(hist, Evens(p)), DelayAfter(line, Odds(p));
    InterleaveAppend(FirOut(kernel, hist, Evens(p)), DelayOut(line, Odds(p)),
                     FirOut(kernel, hist', Evens(q)), DelayOut(line', Odds(q)));
  }

  /** A call on `a` then a call on `b` is one call on `a + b`, when `a` ends on a phase boundary. */
  lemma ProcessAppend(kernel: seq<int>, s: ConvState, a: seq<i16>, b: seq<i16>)
    requires |kernel| <= |s.hist| + 1 && |a| % 4 == 0
    ensures ProcessOut(kernel, s, a + b) == ProcessOut(kernel, s, a) + ProcessOut(kernel, ProcessState(s, a), b)
    ensures ProcessState(s, a + b) == ProcessState(ProcessState(s, a), b)
  {
    hide DcAfter, DcOut, Evens, Odds, TranslateOut, Phased, HistAfter, DelayAfter;
    RunAppend(s.dc, a, b);
    var p, q := Phased(DcOut(s.dc, a)), Phased(DcOut(DcAfter(s.dc, a), b));
    PhasedAppend(DcOut(s.dc, a), DcOut(DcAfter(s.dc, a), b));
    TranslateAppend(kernel, s.hist, s.line, p, q);
    EvensAppend(p, q);
    HistAppend(s.hist, Evens(p), Evens(q));
    DelayAppend(s.line, Odds(p), Odds(q));
  }

  function RunOut(kernel: seq<int>, s: ConvState, blocks: seq<seq<i16>>): seq<i16>
    requires |kernel| <= |s.hist| + 1
  {
    if blocks == [] then []
    else
      var was := blocks[..|blocks| - 1];
      RunOut(kernel, s, was) + ProcessOut(kernel, RunState(s, was), blocks[|blocks| - 1])
  }

  function RunState(s: ConvState, blocks: seq<seq<i16>>): (r: ConvState)
    ensures |r.hist| == |s.hist|
  {
    if blocks == [] then s
    else ProcessState(RunState(s, blocks[..|blocks| - 1]), blocks[|blocks| - 1])
  }

  function Concat<T>(blocks: seq<seq<T>>): seq<T> {
    if blocks == [] then [] else Concat(blocks[..|blocks| - 1]) + blocks[|blocks| - 1]
  }

  lemma {:induction false} ConcatAligned<T>(blocks: seq<seq<T>>, m: nat)
    requires m > 0 && forall i | 0 <= i < |blocks| :: |blocks[i]| % m == 0
    ensures |Concat(blocks)| % m == 0
  {
    if blocks != [] {
      ConcatAligned(blocks[..|blocks| - 1], m);
      AddMultiples(|Concat(blocks[..|blocks| - 1])|, |blocks[|blocks| - 1]|, m);
    }
  }

  lemma AddMultiples(a: nat, b: nat, m: nat)
    requires m > 0 && a % m == 0 && b % m == 0
    ensures (a + b) % m == 0
  {
    assert m * (a / m + b / m) == m * (a / m) + m * (b / m);
    DivModUnique(a + b, m, a / m + b / m, 0);
  }

  /** Any number of calls on aligned blocks equals one call on their concatenation; the last
      block may have any length. */
  lemma {:induction false} BlocksAreOneCall(kernel: seq<int>, s: ConvState, blocks: seq<seq<i16>>)
    requires |kernel| <= |s.hist| + 1
    requires forall i | 0 <= i < |blocks| - 1 :: |blocks[i]| % 4 == 0
    ensures RunOut(kernel, s, blocks) == ProcessOut(kernel, s, Concat(blocks))
    ensures RunState(s, blocks) == ProcessState(s, Concat(blocks))
  {
    hide ProcessOut, ProcessState;
    if blocks == [] {
      NothingProcessed(kernel, s);
    } else {
      var was := blocks[..|blocks| - 1];
      BlocksAreOneCall(kernel, s, was);
      ConcatAligned(was, 4);
      ProcessAppend(kernel, s, Concat(was), blocks[|blocks| - 1]);
    }
  }

  lemma NothingProcessed(kernel: seq<int>, s: ConvState)
    requires |kernel| <= |s.hist| + 1
    ensures ProcessOut(kernel, s, []) == [] && ProcessState(s, []) == s
  {
  }

  // ---------- and only when ----------

  /** With the stock kernel, no split after `n` samples can ever be seen. */
  ghost predicate SplitInvisible(n: nat) {
    forall s: ConvState, a: seq<i16>, b: seq<i16> | |s.hist| == 23 && |s.line| == 12 && |a| == n ::
      ProcessOut(STOCK_TAPS, s, a + b) == ProcessOut(STOCK_TAPS, s, a) + ProcessOut(STOCK_TAPS, ProcessState(s, a), b)
  }

  const SILENT := ConvState(DC_FRESH, Zeros(23), Zeros(12))

  /** A fresh converter with the stock kernel. */
  lemma FreshIsSilent()
    ensures KeptTaps(HB_KERNEL_INT16) == STOCK_TAPS && FreshState(HB_KERNEL_INT16) == SILENT
  {
    StockTaps();
  }

  lemma {:induction false} SilenceDc(n: nat)
    ensures DcAfter(DC_FRESH, Zeros(n)) == DC_FRESH && DcOut(DC_FRESH, Zeros(n)) == Zeros(n)
  {
    hide DcStep, Wrap16;
    if n > 0 {
      SilenceDc(n - 1);
      assert Zeros(n)[..n - 1] == Zeros(n - 1) && Zeros(n) == Zeros(n - 1) + [0];
      ErrorFeedbackLosesNothing(DC_FRESH, 0);
      Wrap16Fits(0);
    }
  }

  lemma {:induction false} SilenceHist(h: nat, n: nat)
    ensures HistAfter<int>(Zeros(h), Zeros(n)) == Zeros(h)
  {
    if n > 0 {
      SilenceHist(h, n - 1);
      assert Zeros(n)[..n - 1] == Zeros(n - 1);
    }
  }

  lemma SilencePhases(n: nat)
    ensures Phased(Zeros(n)) == Zeros(n)
    ensures Evens(Zeros(n)) == Zeros((n + 1) / 2) && Odds(Zeros(n)) == Zeros(n / 2)
  {
    forall i: nat
      ensures Phase(i, 0) == 0
    {
      Wrap16Fits(0);
    }
  }

  lemma SilenceKeepsSilent(n: nat)
    ensures ProcessState(SILENT, Zeros(n)) == SILENT
  {
    hide DcAfter, DcOut, Phased, Evens, Odds, HistAfter;
    SilenceDc(n);
    SilencePhases(n);
    SilenceHist(23, (n + 1) / 2);
    assert DelayAfter(Zeros(12), Zeros(n / 2)) == Zeros(12);
  }

  lemma {:induction false} DotOfImpulse(kernel: seq<int>, x: int, zs: seq<int>, n: nat)
    requires 1 <= n <= |kernel| <= |zs| + 1 && forall i | 0 <= i < |zs| :: zs[i] == 0
    ensures Dot(kernel, [x] + zs, n) == kernel[0] * x
  {
    if n > 1 {
      DotOfImpulse(kernel, x, zs, n - 1);
    }
  }

  lemma TapOfImpulse(x: i16)
    ensures FirTap(STOCK_TAPS, [x as int] + Zeros(23)) == -33 * x / Q15
  {
    hide Wrap16, Wrap32, Dot;
    DotOfImpulse(STOCK_TAPS, x, Zeros(23), 24);
    Wrap32Fits(-33 * x);
    Wrap16Fits(-33 * x / Q15);
  }

  /** What a sample after `n` silent ones looks like once translated. */
  lemma ImpulseTranslated(n: nat, v: i16)
    ensures TranslateOut(STOCK_TAPS, Zeros(23), Zeros(12), Zeros(n) + [v])[n]
         == if n % 2 == 0 then -33 * v / Q15 else 0
  {
    hide HistAfter, FirTap, FirOut;
    var p := Zeros(n) + [v];
    if n % 2 == 0 {
      var e := Evens(p);
      assert e == Zeros(n / 2) + [v];
      FirOutAt(STOCK_TAPS, Zeros(23), e, n / 2);
      assert e[..n / 2] == Zeros(n / 2);
      SilenceHist(23, n / 2);
      TapOfImpulse(v);
    } else {
      assert forall i | 0 <= i < n / 2 :: Odds(p)[i] == 0;
    }
  }

  lemma ImpulseReaches(n: nat, v: i16)
    ensures ProcessOut(STOCK_TAPS, SILENT, Zeros(n) + [v])
         == TranslateOut(STOCK_TAPS, Zeros(23), Zeros(12), Zeros(n) + [Phase(n, v)])
  {
    hide DcAfter, DcOut, Phase, Phased, TranslateOut;
    SilenceDc(n);
    RunAppend(DC_FRESH, Zeros(n), [v]);
    OneSample(v);
    PhasedImpulse(n, v);
  }

  /** A single full-scale sample after `n` silent ones: what the sample at `n` turns into. */
  lemma ImpulseAfterSilence(n: nat)
    ensures ProcessOut(STOCK_TAPS, SILENT, Zeros(n) + [32767])[n]
         == match n % 4 case 0 => 32 case 2 => -33 case _ => 0
  {
    hide ProcessOut, TranslateOut, Phase, Zeros;
    ImpulseReaches(n, 32767);
    ImpulseTranslated(n, Phase(n, 32767));
    if n % 2 == 0 {
      PhaseValue(n, 32767);
      assert n % 4 == 0 || n % 4 == 2;
    } else {
      assert n % 4 == 1 || n % 4 == 3;
    }
  }

  lemma OneSample(v: i16)
    ensures DcOut(DC_FRESH, [v]) == [v]
  {
    hide DcStep, Wrap16;
    assert [v][..0] == [] && DcAfter(DC_FRESH, []) == DC_FRESH && DcOut(DC_FRESH, []) == [];
    ErrorFeedbackLosesNothing(DC_FRESH, v);
    Wrap16Fits(v);
  }

  lemma PhasedImpulse(n: nat, v: i16)
    ensures Phased(Zeros(n) + [v]) == Zeros(n) + [Phase(n, v)]
  {
    SilencePhases(n);
    assert Phased(Zeros(n)) == Phased(Zeros(n) + [v])[..n];
  }

  lemma PhaseValue(n: nat, v: i16)
    requires n % 2 == 0 && v == 32767
    ensures Phase(n, v) == if n % 4 == 0 then -32767 else 32767
  {
    hide Wrap16;
    Wrap16Fits(-32767);
  }

  /** Because the fs/4 phase restarts on every call, a split is invisible if and only if it
      falls on a multiple of four samples. */
  lemma SplitInvisibleIff(n: nat)
    ensures SplitInvisible(n) <==> n % 4 == 0
  {
    hide ProcessOut, ProcessState;
    if n % 4 == 0 {
      forall s: ConvState, a: seq<i16>, b: seq<i16> | |s.hist| == 23 && |s.line| == 12 && |a| == n
        ensures ProcessOut(STOCK_TAPS, s, a + b)
             == ProcessOut(STOCK_TAPS, s, a) + ProcessOut(STOCK_TAPS, ProcessState(s, a), b)
      {
        ProcessAppend(STOCK_TAPS, s, a, b);
      }
    } else {
      var a, b: seq<i16> := Zeros(n), [32767];
      ImpulseAfterSilence(n);
      ImpulseAfterSilence(0);
      assert Zeros(0) + b == b;
      SilenceKeepsSilent(n);
    }
  }
}
