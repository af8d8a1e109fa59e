/** What the fixed-point DC blocker promises: its error feedback loses nothing, its output
    is conserved over any run, and it is exact precisely on inputs spanning less than 2^15. */
module DcProperties {
  import opened MachineInts
  import opened IqInt16Spec

  /** The feedback term before the shift, over unbounded integers. */
  function Feedback(s: DcState): int {
    s.e + s.y * DC_POLE_Q15
  }

  /** The next output before its truncating cast. */
  function Unwrapped(s: DcState, x: i16): int {
    x - s.x + Feedback(s) / Q15
  }

  /** With the error in its range, only the output cast can ever lose anything: the feedback
      term, the shifted value and the new error all fit their integer widths, the truncation of
      the input difference is absorbed, and the new error is again in range. */
  lemma ErrorFeedbackLosesNothing(s: DcState, x: i16)
    requires 0 <= s.e < Q15
    ensures DcStep(s, x) == DcState(x, Wrap16(Unwrapped(s, x)), Feedback(s) % Q15)
    ensures 0 <= DcStep(s, x).e < Q15
  {
    hide Wrap16, Wrap32;
    var u := Feedback(s);
    var sh := u / Q15;
    Wrap32Fits(s.y * DC_POLE_Q15);
    Wrap32Fits(u);
    Wrap16Fits(sh);
    Wrap32Fits(sh * Q15);
    Wrap32Fits(u - sh * Q15);
    Wrap16Absorbs(x - s.x, sh);
  }

  function Sum(ys: seq<int>): int {
    if ys == [] then 0 else Sum(ys[..|ys| - 1]) + ys[|ys| - 1]
  }

  lemma SumSnoc(ys: seq<int>, y: int)
    ensures Sum(ys + [y]) == Sum(ys) + y
  {
    assert (ys + [y])[..|ys|] == ys;
  }

  /** How many times 2^16 the output casts took off over a run, net. */
  function NetTurns(s: DcState, xs: seq<i16>): int {
    if xs == [] then 0
    else
      var was := xs[..|xs| - 1];
      NetTurns(s, was) + Turns16(Unwrapped(DcAfter(s, was), xs[|xs| - 1]))
  }

  lemma StepConserved(s: DcState, x: i16)
    requires 0 <= s.e < Q15
    ensures var z := DcStep(s, x);
            && 0 <= z.e < Q15
            && Q15 * z.y + Q15 * 0x1_0000 * Turns16(Unwrapped(s, x))
               == Q15 * (z.x - s.x) + (s.e - z.e) + DC_POLE_Q15 * s.y
  {
    hide DcStep, Wrap16, Turns16;
    ErrorFeedbackLosesNothing(s, x);
    Wrap16Is(Unwrapped(s, x));
  }

  /** Conservation over every run of every input, wrapped or not. */
  lemma {:induction false} OutputConserved(s: DcState, xs: seq<i16>)
    requires 0 <= s.e < Q15
    ensures var z := DcAfter(s, xs);
            && 0 <= z.e < Q15
            && (Q15 - DC_POLE_Q15) * Sum(DcOut(s, xs)) + Q15 * 0x1_0000 * NetTurns(s, xs)
               == Q15 * (z.x - s.x) + (s.e - z.e) - DC_POLE_Q15 * (z.y - s.y)
  {
    hide Turns16, DcStep, Unwrapped;
    if xs != [] {
      var was, x := xs[..|xs| - 1], xs[|xs| - 1];
      OutputConserved(s, was);
      var m := DcAfter(s, was);
      StepConserved(m, x);
      SumSnoc(DcOut(s, was), DcStep(m, x).y);
    }
  }

  /** While no output wraps, the summed output stays within one bound however long the run. */
  lemma SumBounded(s: DcState, xs: seq<i16>)
    requires 0 <= s.e < Q15 && NetTurns(s, xs) == 0
    ensures -6_364_200 <= Sum(DcOut(s, xs)) <= 6_364_200
  {
    OutputConserved(s, xs);
  }

  // ---------- the convex hull ----------

  predicate Within(xs: seq<int>, lo: int, hi: int) {
    forall i | 0 <= i < |xs| :: lo <= xs[i] <= hi
  }

  predicate Between(v: int, a: int, b: int) {
    a <= v <= b || b <= v <= a
  }

  /** The tracked DC level `x - y` and the last input lie in the hull of the inputs and 0. */
  predicate InHull(s: DcState, lo: int, hi: int) {
    && 0 <= s.e < Q15
    && lo <= s.x <= hi
    && lo <= s.x - s.y <= hi
  }

  /** Before its output is cast, one step moves the tracked level towards the previous input and
      never past it. */
  lemma LevelMovesTowardsInput(s: DcState, x: i16)
    requires 0 <= s.e < Q15
    ensures Between(x - Unwrapped(s, x), s.x - s.y, s.x)
  {
    var sh := Feedback(s) / Q15;
    assert x - Unwrapped(s, x) == s.x - sh;
    if s.y >= 0 {
      assert 0 <= Feedback(s) < Q15 * s.y + Q15;
    } else {
      assert Q15 * s.y <= Feedback(s) < Q15;
    }
  }

  /** On inputs of limited span the output is not changed by the cast, so neither is the move. */
  lemma HullStep(s: DcState, x: i16, lo: int, hi: int)
    requires InHull(s, lo, hi) && lo <= x <= hi && hi - lo <= 32767
    ensures DcStep(s, x).y == Unwrapped(s, x)
    ensures InHull(DcStep(s, x), lo, hi)
    ensures Turns16(Unwrapped(s, x)) == 0
    ensures Between(x - DcStep(s, x).y, s.x - s.y, s.x)
  {
    hide DcStep;
    LevelMovesTowardsInput(s, x);
    ErrorFeedbackLosesNothing(s, x);
    Wrap16Fits(Unwrapped(s, x));
  }

  lemma {:induction false} HullRun(s: DcState, xs: seq<i16>, lo: int, hi: int)
    requires InHull(s, lo, hi) && Within(xs, lo, hi) && hi - lo <= 32767
    ensures InHull(DcAfter(s, xs), lo, hi)
    ensures Within(DcOut(s, xs), lo - hi, hi - lo)
    ensures NetTurns(s, xs) == 0
  {
    hide Turns16, DcStep, Unwrapped;
    if xs != [] {
      var n := |xs| - 1;
      HullRun(s, xs[..n], lo, hi);
      HullStep(DcAfter(s, xs[..n]), xs[n], lo, hi);
    }
  }

  // ---------- exactly when the blocker is exact ----------

  function Repeat(x: i16, n: nat): (r: seq<i16>)
    ensures |r| == n
  {
    if n == 0 then [] else Repeat(x, n - 1) + [x]
  }

  lemma {:induction false} RunAppend(s: DcState, a: seq<i16>, b: seq<i16>)
    ensures DcAfter(s, a + b) == DcAfter(DcAfter(s, a), b)
    ensures DcOut(s, a + b) == DcOut(s, a) + DcOut(DcAfter(s, a), b)
  {
    hide DcStep;
    if b == [] {
      assert a + b == a;
    } else {
      var m := |b| - 1;
      assert (a + b)[..|a + b| - 1] == a + b[..m];
      RunAppend(s, a, b[..m]);
    }
  }

  /** Fed a constant input, the blocker's output reaches exactly 0. */
  lemma {:induction false} Settles(s: DcState, x: i16) returns (n: nat)
    requires s.x == x && 0 <= s.e < Q15
    ensures var z := DcAfter(s, Repeat(x, n)); z.x == x && z.y == 0 && 0 <= z.e < Q15
    decreases if s.y < 0 then -(s.y as int) else s.y, if s.y < 0 then Q15 - s.e else s.e
  {
    assert Repeat(x, 0) == [];
    hide DcStep, Wrap16, Repeat;
    if s.y == 0 {
      n := 0;
    } else {
      var s' := DcStep(s, x);
      ErrorFeedbackLosesNothing(s, x);
      if s.y < 0 {
        assert s.y <= Feedback(s) / Q15 <= 0;
      } else {
        assert 0 <= Feedback(s) / Q15 <= s.y;
      }
      Wrap16Fits(Unwrapped(s, x));
      var k := Settles(s', x);
      n := k + 1;
      RepeatFront(x, k);
      RunFront(s, x, Repeat(x, k));
    }
  }

  lemma {:induction false} StaysSettled(s: DcState, x: i16, n: nat)
    requires s.x == x && s.y == 0 && 0 <= s.e < Q15
    ensures DcAfter(s, Repeat(x, n)) == s
  {
    hide DcStep, Wrap16;
    if n > 0 {
      StaysSettled(s, x, n - 1);
      assert Repeat(x, n)[..n - 1] == Repeat(x, n - 1);
      ErrorFeedbackLosesNothing(s, x);
      Wrap16Fits(0);
    }
  }

  lemma {:induction false} RepeatSplit(x: i16, m: nat, n: nat)
    ensures Repeat(x, m + n) == Repeat(x, m) + Repeat(x, n)
  {
    if n > 0 {
      RepeatSplit(x, m, n - 1);
    }
  }

  /** On a constant input the output is exactly 0 from the `n`-th sample on. */
  ghost predicate ZeroFrom(s: DcState, x: i16, n: nat) {
    forall m: nat | m >= n :: DcAfter(s, Repeat(x, m)).y == 0
  }

  /** What the blocker is for: from every state it can be in, a constant input of any level is
      in the end removed completely. */
  lemma ConstantRemoved(s: DcState, x: i16)
    requires 0 <= s.e < Q15
    ensures exists n: nat :: ZeroFrom(s, x, n)
  {
    hide DcStep, DcAfter, Repeat, Wrap16;
    ErrorFeedbackLosesNothing(s, x);
    var k := Settles(DcStep(s, x), x);
    RepeatFront(x, k);
    RunFront(s, x, Repeat(x, k));
    forall m: nat | m >= k + 1
      ensures DcAfter(s, Repeat(x, m)).y == 0
    {
      RepeatSplit(x, k + 1, m - (k + 1));
      RunAppend(s, Repeat(x, k + 1), Repeat(x, m - (k + 1)));
      StaysSettled(DcAfter(s, Repeat(x, k + 1)), x, m - (k + 1));
    }
    assert ZeroFrom(s, x, k + 1);
  }

  lemma RunFront(s: DcState, x: i16, xs: seq<i16>)
    ensures DcAfter(s, [x] + xs) == DcAfter(DcStep(s, x), xs)
  {
    hide DcStep;
    RunAppend(s, [x], xs);
    assert [x][..0] == [];
  }

  lemma {:induction false} RepeatFront(x: i16, k: nat)
    ensures Repeat(x, k + 1) == [x] + Repeat(x, k)
    ensures forall i | 0 <= i < k :: Repeat(x, k)[i] == x
  {
    if k > 0 {
      RepeatFront(x, k - 1);
    }
  }

  /** No output of a fresh blocker is truncated on any run of inputs within `lo..hi`. */
  ghost predicate ExactOn(lo: i16, hi: i16) {
    forall xs: seq<i16>, x: i16 | Within(xs, lo, hi) && lo <= x <= hi ::
      DcAfter(DC_FRESH, xs + [x]).y == Unwrapped(DcAfter(DC_FRESH, xs), x)
  }

  /** The hull bound is the whole truth: a fresh blocker is exact on an input range around 0
      if and only if the range spans at most 32767. */
  lemma ExactIff(lo: i16, hi: i16)
    requires lo <= 0 <= hi
    ensures ExactOn(lo, hi) <==> hi - lo <= 32767
  {
    if hi - lo <= 32767 {
      forall xs: seq<i16>, x: i16 | Within(xs, lo, hi) && lo <= x <= hi
        ensures DcAfter(DC_FRESH, xs + [x]).y == Unwrapped(DcAfter(DC_FRESH, xs), x)
      {
        HullRun(DC_FRESH, xs, lo, hi);
        HullStep(DcAfter(DC_FRESH, xs), x, lo, hi);
        assert (xs + [x])[..|xs|] == xs;
      }
    } else {
      var xs := WrappingRun(lo, hi);
      assert (xs + [hi])[..|xs|] == xs;
    }
  }

  /** Hold one input until the output has settled, for a number of samples of the wanted residue
      modulo 4. */
  lemma SettledRun(x: i16, r: nat) returns (xs: seq<i16>)
    requires r < 4
    ensures |xs| % 4 == r && Within(xs, x, x)
    ensures var z := DcAfter(DC_FRESH, xs); z.x == x && z.y == 0 && 0 <= z.e < Q15
  {
    hide DcStep, DcAfter, Wrap16, Repeat;
    ErrorFeedbackLosesNothing(DC_FRESH, x);
    var n := Settles(DcStep(DC_FRESH, x), x);
    var d := (r + 3 * (n + 1)) % 4;
    RepeatSplit(x, n, d);
    RunAppend(DcStep(DC_FRESH, x), Repeat(x, n), Repeat(x, d));
    StaysSettled(DcAfter(DcStep(DC_FRESH, x), Repeat(x, n)), x, d);
    RepeatFront(x, n + d);
    RunFront(DC_FRESH, x, Repeat(x, n + d));
    xs := [x] + Repeat(x, n + d);
  }

  /** Hold the lowest input until the output has settled, then jump to the highest. */
  lemma WrappingRun(lo: i16, hi: i16) returns (xs: seq<i16>)
    requires lo <= 0 <= hi && hi - lo > 32767
    ensures |xs| % 4 == 2 && Within(xs, lo, lo)
    ensures Unwrapped(DcAfter(DC_FRESH, xs), hi) == hi - lo && 0 <= DcAfter(DC_FRESH, xs).e < Q15
  {
    xs := SettledRun(lo, 2);
  }
}
