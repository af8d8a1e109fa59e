/** What the float DC removal promises, over exact arithmetic: the running average closes in on
    the input by a hundredth a sample, a constant dies away geometrically, and the output is
    conserved over any run. */
module FloatDc {
  import opened IqFloatSpec
  import opened FloatProperties

  /** One sample: the output is the input less the average so far, which then moves a hundredth of
      the way to the input. */
  lemma AverageMoves(avg: real, xs: seq<real>, x: real)
    ensures var was, now := AvgAfter(avg, xs), AvgAfter(avg, xs + [x]);
            && 100.0 * (now - was) == x - was
            && DcOut(avg, xs + [x]) == DcOut(avg, xs) + [x - was]
  {
    assert (xs + [x])[..|xs|] == xs;
  }

  function Sum(ys: seq<real>): real {
    if ys == [] then 0.0 else Sum(ys[..|ys| - 1]) + ys[|ys| - 1]
  }

  /** Over every run the summed output is a hundred times what the average has moved. */
  lemma {:induction false} OutputConserved(avg: real, xs: seq<real>)
    ensures Sum(DcOut(avg, xs)) == 100.0 * (AvgAfter(avg, xs) - avg)
  {
    if xs != [] {
      var n := |xs| - 1;
      OutputConserved(avg, xs[..n]);
      AverageMoves(avg, xs[..n], xs[n]);
      assert xs == xs[..n] + [xs[n]];
      var ys := DcOut(avg, xs[..n]);
      var y := xs[n] - AvgAfter(avg, xs[..n]);
      assert (ys + [y])[..n] == ys;
    }
  }

  /** The average never leaves the hull of its start and the inputs. */
  lemma {:induction false} AverageInHull(avg: real, xs: seq<real>, lo: real, hi: real)
    requires lo <= avg <= hi && forall i | 0 <= i < |xs| :: lo <= xs[i] <= hi
    ensures lo <= AvgAfter(avg, xs) <= hi
    ensures forall i | 0 <= i < |xs| :: lo - hi <= DcOut(avg, xs)[i] <= hi - lo
  {
    if xs != [] {
      AverageInHull(avg, xs[..|xs| - 1], lo, hi);
    }
  }

  /** (99/100)^t. */
  function Decay(t: nat): real {
    if t == 0 then 1.0 else 99.0 / 100.0 * Decay(t - 1)
  }

  function Constant(x: real, n: nat): (r: seq<real>)
    ensures |r| == n
  {
    seq(n, _ => x)
  }

  /** On a constant input what is left of it shrinks by a hundredth with every sample. */
  lemma {:induction false} ConstantDecays(avg: real, x: real, n: nat, t: nat)
    requires t < n
    ensures x - AvgAfter(avg, Constant(x, t)) == Decay(t) * (x - avg)
    ensures DcOut(avg, Constant(x, n))[t] == Decay(t) * (x - avg)
  {
    LevelDecays(avg, x, t);
    if t < n - 1 {
      ConstantDecays(avg, x, n - 1, t);
    }
    assert Constant(x, n)[..n - 1] == Constant(x, n - 1);
  }

  lemma {:induction false} LevelDecays(avg: real, x: real, t: nat)
    ensures x - AvgAfter(avg, Constant(x, t)) == Decay(t) * (x - avg)
  {
    if t > 0 {
      LevelDecays(avg, x, t - 1);
      assert Constant(x, t)[..t - 1] == Constant(x, t - 1);
      var was := AvgAfter(avg, Constant(x, t - 1));
      assert AvgAfter(avg, Constant(x, t)) == was + DC_SCALE * (x - was);
      assert 99.0 / 100.0 * (Decay(t - 1) * (x - avg)) == Decay(t) * (x - avg);
    }
  }

  /** The decay is at most 99 / (99 + t), so it passes below anything. */
  lemma {:induction false} DecayBound(t: nat)
    ensures 0.0 < Decay(t) && Decay(t) * (99.0 + t as real) <= 99.0
  {
    if t > 0 {
      DecayBound(t - 1);
      var d, r := Decay(t - 1), t as real;
      assert d * (98.0 + r) == 98.0 * d + d * r;
      assert Decay(t) * (99.0 + r) == 99.0 / 100.0 * (99.0 * d + d * r);
      assert d <= 1.0 by { DecayAtMostOne(t - 1); }
    }
  }

  lemma {:induction false} DecayAtMostOne(t: nat)
    ensures 0.0 < Decay(t) <= 1.0
  {
    if t > 0 {
      DecayAtMostOne(t - 1);
    }
  }

  function Size(r: real): real {
    if r < 0.0 then -r else r
  }

  /** From some sample on the output on a constant input stays below `bound`. */
  ghost predicate BelowFrom(avg: real, x: real, bound: real, n: nat) {
    forall t: nat, m: nat | n <= t < m :: Size(DcOut(avg, Constant(x, m))[t]) < bound
  }

  /** From every state a constant input of any level dies away below any positive bound. */
  lemma ConstantDiesAway(avg: real, x: real, bound: real)
    requires bound > 0.0
    ensures exists n: nat :: BelowFrom(avg, x, bound, n)
  {
    var n := Enough(99.0 * Size(x - avg), bound);
    forall t: nat, m: nat | n <= t < m
      ensures Size(DcOut(avg, Constant(x, m))[t]) < bound
    {
      Monotone(bound, n as real, t as real);
      OneBelow(avg, x, bound, t, m);
    }
    assert BelowFrom(avg, x, bound, n);
  }

  /** Some multiple of a positive number exceeds any other. */
  function Enough(a: real, bound: real): (n: nat)
    requires a >= 0.0 && bound > 0.0
    ensures bound * n as real > a
  {
    var q := a / bound;
    Quotient(a, bound, q, (q.Floor + 1) as real);
    q.Floor + 1
  }

  lemma Quotient(a: real, bound: real, q: real, n: real)
    requires bound > 0.0 && q == a / bound && n > q
    ensures bound * n > a
  {
    assert bound * q == a;
    var d := n - q;
    assert bound * d > 0.0;
    assert bound * n == bound * q + bound * d;
  }

  lemma OneBelow(avg: real, x: real, bound: real, t: nat, m: nat)
    requires bound > 0.0 && t < m && bound * t as real > 99.0 * Size(x - avg)
    ensures Size(DcOut(avg, Constant(x, m))[t]) < bound
  {
    hide DcOut, Decay;
    ConstantDecays(avg, x, m, t);
    DecayBound(t);
    var d, v := Decay(t), x - avg;
    SizeScaled(d, v);
    assert Size(v) >= 0.0;
    hide Size;
    Small(d, t as real, Size(v), bound);
    assert DcOut(avg, Constant(x, m))[t] == d * v;
    hide *;
  }

  lemma SizeScaled(d: real, v: real)
    requires d > 0.0
    ensures Size(d * v) == d * Size(v)
  {
  }

  lemma Cancel(u: real, v: real, w: real)
    requires w > 0.0 && u * w < v * w
    ensures u < v
  {
    assert (v - u) * w > 0.0;
  }

  lemma Monotone(s: real, u: real, v: real)
    requires s >= 0.0 && u <= v
    ensures s * u <= s * v
  {
    assert s * (v - u) >= 0.0;
  }

  lemma Small(d: real, t: real, s: real, bound: real)
    requires d > 0.0 && d * (99.0 + t) <= 99.0 && s >= 0.0 && bound > 0.0 && t >= 0.0 && bound * t > 99.0 * s
    ensures d * s < bound
  {
    var w := 99.0 + t;
    Monotone(s, d * w, 99.0);
    assert (d * s) * w == s * (d * w);
    assert bound * w == 99.0 * bound + bound * t;
    Cancel(d * s, bound, w);
  }
}
