/** The float converter over exact arithmetic: `real` in place of `f32`, so everything but
    rounding. */
module IqFloatSpec {
  import opened Interleaving
  import opened SampleHistory

  const DC_SCALE := 0.01

  /** The kernel lengths that take the symmetric-pair form. */
  const SYMMETRIC_FIR_LENGTHS := [4, 8, 12, 24]

  function AvgAfter(avg: real, xs: seq<real>): real {
    if xs == [] then avg
    else
      var was := AvgAfter(avg, xs[..|xs| - 1]);
      was + DC_SCALE * (xs[|xs| - 1] - was)
  }

  function DcOut(avg: real, xs: seq<real>): (r: seq<real>)
    ensures |r| == |xs|
  {
    if xs == [] then []
    else DcOut(avg, xs[..|xs| - 1]) + [xs[|xs| - 1] - AvgAfter(avg, xs[..|xs| - 1])]
  }

  lemma DcSnoc(avg: real, xs: seq<real>, t: nat)
    requires t < |xs|
    ensures var was := AvgAfter(avg, xs[..t]);
            && AvgAfter(avg, xs[..t + 1]) == was + DC_SCALE * (xs[t] - was)
            && DcOut(avg, xs[..t + 1]) == DcOut(avg, xs[..t]) + [xs[t] - was]
  {
    assert xs[..t + 1][..t] == xs[..t];
  }

  /** The fs/4 multiply at position `i` of a whole chunk, the Q phases scaled by the centre tap. */
  function Phase(i: nat, v: real, hbc: real): real {
    match i % 4
    case 0 => -v
    case 1 => -v * hbc
    case 2 => v
    case _ => v * hbc
  }

  /** Whole chunks of four are multiplied; a partial tail is left alone. */
  function Phased(ys: seq<real>, hbc: real): (r: seq<real>)
    ensures |r| == |ys|
  {
    seq(|ys|, i requires 0 <= i < |ys| => if i < |ys| / 4 * 4 then Phase(i, ys[i], hbc) else ys[i])
  }

  /** The dot product of the first `n` taps. */
  function Dot(kernel: seq<real>, window: seq<real>, n: nat): real
    requires n <= |kernel| && n <= |window|
  {
    if n == 0 then 0.0 else Dot(kernel, window, n - 1) + kernel[n - 1] * window[n - 1]
  }

  /** The first `n` terms of the symmetric-pair form. */
  function PairDot(kernel: seq<real>, window: seq<real>, n: nat): real
    requires 2 * n <= |kernel| <= |window|
  {
    if n == 0 then 0.0
    else PairDot(kernel, window, n - 1) + kernel[n - 1] * (window[n - 1] + window[|kernel| - n])
  }

  datatype Form = Symmetric | Generic

  /** One FIR output in either form; the generic one ignores a final odd tap. */
  function Tap(form: Form, kernel: seq<real>, window: seq<real>): real
    requires |kernel| <= |window|
  {
    match form
    case Symmetric => PairDot(kernel, window, |kernel| / 2)
    case Generic => Dot(kernel, window, |kernel| / 2 * 2)
  }

  function FormFor(kernel: seq<real>): Form {
    if |kernel| in SYMMETRIC_FIR_LENGTHS then Symmetric else Generic
  }

  function FirOut(form: Form, kernel: seq<real>, hist: seq<real>, xs: seq<real>): (r: seq<real>)
    requires |kernel| <= |hist| + 1
    ensures |r| == |xs|
  {
    if xs == [] then []
    else
      var was := xs[..|xs| - 1];
      FirOut(form, kernel, hist, was) + [Tap(form, kernel, [xs[|xs| - 1]] + HistAfter(hist, was))]
  }

  lemma FirOutSnoc(form: Form, kernel: seq<real>, hist: seq<real>, xs: seq<real>, t: nat)
    requires |kernel| <= |hist| + 1 && t < |xs|
    ensures FirOut(form, kernel, hist, xs[..t + 1])
         == FirOut(form, kernel, hist, xs[..t]) + [Tap(form, kernel, [xs[t]] + HistAfter(hist, xs[..t]))]
    ensures HistAfter(hist, xs[..t + 1]) == HistAfter(HistAfter(hist, xs[..t]), [xs[t]])
  {
    hide Tap;
    HistAfterSnoc(hist, xs, t);
    assert xs[..t + 1][..t] == xs[..t];
  }

  datatype State = State(avg: real, hist: seq<real>, line: seq<real>)

  /** The two branches of a phase-shifted buffer: FIR on I, delay on Q. */
  function TranslateOut(kernel: seq<real>, hist: seq<real>, line: seq<real>, p: seq<real>): (r: seq<real>)
    requires |kernel| <= |hist| + 1
    ensures |r| == |p|
  {
    Interleave(FirOut(FormFor(kernel), kernel, hist, Evens(p)), DelayOut(line, Odds(p)))
  }

  function ProcessOut(kernel: seq<real>, hbc: real, s: State, xs: seq<real>): (r: seq<real>)
    requires |kernel| <= |s.hist| + 1
    ensures |r| == |xs|
  {
    TranslateOut(kernel, s.hist, s.line, Phased(DcOut(s.avg, xs), hbc))
  }

  function ProcessState(hbc: real, s: State, xs: seq<real>): (r: State)
    ensures |r.hist| == |s.hist|
  {
    var p := Phased(DcOut(s.avg, xs), hbc);
    State(AvgAfter(s.avg, xs), HistAfter(s.hist, Evens(p)), DelayAfter(s.line, Odds(p)))
  }

  function Zeros(n: nat): (r: seq<real>)
    ensures |r| == n
  {
    seq(n, i => 0.0)
  }

  function FreshState(hbKernel: seq<real>): State
    requires |hbKernel| >= 2
  {
    State(0.0, Zeros(|Evens(hbKernel)| - 1), Zeros((|hbKernel| / 2 + 1) / 2))
  }
}
