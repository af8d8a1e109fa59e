/** What the fixed-point IQ converter computes, on values: the DC blocker as a recurrence,
    the FIR as a function of a newest-first history, the Q branch as a queue. The class in
    IqConverterInt16.dfy computes the same thing in place over sliding and circular buffers. */
module IqInt16Spec {
  import opened MachineInts
  import opened Interleaving
  import opened SampleHistory

  const DC_POLE_Q15 := 32100

  // ---------- DC blocker ----------

  /** `old_x`, `old_y` and the error `old_e` fed back into the next sample. */
  datatype DcState = DcState(x: i16, y: i16, e: i32)

  const DC_FRESH := DcState(0, 0, 0)

  /** One sample through the blocker, in the source's integer widths. */
  function DcStep(s: DcState, x: i16): DcState {
    var w := Wrap16(x - s.x);
    var u := Wrap32(s.e + Wrap32(s.y * DC_POLE_Q15));
    var sh := Wrap16(u / Q15);
    DcState(x, Wrap16(w + sh), Wrap32(u - Wrap32(sh * Q15)))
  }

  function DcAfter(s: DcState, xs: seq<i16>): DcState {
    if xs == [] then s else DcStep(DcAfter(s, xs[..|xs| - 1]), xs[|xs| - 1])
  }

  function DcOut(s: DcState, xs: seq<i16>): (r: seq<i16>)
    ensures |r| == |xs|
  {
    if xs == [] then [] else DcOut(s, xs[..|xs| - 1]) + [DcAfter(s, xs).y]
  }

  lemma DcSnoc(s: DcState, xs: seq<i16>, t: nat)
    requires t < |xs|
    ensures DcAfter(s, xs[..t + 1]) == DcStep(DcAfter(s, xs[..t]), xs[t])
    ensures DcOut(s, xs[..t + 1]) == DcOut(s, xs[..t]) + [DcAfter(s, xs[..t + 1]).y]
  {
    hide DcStep;
    assert xs[..t + 1][..t] == xs[..t];
  }

  // ---------- fs/4 translation ----------

  /** The (-1, -j, +1, +j) multiply at position `i` of a call's buffer. */
  function Phase(i: nat, v: i16): i16 {
    match i % 4
    case 0 => Wrap16(-(v as int))
    case 1 => Wrap16(-(v as int) / 2)
    case 2 => v
    case _ => Wrap16(v / 2)
  }

  function Phased(ys: seq<i16>): (r: seq<i16>)
    ensures |r| == |ys|
  {
    seq(|ys|, i requires 0 <= i < |ys| => Phase(i, ys[i]))
  }

  // ---------- FIR on I ----------

  /** The exact dot product of the first `n` taps. */
  function Dot(kernel: seq<int>, window: seq<int>, n: nat): int
    requires n <= |kernel| && n <= |window|
  {
    if n == 0 then 0 else Dot(kernel, window, n - 1) + kernel[n - 1] * window[n - 1]
  }

  /** One FIR output: wrapping accumulation, `>> 15`, truncation. */
  function FirTap(kernel: seq<int>, window: seq<int>): i16
    requires |kernel| <= |window|
  {
    Wrap16(Wrap32(Dot(kernel, window, |kernel|)) / Q15)
  }

  function FirOut(kernel: seq<int>, hist: seq<int>, xs: seq<int>): (r: seq<i16>)
    requires |kernel| <= |hist| + 1
    ensures |r| == |xs|
  {
    if xs == [] then []
    else
      var was := xs[..|xs| - 1];
      FirOut(kernel, hist, was) + [FirTap(kernel, [xs[|xs| - 1]] + HistAfter(hist, was))]
  }

  lemma FirOutSnoc(kernel: seq<int>, hist: seq<int>, xs: seq<int>, t: nat)
    requires |kernel| <= |hist| + 1 && t < |xs|
    ensures FirOut(kernel, hist, xs[..t + 1])
         == FirOut(kernel, hist, xs[..t]) + [FirTap(kernel, [xs[t]] + HistAfter(hist, xs[..t]))]
    ensures HistAfter(hist, xs[..t + 1]) == HistAfter(HistAfter(hist, xs[..t]), [xs[t]])
  {
    hide FirTap;
    HistAfterSnoc(hist, xs, t);
    assert xs[..t + 1][..t] == xs[..t];
  }

  // ---------- the whole converter ----------

  datatype ConvState = ConvState(dc: DcState, hist: seq<int>, line: seq<i16>)

  /** The two branches of a phase-shifted buffer: FIR on I, delay on Q. */
  function TranslateOut(kernel: seq<int>, hist: seq<int>, line: seq<i16>, p: seq<i16>): (r: seq<i16>)
    requires |kernel| <= |hist| + 1
    ensures |r| == |p|
  {
    Interleave(FirOut(kernel, hist, Evens(p)), DelayOut(line, Odds(p)))
  }

  function ProcessOut(kernel: seq<int>, s: ConvState, xs: seq<i16>): (r: seq<i16>)
    requires |kernel| <= |s.hist| + 1
    ensures |r| == |xs|
  {
    TranslateOut(kernel, s.hist, s.line, Phased(DcOut(s.dc, xs)))
  }

  function ProcessState(s: ConvState, xs: seq<i16>): (r: ConvState)
    ensures |r.hist| == |s.hist|
  {
    var p := Phased(DcOut(s.dc, xs));
    ConvState(DcAfter(s.dc, xs), HistAfter(s.hist, Evens(p)), DelayAfter(s.line, Odds(p)))
  }
}
