/** The two kinds of memory both converters keep, on values: a newest-first history of fixed
    length for the FIR, and an oldest-first queue of fixed length for the delay. */
module SampleHistory {
  /** The history after `xs` more samples; its length never changes. */
  function HistAfter<T>(hist: seq<T>, xs: seq<T>): (h: seq<T>)
    ensures |h| == |hist|
  {
    if xs == [] then hist
    else ([xs[|xs| - 1]] + HistAfter(hist, xs[..|xs| - 1]))[..|hist|]
  }

  lemma HistAfterOne<T>(hist: seq<T>, x: T)
    ensures HistAfter(hist, [x]) == ([x] + hist)[..|hist|]
  {
    assert [x][..0] == [];
  }

  lemma HistAfterSnoc<T>(hist: seq<T>, xs: seq<T>, t: nat)
    requires t < |xs|
    ensures HistAfter(hist, xs[..t + 1]) == HistAfter(HistAfter(hist, xs[..t]), [xs[t]])
  {
    assert xs[..t + 1][..t] == xs[..t];
  }

  lemma {:induction false} HistAppend<T>(hist: seq<T>, a: seq<T>, b: seq<T>)
    ensures HistAfter(hist, a + b) == HistAfter(HistAfter(hist, a), b)
  {
    if b == [] {
      assert a + b == a;
    } else {
      var m := |b| - 1;
      assert (a + b)[..|a + b| - 1] == a + b[..m];
      HistAppend(hist, a, b[..m]);
    }
  }

  /** Slot `j` is the sample `j` steps back, reaching past `xs` into the old history. */
  lemma {:induction false} HistoryIsReversedPast<T>(hist: seq<T>, xs: seq<T>, j: nat)
    requires j < |hist|
    ensures HistAfter(hist, xs)[j] == if j < |xs| then xs[|xs| - 1 - j] else hist[j - |xs|]
  {
    if xs != [] && j > 0 {
      HistoryIsReversedPast(hist, xs[..|xs| - 1], j - 1);
    }
  }

  /** The delay lets its contents out ahead of the new samples. */
  function DelayOut<T>(line: seq<T>, xs: seq<T>): (r: seq<T>)
    ensures |r| == |xs|
  {
    (line + xs)[..|xs|]
  }

  function DelayAfter<T>(line: seq<T>, xs: seq<T>): (r: seq<T>)
    ensures |r| == |line|
  {
    (line + xs)[|xs|..]
  }

  lemma DelayAppend<T>(line: seq<T>, a: seq<T>, b: seq<T>)
    ensures DelayAfter(line, a + b) == DelayAfter(DelayAfter(line, a), b)
    ensures DelayOut(line, a + b) == DelayOut(line, a) + DelayOut(DelayAfter(line, a), b)
  {
    assert line + (a + b) == (line + a) + b;
    assert DelayAfter(line, a) + b == ((line + a) + b)[|a|..];
  }

  /** What has come out followed by what is inside is what was inside followed by what went in. */
  lemma QueueStep<T>(ys: seq<T>, before: seq<T>, after: seq<T>, y: T, os: seq<T>, line: seq<T>)
    requires |ys| < |os|
    requires ys + before == line + os[..|ys|]
    requires [y] + after == before + [os[|ys|]]
    ensures (ys + [y]) + after == line + os[..|ys| + 1]
  {
    assert (ys + [y]) + after == ys + ([y] + after);
    assert ys + (before + [os[|ys|]]) == (ys + before) + [os[|ys|]];
  }

  lemma QueueEnd<T>(ys: seq<T>, after: seq<T>, os: seq<T>, line: seq<T>)
    requires |ys| == |os| && |after| == |line| && ys + after == line + os
    ensures ys == DelayOut(line, os) && after == DelayAfter(line, os)
  {
    assert (ys + after)[..|ys|] == ys && (ys + after)[|ys|..] == after;
  }
}
