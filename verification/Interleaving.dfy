/** Interleaved I/Q buffers: I at even, Q at odd positions. */
module Interleaving {
  function Evens<T>(a: seq<T>): (r: seq<T>)
    ensures |r| == (|a| + 1) / 2
  {
    seq((|a| + 1) / 2, i requires 0 <= i < (|a| + 1) / 2 => a[2 * i])
  }

  function Odds<T>(a: seq<T>): (r: seq<T>)
    ensures |r| == |a| / 2
  {
    seq(|a| / 2, i requires 0 <= i < |a| / 2 => a[2 * i + 1])
  }

  function Interleave<T>(e: seq<T>, o: seq<T>): (r: seq<T>)
    requires |e| == |o| || |e| == |o| + 1
    ensures |r| == |e| + |o|
    ensures Evens(r) == e && Odds(r) == o
  {
    seq(|e| + |o|, i requires 0 <= i < |e| + |o| => if i % 2 == 0 then e[i / 2] else o[i / 2])
  }

  /** A buffer is determined by its two branches. */
  lemma SameBranches<T>(a: seq<T>, b: seq<T>)
    requires |a| == |b| && Evens(a) == Evens(b) && Odds(a) == Odds(b)
    ensures a == b
  {
    forall i | 0 <= i < |a|
      ensures a[i] == b[i]
    {
      if i % 2 == 0 {
        assert i == 2 * (i / 2) && Evens(a)[i / 2] == Evens(b)[i / 2];
      } else {
        assert i == 2 * (i / 2) + 1 && Odds(a)[i / 2] == Odds(b)[i / 2];
      }
    }
  }

  lemma Reassemble<T>(a: seq<T>)
    ensures a == Interleave(Evens(a), Odds(a))
  {
    hide Evens, Odds, Interleave;
    assert |a| == (|a| + 1) / 2 + |a| / 2;
    SameBranches(a, Interleave(Evens(a), Odds(a)));
  }

  lemma EvensAppend<T>(a: seq<T>, b: seq<T>)
    requires |a| % 2 == 0
    ensures Evens(a + b) == Evens(a) + Evens(b)
    ensures Odds(a + b) == Odds(a) + Odds(b)
  {
    var n := |a| / 2;
    assert |a| == 2 * n;
  }

  lemma InterleaveAppend<T>(e: seq<T>, o: seq<T>, e': seq<T>, o': seq<T>)
    requires |e| == |o|
    requires |e'| == |o'| || |e'| == |o'| + 1
    ensures Interleave(e + e', o + o') == Interleave(e, o) + Interleave(e', o')
  {
    hide Evens, Odds, Interleave;
    EvensAppend(Interleave(e, o), Interleave(e', o'));
    SameBranches(Interleave(e + e', o + o'), Interleave(e, o) + Interleave(e', o'));
  }

  /** `a` with the first slots of one branch (0: even, 1: odd) replaced by `ys`. */
  function Weave<T>(a: seq<T>, ys: seq<T>, branch: nat): (r: seq<T>)
    ensures |r| == |a|
  {
    seq(|a|, j requires 0 <= j < |a| => if j % 2 == branch && j / 2 < |ys| then ys[j / 2] else a[j])
  }

  lemma WeaveStep<T>(a: seq<T>, ys: seq<T>, branch: nat, y: T)
    requires branch < 2 && 2 * |ys| + branch < |a|
    ensures Weave(a, ys, branch)[2 * |ys| + branch := y] == Weave(a, ys + [y], branch)
    ensures Weave(a, ys, branch)[2 * |ys| + branch] == a[2 * |ys| + branch]
  {
    var r, r' := Weave(a, ys, branch)[2 * |ys| + branch := y], Weave(a, ys + [y], branch);
    forall j | 0 <= j < |a|
      ensures r[j] == r'[j]
    {
      assert j == 2 * (j / 2) + j % 2;
    }
  }

  lemma WeaveNone<T>(a: seq<T>, branch: nat)
    ensures Weave(a, [], branch) == a
  {
  }

  lemma WeaveAt<T>(a: seq<T>, ys: seq<T>, branch: nat, i: nat)
    requires branch < 2
    ensures 2 * i + branch < |a| && i < |ys| ==> Weave(a, ys, branch)[2 * i + branch] == ys[i]
    ensures 2 * i + 1 - branch < |a| ==> Weave(a, ys, branch)[2 * i + 1 - branch] == a[2 * i + 1 - branch]
  {
    assert (2 * i + branch) % 2 == branch && (2 * i + branch) / 2 == i && (2 * i + 1 - branch) % 2 == 1 - branch;
  }

  lemma WeaveAllEven<T>(a: seq<T>, ys: seq<T>)
    requires |ys| == |Evens(a)|
    ensures Evens(Weave(a, ys, 0)) == ys && Odds(Weave(a, ys, 0)) == Odds(a)
  {
    hide Weave;
    forall i: nat {
      WeaveAt(a, ys, 0, i);
    }
  }

  lemma WeaveAllOdd<T>(a: seq<T>, ys: seq<T>)
    requires |ys| == |Odds(a)|
    ensures Odds(Weave(a, ys, 1)) == ys && Evens(Weave(a, ys, 1)) == Evens(a)
  {
    hide Weave;
    forall i: nat {
      WeaveAt(a, ys, 1, i);
    }
  }
}
