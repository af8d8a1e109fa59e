/** Unpacking as a change of base, its inverse, and the sample count. */
module Packing {
  import opened MachineInts
  import opened Unpacker
  import opened Bits

  // ---------- unpacking in pieces ----------

  lemma AvailableAppend(m: nat, n: nat)
    ensures Available(12 * m) == 8 * m
    ensures Available(12 * m + n) == 8 * m + Available(n)
  {
    assert (12 * m + n) / 4 == 3 * m + n / 4;
    assert (12 * m + n) / 4 * 32 == 12 * (8 * m) + n / 4 * 32;
  }

  lemma PositionShifts(m: nat, j: nat)
    ensures 12 * (8 * m + j) / 32 == 3 * m + 12 * j / 32
    ensures 12 * (8 * m + j) % 32 == 12 * j % 32
  {
    assert 12 * (8 * m + j) == 32 * (3 * m) + 12 * j;
  }

  lemma WordOfFirst(a: seq<u8>, b: seq<u8>, q: nat)
    requires 4 * q + 4 <= |a|
    ensures WordAt(a + b, q) == WordAt(a, q)
  {
  }

  lemma WordOfSecond(a: seq<u8>, b: seq<u8>, k: nat, q: nat)
    requires |a| == 4 * k && 4 * q + 4 <= |b|
    ensures WordAt(a + b, k + q) == WordAt(b, q)
  {
  }

  lemma SampleOfFirst(a: seq<u8>, b: seq<u8>, m: nat, j: nat)
    requires |a| == 12 * m && j < 8 * m
    ensures j < Available(|a|) && j < Available(|a + b|) && SampleAt(a + b, j) == SampleAt(a, j)
  {
    hide Slice12, WordAt, Available;
    AvailableAppend(m, |b|);
    AvailableBits(|a|, j);
    var q, off := 12 * j / 32, 12 * j % 32;
    WordOfFirst(a, b, q);
    if off > 20 {
      WordOfFirst(a, b, q + 1);
    }
  }

  lemma SampleOfSecond(a: seq<u8>, b: seq<u8>, m: nat, j: nat)
    requires |a| == 12 * m && j < Available(|b|)
    ensures 8 * m + j < Available(|a + b|) && SampleAt(a + b, 8 * m + j) == SampleAt(b, j)
  {
    hide Slice12, WordAt, Available;
    AvailableAppend(m, |b|);
    PositionShifts(m, j);
    AvailableBits(|b|, j);
    var q, off := 12 * j / 32, 12 * j % 32;
    WordOfSecond(a, b, 3 * m, q);
    if off > 20 {
      WordOfSecond(a, b, 3 * m, q + 1);
    }
  }

  /** Whole groups unpack independently of what follows them. */
  lemma UnpackAppend(a: seq<u8>, b: seq<u8>)
    requires |a| % 12 == 0
    ensures Unpacked(a + b) == Unpacked(a) + Unpacked(b)
  {
    hide SampleAt, Available;
    var m := |a| / 12;
    AvailableAppend(m, |b|);
    var ab := Unpacked(a + b);
    forall j | 0 <= j < |ab|
      ensures ab[j] == (Unpacked(a) + Unpacked(b))[j]
    {
      if j < 8 * m {
        SampleOfFirst(a, b, m, j);
      } else {
        SampleOfSecond(a, b, m, j - 8 * m);
      }
    }
  }

  /** The eight samples of one group. */
  lemma UnpackGroupIs(g: seq<u8>)
    requires |g| == 12
    ensures var (w0, w1, w2) := (WordAt(g, 0), WordAt(g, 1), WordAt(g, 2));
            Unpacked(g) == seq(8, r requires 0 <= r < 8 => Field(w0, w1, w2, r))
  {
    hide WordAt, SampleAt, Field;
    forall r | 0 <= r < 8
      ensures Unpacked(g)[r] == Field(WordAt(g, 0), WordAt(g, 1), WordAt(g, 2), r)
    {
      FieldIsSample(g, 0, r, WordAt(g, 0), WordAt(g, 1), WordAt(g, 2));
    }
  }

  // ---------- the same number in two bases ----------

  /** Big-endian digits in base `b`. */
  function Value(digits: seq<nat>, b: nat): nat {
    if digits == [] then 0 else Value(digits[..|digits| - 1], b) * b + digits[|digits| - 1]
  }

  function Words(input: seq<u8>): (r: seq<u32>)
    ensures |r| == |input| / 4
  {
    seq(|input| / 4, i requires 0 <= i < |input| / 4 => WordAt(input, i))
  }

  lemma ValueSnoc(ds: seq<nat>, d: nat, b: nat)
    ensures Value(ds + [d], b) == Value(ds, b) * b + d
  {
    assert (ds + [d])[..|ds|] == ds;
  }

  lemma SplitA(w: u32)
    ensures w == w / 0x10_0000 % 0x1000 * 0x10_0000 + w / 0x100 % 0x1000 * 0x100 + w % 0x100
  {
    assert w / 0x100 == w / 0x10_0000 * 0x1000 + w / 0x100 % 0x1000;
  }

  lemma SplitB(w: u32)
    ensures w == w / 0x1000_0000 * 0x1000_0000 + w % 0x1000_0000 / 0x1_0000 * 0x1_0000
               + w % 0x1_0000 / 0x10 * 0x10 + w % 0x10
  {
    assert w % 0x1000_0000 == w % 0x1000_0000 / 0x1_0000 * 0x1_0000 + w % 0x1_0000;
    assert w % 0x1_0000 == w % 0x1_0000 / 0x10 * 0x10 + w % 0x10;
  }

  lemma SplitC(w: u32)
    ensures w == w / 0x100_0000 * 0x100_0000 + w / 0x1000 % 0x1000 * 0x1000 + w % 0x1000
  {
    assert w / 0x1000 == w / 0x100_0000 * 0x1000 + w / 0x1000 % 0x1000;
  }

  /** Eight base-4096 digits and three base-2^32 digits appended to the same number. */
  lemma GroupValue(v: nat, w0: u32, w1: u32, w2: u32)
    ensures ((v * 0x1_0000_0000 + w0) * 0x1_0000_0000 + w1) * 0x1_0000_0000 + w2
         == (((((((v * 0x1000 + Field(w0, w1, w2, 0)) * 0x1000 + Field(w0, w1, w2, 1)) * 0x1000
              + Field(w0, w1, w2, 2)) * 0x1000 + Field(w0, w1, w2, 3)) * 0x1000 + Field(w0, w1, w2, 4)) * 0x1000
              + Field(w0, w1, w2, 5)) * 0x1000 + Field(w0, w1, w2, 6)) * 0x1000 + Field(w0, w1, w2, 7)
  {
    SplitA(w0);
    SplitB(w1);
    SplitC(w2);
    assert w1 / 0x1000_0000 % 0x10 == w1 / 0x1000_0000;
  }

  lemma Value8(ds: seq<nat>, e: seq<nat>, b: nat)
    requires |e| == 8
    ensures Value(ds + e, b)
         == (((((((Value(ds, b) * b + e[0]) * b + e[1]) * b + e[2]) * b + e[3]) * b + e[4]) * b
              + e[5]) * b + e[6]) * b + e[7]
  {
    hide Value;
    Value4(ds, e[..4], b);
    Value4(ds + e[..4], e[4..], b);
    assert ds + e == (ds + e[..4]) + e[4..];
  }

  lemma Value4(ds: seq<nat>, e: seq<nat>, b: nat)
    requires |e| == 4
    ensures Value(ds + e, b) == (((Value(ds, b) * b + e[0]) * b + e[1]) * b + e[2]) * b + e[3]
  {
    hide Value;
    ValueSnoc(ds, e[0], b);
    ValueSnoc(ds + [e[0]], e[1], b);
    ValueSnoc(ds + [e[0]] + [e[1]], e[2], b);
    ValueSnoc(ds + [e[0]] + [e[1]] + [e[2]], e[3], b);
    assert ds + e == ds + [e[0]] + [e[1]] + [e[2]] + [e[3]];
  }

  /** On whole groups the words in base 2^32 and the samples in base 4096 are one number. */
  lemma {:induction false} BaseChange(input: seq<u8>)
    requires |input| % 12 == 0
    ensures Value(Words(input), 0x1_0000_0000) == Value(Unpacked(input), 0x1000)
  {
    if input == [] {
      assert Words(input) == [] && Unpacked(input) == [];
    } else {
      hide WordAt, Field, Value;
      var n := |input| - 12;
      var a, g := input[..n], input[n..];
      assert input == a + g;
      BaseChange(a);
      UnpackAppend(a, g);
      UnpackGroupIs(g);
      var (w0, w1, w2) := (WordAt(g, 0), WordAt(g, 1), WordAt(g, 2));
      LastWords(a, g);
      ValueSnoc(Words(a), w0, 0x1_0000_0000);
      ValueSnoc(Words(a) + [w0], w1, 0x1_0000_0000);
      ValueSnoc(Words(a) + [w0] + [w1], w2, 0x1_0000_0000);
      Value8(Unpacked(a), Unpacked(g), 0x1000);
      GroupValue(Value(Unpacked(a), 0x1000), w0, w1, w2);
    }
  }

  lemma LastWords(a: seq<u8>, g: seq<u8>)
    requires |a| % 12 == 0 && |g| == 12
    ensures Words(a + g) == Words(a) + [WordAt(g, 0)] + [WordAt(g, 1)] + [WordAt(g, 2)]
  {
    var m := |a| / 4;
    forall i | 0 <= i < m
      ensures WordAt(a + g, i) == WordAt(a, i)
    {
    }
    assert WordAt(a + g, m) == WordAt(g, 0);
    assert WordAt(a + g, m + 1) == WordAt(g, 1);
    assert WordAt(a + g, m + 2) == WordAt(g, 2);
  }

  // ---------- packing ----------

  /** The three words the firmware lays eight samples out in. */
  function GroupWords(s: seq<u16>): (u32, u32, u32)
    requires |s| == 8 && forall i | 0 <= i < 8 :: s[i] < 0x1000
  {
    var s0: int, s1: int, s2: int, s3: int := s[0], s[1], s[2], s[3];
    var s4: int, s5: int, s6: int, s7: int := s[4], s[5], s[6], s[7];
    (s0 * 0x10_0000 + s1 * 0x100 + s2 / 0x10,
     s2 % 0x10 * 0x1000_0000 + s3 * 0x1_0000 + s4 * 0x10 + s5 / 0x100,
     s5 % 0x100 * 0x100_0000 + s6 * 0x1000 + s7)
  }

  function PackGroup(s: seq<u16>): (r: seq<u8>)
    requires |s| == 8 && forall i | 0 <= i < 8 :: s[i] < 0x1000
    ensures |r| == 12
  {
    var (w0, w1, w2) := GroupWords(s);
    LeBytes(w0) + LeBytes(w1) + LeBytes(w2)
  }

  predicate TwelveBit(s: seq<u16>) {
    forall i | 0 <= i < |s| :: s[i] < 0x1000
  }

  function Pack(s: seq<u16>): (r: seq<u8>)
    requires |s| % 8 == 0 && TwelveBit(s)
    ensures |r| == |s| / 8 * 12
  {
    if s == [] then [] else Pack(s[..|s| - 8]) + PackGroup(s[|s| - 8..])
  }

  lemma LeBytesOfWord(w: u32, bytes: seq<u8>, i: nat)
    requires 4 * i + 4 <= |bytes| && bytes[4 * i..4 * i + 4] == LeBytes(w)
    ensures WordAt(bytes, i) == w
  {
    var four := bytes[4 * i..4 * i + 4];
    assert four[0] == bytes[4 * i] && four[1] == bytes[4 * i + 1]
        && four[2] == bytes[4 * i + 2] && four[3] == bytes[4 * i + 3];
    BytesSplit(w);
  }

  lemma BytesSplit(w: u32)
    ensures w == w % 0x100 + w / 0x100 % 0x100 * 0x100 + w / 0x1_0000 % 0x100 * 0x1_0000 + w / 0x100_0000 * 0x100_0000
  {
    assert w / 0x1_0000 == w / 0x100_0000 * 0x100 + w / 0x1_0000 % 0x100;
    assert w / 0x100 == w / 0x1_0000 * 0x100 + w / 0x100 % 0x100;
  }

  lemma Remainder(r: nat, d: nat, q: nat)
    requires r < d
    ensures (r + d * q) / d == q && (r + d * q) % d == r
  {
    DivModUnique(r + d * q, d, q, r);
  }

  lemma LeBytesAre(b0: u8, b1: u8, b2: u8, b3: u8)
    ensures LeBytes(b0 + 0x100 * (b1 as int) + 0x1_0000 * (b2 as int) + 0x100_0000 * (b3 as int)) == [b0, b1, b2, b3]
  {
    var c2 := b2 + 0x100 * (b3 as int);
    var c1 := b1 + 0x100 * c2;
    Remainder(b0, 0x100, c1);
    Remainder(b1, 0x100, c2);
    Remainder(b2, 0x100, b3);
    Remainder(b0 + 0x100 * (b1 as int), 0x1_0000, c2);
    Remainder(b0 + 0x100 * (b1 as int) + 0x1_0000 * (b2 as int), 0x100_0000, b3);
  }

  lemma WordOfLeBytes(bytes: seq<u8>, i: nat)
    requires 4 * i + 4 <= |bytes|
    ensures LeBytes(WordAt(bytes, i)) == bytes[4 * i..4 * i + 4]
  {
    hide LeBytes;
    LeBytesAre(bytes[4 * i], bytes[4 * i + 1], bytes[4 * i + 2], bytes[4 * i + 3]);
  }

  /** The fields of words put together from 12-bit samples and halves of them. */
  lemma FirstWord(a: nat, b: nat, h: nat)
    requires b < 0x1000 && h < 0x100
    ensures var w := a * 0x10_0000 + b * 0x100 + h;
            w / 0x10_0000 == a && w / 0x100 == a * 0x1000 + b && w % 0x100 == h
  {
    Remainder(b * 0x100 + h, 0x10_0000, a);
    Remainder(h, 0x100, a * 0x1000 + b);
  }

  lemma MiddleWord(h: nat, a: nat, b: nat, l: nat)
    requires a < 0x1000 && b < 0x1000 && l < 0x10
    ensures var w := h * 0x1000_0000 + a * 0x1_0000 + b * 0x10 + l;
            && w / 0x1000_0000 == h && w % 0x1000_0000 / 0x1_0000 == a
            && w % 0x1_0000 / 0x10 == b && w % 0x10 == l
  {
    Remainder(a * 0x1_0000 + b * 0x10 + l, 0x1000_0000, h);
    Remainder(b * 0x10 + l, 0x1_0000, a);
    Remainder(b * 0x10 + l, 0x1_0000, h * 0x1000 + a);
    Remainder(l, 0x10, b);
    Remainder(l, 0x10, h * 0x100_0000 + a * 0x1000 + b);
  }

  lemma LastWord(h: nat, a: nat, b: nat)
    requires a < 0x1000 && b < 0x1000
    ensures var w := h * 0x100_0000 + a * 0x1000 + b;
            w / 0x100_0000 == h && w / 0x1000 % 0x1000 == a && w % 0x1000 == b
  {
    Remainder(a * 0x1000 + b, 0x100_0000, h);
    Remainder(b, 0x1000, h * 0x1000 + a);
    Remainder(a, 0x1000, h);
  }

  lemma FieldsOfWords0(s: seq<u16>)
    requires |s| == 8 && TwelveBit(s)
    ensures var (w0, w1, w2) := GroupWords(s);
            Field(w0, w1, w2, 0) == s[0] && Field(w0, w1, w2, 1) == s[1] && Field(w0, w1, w2, 2) == s[2]
  {
    FirstWord(s[0], s[1], s[2] / 0x10);
    MiddleWord(s[2] % 0x10, s[3], s[4], s[5] / 0x100);
    Remainder(s[1], 0x1000, s[0]);
  }

  lemma FieldsOfWords1(s: seq<u16>)
    requires |s| == 8 && TwelveBit(s)
    ensures var (w0, w1, w2) := GroupWords(s);
            Field(w0, w1, w2, 3) == s[3] && Field(w0, w1, w2, 4) == s[4] && Field(w0, w1, w2, 5) == s[5]
  {
    MiddleWord(s[2] % 0x10, s[3], s[4], s[5] / 0x100);
    LastWord(s[5] % 0x100, s[6], s[7]);
  }

  lemma FieldsOfWords2(s: seq<u16>)
    requires |s| == 8 && TwelveBit(s)
    ensures var (w0, w1, w2) := GroupWords(s);
            Field(w0, w1, w2, 6) == s[6] && Field(w0, w1, w2, 7) == s[7]
  {
    LastWord(s[5] % 0x100, s[6], s[7]);
  }

  lemma UnpackPackedGroup(s: seq<u16>)
    requires |s| == 8 && TwelveBit(s)
    ensures Unpacked(PackGroup(s)) == s
  {
    hide WordAt, Field, LeBytes, GroupWords;
    var (w0, w1, w2) := GroupWords(s);
    var g := PackGroup(s);
    LeBytesOfWord(w0, g, 0);
    LeBytesOfWord(w1, g, 1);
    LeBytesOfWord(w2, g, 2);
    UnpackGroupIs(g);
    FieldsOfWords0(s);
    FieldsOfWords1(s);
    FieldsOfWords2(s);
    hide *;
  }

  lemma PackSnoc(s: seq<u16>)
    requires |s| % 8 == 0 && TwelveBit(s) && s != []
    ensures var a, g := s[..|s| - 8], s[|s| - 8..];
            s == a + g && |g| == 8 && |a| % 8 == 0 && TwelveBit(a) && TwelveBit(g)
            && Pack(s) == Pack(a) + PackGroup(g) && |Pack(a)| % 12 == 0
  {
    hide PackGroup;
    var k := |s| / 8;
    assert |s| == 8 * k && |s| - 8 == 8 * (k - 1);
  }

  /** Unpacking what was packed returns the samples. */
  lemma {:induction false} UnpackUndoesPack(s: seq<u16>)
    requires |s| % 8 == 0 && TwelveBit(s)
    ensures Unpacked(Pack(s)) == s
  {
    if s == [] {
    } else {
      hide PackGroup, SampleAt, Available, Pack, Unpacked, TwelveBit;
      var a, g := s[..|s| - 8], s[|s| - 8..];
      PackSnoc(s);
      UnpackUndoesPack(a);
      UnpackAppend(Pack(a), PackGroup(g));
      UnpackPackedGroup(g);
    }
  }

  lemma WordsOfFields(w0: u32, w1: u32, w2: u32, s: seq<u16>)
    requires |s| == 8 && TwelveBit(s)
    requires forall r | 0 <= r < 8 :: s[r] == Field(w0, w1, w2, r)
    ensures GroupWords(s) == (w0, w1, w2)
  {
    SplitA(w0);
    SplitB(w1);
    SplitC(w2);
    HighNibble(w0, w1);
    LowNibble(w1, w2);
    assert s[0] == Field(w0, w1, w2, 0) && s[1] == Field(w0, w1, w2, 1) && s[2] == Field(w0, w1, w2, 2)
        && s[3] == Field(w0, w1, w2, 3) && s[4] == Field(w0, w1, w2, 4) && s[5] == Field(w0, w1, w2, 5)
        && s[6] == Field(w0, w1, w2, 6) && s[7] == Field(w0, w1, w2, 7);
    hide *;
  }

  lemma HighNibble(w0: u32, w1: u32)
    ensures var f := w0 % 0x100 * 0x10 + w1 / 0x1000_0000 % 0x10;
            f / 0x10 == w0 % 0x100 && f % 0x10 == w1 / 0x1000_0000
  {
  }

  lemma LowNibble(w1: u32, w2: u32)
    ensures var f := w1 % 0x10 * 0x100 + w2 / 0x100_0000;
            f / 0x100 == w1 % 0x10 && f % 0x100 == w2 / 0x100_0000
  {
  }

  lemma PackUnpackedGroup(g: seq<u8>)
    requires |g| == 12
    ensures PackGroup(Unpacked(g)) == g
  {
    hide WordAt, Field, LeBytes, GroupWords;
    UnpackGroupIs(g);
    WordsOfFields(WordAt(g, 0), WordAt(g, 1), WordAt(g, 2), Unpacked(g));
    WordOfLeBytes(g, 0);
    WordOfLeBytes(g, 1);
    WordOfLeBytes(g, 2);
  }

  /** Packing what was unpacked returns the bytes. */
  lemma {:induction false} PackUndoesUnpack(input: seq<u8>)
    requires |input| % 12 == 0
    ensures |Unpacked(input)| % 8 == 0 && TwelveBit(Unpacked(input))
    ensures Pack(Unpacked(input)) == input
  {
    hide PackGroup, SampleAt;
    if input == [] {
    } else {
      var n := |input| - 12;
      var a, g := input[..n], input[n..];
      assert input == a + g;
      PackUndoesUnpack(a);
      UnpackAppend(a, g);
      PackUnpackedGroup(g);
    }
  }

  // ---------- the sample count ----------

  /** `unpacked_sample_count`: the documented count for `len` packed bytes. */
  function UnpackedSampleCount(len: nat): nat {
    len * 2 / 3
  }

  /** The documented count is what the input holds if and only if the byte count is whole words,
      or one byte over whole groups; otherwise it is larger. */
  lemma CountIff(n: nat)
    ensures Available(n) == UnpackedSampleCount(n) <==> n % 4 == 0 || n % 12 == 1
    ensures Available(n) <= UnpackedSampleCount(n)
  {
    var g, r := n / 12, n % 12;
    assert n / 4 == 3 * g + r / 4;
    assert Available(n) == 8 * g + r / 4 * 32 / 12;
    assert UnpackedSampleCount(n) == 8 * g + r * 2 / 3;
  }

  /** The count by groups and leftover words. */
  lemma AvailableByGroups(n: nat)
    ensures Available(n) == 8 * (n / 12) + (match n % 12 / 4 case 0 => 0 case 1 => 2 case _ => 5)
  {
    assert n / 4 == 3 * (n / 12) + n % 12 / 4;
  }
}
