/** The 12-bit unpacker: eight samples in every three little-endian 32-bit words. */
module Unpacker {
  import opened MachineInts
  import opened Bits

  const WORD_BYTES := 4
  const BYTES_PER_GROUP := 12
  const SAMPLES_PER_GROUP := 8

  /** `u32::from_le_bytes` of the `i`-th word. */
  function WordAt(input: seq<u8>, i: nat): u32
    requires 4 * i + 4 <= |input|
  {
    var b0: int, b1: int, b2: int, b3: int := input[4 * i], input[4 * i + 1], input[4 * i + 2], input[4 * i + 3];
    b0 + 0x100 * b1 + 0x1_0000 * b2 + 0x100_0000 * b3
  }

  /** `to_le_bytes`. */
  function LeBytes(w: u32): (r: seq<u8>)
    ensures |r| == 4
  {
    [w % 0x100, w / 0x100 % 0x100, w / 0x1_0000 % 0x100, w / 0x100_0000]
  }

  // ---------- what the samples are ----------

  /** The number of 12-bit samples wholly contained in the whole words of `n` bytes. */
  function Available(n: nat): nat {
    (n / 4) * 32 / 12
  }

  /** Sample `j` is available when its twelve bits lie in the whole words. */
  lemma AvailableBits(n: nat, j: nat)
    ensures j < Available(n) <==> 12 * j + 12 <= 32 * (n / 4)
  {
  }

  /** Twelve bits from bit `off` of the word `a`, counted from the most significant one, going
      on into the word `b`. */
  function Slice12(a: u32, b: u32, off: nat): (r: u16)
    requires off < 32
    ensures r < 0x1000
  {
    if off <= 20 then a / Pow2(20 - off) % 0x1000
    else (0x1_0000_0000 * (a as int) + b) / Pow2(52 - off) % 0x1000
  }

  /** Sample `j`: the 12 bits from bit `12 j` of the words read in order. */
  function SampleAt(input: seq<u8>, j: nat): (r: u16)
    requires j < Available(|input|)
    ensures r < 0x1000
  {
    AvailableBits(|input|, j);
    hide Available;
    var q, off := 12 * j / 32, 12 * j % 32;
    Slice12(WordAt(input, q), if off <= 20 then 0 else WordAt(input, q + 1), off)
  }

  function Unpacked(input: seq<u8>): (r: seq<u16>)
    ensures |r| == Available(|input|)
  {
    seq(Available(|input|), j requires 0 <= j < Available(|input|) => SampleAt(input, j))
  }

  // ---------- how the source computes them ----------

  /** The loop body's value for slot `r` of a group, in divisions and remainders. */
  function Field(w0: u32, w1: u32, w2: u32, r: nat): (v: u16)
    requires r < 8
  {
    match r
    case 0 => w0 / 0x10_0000 % 0x1000
    case 1 => w0 / 0x100 % 0x1000
    case 2 => w0 % 0x100 * 0x10 + w1 / 0x1000_0000 % 0x10
    case 3 => w1 % 0x1000_0000 / 0x1_0000
    case 4 => w1 % 0x1_0000 / 0x10
    case 5 => w1 % 0x10 * 0x100 + w2 / 0x100_0000
    case 6 => w2 / 0x1000 % 0x1000
    case _ => w2 % 0x1000
  }

  /** The loop body's expressions as they are written. */
  function FieldBits(w0: u32, w1: u32, w2: u32, r: nat): nat
    requires r < 8
  {
    match r
    case 0 => And(Shr(w0, 20), 0xFFF)
    case 1 => And(Shr(w0, 8), 0xFFF)
    case 2 => Or(Shl(And(w0, 0xFF), 4), And(Shr(w1, 28), 0xF))
    case 3 => Shr(And(w1, 0x0FFF_0000), 16)
    case 4 => Shr(And(w1, 0xFFF0), 4)
    case 5 => Or(Shl(And(w1, 0xF), 8), Shr(And(w2, 0xFF00_0000), 24))
    case 6 => And(Shr(w2, 12), 0xFFF)
    case _ => And(w2, 0xFFF)
  }

  lemma Masks(a: nat)
    ensures And(a, 0xF) == a % 0x10 && And(a, 0xFF) == a % 0x100 && And(a, 0xFFF) == a % 0x1000
  {
    hide And;
    Powers();
    AndLow(a, 4);
    AndLow(a, 8);
    AndLow(a, 12);
  }

  lemma Shifts(a: nat)
    ensures Shr(a, 4) == a / 0x10 && Shr(a, 8) == a / 0x100 && Shr(a, 12) == a / 0x1000 && Shr(a, 16) == a / 0x1_0000
    ensures Shr(a, 20) == a / 0x10_0000 && Shr(a, 24) == a / 0x100_0000 && Shr(a, 28) == a / 0x1000_0000
  {
    hide Shr;
    Powers();
    ShrDivides(a, 4);
    ShrDivides(a, 8);
    ShrDivides(a, 12);
    ShrDivides(a, 16);
    ShrDivides(a, 20);
    ShrDivides(a, 24);
    ShrDivides(a, 28);
  }

  /** A field cut out by a mask and then shifted down. */
  lemma MaskedShift(w: nat, mask: nat, k: nat)
    ensures Shr(And(w, Shl(mask, k)), k) == And(Shr(w, k), mask)
  {
    AndAbove(w, mask, k);
    ShrUndoesShl(And(Shr(w, k), mask), k);
  }

  /** Two fields put together by an or. */
  lemma OredFields(a: nat, b: nat, k: nat)
    requires b < Pow2(k)
    ensures Or(Shl(a, k), b) == a * Pow2(k) + b
  {
    OrBelow(a, b, k);
    ShlMultiplies(a, k);
  }

  lemma FieldMasks()
    ensures Shl(0xFFF, 16) == 0x0FFF_0000 && Shl(0xFFF, 4) == 0xFFF0 && Shl(0xFF, 24) == 0xFF00_0000
  {
    Powers();
    ShlMultiplies(0xFFF, 16);
    ShlMultiplies(0xFFF, 4);
    ShlMultiplies(0xFF, 24);
  }

  /** Shifts, masks and ors say what the divisions, remainders and sums say. */
  lemma FieldBitsAre(w0: u32, w1: u32, w2: u32, r: nat)
    requires r < 8
    ensures FieldBits(w0, w1, w2, r) == Field(w0, w1, w2, r)
  {
    hide And, Or, Shr, Shl, Pow2;
    Powers();
    FieldMasks();
    if r == 2 {
      Masks(w0);
      Masks(Shr(w1, 28));
      Shifts(w1);
      OredFields(w0 % 0x100, w1 / 0x1000_0000 % 0x10, 4);
    } else if r == 3 {
      MaskedShift(w1, 0xFFF, 16);
      Masks(Shr(w1, 16));
      Shifts(w1);
      MaskThenShift16(w1);
    } else if r == 4 {
      MaskedShift(w1, 0xFFF, 4);
      Masks(Shr(w1, 4));
      Shifts(w1);
      MaskThenShift4(w1);
    } else if r == 5 {
      MaskedShift(w2, 0xFF, 24);
      Masks(Shr(w2, 24));
      Shifts(w2);
      Masks(w1);
      OredFields(w1 % 0x10, w2 / 0x100_0000, 8);
    } else {
      Masks(Shr(w0, 20));
      Masks(Shr(w0, 8));
      Masks(Shr(w2, 12));
      Masks(w2);
      Shifts(w0);
      Shifts(w2);
    }
  }

  /** Slots inside one word... */
  lemma Inside(a: u32, off: nat)
    requires off == 0 || off == 4 || off == 8 || off == 12 || off == 16 || off == 20
    ensures Slice12(a, 0, off)
         == match off
            case 0 => a / 0x10_0000 % 0x1000
            case 4 => a % 0x1000_0000 / 0x1_0000
            case 8 => a / 0x1000 % 0x1000
            case 12 => a / 0x100 % 0x1000
            case 16 => a % 0x1_0000 / 0x10
            case _ => a % 0x1000
  {
    Powers();
    hide Pow2;
    if off == 4 {
      MaskThenShift16(a);
    } else if off == 16 {
      MaskThenShift4(a);
    }
  }

  lemma MaskThenShift16(a: u32)
    ensures a / 0x1_0000 % 0x1000 == a % 0x1000_0000 / 0x1_0000
  {
    var q, r := a / 0x1000_0000, a % 0x1000_0000;
    assert a == 0x1000_0000 * q + r;
    assert a / 0x1_0000 == 0x1000 * q + r / 0x1_0000;
  }

  lemma MaskThenShift4(a: u32)
    ensures a / 0x10 % 0x1000 == a % 0x1_0000 / 0x10
  {
    var q, r := a / 0x1_0000, a % 0x1_0000;
    assert a == 0x1_0000 * q + r;
    assert a / 0x10 == 0x1000 * q + r / 0x10;
  }

  /** ...and the two that straddle a word boundary. */
  lemma Across24(a: u32, b: u32)
    ensures Slice12(a, b, 24) == a % 0x100 * 0x10 + b / 0x1000_0000 % 0x10
  {
    Powers();
    hide Pow2;
    assert (0x1_0000_0000 * (a as int) + b) / 0x1000_0000 == 0x10 * (a as int) + b / 0x1000_0000;
  }

  lemma Across28(a: u32, b: u32)
    ensures Slice12(a, b, 28) == a % 0x10 * 0x100 + b / 0x100_0000
  {
    Powers();
    hide Pow2;
    assert (0x1_0000_0000 * (a as int) + b) / 0x100_0000 == 0x100 * (a as int) + b / 0x100_0000;
  }

  lemma FieldIsSlice(w0: u32, w1: u32, w2: u32, r: nat)
    requires r < 8
    ensures Field(w0, w1, w2, r)
         == match r
            case 0 => Slice12(w0, 0, 0)
            case 1 => Slice12(w0, 0, 12)
            case 2 => Slice12(w0, w1, 24)
            case 3 => Slice12(w1, 0, 4)
            case 4 => Slice12(w1, 0, 16)
            case 5 => Slice12(w1, w2, 28)
            case 6 => Slice12(w2, 0, 8)
            case _ => Slice12(w2, 0, 20)
  {
    hide Slice12;
    if r < 2 {
      Inside(w0, 12 * r);
    } else if r == 2 {
      Across24(w0, w1);
    } else if r < 5 {
      Inside(w1, 12 * r - 32);
    } else if r == 5 {
      Across28(w1, w2);
    } else {
      Inside(w2, 12 * r - 64);
    }
  }

  /** A slot's bit expression is the positional sample. Words a slot does not use are arbitrary. */
  lemma FieldIsSample(input: seq<u8>, g: nat, r: nat, w0: u32, w1: u32, w2: u32)
    requires r < 8 && 8 * g + r < Available(|input|)
    requires w0 == WordAt(input, 3 * g)
    requires r >= 2 ==> 12 * g + 8 <= |input| && w1 == WordAt(input, 3 * g + 1)
    requires r >= 5 ==> 12 * g + 12 <= |input| && w2 == WordAt(input, 3 * g + 2)
    ensures SampleAt(input, 8 * g + r) == Field(w0, w1, w2, r)
  {
    hide WordAt, Slice12, Field;
    FieldIsSlice(w0, w1, w2, r);
    assert 12 * (8 * g + r) == 32 * (3 * g) + 12 * r;
  }

  /** The first `k` slots hold the samples, the others what they held before. */
  ghost predicate Filled(out: seq<u16>, was: seq<u16>, input: seq<u8>, k: nat)
    requires k <= Available(|input|)
  {
    && |out| == |was|
    && (forall j | 0 <= j < Min(k, |out|) :: out[j] == SampleAt(input, j))
    && (forall j | k <= j < |out| :: out[j] == was[j])
  }

  /** The tail's `push`: store if there is a slot left. */
  method Push(output: array<u16>, written: nat, v: u16, ghost input: seq<u8>, ghost was: seq<u16>, ghost k: nat)
    returns (w: nat)
    requires k < Available(|input|) && v == SampleAt(input, k)
    requires written == Min(k, output.Length) && Filled(output[..], was, input, k)
    modifies output
    ensures w == Min(k + 1, output.Length) && Filled(output[..], was, input, k + 1)
  {
    hide SampleAt;
    w := written;
    if written < output.Length {
      output[written] := v;
      w := written + 1;
    }
  }

  /** Words at the front of the bytes behind `g` whole groups, and the samples they add. */
  lemma AvailableBehind(n: nat, g: nat)
    requires 12 * g <= n
    ensures 8 * g <= Available(n)
    ensures n >= 12 * g + 4 ==> 8 * g + 2 <= Available(n)
    ensures n >= 12 * g + 8 ==> 8 * g + 5 <= Available(n)
    ensures n >= 12 * g + 12 ==> 8 * g + 8 <= Available(n)
    ensures n < 12 * g + 12 ==> Available(n) == 8 * g + if n < 12 * g + 4 then 0 else if n < 12 * g + 8 then 2 else 5
  {
    var q := (n - 12 * g) / 4;
    assert n / 4 == 3 * g + q;
    assert n / 4 * 32 == 12 * (8 * g) + q * 32;
  }

  method UnpackGroup(output: array<u16>, g: nat, w0: u32, w1: u32, w2: u32, ghost input: seq<u8>, ghost was: seq<u16>)
    requires 12 * g + 12 <= |input| && 8 * g + 8 <= output.Length
    requires w0 == WordAt(input, 3 * g) && w1 == WordAt(input, 3 * g + 1) && w2 == WordAt(input, 3 * g + 2)
    requires 8 * g <= Available(|input|) && Filled(output[..], was, input, 8 * g)
    modifies output
    ensures 8 * g + 8 <= Available(|input|) && Filled(output[..], was, input, 8 * g + 8)
  {
    AvailableBehind(|input|, g);
    hide WordAt, SampleAt, Field, FieldBits, Available;
    forall r | 0 <= r < 8
      ensures SampleAt(input, 8 * g + r) == Field(w0, w1, w2, r)
    {
      FieldIsSample(input, g, r, w0, w1, w2);
    }
    forall r | 0 <= r < 8
      ensures FieldBits(w0, w1, w2, r) == Field(w0, w1, w2, r)
    {
      FieldBitsAre(w0, w1, w2, r);
    }
    forall r | 0 <= r < 8 {
      output[8 * g + r] := FieldBits(w0, w1, w2, r);
    }
    forall j | 8 * g <= j < 8 * g + 8
      ensures output[j] == SampleAt(input, j)
    {
      assert output[8 * g + (j - 8 * g)] == Field(w0, w1, w2, j - 8 * g);
    }
  }

  method UnpackSamples(input: seq<u8>, output: array<u16>) returns (written: nat)
    modifies output
    ensures written == Min(output.Length, Available(|input|))
    ensures forall j | 0 <= j < written :: output[j] == SampleAt(input, j)
    ensures forall j | written <= j < output.Length :: output[j] == old(output[j])
  {
    hide WordAt, SampleAt, Field;
    ghost var was := output[..];
    var groups := Min(|input| / BYTES_PER_GROUP, output.Length / SAMPLES_PER_GROUP);
    var g := 0;
    while g < groups
      invariant g <= groups && 8 * g <= Available(|input|)
      invariant Filled(output[..], was, input, 8 * g)
    {
      UnpackGroup(output, g, WordAt(input, 3 * g), WordAt(input, 3 * g + 1), WordAt(input, 3 * g + 2), input, was);
      g := g + 1;
    }
    written := UnpackTail(input, output, groups, was);
  }

  /** The samples wholly inside whatever words the group loop left over. */
  method UnpackTail(input: seq<u8>, output: array<u16>, groups: nat, ghost was: seq<u16>) returns (written: nat)
    requires groups == Min(|input| / BYTES_PER_GROUP, output.Length / SAMPLES_PER_GROUP)
    requires 8 * groups <= Available(|input|) && Filled(output[..], was, input, 8 * groups)
    modifies output
    ensures written == Min(output.Length, Available(|input|))
    ensures Filled(output[..], was, input, written)
  {
    AvailableBehind(|input|, groups);
    hide WordAt, SampleAt, Field, Filled, Available;
    written := groups * SAMPLES_PER_GROUP;
    ghost var k := written;
    var rest := |input| - groups * BYTES_PER_GROUP;
    if rest >= WORD_BYTES {
      written := PushFirst(output, input, groups, was);
      k := k + 2;
      if rest >= 2 * WORD_BYTES {
        written := PushMiddle(output, written, input, groups, was);
        k := k + 3;
        if rest >= BYTES_PER_GROUP {
          written := PushLast(output, written, input, groups, was);
          k := k + 3;
        }
      }
    }
    FilledAll(output[..], was, input, k, written);
  }

  /** What the first leftover word adds... */
  method PushFirst(output: array<u16>, input: seq<u8>, g: nat, ghost was: seq<u16>) returns (written: nat)
    requires 12 * g + 4 <= |input| && 8 * g + 2 <= Available(|input|) && 8 * g <= output.Length
    requires Filled(output[..], was, input, 8 * g)
    modifies output
    ensures written == Min(8 * g + 2, output.Length) && Filled(output[..], was, input, 8 * g + 2)
  {
    hide WordAt, SampleAt, Field, Filled, Available;
    var w0 := WordAt(input, 3 * g);
    written := PushField(output, 8 * g, input, was, g, 0, w0, 0, 0);
    written := PushField(output, written, input, was, g, 1, w0, 0, 0);
  }

  /** ...the second... */
  method PushMiddle(output: array<u16>, k: nat, input: seq<u8>, g: nat, ghost was: seq<u16>) returns (written: nat)
    requires 12 * g + 8 <= |input| && 8 * g + 5 <= Available(|input|)
    requires k == Min(8 * g + 2, output.Length) && Filled(output[..], was, input, 8 * g + 2)
    modifies output
    ensures written == Min(8 * g + 5, output.Length) && Filled(output[..], was, input, 8 * g + 5)
  {
    hide WordAt, SampleAt, Field, Filled, Available;
    var w0, w1 := WordAt(input, 3 * g), WordAt(input, 3 * g + 1);
    written := PushField(output, k, input, was, g, 2, w0, w1, 0);
    written := PushField(output, written, input, was, g, 3, w0, w1, 0);
    written := PushField(output, written, input, was, g, 4, w0, w1, 0);
  }

  /** ...and the third, when the output's length was what ended the group loop. */
  method PushLast(output: array<u16>, k: nat, input: seq<u8>, g: nat, ghost was: seq<u16>) returns (written: nat)
    requires 12 * g + 12 <= |input| && 8 * g + 8 <= Available(|input|)
    requires k == Min(8 * g + 5, output.Length) && Filled(output[..], was, input, 8 * g + 5)
    modifies output
    ensures written == Min(8 * g + 8, output.Length) && Filled(output[..], was, input, 8 * g + 8)
  {
    hide WordAt, SampleAt, Field, Filled, Available;
    var w0, w1, w2 := WordAt(input, 3 * g), WordAt(input, 3 * g + 1), WordAt(input, 3 * g + 2);
    written := PushField(output, k, input, was, g, 5, w0, w1, w2);
    written := PushField(output, written, input, was, g, 6, w0, w1, w2);
    written := PushField(output, written, input, was, g, 7, w0, w1, w2);
  }

  /** Beyond the end of the output it makes no difference how many samples were offered. */
  lemma FilledAll(out: seq<u16>, was: seq<u16>, input: seq<u8>, k: nat, written: nat)
    requires k <= Available(|input|) && written == Min(k, |out|) && Filled(out, was, input, k)
    ensures Filled(out, was, input, written)
  {
  }

  method PushField(output: array<u16>, written: nat, input: seq<u8>, ghost was: seq<u16>, g: nat, r: nat,
                   w0: u32, w1: u32, w2: u32) returns (w: nat)
    requires r < 8 && 12 * g + 4 <= |input| && 8 * g + r < Available(|input|)
    requires w0 == WordAt(input, 3 * g)
    requires r >= 2 ==> 12 * g + 8 <= |input| && w1 == WordAt(input, 3 * g + 1)
    requires r >= 5 ==> 12 * g + 12 <= |input| && w2 == WordAt(input, 3 * g + 2)
    requires written == Min(8 * g + r, output.Length) && Filled(output[..], was, input, 8 * g + r)
    modifies output
    ensures w == Min(8 * g + r + 1, output.Length) && Filled(output[..], was, input, 8 * g + r + 1)
  {
    hide *;
    FieldIsSample(input, g, r, w0, w1, w2);
    FieldBitsAre(w0, w1, w2, r);
    w := Push(output, written, FieldBits(w0, w1, w2, r), input, was, 8 * g + r);
  }
}
