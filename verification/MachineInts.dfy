/** Rust's machine integers over unbounded ones: their ranges, and its truncating casts,
    wrapping operators and saturating counters written out. */
module MachineInts {
  type u8 = x: int | 0 <= x < 0x100
  type u16 = x: int | 0 <= x < 0x1_0000
  type u32 = x: int | 0 <= x < 0x1_0000_0000
  type i16 = x: int | -0x8000 <= x < 0x8000
  type i32 = x: int | -0x8000_0000 <= x < 0x8000_0000

  const U32_MAX := 0xFFFF_FFFF
  const U64_MAX := 0xFFFF_FFFF_FFFF_FFFF

  datatype Option<+T> = None | Some(value: T)

  function Min(a: nat, b: nat): nat {
    if a <= b then a else b
  }

  /** `saturating_add(1)` on a counter with the given maximum. */
  function SaturatingInc(n: nat, max: nat): nat {
    if n < max then n + 1 else n
  }

  /** The fixed-point scale: `>> 15` is a division by this, rounding down. */
  const Q15 := 32768

  /** How many times 2^16 has to be taken off `x` to land in the `i16` range. */
  function Turns16(x: int): int {
    (x + 0x8000) / 0x1_0000
  }

  /** `x as i16`: a turn at a time into the range. */
  function Wrap16(x: int): i16
    decreases if x < 0 then -x else x + 1
  {
    if x < -0x8000 then Wrap16(x + 0x1_0000) else if x >= 0x8000 then Wrap16(x - 0x1_0000) else x
  }

  /** `x as i32`, and the result of the `wrapping_*` operators. */
  function Wrap32(x: int): i32
    decreases if x < 0 then -x else x + 1
  {
    if x < -0x8000_0000 then Wrap32(x + 0x1_0000_0000) else if x >= 0x8000_0000 then Wrap32(x - 0x1_0000_0000) else x
  }

  /** A cast is the one in-range value congruent to its argument. */
  lemma {:induction false} Wrap16Unique(x: int, r: i16, k: int)
    requires x == r + 0x1_0000 * k
    ensures Wrap16(x) == r
    decreases if k < 0 then -k else k
  {
    if k < 0 {
      Wrap16Unique(x + 0x1_0000, r, k + 1);
    } else if k > 0 {
      Wrap16Unique(x - 0x1_0000, r, k - 1);
    }
  }

  lemma {:induction false} Wrap32Unique(x: int, r: i32, k: int)
    requires x == r + 0x1_0000_0000 * k
    ensures Wrap32(x) == r
    decreases if k < 0 then -k else k
  {
    if k < 0 {
      Wrap32Unique(x + 0x1_0000_0000, r, k + 1);
    } else if k > 0 {
      Wrap32Unique(x - 0x1_0000_0000, r, k - 1);
    }
  }

  /** Both in closed form. */
  lemma Wrap16Is(x: int)
    ensures Wrap16(x) == x - 0x1_0000 * Turns16(x)
  {
    Wrap16Unique(x, x - 0x1_0000 * Turns16(x), Turns16(x));
  }

  function Turns32(x: int): int {
    (x + 0x8000_0000) / 0x1_0000_0000
  }

  lemma Wrap32Is(x: int)
    ensures Wrap32(x) == x - 0x1_0000_0000 * Turns32(x)
  {
    Wrap32Unique(x, x - 0x1_0000_0000 * Turns32(x), Turns32(x));
  }

  lemma Wrap16Fits(x: i16)
    ensures Wrap16(x) == x && Turns16(x) == 0
  {
  }

  lemma Wrap32Fits(x: i32)
    ensures Wrap32(x) == x
  {
  }

  /** Wrapping an addend first changes nothing: the intermediate truncation is harmless. */
  lemma Wrap16Absorbs(a: int, b: int)
    ensures Wrap16(Wrap16(a) + b) == Wrap16(a + b)
  {
    hide Wrap16, Turns16;
    Wrap16Is(a);
    Wrap16Is(a + b);
    Wrap16Unique(Wrap16(a) + b, Wrap16(a + b), Turns16(a + b) - Turns16(a));
  }

  /** A wrapping multiply-accumulate is the wrapped exact one. */
  lemma Wrap32Absorbs(a: int, b: int)
    ensures Wrap32(Wrap32(a) + Wrap32(b)) == Wrap32(a + b)
  {
    hide Wrap32, Turns32;
    Wrap32Is(a);
    Wrap32Is(b);
    Wrap32Is(a + b);
    Wrap32Unique(Wrap32(a) + Wrap32(b), Wrap32(a + b), Turns32(a + b) - Turns32(a) - Turns32(b));
  }
}
