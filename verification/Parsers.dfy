/** The numeric argument parsers, after `strtoull` and `strtol` (section 7.20.1.4 of ISO/IEC
    9899:1999). A string is its UTF-8 bytes, one `char` each; every character that matters here
    is a single byte, so a multi-byte character is simply a run of non-digits. */
module Parsers {
  import opened MachineInts

  const U64 := 0x1_0000_0000_0000_0000
  const I64_MAX := 0x7FFF_FFFF_FFFF_FFFF

  // ---------- what a numeral denotes ----------

  predicate IsSpace(c: char) {
    c in [' ', '\t', '\n', '\U{0B}', '\U{0C}', '\r']
  }

  function TrimStart(s: string): string {
    if s != [] && IsSpace(s[0]) then TrimStart(s[1..]) else s
  }

  /** One optional sign, and the rest. */
  function Signed(s: string): (bool, string) {
    if s != [] && (s[0] == '+' || s[0] == '-') then (s[0] == '-', s[1..]) else (false, s)
  }

  /** `char::to_digit`. */
  function ToDigit(c: char, base: nat): Option<nat>
    requires 2 <= base <= 36
  {
    var d :=
      if '0' <= c <= '9' then c as int - '0' as int
      else if 'a' <= c <= 'z' then c as int - 'a' as int + 10
      else if 'A' <= c <= 'Z' then c as int - 'A' as int + 10
      else 36;
    if d < base then Some(d) else None
  }

  predicate IsDigit(c: char, base: nat)
    requires 2 <= base <= 36
  {
    ToDigit(c, base).Some?
  }

  predicate AllDigits(s: string, base: nat)
    requires 2 <= base <= 36
  {
    forall i | 0 <= i < |s| :: IsDigit(s[i], base)
  }

  /** The number a digit string denotes, most significant digit first. */
  function Natural(s: string, base: nat): nat
    requires 2 <= base <= 36 && AllDigits(s, base)
  {
    if s == [] then 0 else Natural(s[..|s| - 1], base) * base + ToDigit(s[|s| - 1], base).value
  }

  /** A `0x` or `0X` is skipped only when a hexadecimal digit follows it. */
  function SkipHexPrefix(s: string): string {
    if |s| > 2 && s[0] == '0' && (s[1] == 'x' || s[1] == 'X') && IsDigit(s[2], 16) then s[2..] else s
  }

  /** An unsigned value with its sign: beyond 64 bits it clamps and ignores the sign, otherwise a
      minus negates modulo 2^64. */
  function Unsigned64(negative: bool, n: nat): (r: nat)
    ensures r < U64
  {
    if n >= U64 then U64 - 1
    else if negative && n > 0 then U64 - n
    else n
  }

  /** What a whole string denotes to `strtoull` with nothing left over. */
  function Denoted(s: string, base: nat): Option<nat>
    requires 2 <= base <= 36
  {
    var (negative, unsigned) := Signed(TrimStart(s));
    var digits := if base == 16 then SkipHexPrefix(unsigned) else unsigned;
    if digits == [] || !AllDigits(digits, base) then None
    else Some(Unsigned64(negative, Natural(digits, base)))
  }

  lemma NaturalSnoc(s: string, base: nat, i: nat)
    requires 2 <= base <= 36 && i < |s| && AllDigits(s[..i], base) && IsDigit(s[i], base)
    ensures AllDigits(s[..i + 1], base)
    ensures Natural(s[..i + 1], base) == Natural(s[..i], base) * base + ToDigit(s[i], base).value
  {
    assert s[..i + 1][..i] == s[..i];
  }

  /** `strtoull_whole`: the digit loop accumulates with overflow checks and, once saturated, only
      goes on checking that the rest are digits. */
  method StrtoullWhole(text: string, base: nat) returns (r: Option<nat>)
    requires 2 <= base <= 36
    ensures r == Denoted(text, base)
  {
    var (negative, s) := Signed(TrimStart(text));
    if base == 16 {
      s := SkipHexPrefix(s);
    }
    var value, saturated, digits := 0, false, 0;
    while digits < |s|
      invariant digits <= |s| && AllDigits(s[..digits], base)
      invariant saturated == (Natural(s[..digits], base) >= U64)
      invariant !saturated ==> value == Natural(s[..digits], base)
      invariant value < U64
    {
      var d := ToDigit(s[digits], base);
      if d.None? {
        return None;
      }
      NaturalSnoc(s, base, digits);
      GrowsAtLeast(Natural(s[..digits], base), base);
      digits := digits + 1;
      if !saturated {
        var next := value * base + d.value;
        if next < U64 {
          value := next;
        } else {
          saturated := true;
        }
      }
    }
    assert s[..digits] == s;
    if digits == 0 {
      return None;
    }
    return Some(if saturated then U64 - 1 else if negative then WrappingNeg(value) else value);
  }

  lemma GrowsAtLeast(n: nat, base: nat)
    requires base >= 2
    ensures n * base >= n
  {
  }

  /** `u64::wrapping_neg`. */
  function WrappingNeg(v: nat): (r: nat)
    requires v < U64
    ensures r < U64 && (r + v) % U64 == 0
  {
    if v == 0 then 0 else U64 - v
  }

  // ---------- parse_u64 ----------

  /** A `0x` or `0b` prefix on the raw string selects the base, only on strings longer than two. */
  function DenotedU64(s: string): Option<nat> {
    if |s| > 2 && s[0] == '0' && (s[1] == 'x' || s[1] == 'X') then Denoted(s[2..], 16)
    else if |s| > 2 && s[0] == '0' && (s[1] == 'b' || s[1] == 'B') then Denoted(s[2..], 2)
    else Denoted(s, 10)
  }

  method ParseU64(s: string) returns (r: Option<nat>)
    ensures r == DenotedU64(s)
  {
    var tail, base := s, 10;
    if |s| > 2 && s[0] == '0' {
      if s[1] == 'x' || s[1] == 'X' {
        tail, base := s[2..], 16;
      } else if s[1] == 'b' || s[1] == 'B' {
        tail, base := s[2..], 2;
      }
    }
    r := StrtoullWhole(tail, base);
  }

  // ---------- the serial-number printer ----------

  function Pow16(n: nat): (r: nat)
    ensures r > 0
  {
    if n == 0 then 1 else 16 * Pow16(n - 1)
  }

  function HexChar(d: nat): char
    requires d < 16
  {
    if d < 10 then '0' + d as char else 'A' + (d - 10) as char
  }

  /** `{:0nX}`: `n` upper-case hexadecimal digits of a value that fits them. */
  function HexPrint(v: nat, n: nat): (r: string)
    ensures |r| == n
  {
    if n == 0 then [] else HexPrint(v / 16, n - 1) + [HexChar(v % 16)]
  }

  /** The tools print a serial number as two 32-bit halves. */
  function SerialDigits(serial: nat): (r: string)
    ensures |r| == 16
  {
    HexPrint(serial / 0x1_0000_0000, 8) + HexPrint(serial % 0x1_0000_0000, 8)
  }

  lemma HexCharDigit(d: nat)
    requires d < 16
    ensures ToDigit(HexChar(d), 16) == Some(d)
    ensures HexChar(d) != 'x' && HexChar(d) != 'X' && !IsSpace(HexChar(d)) && HexChar(d) != '+' && HexChar(d) != '-'
    ensures HexChar(d) < '\U{80}'
  {
  }

  /** Printing digits that may stand in front of a number. */
  predicate Plain(s: string) {
    forall i | 0 <= i < |s| ::
      IsDigit(s[i], 16) && s[i] != 'x' && s[i] != 'X' && !IsSpace(s[i]) && s[i] != '+' && s[i] != '-' && s[i] < '\U{80}'
  }

  lemma {:induction false} HexPrintDenotes(v: nat, n: nat)
    requires v < Pow16(n)
    ensures Plain(HexPrint(v, n)) && AllDigits(HexPrint(v, n), 16)
    ensures Natural(HexPrint(v, n), 16) == v
  {
    if n > 0 {
      HexPrintDenotes(v / 16, n - 1);
      HexCharDigit(v % 16);
      assert HexPrint(v, n)[..n - 1] == HexPrint(v / 16, n - 1);
    }
  }

  lemma {:induction false} NaturalAppend(a: string, b: string)
    requires AllDigits(a, 16) && AllDigits(b, 16)
    ensures AllDigits(a + b, 16)
    ensures Natural(a + b, 16) == Natural(a, 16) * Pow16(|b|) + Natural(b, 16)
  {
    if b == [] {
      assert a + b == a;
    } else {
      var m := |b| - 1;
      assert (a + b)[..|a + b| - 1] == a + b[..m];
      NaturalAppend(a, b[..m]);
      hide ToDigit;
      Shift16(Natural(a, 16), Pow16(m), Natural(b[..m], 16), ToDigit(b[m], 16).value);
    }
  }

  lemma Shift16(x: nat, p: nat, y: nat, d: nat)
    ensures (x * p + y) * 16 + d == x * (16 * p) + (y * 16 + d)
  {
  }

  lemma SerialDigitsDenote(serial: nat)
    requires serial < U64
    ensures Plain(SerialDigits(serial)) && AllDigits(SerialDigits(serial), 16)
    ensures Natural(SerialDigits(serial), 16) == serial
  {
    assert Pow16(4) == 0x1_0000;
    assert Pow16(8) == 0x1_0000_0000;
    HexPrintDenotes(serial / 0x1_0000_0000, 8);
    HexPrintDenotes(serial % 0x1_0000_0000, 8);
    NaturalAppend(HexPrint(serial / 0x1_0000_0000, 8), HexPrint(serial % 0x1_0000_0000, 8));
  }

  lemma PlainIsBare(s: string)
    requires Plain(s) && s != []
    ensures TrimStart(s) == s && Signed(s) == (false, s) && SkipHexPrefix(s) == s
  {
    assert !IsSpace(s[0]);
    if |s| > 2 {
      assert s[1] != 'x' && s[1] != 'X';
    }
  }

  /** Passing a printed serial number back on the command line selects the same serial. */
  lemma ParseU64UndoesPrint(serial: nat)
    requires serial < U64
    ensures DenotedU64("0x" + SerialDigits(serial)) == Some(serial)
  {
    var d := SerialDigits(serial);
    SerialDigitsDenote(serial);
    PlainIsBare(d);
    assert ("0x" + d)[2..] == d;
  }

  // ---------- the device's serial descriptor ----------

  const SERIAL_PREFIX_LEN := 10
  const SERIAL_EXPECTED_LEN := 26

  /** A byte position a string slice may start or end at: not inside a multi-byte character. */
  predicate CharBoundary(s: string, i: nat)
    requires i <= |s|
  {
    i == |s| || s[i] < '\U{80}' || s[i] >= '\U{C0}'
  }

  /** How many leading characters are hexadecimal digits. */
  function HexRun(s: string): (n: nat)
    ensures n <= |s| && AllDigits(s[..n], 16) && (n < |s| ==> !IsDigit(s[n], 16))
  {
    if s != [] && IsDigit(s[0], 16) then
      var n := 1 + HexRun(s[1..]);
      assert s[..n] == [s[0]] + s[1..][..n - 1];
      n
    else 0
  }

  /** `strtoull_16`: consume digits greedily; the value must fit 64 bits. */
  function Strtoull16(s: string): Option<nat> {
    var (negative, unsigned) := Signed(TrimStart(s));
    var rest := SkipHexPrefix(unsigned);
    var digits := rest[..HexRun(rest)];
    if digits == [] || Natural(digits, 16) >= U64 then None
    else Some(if negative then WrappingNeg(Natural(digits, 16)) else Natural(digits, 16))
  }

  function ParseSerial(descriptor: string): Option<nat> {
    if |descriptor| < SERIAL_EXPECTED_LEN || !CharBoundary(descriptor, SERIAL_EXPECTED_LEN) then None
    else
      var cut := descriptor[..SERIAL_EXPECTED_LEN];
      if !CharBoundary(cut, SERIAL_PREFIX_LEN) then None else Strtoull16(cut[SERIAL_PREFIX_LEN..])
  }

  lemma {:induction false} AllHex(s: string)
    requires AllDigits(s, 16)
    ensures HexRun(s) == |s|
  {
    if s != [] {
      AllHex(s[1..]);
    }
  }

  /** Whatever the ten prefix bytes are, and whatever follows from a character boundary on, a
      descriptor holding a printed serial parses to that serial: printer, command-line parser and
      descriptor parser agree. */
  lemma ParseSerialUndoesPrint(prefix: string, serial: nat, junk: string)
    requires |prefix| == SERIAL_PREFIX_LEN && serial < U64 && CharBoundary(junk, 0)
    ensures ParseSerial(prefix + SerialDigits(serial) + junk) == Some(serial)
    ensures ParseSerial(prefix + SerialDigits(serial) + junk) == DenotedU64("0x" + SerialDigits(serial))
  {
    var d := SerialDigits(serial);
    var whole := prefix + d + junk;
    SerialDigitsDenote(serial);
    PlainIsBare(d);
    AllHex(d);
    assert whole[..SERIAL_EXPECTED_LEN] == prefix + d;
    assert (prefix + d)[SERIAL_PREFIX_LEN..] == d;
    assert d[..16] == d;
    assert (prefix + d)[SERIAL_PREFIX_LEN] == d[0];
    ParseU64UndoesPrint(serial);
  }

  /** Descriptors too short, or cut inside a multi-byte character at either end of the serial, are
      rejected; nothing before byte 10 or from byte 26 on matters otherwise. */
  lemma ParseSerialRejects(d: string, e: string)
    ensures |d| < 26 ==> ParseSerial(d) == None
    ensures |d| > 26 && '\U{80}' <= d[26] < '\U{C0}' ==> ParseSerial(d) == None
    ensures |d| >= 26 && '\U{80}' <= d[10] < '\U{C0}' ==> ParseSerial(d) == None
    ensures |d| == |e| == 26 && d[10..] == e[10..] ==> ParseSerial(d) == ParseSerial(e)
  {
    hide Strtoull16;
    if |d| == |e| == 26 && d[10..] == e[10..] {
      assert d[..26] == d && e[..26] == e;
      assert d[10] == d[10..][0] && e[10] == e[10..][0];
    }
  }

  lemma {:induction false} NaturalBound(s: string)
    requires AllDigits(s, 16)
    ensures Natural(s, 16) < Pow16(|s|)
  {
    if s != [] {
      NaturalBound(s[..|s| - 1]);
      assert IsDigit(s[|s| - 1], 16);
    }
  }

  lemma {:induction false} Pow16Monotone(a: nat, b: nat)
    requires a <= b
    ensures Pow16(a) <= Pow16(b)
  {
    if a < b {
      Pow16Monotone(a, b - 1);
    }
  }

  lemma {:induction false} TrimShortens(s: string)
    ensures |TrimStart(s)| <= |s|
  {
    if s != [] && IsSpace(s[0]) {
      TrimShortens(s[1..]);
    }
  }

  /** A descriptor's tail is too short to overflow, so it is rejected only for want of a digit. */
  lemma SerialNeverOverflows(tail: string)
    requires |tail| <= SERIAL_EXPECTED_LEN - SERIAL_PREFIX_LEN
    ensures var rest := SkipHexPrefix(Signed(TrimStart(tail)).1);
            Strtoull16(tail).None? <==> rest == [] || !IsDigit(rest[0], 16)
  {
    TrimShortens(tail);
    var rest := SkipHexPrefix(Signed(TrimStart(tail)).1);
    var digits := rest[..HexRun(rest)];
    NaturalBound(digits);
    Pow16Monotone(|digits|, 16);
    assert Pow16(4) == 0x1_0000;
    assert Pow16(8) == 0x1_0000_0000;
    assert Pow16(12) == 0x1_0000_0000_0000;
    assert Pow16(16) == U64;
  }

  // ---------- parse_u8 ----------

  /** The signed decimal a whole string denotes to `strtol`, over unbounded integers. */
  function SignedDecimal(s: string): Option<int> {
    var (negative, digits) := Signed(TrimStart(s));
    if digits == [] || !AllDigits(digits, 10) then None
    else Some(if negative then -(Natural(digits, 10) as int) else Natural(digits, 10))
  }

  function SaturatingMulAdd(v: nat, base: nat, d: nat): nat {
    var m := if v * base > I64_MAX then I64_MAX else v * base;
    if m + d > I64_MAX then I64_MAX else m + d
  }

  /** `parse_u8` accepts exactly the signed decimals that denote 0 to 255: saturation never lets a
      value back in. */
  method ParseU8(text: string) returns (r: Option<nat>)
    ensures r.Some? <==> SignedDecimal(text).Some? && 0 <= SignedDecimal(text).value <= 255
    ensures r.Some? ==> r.value == SignedDecimal(text).value
  {
    var (negative, digits) := Signed(TrimStart(text));
    if digits == [] {
      return None;
    }
    var value: int := 0;
    for i := 0 to |digits|
      invariant AllDigits(digits[..i], 10)
      invariant value == if Natural(digits[..i], 10) <= I64_MAX then Natural(digits[..i], 10) else I64_MAX
    {
      var d := ToDigit(digits[i], 10);
      if d.None? {
        return None;
      }
      NaturalSnoc(digits, 10, i);
      value := SaturatingMulAdd(value, 10, d.value);
    }
    assert digits[..|digits|] == digits;
    if negative {
      value := -value;
    }
    if 0 <= value <= 255 {
      return Some(value);
    }
    return None;
  }
}
