/** What the numeric parsers make of numbers as people and printers write them: the printers here
    know their digits from a table and nothing of the parsers. */
module ParserRoundTrips {
  import opened MachineInts
  import opened Parsers

  const DIGITS := "0123456789abcdef"

  /** `n` in the given base, most significant digit first, no leading zeros. */
  function Print(n: nat, base: nat): (r: string)
    requires 2 <= base <= 16
    ensures r != []
    decreases n
  {
    if n < base then [DIGITS[n]] else Print(n / base, base) + [DIGITS[n % base]]
  }

  lemma DigitValue(d: nat, base: nat)
    requires d < base && 2 <= base <= 16
    ensures |DIGITS| == 16 && ToDigit(DIGITS[d], base) == Some(d)
    ensures base <= 10 ==> '0' <= DIGITS[d] <= '9'
    ensures '0' <= DIGITS[d] <= '9' || 'a' <= DIGITS[d] <= 'f'
  {
  }

  /** Nothing but decimal digits and the letters a to f. */
  predicate Printed(s: string) {
    s != [] && forall i | 0 <= i < |s| :: '0' <= s[i] <= '9' || 'a' <= s[i] <= 'f'
  }

  predicate Decimal(s: string) {
    s != [] && forall i | 0 <= i < |s| :: '0' <= s[i] <= '9'
  }

  /** `s` is made of digits of the base that denote `n`. */
  predicate Shows(s: string, n: nat, base: nat)
    requires 2 <= base <= 16
  {
    AllDigits(s, base) && Natural(s, base) == n && Printed(s) && (base <= 10 ==> Decimal(s))
  }

  lemma {:induction false} PrintShows(n: nat, base: nat)
    requires 2 <= base <= 16
    ensures Shows(Print(n, base), n, base)
    decreases n
  {
    hide Shows;
    if n < base {
      OneShows(n, base);
    } else {
      Smaller(n, base);
      PrintShows(n / base, base);
      MoreShows(Print(n / base, base), n / base, n % base, base);
    }
  }

  lemma Smaller(n: nat, base: nat)
    requires 2 <= base <= n
    ensures n / base < n && n / base * base + n % base == n && n % base < base
  {
  }

  lemma OneShows(n: nat, base: nat)
    requires n < base && 2 <= base <= 16
    ensures Shows([DIGITS[n]], n, base)
  {
    hide ToDigit, Natural, AllDigits;
    DigitValue(n, base);
    OneDigit(DIGITS[n], base);
  }

  lemma MoreShows(a: string, q: nat, r: nat, base: nat)
    requires 2 <= base <= 16 && r < base && Shows(a, q, base)
    ensures Shows(a + [DIGITS[r]], q * base + r, base)
  {
    hide ToDigit, Natural, AllDigits, Printed, Decimal;
    DigitValue(r, base);
    SnocDenotes(a, DIGITS[r], base);
    SnocPrinted(a, DIGITS[r]);
  }

  lemma PrintDenotes(n: nat, base: nat)
    requires 2 <= base <= 16
    ensures var s := Print(n, base);
            AllDigits(s, base) && Natural(s, base) == n && Printed(s) && (base <= 10 ==> Decimal(s))
  {
    PrintShows(n, base);
  }

  lemma SnocPrinted(a: string, c: char)
    ensures Printed(a) && ('0' <= c <= '9' || 'a' <= c <= 'f') ==> Printed(a + [c])
    ensures Decimal(a) && '0' <= c <= '9' ==> Decimal(a + [c])
  {
  }

  lemma OneDigit(c: char, base: nat)
    requires 2 <= base <= 36 && IsDigit(c, base)
    ensures AllDigits([c], base) && Natural([c], base) == ToDigit(c, base).value
  {
    hide ToDigit;
    assert [c][..0] == [] && Natural([c][..0], base) == 0;
  }

  lemma SnocDenotes(a: string, c: char, base: nat)
    requires 2 <= base <= 36 && AllDigits(a, base) && IsDigit(c, base)
    ensures AllDigits(a + [c], base) && Natural(a + [c], base) == Natural(a, base) * base + ToDigit(c, base).value
  {
    hide ToDigit;
    assert (a + [c])[..|a|] == a;
  }

  lemma PrintedIsBare(s: string)
    requires Printed(s)
    ensures TrimStart(s) == s && Signed(s) == (false, s) && SkipHexPrefix(s) == s
  {
    assert !IsSpace(s[0]);
    if |s| > 2 {
      assert s[1] != 'x' && s[1] != 'X';
    }
  }

  /** In every base a printed number denotes itself, or the largest value if it needs more than 64
      bits; a plus changes nothing; a minus negates modulo 2^64, except for what was clamped. */
  lemma NumbersDenote(n: nat, base: nat)
    requires 2 <= base <= 16
    ensures var s := Print(n, base);
            var clamped := n >= 0x1_0000_0000_0000_0000;
            && Denoted(s, base) == Some(if clamped then 0xFFFF_FFFF_FFFF_FFFF else n)
            && Denoted("+" + s, base) == Denoted(s, base)
            && Denoted("-" + s, base) == Some(if clamped then 0xFFFF_FFFF_FFFF_FFFF else if n == 0 then 0 else 0x1_0000_0000_0000_0000 - n)
  {
    hide ToDigit, Print;
    PrintDenotes(n, base);
    var s := Print(n, base);
    PrintedIsBare(s);
    assert ("+" + s)[1..] == s && ("-" + s)[1..] == s;
    assert TrimStart("+" + s) == "+" + s && TrimStart("-" + s) == "-" + s;
  }

  /** White space in front is skipped: the six characters of `isspace`, and no other. */
  lemma LeadingCharacter(c: char, n: nat, base: nat)
    requires 2 <= base <= 16
    ensures c == ' ' || c == '\t' || c == '\n' || c == '\r' || c == '\U{0B}' || c == '\U{0C}' ==>
              Denoted([c] + Print(n, base), base) == Denoted(Print(n, base), base)
    ensures !(c == ' ' || c == '\t' || c == '\n' || c == '\r' || c == '\U{0B}' || c == '\U{0C}')
            && c != '+' && c != '-' && !('0' <= c <= '9') && !('a' <= c <= 'z') && !('A' <= c <= 'Z') ==>
              Denoted([c] + Print(n, base), base) == None
  {
    hide Print, ToDigit;
    PrintDenotes(n, base);
    PrintedIsBare(Print(n, base));
    var s := [c] + Print(n, base);
    assert s[1..] == Print(n, base);
    if IsSpace(c) {
      assert TrimStart(s) == TrimStart(Print(n, base));
    } else {
      assert TrimStart(s) == s;
      NoDigit(c, base);
      assert SkipHexPrefix(s) == s || s[0] == '0';
    }
  }

  predicate Blank(s: string) {
    forall i | 0 <= i < |s| :: s[i] == ' ' || s[i] == '\t' || s[i] == '\n' || s[i] == '\r' || s[i] == '\U{0B}' || s[i] == '\U{0C}'
  }

  /** Any amount of white space may stand in front, also of a sign, and none behind one. */
  lemma {:induction false} LeadingBlanks(blanks: string, s: string)
    requires Blank(blanks)
    ensures TrimStart(blanks + s) == TrimStart(s)
  {
    if blanks == [] {
      assert blanks + s == s;
    } else {
      LeadingBlanks(blanks[1..], s);
      assert (blanks + s)[1..] == blanks[1..] + s;
    }
  }

  lemma BlanksDenote(blanks: string, s: string, base: nat)
    requires Blank(blanks) && 2 <= base <= 36
    ensures Denoted(blanks + s, base) == Denoted(s, base)
  {
    hide TrimStart;
    LeadingBlanks(blanks, s);
  }

  /** Behind a sign only digits may come, no second sign and no white space. */
  lemma SignIsLast(sign: char, c: char, rest: string, base: nat)
    requires 2 <= base <= 36 && (sign == '+' || sign == '-')
    requires !('0' <= c <= '9') && !('a' <= c <= 'z') && !('A' <= c <= 'Z')
    ensures Denoted([sign, c] + rest, base) == None
  {
    hide ToDigit;
    var s := [sign, c] + rest;
    assert !IsSpace(s[0]) && TrimStart(s) == s && s[1..] == [c] + rest;
    NoDigit(c, base);
    assert s[1..][0] == c;
  }

  /** In base 16 one `0x` in front of the digits is skipped, in either case, behind a sign as well. */
  lemma PrefixSkipped(n: nat)
    ensures Denoted("0x" + Print(n, 16), 16) == Denoted(Print(n, 16), 16)
    ensures Denoted("0X" + Print(n, 16), 16) == Denoted(Print(n, 16), 16)
    ensures Denoted("-" + ("0x" + Print(n, 16)), 16) == Denoted("-" + Print(n, 16), 16)
  {
    hide Print, ToDigit, AllDigits, Natural, SkipHexPrefix, Printed;
    PrintDenotes(n, 16);
    var d := Print(n, 16);
    PrintedIsBare(d);
    FirstIsDigit(d);
    Prefixed('x', d);
    Prefixed('X', d);
    assert ['0', 'x'] + d == "0x" + d && ['0', 'X'] + d == "0X" + d;
    MinusFirst("0x" + d);
    MinusFirst(d);
  }

  lemma MinusFirst(s: string)
    ensures TrimStart("-" + s) == "-" + s && Signed("-" + s) == (true, s)
  {
    assert ("-" + s)[1..] == s;
  }

  /** But only one. */
  lemma OnePrefixOnly(n: nat)
    ensures Denoted("0x" + ("0x" + Print(n, 16)), 16) == None
  {
    hide Print, ToDigit;
    PrintDenotes(n, 16);
    FirstIsDigit(Print(n, 16));
    NotHex('x');
    var d := "0x" + Print(n, 16);
    var s := "0x" + d;
    assert s[2] == '0' && s[2..] == d && d[1] == 'x';
    assert TrimStart(s) == s && Signed(s) == (false, s) && SkipHexPrefix(s) == d;
  }

  lemma FirstIsDigit(d: string)
    requires Printed(d)
    ensures IsDigit(d[0], 16) && IsDigit('0', 16)
  {
  }

  lemma NotHex(c: char)
    ensures c == 'x' || c == 'X' ==> !IsDigit(c, 16)
  {
  }

  lemma Prefixed(x: char, d: string)
    requires (x == 'x' || x == 'X') && d != [] && IsDigit(d[0], 16)
    ensures var s := ['0', x] + d; TrimStart(s) == s && Signed(s) == (false, s) && SkipHexPrefix(s) == d
  {
    hide ToDigit;
    var s := ['0', x] + d;
    assert s[2] == d[0] && s[2..] == d;
  }

  lemma NoDigit(c: char, base: nat)
    requires 2 <= base <= 36
    ensures !('0' <= c <= '9') && !('a' <= c <= 'z') && !('A' <= c <= 'Z') ==> !IsDigit(c, base)
  {
  }

  /** Nothing may follow the number. */
  lemma TrailingCharacter(n: nat, c: char, rest: string, base: nat)
    requires 2 <= base <= 16 && !('0' <= c <= '9') && !('a' <= c <= 'z') && !('A' <= c <= 'Z')
    ensures Denoted(Print(n, base) + [c] + rest, base) == None
  {
    hide Print, ToDigit;
    PrintDenotes(n, base);
    var a := Print(n, base);
    var s := a + [c] + rest;
    NoDigit(c, base);
    assert s[0] == a[0] && s[|a|] == c;
    assert !IsSpace(s[0]) && TrimStart(s) == s && Signed(s) == (false, s);
    assert s[1] == if |a| > 1 then a[1] else c;
    var d := SkipHexPrefix(s);
    assert d == s;
    assert !IsDigit(s[|a|], base);
  }

  // ---------- parse_u64 ----------

  /** A number typed in decimal, with or without a sign, is taken as it is written. */
  lemma ParseU64Decimal(n: nat)
    requires n < 0x1_0000_0000_0000_0000
    ensures DenotedU64(Print(n, 10)) == Some(n)
    ensures DenotedU64("+" + Print(n, 10)) == Some(n)
    ensures DenotedU64("-" + Print(n, 10)) == Some(if n == 0 then 0 else 0x1_0000_0000_0000_0000 - n)
  {
    hide Print, ToDigit, Denoted;
    PrintDenotes(n, 10);
    NumbersDenote(n, 10);
    var s := Print(n, 10);
    if |s| > 1 {
      assert '0' <= s[1] <= '9';
    }
  }

  /** So is one typed in hexadecimal or binary behind its prefix, in either case of it. */
  lemma ParseU64Prefixed(n: nat)
    requires n < 0x1_0000_0000_0000_0000
    ensures DenotedU64("0x" + Print(n, 16)) == Some(n) && DenotedU64("0X" + Print(n, 16)) == Some(n)
    ensures DenotedU64("0b" + Print(n, 2)) == Some(n) && DenotedU64("0B" + Print(n, 2)) == Some(n)
  {
    hide Print, ToDigit, Denoted;
    NumbersDenote(n, 16);
    NumbersDenote(n, 2);
    assert ("0x" + Print(n, 16))[2..] == Print(n, 16) && ("0X" + Print(n, 16))[2..] == Print(n, 16);
    assert ("0b" + Print(n, 2))[2..] == Print(n, 2) && ("0B" + Print(n, 2))[2..] == Print(n, 2);
  }

  /** Upper-case digits count as their lower-case ones. */
  lemma CaseDoesNotMatter(d: nat, base: nat)
    requires 2 <= base <= 36 && d < 26
    ensures ToDigit('A' + d as char, base) == ToDigit('a' + d as char, base)
    ensures ToDigit('a' + d as char, base) == if 10 + d < base then Some(10 + d) else None
  {
  }

  /** A number too large for 64 bits clamps in every notation. */
  lemma ParseU64Clamps(n: nat)
    requires n >= 0x1_0000_0000_0000_0000
    ensures DenotedU64(Print(n, 10)) == Some(0xFFFF_FFFF_FFFF_FFFF)
    ensures DenotedU64("-" + Print(n, 10)) == Some(0xFFFF_FFFF_FFFF_FFFF)
    ensures DenotedU64("0x" + Print(n, 16)) == Some(0xFFFF_FFFF_FFFF_FFFF)
  {
    hide Print, ToDigit, Denoted;
    PrintDenotes(n, 10);
    NumbersDenote(n, 10);
    NumbersDenote(n, 16);
    var s := Print(n, 10);
    if |s| > 1 {
      assert '0' <= s[1] <= '9';
    }
    assert ("0x" + Print(n, 16))[2..] == Print(n, 16);
  }

  // ---------- the other two ----------

  /** The descriptor parser agrees with the command line's hexadecimal on every tail that is a number
      and nothing else. */
  lemma SerialAgrees(tail: string)
    requires |tail| <= 16 && Denoted(tail, 16).Some?
    ensures Strtoull16(tail) == Denoted(tail, 16)
  {
    hide ToDigit;
    TrimShortens(tail);
    var digits := SkipHexPrefix(Signed(TrimStart(tail)).1);
    AllHex(digits);
    assert digits[..|digits|] == digits;
    NaturalBound(digits);
    Pow16Monotone(|digits|, 16);
    assert Pow16(4) == 0x1_0000;
    assert Pow16(8) == 0x1_0000_0000;
    assert Pow16(12) == 0x1_0000_0000_0000;
    assert Pow16(16) == U64;
  }

  /** The decimals of `parse_u8` are the printed ones, signed. */
  lemma SignedDecimalUndoesPrint(n: nat)
    ensures SignedDecimal(Print(n, 10)) == Some(n) && SignedDecimal("+" + Print(n, 10)) == Some(n)
    ensures SignedDecimal("-" + Print(n, 10)) == Some(-(n as int))
  {
    hide Print, ToDigit;
    PrintDenotes(n, 10);
    var s := Print(n, 10);
    PrintedIsBare(s);
    assert ("+" + s)[1..] == s && ("-" + s)[1..] == s;
    assert TrimStart("+" + s) == "+" + s && TrimStart("-" + s) == "-" + s;
  }
}
