/** Decimal and hexadecimal text as the C library prints and reads it:
    `sprintf` with %d and %X on one side, `strtol` and `atoi` on the other. */
module Numbers {

  const INT_MAX: int := 0x7FFF_FFFF
  const LONG_MAX: int := 0x7FFF_FFFF_FFFF_FFFF

  predicate IsSpace(c: char) {
    c == ' ' || '\t' <= c <= '\r'
  }

  /** The value of a digit in bases up to 36, or 36 for a character that is no digit. */
  function DigitValue(c: char): (v: nat)
    ensures v <= 36
  {
    if '0' <= c <= '9' then (c - '0') as nat
    else if 'A' <= c <= 'Z' then (c - 'A') as nat + 10
    else if 'a' <= c <= 'z' then (c - 'a') as nat + 10
    else 36
  }

  predicate IsDigit(c: char, base: nat) {
    DigitValue(c) < base
  }

  /** The digit run at the head of s, read in the base and appended to acc. */
  function ReadDigits(s: string, base: nat, acc: nat): nat {
    if s == "" || !IsDigit(s[0], base) then acc
    else ReadDigits(s[1..], base, acc * base + DigitValue(s[0]))
  }

  function SkipSpace(s: string): string {
    if s != "" && IsSpace(s[0]) then SkipSpace(s[1..]) else s
  }

  /** `strtol(s, &end, base)` for base 10 or 16, with its saturation at the range of a 64-bit long. */
  function Strtol(s: string, base: nat): int {
    var t := SkipSpace(s);
    var negative := t != "" && t[0] == '-';
    var u := if t != "" && (t[0] == '-' || t[0] == '+') then t[1..] else t;
    var v := if base == 16 && ("0x" <= u || "0X" <= u) then u[2..] else u;
    var magnitude: int := ReadDigits(v, base, 0);
    if negative then (if magnitude > LONG_MAX + 1 then -LONG_MAX - 1 else -magnitude)
    else if magnitude > LONG_MAX then LONG_MAX
    else magnitude
  }

  /** The conversion of a long to a 32-bit int. */
  function ToInt(v: int): int {
    (v + 0x8000_0000) % 0x1_0000_0000 - 0x8000_0000
  }

  function Atoi(s: string): int {
    ToInt(Strtol(s, 10))
  }

  function DigitChar(d: nat): (c: char)
    requires d < 16
    ensures IsDigit(c, 16) && DigitValue(c) == d
    ensures d < 10 ==> IsDigit(c, 10)
  {
    if d < 10 then '0' + d as char else 'A' + (d - 10) as char
  }

  /** The digits of n, most significant first; %d and %X for a non-negative int. */
  function PrintNat(n: nat, base: nat): (s: string)
    requires base == 10 || base == 16
    ensures s != ""
  {
    if n < base then [DigitChar(n)]
    else PrintNat(n / base, base) + [DigitChar(n % base)]
  }

  predicate AllDigits(s: string, base: nat) {
    forall i :: 0 <= i < |s| ==> IsDigit(s[i], base)
  }

  lemma PrintMore(n: nat, base: nat)
    requires base == 10 || base == 16
    requires n >= base
    ensures n / base > 0
    ensures PrintNat(n, base) == PrintNat(n / base, base) + [DigitChar(n % base)]
  {
  }

  lemma {:induction false} PrintedDigits(n: nat, base: nat)
    requires base == 10 || base == 16
    ensures AllDigits(PrintNat(n, base), base)
    ensures n > 0 ==> PrintNat(n, base)[0] != '0'
  {
    if n >= base {
      var head := PrintNat(n / base, base);
      PrintedDigits(n / base, base);
      hide PrintNat;
      PrintMore(n, base);
      assert forall i :: 0 <= i < |head| + 1 ==> IsDigit((head + [DigitChar(n % base)])[i], base);
    }
  }

  lemma {:induction false} ReadAppend(s: string, c: char, base: nat, acc: nat)
    requires AllDigits(s, base) && IsDigit(c, base)
    ensures ReadDigits(s + [c], base, acc) == ReadDigits(s, base, acc) * base + DigitValue(c)
  {
    if s == "" {
      assert s + [c] == [c] && [c][1..] == "";
    } else {
      assert (s + [c])[1..] == s[1..] + [c];
      ReadAppend(s[1..], c, base, acc * base + DigitValue(s[0]));
    }
  }

  lemma {:induction false} ReadPrinted(n: nat, base: nat)
    requires base == 10 || base == 16
    ensures ReadDigits(PrintNat(n, base), base, 0) == n
  {
    if n < base {
      assert PrintNat(n, base)[1..] == "";
    } else {
      ReadPrinted(n / base, base);
      PrintedDigits(n / base, base);
      PrintMore(n, base);
      hide PrintNat;
      ReadAppend(PrintNat(n / base, base), DigitChar(n % base), base, 0);
    }
  }

  /** What `sprintf` prints, `strtol` reads back, for every non-negative long. */
  lemma StrtolOfPrinted(n: nat, base: nat)
    requires base == 10 || base == 16
    requires n <= LONG_MAX
    ensures Strtol(PrintNat(n, base), base) == n
  {
    var s := PrintNat(n, base);
    PrintedDigits(n, base);
    ReadPrinted(n, base);
    assert IsDigit(s[0], base);
    assert SkipSpace(s) == s;
  }

  lemma ToIntOfInt(v: int)
    requires -INT_MAX - 1 <= v <= INT_MAX
    ensures ToInt(v) == v
  {
  }

  /** Any other long keeps its low 32 bits. */
  lemma ToIntWraps(v: int)
    ensures -0x8000_0000 <= ToInt(v) < 0x8000_0000 && (v - ToInt(v)) % 0x1_0000_0000 == 0
  {
    var n, w := 0x1_0000_0000, v + 0x8000_0000;
    assert w == n * (w / n) + w % n;
    assert v - ToInt(v) == n * (w / n);
  }

  lemma AtoiOfPrinted(n: nat)
    requires n <= INT_MAX
    ensures Atoi(PrintNat(n, 10)) == n
  {
    StrtolOfPrinted(n, 10);
    hide Strtol, PrintNat, ToInt;
    ToIntOfInt(n);
  }

  function Power(base: nat, k: nat): nat {
    if k == 0 then 1 else base * Power(base, k - 1)
  }

  lemma {:induction false} PrintedLength(n: nat, base: nat, k: nat)
    requires base == 10 || base == 16
    requires k > 0 && n < Power(base, k)
    ensures |PrintNat(n, base)| <= k
  {
    if n >= base {
      assert Power(base, k) == base * Power(base, k - 1);
      assert Power(base, 0) == 1;
      PrintedLength(n / base, base, k - 1);
    }
  }

  /** Distinct numbers print differently. */
  lemma PrintInjective(m: nat, n: nat, base: nat)
    requires base == 10 || base == 16
    requires PrintNat(m, base) == PrintNat(n, base)
    ensures m == n
  {
    ReadPrinted(m, base);
    ReadPrinted(n, base);
  }

  // ----- numerals, apart from the functions that read and print them

  const UPPER_DIGITS := "0123456789ABCDEF"
  const LOWER_DIGITS := "0123456789abcdef"

  /** The number that digits stand for by their positions. */
  function Positional(digits: seq<nat>, base: nat): nat {
    if digits == [] then 0 else digits[0] * Power(base, |digits| - 1) + Positional(digits[1..], base)
  }

  /** The character is that digit, in either case. */
  predicate IsNumeral(c: char, v: nat)
    requires v < 16
  {
    c == UPPER_DIGITS[v] || c == LOWER_DIGITS[v]
  }

  predicate SpellsNumber(s: string, digits: seq<nat>, base: nat)
    requires base <= 16
  {
    |s| == |digits| && forall k :: 0 <= k < |s| ==> digits[k] < base && IsNumeral(s[k], digits[k])
  }

  /** The text does not go on with a digit of the base. */
  predicate Ends(rest: string, base: nat)
    requires base <= 16
  {
    rest == "" || forall v: nat :: v < base ==> !IsNumeral(rest[0], v)
  }

  lemma NumeralIsDigit(c: char, v: nat)
    requires v < 16
    ensures IsNumeral(c, v) <==> DigitValue(c) == v
  {
    assert forall d: nat :: d < 10 ==> UPPER_DIGITS[d] == '0' + d as char == LOWER_DIGITS[d];
    assert forall d: nat :: 10 <= d < 16 ==>
      UPPER_DIGITS[d] == 'A' + (d - 10) as char && LOWER_DIGITS[d] == 'a' + (d - 10) as char;
  }

  lemma {:induction false} ReadPositional(s: string, digits: seq<nat>, rest: string, base: nat, acc: nat)
    requires 1 <= base <= 16 && SpellsNumber(s, digits, base) && Ends(rest, base)
    ensures ReadDigits(s + rest, base, acc) == acc * Power(base, |s|) + Positional(digits, base)
  {
    hide IsNumeral, DigitValue;
    if s == "" {
      assert s + rest == rest;
      if rest != "" {
        NumeralIsNoDigit(rest, base);
      }
    } else {
      var t := s + rest;
      assert t[0] == s[0] && t[1..] == s[1..] + rest;
      NumeralIsDigit(s[0], digits[0]);
      ReadPositional(s[1..], digits[1..], rest, base, acc * base + digits[0]);
      Shifted(acc, base, digits[0], Power(base, |s| - 1));
    }
  }

  lemma Shifted(acc: nat, base: nat, d: nat, power: nat)
    ensures (acc * base + d) * power == acc * (base * power) + d * power
  {
  }

  lemma NumeralIsNoDigit(rest: string, base: nat)
    requires base <= 16 && rest != "" && Ends(rest, base)
    ensures !IsDigit(rest[0], base)
  {
    var v := DigitValue(rest[0]);
    if v < base {
      NumeralIsDigit(rest[0], v);
    }
  }

  predicate Spaces(s: string) {
    forall k :: 0 <= k < |s| ==> s[k] in [' ', '\t', '\n', '\U{b}', '\U{c}', '\r']
  }

  lemma {:induction false} SpacesAreSkipped(blanks: string, rest: string)
    requires Spaces(blanks) && (rest != "" ==> !IsSpace(rest[0]))
    ensures SkipSpace(blanks + rest) == rest
  {
    if blanks == "" {
      assert blanks + rest == rest;
    } else {
      assert (blanks + rest)[1..] == blanks[1..] + rest;
      SpacesAreSkipped(blanks[1..], rest);
    }
  }

  /** strtol on white space, a sign, a prefix, a numeral of any length in either case, and whatever follows:
      the number by position, saturated at the ends of a long. */
  lemma StrtolReads(blanks: string, sign: string, prefix: string, s: string, digits: seq<nat>, rest: string, base: nat)
    requires (base == 10 && prefix == "") || (base == 16 && prefix in ["", "0x", "0X"])
    requires Spaces(blanks) && sign in ["", "+", "-"] && s != "" && SpellsNumber(s, digits, base) && Ends(rest, base)
    requires base == 16 && prefix == "" && rest != "" ==> rest[0] != 'x' && rest[0] != 'X'
    ensures Strtol(blanks + (sign + (prefix + (s + rest))), base) ==
      var n: int := Positional(digits, base);
      if sign == "-" then (if n > 0x8000_0000_0000_0000 then -0x8000_0000_0000_0000 else -n)
      else if n > 0x7FFF_FFFF_FFFF_FFFF then 0x7FFF_FFFF_FFFF_FFFF else n
  {
    var u := prefix + (s + rest);
    hide SpellsNumber, Ends, Positional, ReadDigits, Spaces, SkipSpace, Strtol, Power;
    NumeralStart(prefix, s, digits, rest, base);
    assert sign == "" ==> sign + u == u;
    SpacesAreSkipped(blanks, sign + u);
    ReadPositional(s, digits, rest, base, 0);
    assert 0 * Power(base, |s|) == 0;
    StrtolIs(blanks + (sign + u), sign, u, s + rest, base);
  }

  lemma NumeralStart(prefix: string, s: string, digits: seq<nat>, rest: string, base: nat)
    requires (base == 10 && prefix == "") || (base == 16 && prefix in ["", "0x", "0X"])
    requires s != "" && SpellsNumber(s, digits, base)
    requires base == 16 && prefix == "" && rest != "" ==> rest[0] != 'x' && rest[0] != 'X'
    ensures var u := prefix + (s + rest);
      && u != "" && !IsSpace(u[0]) && u[0] != '-' && u[0] != '+'
      && (if base == 16 && ("0x" <= u || "0X" <= u) then u[2..] else u) == s + rest
  {
    var u := prefix + (s + rest);
    NumeralIsDigit(s[0], digits[0]);
    assert DigitValue(s[0]) < 16;
    if prefix == "" {
      assert u == s + rest;
      if base == 16 && |u| > 1 {
        assert u[1] == if |s| > 1 then s[1] else rest[0];
        if |s| > 1 {
          NumeralIsDigit(s[1], digits[1]);
        }
        assert u[1] != 'x' && u[1] != 'X';
      }
    } else {
      assert |prefix| == 2;
      assert u[..2] == prefix && u[2..] == s + rest;
    }
  }

  lemma StrtolIs(s: string, sign: string, u: string, v: string, base: nat)
    requires SkipSpace(s) == sign + u && sign in ["", "+", "-"] && u != "" && u[0] != '-' && u[0] != '+'
    requires v == if base == 16 && ("0x" <= u || "0X" <= u) then u[2..] else u
    ensures var n: int := ReadDigits(v, base, 0);
      Strtol(s, base) ==
      if sign == "-" then (if n > 0x8000_0000_0000_0000 then -0x8000_0000_0000_0000 else -n)
      else if n > 0x7FFF_FFFF_FFFF_FFFF then 0x7FFF_FFFF_FFFF_FFFF else n
  {
    var t := sign + u;
    if sign == "" {
      assert t == u;
    } else {
      assert |sign| == 1 && t[0] == sign[0] && t[1..] == u;
    }
    hide ReadDigits, SkipSpace;
  }

  ghost predicate DecimalOf(s: string, n: nat) {
    s != "" && exists digits :: SpellsNumber(s, digits, 10) && Positional(digits, 10) == n
  }

  ghost predicate HexOf(s: string, n: nat) {
    s != "" && exists digits :: SpellsNumber(s, digits, 16) && Positional(digits, 16) == n
  }

  lemma AtoiOfDecimal(s: string, n: nat)
    requires DecimalOf(s, n) && n <= INT_MAX
    ensures Atoi(s) == n
  {
    var digits :| SpellsNumber(s, digits, 10) && Positional(digits, 10) == n;
    StrtolReads("", "", "", s, digits, "", 10);
    assert "" + ("" + ("" + (s + ""))) == s;
    hide Strtol, ToInt, SpellsNumber, Positional;
    ToIntOfInt(n);
  }

  lemma StrtolOfHex(s: string, n: nat)
    requires HexOf(s, n) && n <= INT_MAX
    ensures ToInt(Strtol(s, 16)) == n
  {
    var digits :| SpellsNumber(s, digits, 16) && Positional(digits, 16) == n;
    StrtolReads("", "", "", s, digits, "", 16);
    assert "" + ("" + ("" + (s + ""))) == s;
    hide Strtol, ToInt, SpellsNumber, Positional;
    ToIntOfInt(n);
  }

  /** The digits of a number, most significant first. */
  function DigitsOf(n: nat, base: nat): (digits: seq<nat>)
    requires base == 10 || base == 16
    ensures digits != [] && forall k :: 0 <= k < |digits| ==> digits[k] < base
  {
    if n < base then [n] else DigitsOf(n / base, base) + [n % base]
  }

  lemma {:induction false} PositionalAppend(digits: seq<nat>, d: nat, base: nat)
    ensures Positional(digits + [d], base) == Positional(digits, base) * base + d
  {
    if digits == [] {
      assert digits + [d] == [d] && [d][1..] == [] && Power(base, 0) == 1;
    } else {
      assert (digits + [d])[1..] == digits[1..] + [d];
      PositionalAppend(digits[1..], d, base);
      var power := Power(base, |digits| - 1);
      assert Power(base, |digits|) == base * power;
      Regroup(digits[0], base, power, Positional(digits[1..], base), d);
    }
  }

  lemma Regroup(x: nat, base: nat, power: nat, y: nat, d: nat)
    ensures x * (base * power) + (y * base + d) == (x * power + y) * base + d
  {
  }

  lemma {:induction false} DigitsStandFor(n: nat, base: nat)
    requires base == 10 || base == 16
    ensures Positional(DigitsOf(n, base), base) == n
  {
    if n < base {
      assert [n][1..] == [] && Power(base, 0) == 1;
    } else {
      DigitsStandFor(n / base, base);
      PositionalAppend(DigitsOf(n / base, base), n % base, base);
    }
  }

  /** What is printed is the numeral of n, in capitals and without a leading zero. */
  lemma {:induction false} PrintedNumeral(n: nat, base: nat)
    requires base == 10 || base == 16
    ensures var s, digits := PrintNat(n, base), DigitsOf(n, base);
      && |s| == |digits| && (forall k :: 0 <= k < |s| ==> s[k] == UPPER_DIGITS[digits[k]])
      && Positional(digits, base) == n && (n > 0 ==> digits[0] > 0)
  {
    DigitsStandFor(n, base);
    if n < base {
      CapitalDigit(n);
    } else {
      PrintedNumeral(n / base, base);
      PrintMore(n, base);
      CapitalDigit(n % base);
      hide PrintNat, Positional;
    }
  }

  lemma CapitalDigit(d: nat)
    requires d < 16
    ensures DigitChar(d) == UPPER_DIGITS[d]
  {
    assert forall v: nat :: v < 10 ==> UPPER_DIGITS[v] == '0' + v as char;
    assert forall v: nat :: 10 <= v < 16 ==> UPPER_DIGITS[v] == 'A' + (v - 10) as char;
  }

  lemma PrintedIsDecimal(n: nat)
    ensures DecimalOf(PrintNat(n, 10), n)
  {
    PrintedNumeral(n, 10);
    hide PrintNat, Positional;
    assert SpellsNumber(PrintNat(n, 10), DigitsOf(n, 10), 10);
  }

  /** Leading zeros do not change the number. */
  lemma {:induction false} LeadingZeros(zeros: nat, digits: seq<nat>, base: nat)
    ensures Positional(seq(zeros, _ => 0) + digits, base) == Positional(digits, base)
  {
    var all := seq(zeros, _ => 0) + digits;
    if zeros == 0 {
      assert all == digits;
    } else {
      assert all[1..] == seq(zeros - 1, _ => 0) + digits;
      LeadingZeros(zeros - 1, digits, base);
    }
  }
}
