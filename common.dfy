/** Option type shared by the modules of this model. */
module Wrappers {
  datatype Option<+T> = None | Some(value: T) {
    function GetOr(default: T): T {
      match this
      case Some(v) => v
      case None => default
    }
  }
}

/**
 * The pieces of the C and C++ runtime that the bridge relies on:
 * `std::string::find`, decimal formatting (`std::to_string`, `ostream << int`),
 * `atoi`, truncating integer division and unsigned 32-bit wrap-around.
 */
module CLib {
  import opened Wrappers

  const U32Modulus: int := 0x1_0000_0000

  /** Conversion of a signed value to `unsigned` (32 bits): two's complement wrap-around. */
  function U32(x: int): (r: nat)
    ensures r < U32Modulus
    ensures 0 <= x < U32Modulus ==> r == x
    ensures (r - x) % U32Modulus == 0
  {
    x % U32Modulus
  }

  /** A C `int`. */
  type int32 = x: int | -0x8000_0000 <= x < 0x8000_0000

  /** C's `/` on signed integers, for a positive divisor: the quotient is truncated toward zero. */
  function CDiv(a: int, b: int): (q: int)
    requires b > 0
    ensures a >= 0 ==> q == a / b
    ensures a < 0 ==> q == -((-a) / b) && q <= 0
  {
    if a >= 0 then a / b else -((-a) / b)
  }

  /** C's `%` on signed integers, for a positive divisor: the remainder takes the sign of the dividend. */
  function CRem(a: int, b: int): (r: int)
    requires b > 0
    ensures a == CDiv(a, b) * b + r
    ensures a >= 0 ==> r == a % b
    ensures a < 0 ==> -b < r <= 0
  {
    if a >= 0 then a % b else -((-a) % b)
  }

  function Abs(x: int): (r: nat)
    ensures r == x || r == -x
  {
    if x < 0 then -x else x
  }

  /** `s.find(p) == 0`: `p` occurs in `s` at position 0, that is, `p` is a prefix of `s`. */
  predicate StartsWith(s: string, p: string) {
    |p| <= |s| && s[..|p|] == p
  }

  predicate OccursAt(s: string, p: string, i: nat) {
    i + |p| <= |s| && s[i..i + |p|] == p
  }

  /** `s.find(p, from)`: the first position at or after `from` where `p` occurs. */
  function FindFrom(s: string, p: string, from: nat): (r: Option<nat>)
    requires from <= |s|
    ensures r.Some? ==> from <= r.value && OccursAt(s, p, r.value)
    ensures r.Some? ==> forall j :: from <= j < r.value ==> !OccursAt(s, p, j)
    ensures r.None? ==> forall j :: from <= j <= |s| ==> !OccursAt(s, p, j)
    decreases |s| - from
  {
    if OccursAt(s, p, from) then Some(from)
    else if from == |s| then None
    else FindFrom(s, p, from + 1)
  }

  /** `s.find(p)`, with `std::string::npos` as `None`. */
  function Find(s: string, p: string): (r: Option<nat>)
    ensures r.Some? ==> OccursAt(s, p, r.value) && forall j :: 0 <= j < r.value ==> !OccursAt(s, p, j)
    ensures r.None? ==> forall j :: 0 <= j <= |s| ==> !OccursAt(s, p, j)
  {
    FindFrom(s, p, 0)
  }

  predicate IsDigit(c: char) {
    '0' <= c <= '9'
  }

  /** The characters `isspace` accepts in the C locale. */
  predicate IsSpace(c: char) {
    c == ' ' || c == '\t' || c == '\n' || c == '\r' || c == '\U{B}' || c == '\U{C}'
  }

  predicate AllDigits(s: string) {
    forall i :: 0 <= i < |s| ==> IsDigit(s[i])
  }

  function DigitChar(d: nat): (c: char)
    requires d < 10
    ensures IsDigit(c)
  {
    ['0', '1', '2', '3', '4', '5', '6', '7', '8', '9'][d]
  }

  function DigitValue(c: char): (d: nat)
    requires IsDigit(c)
    ensures d < 10 && DigitChar(d) == c
  {
    (c as int) - ('0' as int)
  }

  /** The decimal numeral of `n`, most significant digit first, without leading zeros. */
  function NatToDecimal(n: nat): (s: string)
    ensures 1 <= |s| && AllDigits(s)
    ensures |s| > 1 ==> s[0] != '0'
  {
    if n < 10 then [DigitChar(n)] else NatToDecimal(n / 10) + [DigitChar(n % 10)]
  }

  /** `std::to_string(n)` and `ostream << n` for a signed integer. */
  function IntToDecimal(n: int): (s: string)
    ensures 1 <= |s|
    ensures n >= 0 ==> AllDigits(s)
    ensures n < 0 ==> s[0] == '-' && AllDigits(s[1..])
  {
    if n < 0 then "-" + NatToDecimal(-n) else NatToDecimal(n)
  }

  /** The value of a string of decimal digits. */
  function DigitsValue(s: string): nat
    requires AllDigits(s)
  {
    if s == [] then 0 else DigitsValue(s[..|s| - 1]) * 10 + DigitValue(s[|s| - 1])
  }

  /** The longest prefix of `s` made of decimal digits. */
  function LeadingDigits(s: string): (d: string)
    ensures AllDigits(d) && StartsWith(s, d)
    ensures |d| < |s| ==> !IsDigit(s[|d|])
  {
    if s == [] || !IsDigit(s[0]) then [] else [s[0]] + LeadingDigits(s[1..])
  }

  function SkipSpaces(s: string): (t: string)
    ensures |t| <= |s| && t == s[|s| - |t|..]
    ensures t != [] ==> !IsSpace(t[0])
  {
    if s != [] && IsSpace(s[0]) then SkipSpaces(s[1..]) else s
  }

  /**
   * C's `atoi`: leading white space, an optional sign, then the longest run of
   * digits; a string without digits reads as 0. (Overflow, undefined in C, is
   * not modelled: the value is unbounded.)
   */
  function Atoi(s: string): int {
    var t := SkipSpaces(s);
    if t != [] && t[0] == '-' then -(DigitsValue(LeadingDigits(t[1..])) as int)
    else if t != [] && t[0] == '+' then DigitsValue(LeadingDigits(t[1..]))
    else DigitsValue(LeadingDigits(t))
  }

  lemma {:induction false} LeadingDigitsOfDigits(s: string)
    requires AllDigits(s)
    ensures LeadingDigits(s) == s
  {
    if s != [] {
      LeadingDigitsOfDigits(s[1..]);
    }
  }

  lemma {:induction false} DigitsValueOfDecimal(n: nat)
    ensures DigitsValue(NatToDecimal(n)) == n
  {
    if n >= 10 {
      var s := NatToDecimal(n);
      DigitsValueOfDecimal(n / 10);
      assert s[..|s| - 1] == NatToDecimal(n / 10);
    }
  }

  /** `atoi` reads back every numeral that `std::to_string` writes. */
  lemma {:induction false} AtoiOfDecimal(n: int)
    ensures Atoi(IntToDecimal(n)) == n
  {
    if n < 0 {
      assert IntToDecimal(n) == "-" + NatToDecimal(-n);
      AtoiOfNegative(-n);
    } else {
      assert IntToDecimal(n) == NatToDecimal(n);
      AtoiOfNatural(n);
    }
  }

  lemma AtoiOfNatural(n: nat)
    ensures Atoi(NatToDecimal(n)) == n
  {
    AtoiOfDigits(NatToDecimal(n));
    DigitsValueOfDecimal(n);
  }

  lemma AtoiOfDigits(s: string)
    requires s != [] && AllDigits(s)
    ensures Atoi(s) == DigitsValue(s)
  {
    NoSpacesBeforeDigit(s);
    LeadingDigitsOfDigits(s);
  }

  /** A text that starts with a digit has no leading white space and no sign. */
  lemma NoSpacesBeforeDigit(s: string)
    requires s != [] && IsDigit(s[0])
    ensures SkipSpaces(s) == s && s[0] != '-' && s[0] != '+'
  {
  }

  lemma AtoiOfNegative(n: nat)
    requires n > 0
    ensures Atoi("-" + NatToDecimal(n)) == -(n as int)
  {
    var d := NatToDecimal(n);
    var s := "-" + d;
    assert SkipSpaces(s) == s;
    assert s[1..] == d;
    LeadingDigitsOfDigits(d);
    DigitsValueOfDecimal(n);
  }

  /** Distinct integers have distinct decimal numerals. */
  lemma DecimalInjective(m: int, n: int)
    requires IntToDecimal(m) == IntToDecimal(n)
    ensures m == n
  {
    AtoiOfDecimal(m);
    AtoiOfDecimal(n);
  }
}
