/**
  Go's fixed-width integers on a 64-bit platform, the conversion uint64(x) of a
  signed value, and strconv.Atoi, which turns the id segment of a path into an int.
 */
module Ints {
  import opened Wrappers

  const TWO_TO_THE_64: int := 0x1_0000_0000_0000_0000
  const MIN_INT: int := -0x8000_0000_0000_0000
  const MAX_INT: int := 0x7FFF_FFFF_FFFF_FFFF

  /** Go's `int` (and `int64`) on a 64-bit platform. */
  type Int = x: int | MIN_INT <= x <= MAX_INT

  /** Go's `uint64` (and `uint` on a 64-bit platform). */
  type Uint64 = x: int | 0 <= x < TWO_TO_THE_64

  /** The conversion uint64(x): the unsigned value congruent to `x` modulo 2^64,
      so a negative int wraps around and a non-negative one is unchanged. */
  function ToUint64(x: Int): (r: Uint64)
    ensures r % TWO_TO_THE_64 == x % TWO_TO_THE_64
    ensures x >= 0 ==> r == x
  {
    if x < 0 then x + TWO_TO_THE_64 else x
  }

  /** The conversion int64(x) of an unsigned value: the signed value congruent
      to `x` modulo 2^64, so values from 2^63 on become negative. */
  function ToInt64(x: Uint64): (r: Int)
    ensures r % TWO_TO_THE_64 == x % TWO_TO_THE_64
    ensures x <= MAX_INT ==> r == x
  {
    if x > MAX_INT then x - TWO_TO_THE_64 else x
  }

  /** The two conversions undo each other: an unsigned value sent through a
      signed one (as an auto-increment id through LastInsertId) comes back intact. */
  lemma ConversionsRoundTrip(x: Uint64, y: Int)
    ensures ToUint64(ToInt64(x)) == x
    ensures ToInt64(ToUint64(y)) == y
  {
  }

  predicate IsDigit(c: char) {
    '0' <= c <= '9'
  }

  predicate AllDigits(s: string) {
    forall i | 0 <= i < |s| :: IsDigit(s[i])
  }

  function DigitValue(c: char): (d: nat)
    requires IsDigit(c)
    ensures d < 10
  {
    (c as int) - ('0' as int)
  }

  function DigitChar(d: nat): (c: char)
    requires d < 10
    ensures IsDigit(c) && DigitValue(c) == d
  {
    ('0' as int + d) as char
  }

  /** The value of a string of decimal digits, most significant first. */
  function DigitsValue(s: string): nat
    requires AllDigits(s)
  {
    if s == [] then 0 else 10 * DigitsValue(s[..|s| - 1]) + DigitValue(s[|s| - 1])
  }

  /** strconv.Atoi with base 10 on a 64-bit platform: an optional '+' or '-',
      then at least one decimal digit and nothing else (no spaces, no
      underscores, no base prefix), and a value that fits in an int.
      Anything else is a syntax or range error, here None. */
  function Atoi(s: string): (r: Option<Int>)
    ensures r.Some? ==> s != [] && (IsDigit(s[0]) || (|s| >= 2 && (s[0] == '+' || s[0] == '-')))
    ensures r.Some? ==> forall i | 0 < i < |s| :: IsDigit(s[i])
    ensures r.Some? ==> (r.value < 0 ==> s[0] == '-')
  {
    var signed := |s| > 0 && (s[0] == '+' || s[0] == '-');
    var digits := if signed then s[1..] else s;
    if digits == [] || !AllDigits(digits) then None
    else
      var magnitude: int := DigitsValue(digits);
      var v: int := if signed && s[0] == '-' then -magnitude else magnitude;
      if MIN_INT <= v <= MAX_INT then Some(v) else None
  }

  /** Decimal digits of a natural number, without leading zeros. */
  function FormatNat(n: nat): (s: string)
    ensures s != []
  {
    if n < 10 then [DigitChar(n)] else FormatNat(n / 10) + [DigitChar(n % 10)]
  }

  /** strconv.Itoa: how a client writes an id into the path. */
  function Itoa(n: Int): string {
    if n < 0 then "-" + FormatNat(-(n as int)) else FormatNat(n)
  }

  lemma {:induction false} FormatNatDigits(n: nat)
    ensures AllDigits(FormatNat(n)) && DigitsValue(FormatNat(n)) == n
  {
    var s := FormatNat(n);
    if n >= 10 {
      FormatNatDigits(n / 10);
      assert s[..|s| - 1] == FormatNat(n / 10);
    }
  }

  /** Every int written in decimal is read back by Atoi as that same int. */
  lemma AtoiItoa(n: Int)
    ensures Atoi(Itoa(n)) == Some(n)
  {
    var s := Itoa(n);
    if n < 0 {
      FormatNatDigits(-(n as int));
      assert s[1..] == FormatNat(-(n as int));
    } else {
      FormatNatDigits(n);
    }
  }

  /** Conversely, every optional sign followed by decimal digits whose value
      fits in an int is accepted, with that value. */
  lemma AtoiAcceptsEveryLiteral(sign: string, digits: string)
    requires sign == "" || sign == "+" || sign == "-"
    requires digits != [] && AllDigits(digits)
    requires MIN_INT <= (if sign == "-" then -(DigitsValue(digits) as int) else DigitsValue(digits)) <= MAX_INT
    ensures Atoi(sign + digits) == Some(if sign == "-" then -(DigitsValue(digits) as int) else DigitsValue(digits))
  {
    if sign != "" {
      assert (sign + digits)[1..] == digits;
    } else {
      assert sign + digits == digits;
    }
  }

  /** Leading zeros and a '+' sign are accepted and do not change the value. */
  lemma {:induction false} AtoiLeadingZeroAndPlus(s: string)
    requires s != [] && AllDigits(s)
    ensures Atoi("0" + s) == Atoi(s)
    ensures Atoi("+" + s) == Atoi(s)
  {
    ZeroPrefixValue(s);
    assert ("+" + s)[1..] == s;
  }

  lemma {:induction false} ZeroPrefixValue(s: string)
    requires AllDigits(s)
    ensures AllDigits("0" + s) && DigitsValue("0" + s) == DigitsValue(s)
  {
    var t := "0" + s;
    if s != [] {
      assert t[..|t| - 1] == "0" + s[..|s| - 1];
      ZeroPrefixValue(s[..|s| - 1]);
    }
  }

  /** A string of digits whose value exceeds the int range is refused, with or
      without a sign in front: Atoi reports a range error rather than wrapping.
      Unsigned or with '+', the first refused value is 2^63; with '-', 2^63 + 1. */
  lemma AtoiRejectsOverflow(s: string)
    requires s != [] && AllDigits(s)
    ensures DigitsValue(s) > MAX_INT ==> Atoi(s) == None && Atoi("+" + s) == None
    ensures DigitsValue(s) > TWO_TO_THE_64 / 2 ==> Atoi("-" + s) == None
  {
    assert ("+" + s)[1..] == s;
    assert ("-" + s)[1..] == s;
  }
}
