/**
  The Java number formats the loan repository relies on: the 64-bit `long`
  used for application numbers, `int` arithmetic, the decimal text that
  string concatenation produces for a `long`, and `Long.parseLong`.
*/
module JavaNumbers {
  import opened Optional

  const MIN_LONG: int := -0x8000_0000_0000_0000
  const MAX_LONG: int := 0x7FFF_FFFF_FFFF_FFFF

  /** A Java `long`. */
  type Long = n: int | MIN_LONG <= n <= MAX_LONG

  const MIN_INT: int := -0x8000_0000
  const MAX_INT: int := 0x7FFF_FFFF
  const INT_MODULUS: int := 0x1_0000_0000

  /** The Java `int` that an exact integer result wraps around to. */
  function ToInt32(x: int): (r: int)
    ensures MIN_INT <= r <= MAX_INT
    ensures (x - r) % INT_MODULUS == 0
    ensures MIN_INT <= x <= MAX_INT ==> r == x
  {
    (x - MIN_INT) % INT_MODULUS + MIN_INT
  }

  predicate IsDigit(c: char) {
    '0' <= c <= '9'
  }

  predicate AllDigits(s: string) {
    forall i :: 0 <= i < |s| ==> IsDigit(s[i])
  }

  function DigitChar(d: nat): (c: char)
    requires d < 10
    ensures IsDigit(c) && c as int - '0' as int == d
  {
    (d + '0' as int) as char
  }

  function DigitValue(c: char): nat
    requires IsDigit(c)
  {
    c as int - '0' as int
  }

  /** The decimal digits of `v`, most significant first, without leading zeros. */
  function NaturalDigits(v: nat): (s: string)
    ensures |s| > 0 && AllDigits(s)
    ensures |s| > 1 ==> s[0] != '0'
    decreases v
  {
    if v < 10 then [DigitChar(v)] else NaturalDigits(v / 10) + [DigitChar(v % 10)]
  }

  /** The number a string of decimal digits denotes. */
  function DigitsValue(s: string): nat
    requires AllDigits(s)
  {
    if s == [] then 0 else DigitsValue(s[..|s| - 1]) * 10 + DigitValue(s[|s| - 1])
  }

  /** `Long.toString(n)`, which is also what `"" + n` yields: an optional minus sign, then digits. */
  function Decimal(n: int): (s: string)
    ensures |s| > 0 && s[0] != '+'
    ensures s[0] == '-' <==> n < 0
    ensures AllDigits(if n < 0 then s[1..] else s)
    ensures forall i :: 0 <= i < |s| ==> s[i] == '-' || IsDigit(s[i])
    ensures var digits := if n < 0 then s[1..] else s; |digits| > 1 ==> digits[0] != '0'
  {
    if n < 0 then "-" + NaturalDigits(-n) else NaturalDigits(n)
  }

  /** The text after an optional leading '-' or '+' sign. */
  function Unsigned(s: string): string {
    if |s| > 0 && (s[0] == '-' || s[0] == '+') then s[1..] else s
  }

  /** Text of the form `Long.parseLong` reads: an optional sign, then at least one decimal digit. */
  predicate IsLongSyntax(s: string) {
    |Unsigned(s)| > 0 && AllDigits(Unsigned(s))
  }

  /** The signed number such text denotes, whether or not it fits a `long`. */
  function SyntaxValue(s: string): int
    requires IsLongSyntax(s)
  {
    if s[0] == '-' then 0 - DigitsValue(Unsigned(s)) else DigitsValue(Unsigned(s))
  }

  /**
    `Long.parseLong(s)` in radix 10. None stands for the
    NumberFormatException it throws: on empty text, a sign alone, any
    character that is not a digit after the sign, or a value outside the
    range of a `long`.
  */
  function ParseLong(s: string): (r: Option<Long>)
    ensures r.Some? <==> IsLongSyntax(s) && MIN_LONG <= SyntaxValue(s) <= MAX_LONG
    ensures r.Some? ==> r.value == SyntaxValue(s)
  {
    if |s| == 0 then None
    else
      var negative := s[0] == '-';
      var digits := if s[0] == '-' || s[0] == '+' then s[1..] else s;
      if |digits| == 0 || !AllDigits(digits) then None
      else
        var magnitude := DigitsValue(digits);
        var n: int := if negative then 0 - magnitude as int else magnitude;
        if MIN_LONG <= n <= MAX_LONG then Some(n) else None
  }

  lemma {:induction false} DigitsValueOfNaturalDigits(v: nat)
    ensures DigitsValue(NaturalDigits(v)) == v
    decreases v
  {
    if v >= 10 {
      DigitsValueOfNaturalDigits(v / 10);
      var s := NaturalDigits(v);
      assert s[..|s| - 1] == NaturalDigits(v / 10);
    }
  }

  /** Parsing the decimal text of a `long` gives the `long` back. */
  lemma ParseLongOfDecimal(n: Long)
    ensures ParseLong(Decimal(n)) == Some(n)
  {
    if n < 0 {
      var magnitude: nat := 0 - n as int;
      DigitsValueOfNaturalDigits(magnitude);
      assert Decimal(n)[1..] == NaturalDigits(magnitude);
    } else {
      DigitsValueOfNaturalDigits(n);
    }
  }

  /** Distinct `long` values have distinct decimal texts. */
  lemma DecimalInjective(a: Long, b: Long)
    ensures Decimal(a) == Decimal(b) ==> a == b
  {
    ParseLongOfDecimal(a);
    ParseLongOfDecimal(b);
  }

  lemma {:induction false} LeadingZeroValue(s: string)
    requires AllDigits(s)
    ensures AllDigits("0" + s) && DigitsValue("0" + s) == DigitsValue(s)
    decreases |s|
  {
    if s != [] {
      var t := s[..|s| - 1];
      LeadingZeroValue(t);
      assert ("0" + s)[..|"0" + s| - 1] == "0" + t;
    }
  }

  /** A leading zero does not change what `parseLong` reads: "007" and "7" name the same number. */
  lemma ParseLongIgnoresLeadingZero(n: Long)
    requires n >= 0
    ensures ParseLong("0" + Decimal(n)) == Some(n)
  {
    ParseLongOfDecimal(n);
    LeadingZeroValue(Decimal(n));
  }
}
