/**
 * NumberBuilder: a string made of a fixed text followed by the decimal form
 * of a 32-bit number, rewritten in place whenever the number changes.
 */
module Numbers {

  /** Java's int. */
  newtype int32 = x: int | -0x8000_0000 <= x < 0x8000_0000

  function DigitChar(d: nat): char
    requires d < 10
  {
    ('0' as int + d) as char
  }

  function DigitValue(c: char): int {
    if '0' <= c <= '9' then c as int - '0' as int else 0
  }

  /** The decimal digits of n, without leading zeros. */
  function Digits(n: nat): (s: string)
    ensures |s| >= 1 && forall i :: 0 <= i < |s| ==> '0' <= s[i] <= '9'
  {
    if n < 10 then [DigitChar(n)] else Digits(n / 10) + [DigitChar(n % 10)]
  }

  /** The decimal form of n, as Integer.toString and string concatenation produce it. */
  function Decimal(n: int): (s: string)
    ensures |s| >= 1
  {
    if n < 0 then "-" + Digits(-n) else Digits(n)
  }

  /** Reads a string of decimal digits back. */
  function ReadDigits(s: string): int {
    if s == [] then 0 else ReadDigits(s[..|s| - 1]) * 10 + DigitValue(s[|s| - 1])
  }

  /** Reads an optionally signed decimal back. */
  function ReadDecimal(s: string): int {
    if s != [] && s[0] == '-' then -ReadDigits(s[1..]) else ReadDigits(s)
  }

  lemma {:induction false} DigitsRoundTrip(n: nat)
    ensures ReadDigits(Digits(n)) == n
  {
    if n >= 10 {
      DigitsRoundTrip(n / 10);
      var s := Digits(n);
      assert s[..|s| - 1] == Digits(n / 10);
    }
  }

  /** The decimal form determines the number: reading it back gives the number. */
  lemma DecimalRoundTrip(n: int)
    ensures ReadDecimal(Decimal(n)) == n
  {
    var s := Decimal(n);
    if n < 0 {
      DigitsRoundTrip(-n);
      assert s[0] == '-' && s[1..] == Digits(-n);
    } else {
      DigitsRoundTrip(n);
      assert s == Digits(n) && s[0] != '-';
    }
  }

  class NumberBuilder {
    var number: int32
    /** The contents of the StringBuilder. */
    var builder: string
    const deleteStart: nat
    ghost const text: string

    ghost predicate Valid()
      reads this
    {
      deleteStart == |text| && builder == text + Decimal(number as int)
    }

    constructor (text: string, initialNumber: int32)
      ensures Valid() && this.text == text && number == initialNumber
      ensures ToString() == text + Decimal(initialNumber as int) && deleteStart == |text|
    {
      this.text := text;
      number := initialNumber;
      builder := text + Decimal(initialNumber as int);
      deleteStart := |text|;
    }

    /** update(n): a new number replaces the digits after the text; the current number changes nothing. */
    method Update(n: int32)
      requires Valid()
      modifies this
      ensures Valid() && number == n
      ensures builder[..deleteStart] == old(builder[..deleteStart])
      ensures old(number) == n ==> builder == old(builder)
    {
      if number != n {
        number := n;
        builder := builder[..deleteStart] + Decimal(number as int);
      }
    }

    function GetNumber(): (n: int32)
      requires Valid()
      reads this
      ensures ReadDecimal(ToString()[deleteStart..]) == n as int
    {
      DecimalRoundTrip(number as int);
      assert ToString()[deleteStart..] == Decimal(number as int);
      number
    }

    /** toString(): the text followed by the current number. */
    function ToString(): (s: string)
      requires Valid()
      reads this
      ensures s == text + Decimal(number as int)
    {
      builder
    }
  }
}
