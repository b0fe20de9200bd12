/** Lower-case hexadecimal and canonical decimal text. */
module Numerals {
  import opened Wrappers
  import opened Bytes

  function HexDigit(n: nat): (c: char)
    requires n < 16
  {
    if n < 10 then ('0' as int + n) as char else ('a' as int + n - 10) as char
  }

  predicate IsHex(c: char) {
    '0' <= c <= '9' || 'a' <= c <= 'f'
  }

  function HexValue(c: char): (n: nat)
    requires IsHex(c)
    ensures n < 16 && HexDigit(n) == c
  {
    if c <= '9' then c as int - '0' as int else c as int - 'a' as int + 10
  }

  lemma HexDigitValue(n: nat)
    requires n < 16
    ensures IsHex(HexDigit(n)) && HexValue(HexDigit(n)) == n
  {
  }

  function Hex(data: seq<byte>): (text: string)
    ensures |text| == 2 * |data|
  {
    if data == [] then "" else [HexDigit(data[0] / 16), HexDigit(data[0] % 16)] + Hex(data[1..])
  }

  const HEX_DIGITS := "0123456789abcdef"

  /** Two lower-case digits for each byte, the high half first. */
  lemma {:induction false} HexAt(data: seq<byte>, i: nat)
    requires i < |data|
    ensures Hex(data)[2 * i] == HEX_DIGITS[data[i] / 16]
    ensures Hex(data)[2 * i + 1] == HEX_DIGITS[data[i] % 16]
  {
    if i > 0 {
      HexAt(data[1..], i - 1);
      assert Hex(data)[2 * i] == Hex(data[1..])[2 * (i - 1)];
    }
  }

  predicate HexText(text: string) {
    forall i :: 0 <= i < |text| ==> IsHex(text[i])
  }

  lemma TwoDigits(high: nat, low: nat)
    requires high < 16 && low < 16
    ensures (high * 16 + low) / 16 == high && (high * 16 + low) % 16 == low
  {
  }

  function HexPair(high: char, low: char): (b: byte)
    requires IsHex(high) && IsHex(low)
    ensures HexDigit(b / 16) == high && HexDigit(b % 16) == low
  {
    TwoDigits(HexValue(high), HexValue(low));
    HexValue(high) * 16 + HexValue(low)
  }

  lemma HexPairOfDigits(b: byte)
    ensures IsHex(HexDigit(b / 16)) && IsHex(HexDigit(b % 16))
    ensures HexPair(HexDigit(b / 16), HexDigit(b % 16)) == b
  {
    HexDigitValue(b / 16);
    HexDigitValue(b % 16);
  }

  /** `bytes.fromhex` on lower-case text of even length. */
  function Unhex(text: string): (data: seq<byte>)
    requires HexText(text) && |text| % 2 == 0
    decreases |text|
  {
    if text == "" then [] else [HexPair(text[0], text[1])] + Unhex(text[2..])
  }

  lemma {:induction false} HexOfUnhex(text: string)
    requires HexText(text) && |text| % 2 == 0
    ensures Hex(Unhex(text)) == text
    decreases |text|
  {
    if text != "" {
      HexOfUnhex(text[2..]);
      assert Unhex(text)[1..] == Unhex(text[2..]);
      assert text == [text[0], text[1]] + text[2..];
    }
  }

  lemma {:induction false} HexIsHexText(data: seq<byte>)
    ensures HexText(Hex(data))
  {
    if data != [] {
      HexDigitValue(data[0] / 16);
      HexDigitValue(data[0] % 16);
      HexIsHexText(data[1..]);
    }
  }

  lemma {:induction false} UnhexOfHex(data: seq<byte>)
    ensures HexText(Hex(data)) && Unhex(Hex(data)) == data
  {
    HexIsHexText(data);
    if data != [] {
      UnhexOfHex(data[1..]);
      HexPairOfDigits(data[0]);
      assert Hex(data)[2..] == Hex(data[1..]);
      assert data == [data[0]] + data[1..];
    }
  }

  predicate IsDigit(c: char) {
    '0' <= c <= '9'
  }

  predicate Digits(text: string) {
    text != "" && forall i :: 0 <= i < |text| ==> IsDigit(text[i])
  }

  /** Decimal digits without a leading zero. */
  predicate Canonical(text: string) {
    Digits(text) && (text[0] == '0' ==> text == "0")
  }

  function DecimalValue(text: string): (n: nat)
    requires Digits(text)
  {
    var last := text[|text| - 1] as int - '0' as int;
    if |text| == 1 then last else DecimalValue(text[..|text| - 1]) * 10 + last
  }

  function Decimal(n: nat): (text: string)
    ensures Digits(text) && (n > 0 ==> text[0] != '0') && (n == 0 ==> text == "0")
    ensures DecimalValue(text) == n
  {
    var last := ('0' as int + n % 10) as char;
    if n < 10 then [last]
    else
      var init := Decimal(n / 10);
      assert (init + [last])[..|init|] == init;
      init + [last]
  }

  lemma DecimalIsCanonical(n: nat)
    ensures Canonical(Decimal(n))
  {
  }

  lemma {:induction false} LeadingDigitPositive(text: string)
    requires Digits(text) && text[0] != '0'
    ensures DecimalValue(text) > 0
  {
    if |text| > 1 {
      LeadingDigitPositive(text[..|text| - 1]);
    }
  }

  lemma {:induction false} DecimalOfValue(text: string)
    requires Canonical(text)
    ensures Decimal(DecimalValue(text)) == text
  {
    if |text| > 1 {
      var init, last := text[..|text| - 1], text[|text| - 1];
      var digit := last as int - '0' as int;
      LeadingDigitPositive(init);
      DecimalOfValue(init);
      assert DecimalValue(text) / 10 == DecimalValue(init) && DecimalValue(text) % 10 == digit;
      assert text == init + [last];
    } else {
      assert text == [text[0]];
    }
  }

  /** `str` of any integer; only the non-negative ones are canonical decimal text. */
  function IntText(n: int): string {
    if n < 0 then "-" + Decimal(-n) else Decimal(n)
  }

  lemma IntTextCanonical(n: int)
    ensures Canonical(IntText(n)) <==> n >= 0
    ensures n >= 0 ==> DecimalValue(IntText(n)) == n
  {
    if n < 0 {
      assert !IsDigit(IntText(n)[0]);
    }
  }
}
