/** Bytes and the big-endian fields of `struct.pack`. */
module Bytes {

  type byte = b: int | 0 <= b < 256

  const U32_LIMIT: int := 0x1_0000_0000

  function BigEndian(n: nat, width: nat): (field: seq<byte>)
    ensures |field| == width
  {
    if width == 0 then [] else BigEndian(n / 0x100, width - 1) + [n % 0x100]
  }

  function Value(field: seq<byte>): nat {
    if field == [] then 0 else Value(field[..|field| - 1]) * 0x100 + field[|field| - 1]
  }

  function Power256(width: nat): (p: nat)
    ensures p > 0
  {
    if width == 0 then 1 else Power256(width - 1) * 0x100
  }

  lemma {:induction false} ValueOfBigEndian(n: nat, width: nat)
    requires n < Power256(width)
    ensures Value(BigEndian(n, width)) == n
  {
    if width > 0 {
      ValueOfBigEndian(n / 0x100, width - 1);
      assert BigEndian(n, width)[..width - 1] == BigEndian(n / 0x100, width - 1);
    }
  }

  lemma {:induction false} BigEndianOfValue(field: seq<byte>)
    ensures Value(field) < Power256(|field|)
    ensures BigEndian(Value(field), |field|) == field
  {
    if field != [] {
      var init, last: int := field[..|field| - 1], field[|field| - 1];
      BigEndianOfValue(init);
      assert Value(field) / 0x100 == Value(init) && Value(field) % 0x100 == last;
      assert field == init + [last];
    }
  }

  function Be32(n: nat): (field: seq<byte>)
    requires n < U32_LIMIT
    ensures |field| == 4
  {
    BigEndian(n, 4)
  }

  function FromBe32(field: seq<byte>): (n: nat)
    requires |field| == 4
    ensures n < U32_LIMIT
  {
    BigEndianOfValue(field);
    Power256Of4();
    Value(field)
  }

  lemma Power256Of4()
    ensures Power256(4) == U32_LIMIT
  {
    assert Power256(2) == 0x1_0000;
    assert Power256(3) == 0x100_0000;
  }

  lemma Be32RoundTrip(n: nat)
    requires n < U32_LIMIT
    ensures FromBe32(Be32(n)) == n
  {
    Power256Of4();
    ValueOfBigEndian(n, 4);
  }

  lemma FromBe32RoundTrip(field: seq<byte>)
    requires |field| == 4
    ensures Be32(FromBe32(field)) == field
  {
    BigEndianOfValue(field);
  }

  /** The most significant byte comes first. */
  lemma Be32Bytes(n: nat)
    requires n < U32_LIMIT
    ensures Be32(n) == [n / 0x100_0000, n / 0x1_0000 % 0x100, n / 0x100 % 0x100, n % 0x100]
  {
    var b, c, d := n / 0x100, n / 0x100 / 0x100, n / 0x100 / 0x100 / 0x100;
    assert c == n / 0x1_0000 && d == n / 0x100_0000;
    assert BigEndian(d, 1) == BigEndian(0, 0) + [d] == [d];
    assert BigEndian(c, 2) == [d, c % 0x100];
    assert BigEndian(b, 3) == [d, c % 0x100, b % 0x100];
  }

  lemma FromBe32Bytes(field: seq<byte>)
    requires |field| == 4
    ensures FromBe32(field)
         == 0x100_0000 * (field[0] as int) + 0x1_0000 * (field[1] as int) + 0x100 * (field[2] as int) + field[3] as int
  {
    var a: int, b: int, c: int := field[0], field[1], field[2];
    assert Value(field[..3][..2][..1]) == a;
    assert Value(field[..3][..2]) == 0x100 * a + b;
    assert Value(field[..3]) == 0x1_0000 * a + 0x100 * b + c;
  }
}
