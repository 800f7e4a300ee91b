/** Machine integers and their little-endian bytes.

    Every target of the firmware is little-endian and every wire structure is packed, so copying
    a structure writes exactly these bytes. */
module Words {
  type uint8 = x: int | 0 <= x < 0x100
  type uint16 = x: int | 0 <= x < 0x1_0000
  type uint32 = x: int | 0 <= x < 0x1_0000_0000
  type int8 = x: int | -0x80 <= x < 0x80
  type int16 = x: int | -0x8000 <= x < 0x8000

  const UINT8_MAX: uint8 := 0xFF
  const UINT16_MAX: uint16 := 0xFFFF

  function Min(a: int, b: int): int {
    if a <= b then a else b
  }

  /** Unsigned 32-bit subtraction, which wraps instead of going negative. */
  function Minus32(a: uint32, b: uint32): uint32 {
    (a - b) % 0x1_0000_0000
  }

  function Next32(a: uint32): uint32 {
    (a + 1) % 0x1_0000_0000
  }

  function Next16(a: uint16): uint16 {
    (a + 1) % 0x1_0000
  }

  function Saturate8(a: uint16): uint8 {
    if a > UINT8_MAX then UINT8_MAX else a
  }

  function Saturate16(a: uint32): uint16 {
    if a > UINT16_MAX then UINT16_MAX else a
  }

  /** Two's complement views of signed fields. */
  function Raw8(a: int8): uint8 {
    if a < 0 then a + 0x100 else a
  }

  function Signed8(a: uint8): int8 {
    if a < 0x80 then a else a - 0x100
  }

  function Raw16(a: int16): uint16 {
    if a < 0 then a + 0x1_0000 else a
  }

  function Signed16(a: uint16): int16 {
    if a < 0x8000 then a else a - 0x1_0000
  }

  function Lo(a: uint16): uint8 {
    a % 0x100
  }

  function Hi(a: uint16): uint8 {
    a / 0x100
  }

  function Word16(lo: uint8, hi: uint8): uint16 {
    lo + 0x100 * hi
  }

  lemma BytesOfWord16(lo: uint8, hi: uint8)
    ensures Lo(Word16(lo, hi)) == lo && Hi(Word16(lo, hi)) == hi
    ensures Raw16(Signed16(Word16(lo, hi))) == Word16(lo, hi)
  {
  }

  function Bytes32(a: uint32): (b: seq<uint8>)
    ensures |b| == 4
  {
    [a % 0x100, a / 0x100 % 0x100, a / 0x1_0000 % 0x100, a / 0x100_0000]
  }

  function Word32(b0: uint8, b1: uint8, b2: uint8, b3: uint8): uint32 {
    b0 + 0x100 * b1 + 0x1_0000 * b2 + 0x100_0000 * b3
  }

  lemma Word32OfBytes(a: uint32)
    ensures var b := Bytes32(a); Word32(b[0], b[1], b[2], b[3]) == a
  {
    var q1 := a / 0x100;
    var q2 := q1 / 0x100;
    assert a / 0x1_0000 == q2;
    assert a / 0x100_0000 == q2 / 0x100;
    assert a == 0x100 * q1 + a % 0x100;
    assert q1 == 0x100 * q2 + q1 % 0x100;
    assert q2 == 0x100 * (q2 / 0x100) + q2 % 0x100;
  }

  lemma BytesOfWord32(b0: uint8, b1: uint8, b2: uint8, b3: uint8)
    ensures Bytes32(Word32(b0, b1, b2, b3)) == [b0, b1, b2, b3]
  {
    var a := Word32(b0, b1, b2, b3);
    var q1 := b1 + 0x100 * b2 + 0x1_0000 * b3;
    var q2 := b2 + 0x100 * b3;
    assert a == 0x100 * q1 + b0 && a / 0x100 == q1 && a % 0x100 == b0;
    assert q1 == 0x100 * q2 + b1 && q1 / 0x100 == q2 && q1 % 0x100 == b1;
    assert a / 0x1_0000 == q2 && q2 % 0x100 == b2 && q2 / 0x100 == b3;
    assert a / 0x100_0000 == b3;
  }
}
