/** Bytes and big-endian numbers. */
module Bytes {

  type Byte = b: int | 0 <= b < 256

  function U16(value: int): (bytes: seq<Byte>)
    requires 0 <= value < 0x1_0000
    ensures |bytes| == 2 && FromU16(bytes[0], bytes[1]) == value
  {
    [value / 256, value % 256]
  }

  function FromU16(high: int, low: int): int { high * 256 + low }

  function U32(value: int): (bytes: seq<Byte>)
    requires 0 <= value < 0x1_0000_0000
    ensures |bytes| == 4 && FromU32(bytes) == value
  {
    U16(value / 0x1_0000) + U16(value % 0x1_0000)
  }

  function FromU32(bytes: seq<Byte>): int
    requires |bytes| == 4
  {
    FromU16(bytes[0], bytes[1]) * 0x1_0000 + FromU16(bytes[2], bytes[3])
  }

  /** Most significant byte first, both ways. */
  lemma U32At(value: int, bytes: seq<Byte>)
    requires 0 <= value < 0x1_0000_0000 && |bytes| == 4
    ensures U32(value) == bytes <==> IsNumber(value, bytes[0], bytes[1], bytes[2], bytes[3])
    ensures FromU32(bytes) == value <==> U32(value) == bytes
  {
    U16At(value / 0x1_0000, bytes[0], bytes[1]);
    U16At(value % 0x1_0000, bytes[2], bytes[3]);
    assert bytes == [bytes[0], bytes[1]] + [bytes[2], bytes[3]];
  }

  predicate IsNumber(value: int, a: int, b: int, c: int, d: int) {
    value == a * 0x100_0000 + b * 0x1_0000 + c * 0x100 + d
  }

  lemma U16At(value: int, high: Byte, low: Byte)
    requires 0 <= value < 0x1_0000
    ensures U16(value) == [high, low] <==> IsNumber(value, 0, 0, high, low)
    ensures FromU16(high, low) == value <==> U16(value) == [high, low]
  {
    TwoParts(high, low);
    assert value == 256 * (value / 256) + value % 256;
    hide *;
    assert U16(value) == [high, low] <==> value / 256 == high && value % 256 == low by { Parts(value); }
    assert FromU16(high, low) == high * 256 + low by { Whole(high, low); }
    assert IsNumber(value, 0, 0, high, low) <==> value == high * 256 + low by { NumberOfTwo(value, high, low); }
  }

  lemma TwoParts(high: int, low: int)
    requires 0 <= low < 256
    ensures (high * 256 + low) / 256 == high && (high * 256 + low) % 256 == low
  {
  }

  lemma Parts(value: int)
    requires 0 <= value < 0x1_0000
    ensures U16(value) == [value / 256, value % 256]
  {
  }

  lemma Whole(high: int, low: int)
    ensures FromU16(high, low) == high * 256 + low
  {
  }

  lemma NumberOfTwo(value: int, c: int, d: int)
    ensures IsNumber(value, 0, 0, c, d) <==> value == c * 256 + d
  {
  }

  /** How many of nItems fit in the room there is: check() and overrun(). */
  function Fitting(itemSize: nat, nItems: nat, room: nat): nat
    requires itemSize > 0
  {
    if itemSize * nItems > room then room / itemSize else nItems
  }

  lemma FittingFits(itemSize: nat, nItems: nat, room: nat)
    requires itemSize > 0
    ensures var n := Fitting(itemSize, nItems, room);
      && n <= nItems && itemSize * n <= room
      && (n == nItems || itemSize * (n + 1) > room)
      && (room >= itemSize && nItems > 0 ==> n > 0)
  {
    var q := room / itemSize;
    assert room == itemSize * q + room % itemSize;
    if itemSize * nItems > room {
      assert itemSize * (q + 1) > room;
      assert q >= nItems ==> itemSize * q >= itemSize * nItems;
    }
  }
}
