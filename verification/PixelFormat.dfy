/** Pixel formats and their sixteen bytes on the wire. */
module PixelFormats {
  import opened Arithmetic
  import opened Bytes

  datatype Result<T> = Ok(value: T) | EndOfStream | InvalidFormat

  datatype PixelFormat = PixelFormat(
    bpp: int, depth: int, bigEndian: bool, trueColour: bool,
    redMax: int, greenMax: int, blueMax: int,
    redShift: int, greenShift: int, blueShift: int)

  /** max & (max + 1) is zero for these numbers below 256 only. */
  predicate IsMask(max: int) {
    max in {0, 1, 3, 7, 15, 31, 63, 127, 255}
  }

  /** The number of bits of a channel; one even for a channel without values. */
  function Bits(value: nat): (bits: nat)
    requires IsMask(value)
    ensures 1 <= bits <= 8
  {
    if value <= 1 then 1 else 1 + Bits(value / 2)
  }

  /** Two channels share no bit of the pixel. */
  predicate Apart(max: nat, shift: int, max': nat, shift': int)
    requires IsMask(max) && IsMask(max')
  {
    max == 0 || max' == 0 || shift + Bits(max) <= shift' || shift' + Bits(max') <= shift
  }

  predicate IsSane(pf: PixelFormat) {
    && pf.bpp in {8, 16, 32}
    && pf.depth <= pf.bpp
    && (!pf.trueColour ==> pf.depth == 8)
    && IsMask(pf.redMax) && IsMask(pf.greenMax) && IsMask(pf.blueMax)
    && Bits(pf.redMax) + Bits(pf.greenMax) + Bits(pf.blueMax) <= pf.bpp
    && Apart(pf.redMax, pf.redShift, pf.greenMax, pf.greenShift)
    && Apart(pf.redMax, pf.redShift, pf.blueMax, pf.blueShift)
    && Apart(pf.greenMax, pf.greenShift, pf.blueMax, pf.blueShift)
  }

  /** Every field fits the width it has on the wire. */
  predicate WireSized(pf: PixelFormat) {
    && 0 <= pf.bpp < 256 && 0 <= pf.depth < 256
    && 0 <= pf.redMax < 0x1_0000 && 0 <= pf.greenMax < 0x1_0000 && 0 <= pf.blueMax < 0x1_0000
    && 0 <= pf.redShift < 256 && 0 <= pf.greenShift < 256 && 0 <= pf.blueShift < 256
  }

  /** The true colour format that stands in for a colour map. */
  predicate IsFakeMap(pf: PixelFormat) {
    && pf.redMax == 7 && pf.greenMax == 7 && pf.blueMax == 3
    && pf.redShift == 0 && pf.greenShift == 3 && pf.blueShift == 6
  }

  function Flag(b: bool): Byte { if b then 1 else 0 }

  function Write(pf: PixelFormat): (bytes: seq<Byte>)
    requires WireSized(pf)
    ensures |bytes| == 16
  {
    [pf.bpp, pf.depth, Flag(pf.bigEndian), Flag(pf.trueColour)]
    + U16(pf.redMax) + U16(pf.greenMax) + U16(pf.blueMax)
    + [pf.redShift, pf.greenShift, pf.blueShift, 0, 0, 0]
  }

  function Fields(s: seq<Byte>): PixelFormat
    requires |s| >= 16
  {
    PixelFormat(s[0], s[1], s[2] != 0, s[3] != 0,
                FromU16(s[4], s[5]), FromU16(s[6], s[7]), FromU16(s[8], s[9]),
                s[10], s[11], s[12])
  }

  function Read(s: seq<Byte>): (r: Result<PixelFormat>)
    ensures r.Ok? ==> IsSane(r.value) && WireSized(r.value) && (r.value.trueColour || IsFakeMap(r.value))
  {
    if |s| < 16 then EndOfStream else
      var sent := Fields(s);
      var pf := if sent.trueColour then sent else
        sent.(redMax := 7, greenMax := 7, blueMax := 3, redShift := 0, greenShift := 3, blueShift := 6);
      if IsSane(pf) then Ok(pf) else InvalidFormat
  }

  /** A format survives the wire exactly when it is sane and not in colour map
      mode with channels of its own. */
  lemma ReadWrite(pf: PixelFormat)
    requires WireSized(pf)
    ensures Read(Write(pf)) == Ok(pf) <==> IsSane(pf) && (pf.trueColour || IsFakeMap(pf))
  {
    assert Fields(Write(pf)) == pf;
  }

  // ------------------------------------------------------- bytes on the wire

  /** Two bytes, most significant first. */
  function TwoBytes(s: seq<Byte>, at: nat): int
    requires at + 2 <= |s|
  {
    var high: int, low: int := s[at], s[at + 1];
    high * 256 + low
  }

  /** The sixteen bytes, one by one. */
  lemma WriteAt(pf: PixelFormat)
    requires WireSized(pf)
    ensures var s := Write(pf);
      && s[0] == pf.bpp && s[1] == pf.depth
      && s[2] == (if pf.bigEndian then 1 else 0) && s[3] == (if pf.trueColour then 1 else 0)
      && TwoBytes(s, 4) == pf.redMax && TwoBytes(s, 6) == pf.greenMax && TwoBytes(s, 8) == pf.blueMax
      && s[10] == pf.redShift && s[11] == pf.greenShift && s[12] == pf.blueShift
      && s[13] == s[14] == s[15] == 0
  {
  }

  /** What the first sixteen bytes say, for a true-colour format and for a colour map. */
  function Said(s: seq<Byte>): PixelFormat
    requires |s| >= 16
  {
    if s[3] != 0 then
      PixelFormat(s[0], s[1], s[2] != 0, true,
                  TwoBytes(s, 4), TwoBytes(s, 6), TwoBytes(s, 8), s[10], s[11], s[12])
    else
      PixelFormat(s[0], s[1], s[2] != 0, false, 7, 7, 3, 0, 3, 6)
  }

  /** read: the fields at their places, if there are enough bytes and they are sane. */
  lemma ReadAt(s: seq<Byte>)
    ensures Read(s) == if |s| < 16 then EndOfStream else if IsSane(Said(s)) then Ok(Said(s)) else InvalidFormat
  {
    hide IsSane;
  }

  /** Two fields of so many bits, shifted, have no bit in common. */
  ghost predicate NoSharedBit(shift: int, bits: nat, shift': int, bits': nat) {
    forall n :: !(HasBit(shift, bits, n) && HasBit(shift', bits', n))
  }

  predicate HasBit(shift: int, bits: nat, n: int) {
    shift <= n < shift + bits
  }

  /** Channels of 1 to 8 bits, all of them inside the pixel. */
  ghost predicate ChannelsOf(pf: PixelFormat, r: nat, g: nat, b: nat) {
    && 1 <= r <= 8 && 1 <= g <= 8 && 1 <= b <= 8
    && pf.redMax == Pow2(r) - 1 && pf.greenMax == Pow2(g) - 1 && pf.blueMax == Pow2(b) - 1
    && 0 <= pf.redShift && pf.redShift + r <= pf.bpp && 0 <= pf.greenShift && pf.greenShift + g <= pf.bpp
    && 0 <= pf.blueShift && pf.blueShift + b <= pf.bpp
  }

  /** Of the true-colour formats with such channels exactly those of 8, 16 or 32 bits
      are accepted whose depth is no larger and whose channels share no bit. */
  lemma AcceptedIff(s: seq<Byte>, r: nat, g: nat, b: nat)
    requires |s| >= 16 && s[3] != 0 && ChannelsOf(Said(s), r, g, b)
    ensures var pf := Said(s);
      Read(s) == Ok(pf) <==>
        && s[0] in {8, 16, 32} && s[1] <= s[0]
        && NoSharedBit(pf.redShift, r, pf.greenShift, g) && NoSharedBit(pf.redShift, r, pf.blueShift, b)
        && NoSharedBit(pf.greenShift, g, pf.blueShift, b)
  {
    ReadAt(s);
    SaneIff(Said(s), r, g, b);
    hide *;
  }

  lemma SaneIff(pf: PixelFormat, r: nat, g: nat, b: nat)
    requires pf.trueColour && ChannelsOf(pf, r, g, b)
    ensures IsSane(pf) <==>
              && pf.bpp in {8, 16, 32} && pf.depth <= pf.bpp
              && NoSharedBit(pf.redShift, r, pf.greenShift, g) && NoSharedBit(pf.redShift, r, pf.blueShift, b)
              && NoSharedBit(pf.greenShift, g, pf.blueShift, b)
  {
    MaskBits(r);
    MaskBits(g);
    MaskBits(b);
    SharedBit(pf.redShift, r, pf.greenShift, g);
    SharedBit(pf.redShift, r, pf.blueShift, b);
    SharedBit(pf.greenShift, g, pf.blueShift, b);
    ThreeFit(pf.bpp, pf.redShift, r, pf.greenShift, g, pf.blueShift, b);
    hide IsMask, Bits, Pow2, NoSharedBit;
  }

  /** Fields side by side in a pixel have no more bits than the pixel. */
  lemma ThreeFit(bpp: int, r: int, rn: nat, g: int, gn: nat, b: int, bn: nat)
    requires 0 <= r && r + rn <= bpp && 0 <= g && g + gn <= bpp && 0 <= b && b + bn <= bpp
    ensures (r + rn <= g || g + gn <= r) && (r + rn <= b || b + bn <= r) && (g + gn <= b || b + bn <= g) ==>
              rn + gn + bn <= bpp
  {
  }

  /** A colour map is accepted exactly for pixels of 8, 16 or 32 bits and depth 8. */
  lemma ColourMapAcceptedIff(s: seq<Byte>)
    requires |s| >= 16 && s[3] == 0
    ensures Read(s) == Ok(Said(s)) <==> s[0] in {8, 16, 32} && s[1] == 8
  {
  }

  /** Other sizes are refused, and so are channels that are not of 8 bits at most. */
  lemma Refused(s: seq<Byte>)
    requires |s| >= 16
    ensures s[0] !in {8, 16, 32} || s[1] > s[0] ==> Read(s) == InvalidFormat
    ensures s[3] != 0 && !(Said(s).redMax < 256 && Said(s).greenMax < 256 && Said(s).blueMax < 256) ==>
              Read(s) == InvalidFormat
    ensures s[3] != 0 && !(MaskOnly(Said(s).redMax) && MaskOnly(Said(s).greenMax) && MaskOnly(Said(s).blueMax)) ==>
              Read(s) == InvalidFormat
  {
    forall max | IsMask(max) ensures MaskOnly(max) {
      PowersSmall();
    }
    hide MaskOnly;
  }

  /** All ones. */
  ghost predicate MaskOnly(max: int) {
    exists k: nat :: max == Pow2(k) - 1
  }

  lemma PowersSmall()
    ensures Pow2(0) == 1 && Pow2(1) == 2 && Pow2(2) == 4 && Pow2(3) == 8 && Pow2(4) == 16
    ensures Pow2(5) == 32 && Pow2(6) == 64 && Pow2(7) == 128 && Pow2(8) == 256
  {
  }

  lemma MaskBits(k: nat)
    requires 1 <= k <= 8
    ensures IsMask(Pow2(k) - 1) && Bits(Pow2(k) - 1) == k && Pow2(k) - 1 > 0
  {
    PowersSmall();
    hide Pow2;
  }

  lemma SharedBit(shift: int, bits: nat, shift': int, bits': nat)
    requires bits > 0 && bits' > 0
    ensures NoSharedBit(shift, bits, shift', bits') <==> shift + bits <= shift' || shift' + bits' <= shift
  {
    if !(shift + bits <= shift' || shift' + bits' <= shift) {
      var n := if shift < shift' then shift' else shift;
      assert HasBit(shift, bits, n) && HasBit(shift', bits', n);
    }
  }

  // ---------------------------------------------------------------- equality

  /** The byte mirrored, the same bit in it, and no byte boundary crossed. */
  predicate SameByte(shift: nat, bits: nat, shift': nat) {
    && shift / 8 == 3 - shift' / 8
    && shift % 8 == shift' % 8
    && shift / 8 == (shift + bits - 1) / 8
  }

  /** PixelFormat::equal. */
  predicate Equal(a: PixelFormat, b: PixelFormat)
    requires IsSane(a) && WireSized(a) && WireSized(b)
  {
    && a.bpp == b.bpp && a.depth == b.depth
    && a.redMax == b.redMax && a.greenMax == b.greenMax && a.blueMax == b.blueMax
    && if a.bigEndian == b.bigEndian || a.bpp == 8 then
         a.redShift == b.redShift && a.greenShift == b.greenShift && a.blueShift == b.blueShift
       else
         && SameByte(a.redShift, Bits(a.redMax), b.redShift)
         && SameByte(a.greenShift, Bits(a.greenMax), b.greenShift)
         && SameByte(a.blueShift, Bits(a.blueMax), b.blueShift)
  }

  /** Where bit j of a channel is in the buffer: the byte and the bit in it. */
  function Place(pf: PixelFormat, shift: int, j: int): (int, int) {
    var n := shift + j;
    (if pf.bigEndian then pf.bpp / 8 - 1 - n / 8 else n / 8, n % 8)
  }

  ghost predicate SamePlaces(a: PixelFormat, b: PixelFormat, bits: nat, shift: int, shift': int) {
    forall j :: 0 <= j < bits ==> Place(a, shift, j) == Place(b, shift', j)
  }

  /** The same channels, with every bit of them in the same place. */
  ghost predicate SameLayout(a: PixelFormat, b: PixelFormat)
    requires IsSane(a)
  {
    && a.bpp == b.bpp && a.depth == b.depth
    && a.redMax == b.redMax && a.greenMax == b.greenMax && a.blueMax == b.blueMax
    && SamePlaces(a, b, Bits(a.redMax), a.redShift, b.redShift)
    && SamePlaces(a, b, Bits(a.greenMax), a.greenShift, b.greenShift)
    && SamePlaces(a, b, Bits(a.blueMax), a.blueShift, b.blueShift)
  }

  /** All channels have bits, and the bits are inside the pixel. */
  predicate Usable(pf: PixelFormat)
    requires IsSane(pf)
  {
    && pf.redMax > 0 && pf.greenMax > 0 && pf.blueMax > 0
    && 0 <= pf.redShift && pf.redShift + Bits(pf.redMax) <= pf.bpp
    && 0 <= pf.greenShift && pf.greenShift + Bits(pf.greenMax) <= pf.bpp
    && 0 <= pf.blueShift && pf.blueShift + Bits(pf.blueMax) <= pf.bpp
  }

  lemma SameOrderPlaces(a: PixelFormat, b: PixelFormat, bits: nat, shift: nat, shift': nat)
    requires 1 <= bits && a.bpp == b.bpp && a.bpp in {8, 16, 32}
    requires shift + bits <= a.bpp && shift' + bits <= a.bpp
    requires a.bigEndian == b.bigEndian || a.bpp == 8
    ensures SamePlaces(a, b, bits, shift, shift') <==> shift == shift'
  {
    assert SamePlaces(a, b, bits, shift, shift') ==> Place(a, shift, 0) == Place(b, shift', 0);
  }

  /** Moving j bits up stays in the byte or goes to a later one. */
  lemma InByte(n: nat, j: nat)
    ensures (n + j) / 8 == n / 8 <==> n % 8 + j < 8
    ensures (n + j) / 8 >= n / 8
    ensures n % 8 + j < 8 ==> (n + j) % 8 == n % 8 + j
  {
  }

  lemma SwappedPlaces(a: PixelFormat, b: PixelFormat, bits: nat, shift: nat, shift': nat)
    requires 1 <= bits && a.bpp == b.bpp == 32 && a.bigEndian != b.bigEndian
    requires shift + bits <= 32 && shift' + bits <= 32
    ensures SamePlaces(a, b, bits, shift, shift') <==> SameByte(shift, bits, shift')
  {
    hide SamePlaces, SameByte;
    if SamePlaces(a, b, bits, shift, shift') { PlacesInByte(a, b, bits, shift, shift'); }
    if SameByte(shift, bits, shift') { BytePlaces(a, b, bits, shift, shift'); }
  }

  lemma PlacesInByte(a: PixelFormat, b: PixelFormat, bits: nat, shift: nat, shift': nat)
    requires 1 <= bits && a.bpp == b.bpp == 32 && a.bigEndian != b.bigEndian
    requires shift + bits <= 32 && shift' + bits <= 32 && SamePlaces(a, b, bits, shift, shift')
    ensures SameByte(shift, bits, shift')
  {
    var last := bits - 1;
    InByte(shift, last);
    InByte(shift', last);
    assert Place(a, shift, 0) == Place(b, shift', 0) && Place(a, shift, last) == Place(b, shift', last);
    hide SamePlaces;
  }

  lemma BytePlaces(a: PixelFormat, b: PixelFormat, bits: nat, shift: nat, shift': nat)
    requires 1 <= bits && a.bpp == b.bpp == 32 && a.bigEndian != b.bigEndian
    requires shift + bits <= 32 && shift' + bits <= 32 && SameByte(shift, bits, shift')
    ensures SamePlaces(a, b, bits, shift, shift')
  {
    forall j | 0 <= j < bits ensures Place(a, shift, j) == Place(b, shift', j) {
      BytePlace(a, b, bits, shift, shift', j);
    }
  }

  lemma BytePlace(a: PixelFormat, b: PixelFormat, bits: nat, shift: nat, shift': nat, j: nat)
    requires j < bits && a.bpp == b.bpp == 32 && a.bigEndian != b.bigEndian
    requires shift + bits <= 32 && shift' + bits <= 32 && SameByte(shift, bits, shift')
    ensures Place(a, shift, j) == Place(b, shift', j)
  {
    InByte(shift, bits - 1);
    InByte(shift, j);
    InByte(shift', j);
  }

  lemma SamePlacesIff(a: PixelFormat, b: PixelFormat, bits: nat, shift: nat, shift': nat)
    requires 1 <= bits && a.bpp == b.bpp && a.bpp in {8, 16, 32}
    requires shift + bits <= a.bpp && shift' + bits <= a.bpp
    ensures (a.bigEndian == b.bigEndian || a.bpp == 8) && SamePlaces(a, b, bits, shift, shift') <==>
      (a.bigEndian == b.bigEndian || a.bpp == 8) && shift == shift'
    ensures a.bigEndian != b.bigEndian && a.bpp == 32 ==>
      (SamePlaces(a, b, bits, shift, shift') <==> SameByte(shift, bits, shift'))
    ensures a.bpp == 16 ==> !SameByte(shift, bits, shift')
  {
    if a.bigEndian == b.bigEndian || a.bpp == 8 { SameOrderPlaces(a, b, bits, shift, shift'); }
    if a.bigEndian != b.bigEndian && a.bpp == 32 { SwappedPlaces(a, b, bits, shift, shift'); }
  }

  /** Formats compare equal only when a buffer means the same in both; all such
      formats do, except that byte-swapped 16-bit ones are not recognised. */
  lemma EqualIsSameLayout(a: PixelFormat, b: PixelFormat)
    requires IsSane(a) && IsSane(b) && WireSized(a) && WireSized(b) && Usable(a) && Usable(b)
    ensures Equal(a, b) <==> SameLayout(a, b) && (a.bigEndian == b.bigEndian || a.bpp != 16)
  {
    if a.bpp == b.bpp && a.redMax == b.redMax && a.greenMax == b.greenMax && a.blueMax == b.blueMax {
      SamePlacesIff(a, b, Bits(a.redMax), a.redShift, b.redShift);
      SamePlacesIff(a, b, Bits(a.greenMax), a.greenShift, b.greenShift);
      SamePlacesIff(a, b, Bits(a.blueMax), a.blueShift, b.blueShift);
    }
  }
}
