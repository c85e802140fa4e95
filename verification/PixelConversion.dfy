/** Conversion of pixel buffers to and from byte-aligned 888 formats. */
module PixelConversion {
  import opened Arithmetic
  import opened Bytes
  import opened PixelFormats

  // ---------------------------------------------------- products and powers

  /** A product kept as a name, so that the solver does not multiply out. */
  ghost function Mul(a: int, b: int): int { a * b }

  lemma MulAdd(a: int, b: int, c: int)
    ensures Mul(a + b, c) == Mul(a, c) + Mul(b, c)
  {
  }

  lemma MulAssoc(a: int, b: int, c: int)
    ensures Mul(Mul(a, b), c) == Mul(a, Mul(b, c))
  {
  }

  lemma MulStep(a: int, b: int, d: nat)
    requires a < b
    ensures Mul(a, d) + d <= Mul(b, d)
  {
    ProductStep(a, b, d);
  }

  lemma MulNonNegative(a: nat, b: nat)
    ensures Mul(a, b) >= 0
  {
  }

  lemma QuotientIs(n: nat, d: nat, q: nat, rest: nat)
    requires d > 0 && n == Mul(q, d) + rest && rest < d
    ensures n / d == q && n % d == rest
  {
    var k := n / d;
    assert n == k * d + n % d;
    if q < k { ProductStep(q, k, d); }
    if k < q { ProductStep(k, q, d); }
  }

  lemma QuotientMul(n: nat, d: nat)
    requires d > 0
    ensures n == Mul(n / d, d) + n % d && n % d < d
  {
  }

  lemma {:induction false} Pow2Add(m: nat, n: nat)
    ensures Pow2(m + n) == Mul(Pow2(m), Pow2(n))
  {
    if m > 0 {
      Pow2Add(m - 1, n);
      MulAdd(Pow2(m - 1), Pow2(m - 1), Pow2(n));
    }
  }

  lemma Pow2Values()
    ensures Pow2(0) == 1 && Pow2(1) == 2 && Pow2(2) == 4 && Pow2(3) == 8 && Pow2(4) == 16
    ensures Pow2(5) == 32 && Pow2(6) == 64 && Pow2(7) == 128 && Pow2(8) == 256
  {
  }

  /** bits(): masking the top byte, nibble, pair and bit of sixteen bits. */
  method CountBits(max: nat) returns (bits: nat)
    requires max < 0x1_0000
    ensures 1 <= bits <= 16 && max < Pow2(bits) && (bits > 1 ==> Pow2(bits - 1) <= max)
    ensures IsMask(max) ==> bits == Bits(max)
  {
    var value := max;
    bits := 16;
    if value < 0x100 {
      bits, value := bits - 8, value * 0x100;
    }
    if value < 0x1000 {
      bits, value := bits - 4, value * 0x10;
    }
    if value < 0x4000 {
      bits, value := bits - 2, value * 4;
    }
    if value < 0x8000 {
      bits, value := bits - 1, value * 2;
    }
    Pow2Values();
    Pow2Large();
    hide Pow2, Bits, IsMask;
    BitsFromBounds(max, bits);
  }

  lemma BitsFromBounds(max: nat, bits: nat)
    requires 1 <= bits <= 16 && max < Pow2(bits) && (bits > 1 ==> Pow2(bits - 1) <= max)
    ensures IsMask(max) ==> bits == Bits(max)
  {
    if IsMask(max) {
      Pow2Values();
      Pow2Large();
      MaskOfBits(max);
      hide Pow2, IsMask;
    }
  }

  lemma MaskOfBits(max: nat)
    requires IsMask(max)
    ensures match Bits(max)
      case 1 => max <= 1 case 2 => max == 3 case 3 => max == 7 case 4 => max == 15
      case 5 => max == 31 case 6 => max == 63 case 7 => max == 127 case _ => Bits(max) == 8 && max == 255
  {
  }

  lemma Pow2Large()
    ensures Pow2(9) == 0x200 && Pow2(10) == 0x400 && Pow2(11) == 0x800 && Pow2(12) == 0x1000
    ensures Pow2(13) == 0x2000 && Pow2(14) == 0x4000 && Pow2(15) == 0x8000 && Pow2(16) == 0x1_0000
  {
    Pow2Values();
  }

  // ----------------------------------------------------- scaling of a channel

  /** upconvTable: a channel of so many bits stretched to eight. */
  function Up(bits: nat, i: nat): (b: Byte)
    requires 1 <= bits <= 8
  {
    Pow2AtLeastTwo(bits);
    QuotientMul(i, Pow2(bits));
    WithinByte(i % Pow2(bits), Pow2(bits) - 1);
    (i % Pow2(bits)) * 255 / (Pow2(bits) - 1)
  }

  lemma Pow2AtLeastTwo(bits: nat)
    requires bits > 0
    ensures Pow2(bits) >= 2
  {
  }

  lemma WithinByte(c: nat, max: nat)
    requires 0 < max && c <= max
    ensures 0 <= c * 255 / max < 256
  {
    var q := c * 255 / max;
    QuotientMul(c * 255, max);
    assert c * 255 <= Mul(255, max) by { if c < max { ProductStep(c, max, 255); } }
    hide *;
    NotNegative(c * 255, max);
    if q >= 256 {
      MulStep(255, 256, max);
      MulAtMost(256, q, max);
    }
  }

  lemma MulAtMost(a: int, b: int, d: nat)
    requires a <= b
    ensures Mul(a, d) <= Mul(b, d)
  {
    if a < b { MulStep(a, b, d); }
  }

  /** Shifting the stretched value back gives the channel again. */
  lemma UpDown(bits: nat, c: nat)
    requires 1 <= bits <= 8 && c < Pow2(bits)
    ensures Up(bits, c) / Pow2(8 - bits) == c
  {
    var max, q := Pow2(bits) - 1, Pow2(8 - bits);
    assert 255 == Mul(q, max) + (q - 1) by {
      Pow2Add(8 - bits, bits);
      MulAdd(q, 0, max);
      assert Pow2(8) == 256 by { Pow2Values(); }
      MulAddRight(q, max);
    }
    assert max > 0 by { Pow2Values(); }
    QuotientIs(c, Pow2(bits), 0, c) by { assert Mul(0, Pow2(bits)) == 0; }
    Stretched(c, max, q);
  }

  lemma MulAddRight(a: int, b: int)
    ensures Mul(a, b + 1) == Mul(a, b) + a
  {
  }

  lemma Stretched(c: nat, max: nat, q: nat)
    requires 0 < max && c <= max && q > 0 && 255 == Mul(q, max) + (q - 1)
    ensures (c * 255) / max / q == c
  {
    Scaled(c, max, q);
    MulNonNegative(c, q - 1);
    MulNonNegative(c, q);
    hide *;
    var k, rest := Mul(c, q), Mul(c, q - 1);
    var t := rest / max;
    QuotientMul(rest, max);
    RestBound(c, max, q, t, rest);
    MulAdd(k, t, max);
    QuotientIs(c * 255, max, k + t, rest % max);
    QuotientIs(k + t, q, c, t);
  }

  lemma Scaled(c: nat, max: nat, q: nat)
    requires q > 0 && 255 == Mul(q, max) + (q - 1)
    ensures c * 255 == Mul(Mul(c, q), max) + Mul(c, q - 1)
  {
    assert c * 255 == Mul(c, Mul(q, max) + (q - 1));
    hide *;
    MulSplit(c, Mul(q, max), q - 1);
    MulAssoc(c, q, max);
  }

  lemma MulSplit(a: int, b: int, c: int)
    ensures Mul(a, b + c) == Mul(a, b) + Mul(a, c)
  {
  }

  lemma RestBound(c: nat, max: nat, q: nat, t: nat, rest: nat)
    requires 0 < max && c <= max && q > 0 && rest == Mul(c, q - 1) && Mul(t, max) <= rest
    ensures t < q
  {
    if t >= q {
      assert Mul(c, q - 1) <= Mul(max, q - 1) == Mul(q - 1, max);
      MulStep(q - 1, t, max);
    }
  }

  // ------------------------------------------------------ channels of a pixel

  /** n >> k. */
  function Shr(n: nat, k: nat): nat {
    NotNegative(n, Pow2(k));
    n / Pow2(k)
  }

  lemma NotNegative(n: nat, d: nat)
    requires d > 0
    ensures n / d >= 0
  {
    QuotientMul(n, d);
    if n / d < 0 { MulStep(n / d, 0, d); }
  }

  /** (p >> shift) & max. */
  function Channel(p: nat, shift: nat, bits: nat): (c: nat)
    ensures c < Pow2(bits)
  {
    Shr(p, shift) % Pow2(bits)
  }

  /** v << shift. */
  function Shifted(v: nat, shift: nat): nat {
    v * Pow2(shift)
  }

  lemma ShiftedMul(v: nat, shift: nat)
    ensures Shifted(v, shift) == Mul(v, Pow2(shift))
  {
  }

  /** A sane format with three channels inside the pixel. */
  predicate ThreeChannels(pf: PixelFormat) {
    IsSane(pf) && Usable(pf)
  }

  /** The pixel with these channels; ComposedByOr says why a sum will do for `|`. */
  function Compose(pf: PixelFormat, r: nat, g: nat, b: nat): (p: nat)
    requires ThreeChannels(pf)
  {
    Shifted(r, pf.redShift) + Shifted(g, pf.greenShift) + Shifted(b, pf.blueShift)
  }

  lemma ChannelOf(low: nat, v: nat, high: nat, shift: nat, bits: nat)
    requires low < Pow2(shift) && v < Pow2(bits)
    ensures Channel(low + Shifted(v, shift) + Shifted(high, bits + shift), shift, bits) == v
  {
    hide Mul, Pow2, Shifted;
    ShiftedMul(v, shift);
    ShiftedMul(high, bits + shift);
    Pow2Add(bits, shift);
    MulAssoc(high, Pow2(bits), Pow2(shift));
    MulAdd(v, Mul(high, Pow2(bits)), Pow2(shift));
    MulNonNegative(high, Pow2(bits));
    var n := low + Shifted(v, shift) + Shifted(high, bits + shift);
    QuotientIs(n, Pow2(shift), v + Mul(high, Pow2(bits)), low);
    QuotientIs(v + Mul(high, Pow2(bits)), Pow2(bits), high, v);
  }

  /** A channel below bit `top`. */
  lemma Below(v: nat, shift: nat, bits: nat, top: nat)
    requires v < Pow2(bits) && shift + bits <= top
    ensures Shifted(v, shift) + Pow2(shift) <= Pow2(top)
  {
    var rest := top - shift - bits;
    hide Mul, Pow2, Shifted;
    Pow2Add(bits, shift);
    Pow2Add(rest, bits + shift);
    ShiftedMul(v, shift);
    MulStep(v, Pow2(bits), Pow2(shift));
    assert top == rest + (bits + shift);
    MulAtLeast(Pow2(rest), Pow2(bits + shift));
  }

  lemma MulAtLeast(a: nat, b: nat)
    requires a > 0
    ensures Mul(a, b) >= b
  {
    MulStep(0, a, b);
  }

  /** A channel from bit `floor` up. */
  lemma Above(v: nat, shift: nat, floor: nat) returns (high: nat)
    requires floor <= shift
    ensures Shifted(v, shift) == Shifted(high, floor)
  {
    high := v * Pow2(shift - floor);
    Pow2Add(shift - floor, floor);
    ShiftedMul(v, shift);
    MulAssoc(v, Pow2(shift - floor), Pow2(floor));
  }

  predicate Beside(shift: nat, bits: nat, shift': nat, bits': nat) {
    shift + bits <= shift' || shift' + bits' <= shift
  }

  /** Two channels below bit `top`. */
  lemma BothBelow(v: nat, shift: nat, bits: nat, v': nat, shift': nat, bits': nat, top: nat)
    requires v < Pow2(bits) && v' < Pow2(bits') && Beside(shift, bits, shift', bits')
    requires shift + bits <= top && shift' + bits' <= top
    ensures Shifted(v, shift) + Shifted(v', shift') < Pow2(top)
  {
    hide Shifted;
    if shift + bits <= shift' {
      Below(v, shift, bits, shift');
      Below(v', shift', bits', top);
    } else {
      Below(v', shift', bits', shift);
      Below(v, shift, bits, top);
    }
  }

  lemma ShiftedAdd(a: nat, b: nat, shift: nat)
    ensures Shifted(a, shift) + Shifted(b, shift) == Shifted(a + b, shift)
    ensures Shifted(0, shift) == 0
  {
    MulAdd(a, b, Pow2(shift));
  }

  lemma ChannelOfSum(v: nat, shift: nat, bits: nat, v1: nat, shift1: nat, bits1: nat, v2: nat, shift2: nat, bits2: nat)
    requires v < Pow2(bits) && v1 < Pow2(bits1) && v2 < Pow2(bits2)
    requires Beside(shift, bits, shift1, bits1) && Beside(shift, bits, shift2, bits2)
    requires Beside(shift1, bits1, shift2, bits2)
    ensures Channel(Shifted(v, shift) + Shifted(v1, shift1) + Shifted(v2, shift2), shift, bits) == v
  {
    hide Channel, Pow2, Shifted;
    var p1, p2 := Shifted(v1, shift1), Shifted(v2, shift2);
    ShiftedAdd(0, 0, bits + shift);
    if shift1 + bits1 <= shift && shift2 + bits2 <= shift {
      BothBelow(v1, shift1, bits1, v2, shift2, bits2, shift);
      ChannelOf(p1 + p2, v, 0, shift, bits);
    } else if shift1 + bits1 <= shift {
      Below(v1, shift1, bits1, shift);
      var high := Above(v2, shift2, bits + shift);
      ChannelOf(p1, v, high, shift, bits);
    } else if shift2 + bits2 <= shift {
      Below(v2, shift2, bits2, shift);
      var high := Above(v1, shift1, bits + shift);
      ChannelOf(p2, v, high, shift, bits);
    } else {
      var high1 := Above(v1, shift1, bits + shift);
      var high2 := Above(v2, shift2, bits + shift);
      ShiftedAdd(high1, high2, bits + shift);
      ChannelOf(0, v, high1 + high2, shift, bits);
    }
  }

  /** x | y, bit by bit. */
  function Or(x: nat, y: nat): nat
    decreases x + y
  {
    if x == 0 then y else if y == 0 then x
    else (if x % 2 == 1 || y % 2 == 1 then 1 else 0) + 2 * Or(x / 2, y / 2)
  }

  lemma {:induction false} OrCommutes(x: nat, y: nat)
    ensures Or(x, y) == Or(y, x)
    decreases x + y
  {
    if x > 0 && y > 0 { OrCommutes(x / 2, y / 2); }
  }

  lemma OrBits(x: nat, y: nat)
    requires x > 0 && y > 0
    ensures Or(x, y) > 0 && Or(x, y) / 2 == Or(x / 2, y / 2)
    ensures Or(x, y) % 2 == 1 <==> x % 2 == 1 || y % 2 == 1
  {
  }

  lemma NothingOr(x: nat, y: nat)
    ensures x == 0 ==> Or(x, y) == y
    ensures y == 0 ==> Or(x, y) == x
  {
  }

  lemma {:induction false} OrAssociates(x: nat, y: nat, z: nat)
    ensures Or(Or(x, y), z) == Or(x, Or(y, z))
    decreases x + y + z
  {
    hide Or;
    if x > 0 && y > 0 && z > 0 {
      OrBits(x, y);
      OrBits(y, z);
      OrBits(Or(x, y), z);
      OrBits(x, Or(y, z));
      OrAssociates(x / 2, y / 2, z / 2);
    } else {
      NothingOr(x, y);
      NothingOr(y, z);
      NothingOr(Or(x, y), z);
      NothingOr(x, Or(y, z));
    }
  }

  /** Below bit `shift` and from there up: no bit is shared. */
  lemma {:induction false} OrOfShifted(x: nat, v: nat, shift: nat)
    requires x < Pow2(shift)
    ensures Or(x, Shifted(v, shift)) == x + Shifted(v, shift)
  {
    if shift > 0 && x > 0 && v > 0 {
      var y := Shifted(v, shift);
      assert y == 2 * Shifted(v, shift - 1) by { ShiftedTwice(v, shift); }
      ShiftedPositive(v, shift);
      OrOfShifted(x / 2, v, shift - 1);
    }
  }

  lemma ShiftedTwice(v: nat, shift: nat)
    requires shift > 0
    ensures Shifted(v, shift) == 2 * Shifted(v, shift - 1)
  {
  }

  lemma ShiftedPositive(v: nat, shift: nat)
    ensures Shifted(v, shift) > 0 <==> v > 0
  {
    if v > 0 {
      ShiftedMul(v, shift);
      MulStep(0, v, Pow2(shift));
    }
  }

  /** Three channels, from the lowest up. */
  lemma OrOfSorted(v1: nat, shift1: nat, bits1: nat, v2: nat, shift2: nat, bits2: nat, v3: nat, shift3: nat, bits3: nat)
    requires v1 < Pow2(bits1) && v2 < Pow2(bits2) && v3 < Pow2(bits3)
    requires shift1 + bits1 <= shift2 && shift2 + bits2 <= shift3
    ensures Or(Or(Shifted(v1, shift1), Shifted(v2, shift2)), Shifted(v3, shift3))
         == Shifted(v1, shift1) + Shifted(v2, shift2) + Shifted(v3, shift3)
  {
    hide Pow2, Shifted, Or;
    Below(v1, shift1, bits1, shift2);
    OrOfShifted(Shifted(v1, shift1), v2, shift2);
    BothBelow(v1, shift1, bits1, v2, shift2, bits2, shift3);
    OrOfShifted(Shifted(v1, shift1) + Shifted(v2, shift2), v3, shift3);
  }

  /** The channels of a sane format share no bits: or-ing them is adding them. */
  lemma ComposedByOr(pf: PixelFormat, r: nat, g: nat, b: nat)
    requires ThreeChannels(pf)
    requires r < Pow2(Bits(pf.redMax)) && g < Pow2(Bits(pf.greenMax)) && b < Pow2(Bits(pf.blueMax))
    ensures Or(Or(Shifted(r, pf.redShift), Shifted(g, pf.greenShift)), Shifted(b, pf.blueShift)) == Compose(pf, r, g, b)
  {
    hide Pow2, Shifted, Or;
    var rb, gb, bb := Bits(pf.redMax), Bits(pf.greenMax), Bits(pf.blueMax);
    var x, y, z := Shifted(r, pf.redShift), Shifted(g, pf.greenShift), Shifted(b, pf.blueShift);
    OrAssociates(x, y, z);
    OrCommutes(x, y);
    OrCommutes(x, z);
    OrCommutes(y, z);
    OrCommutes(x, Or(y, z));
    OrCommutes(y, Or(x, z));
    OrAssociates(y, x, z);
    OrAssociates(x, z, y);
    if pf.redShift < pf.greenShift < pf.blueShift {
      OrOfSorted(r, pf.redShift, rb, g, pf.greenShift, gb, b, pf.blueShift, bb);
    } else if pf.redShift < pf.blueShift < pf.greenShift {
      OrOfSorted(r, pf.redShift, rb, b, pf.blueShift, bb, g, pf.greenShift, gb);
    } else if pf.greenShift < pf.redShift < pf.blueShift {
      OrOfSorted(g, pf.greenShift, gb, r, pf.redShift, rb, b, pf.blueShift, bb);
    } else if pf.greenShift < pf.blueShift < pf.redShift {
      OrOfSorted(g, pf.greenShift, gb, b, pf.blueShift, bb, r, pf.redShift, rb);
    } else if pf.blueShift < pf.redShift < pf.greenShift {
      OrOfSorted(b, pf.blueShift, bb, r, pf.redShift, rb, g, pf.greenShift, gb);
    } else {
      OrOfSorted(b, pf.blueShift, bb, g, pf.greenShift, gb, r, pf.redShift, rb);
    }
  }

  /** The channels of a composed pixel are those it was composed of. */
  lemma ComposedChannels(pf: PixelFormat, r: nat, g: nat, b: nat)
    requires ThreeChannels(pf)
    requires r < Pow2(Bits(pf.redMax)) && g < Pow2(Bits(pf.greenMax)) && b < Pow2(Bits(pf.blueMax))
    ensures Channel(Compose(pf, r, g, b), pf.redShift, Bits(pf.redMax)) == r
    ensures Channel(Compose(pf, r, g, b), pf.greenShift, Bits(pf.greenMax)) == g
    ensures Channel(Compose(pf, r, g, b), pf.blueShift, Bits(pf.blueMax)) == b
  {
    hide Channel, Pow2, Shifted;
    var rb, gb, bb := Bits(pf.redMax), Bits(pf.greenMax), Bits(pf.blueMax);
    ChannelOfSum(r, pf.redShift, rb, g, pf.greenShift, gb, b, pf.blueShift, bb);
    ChannelOfSum(g, pf.greenShift, gb, r, pf.redShift, rb, b, pf.blueShift, bb);
    ChannelOfSum(b, pf.blueShift, bb, r, pf.redShift, rb, g, pf.greenShift, gb);
  }

  lemma ComposeFits(pf: PixelFormat, r: nat, g: nat, b: nat)
    requires ThreeChannels(pf)
    requires r < Pow2(Bits(pf.redMax)) && g < Pow2(Bits(pf.greenMax)) && b < Pow2(Bits(pf.blueMax))
    ensures Compose(pf, r, g, b) < Pow2(pf.bpp)
  {
    hide Pow2, Shifted;
    var rb, gb, bb := Bits(pf.redMax), Bits(pf.greenMax), Bits(pf.blueMax);
    if pf.redShift > pf.greenShift && pf.redShift > pf.blueShift {
      BothBelow(g, pf.greenShift, gb, b, pf.blueShift, bb, pf.redShift);
      Below(r, pf.redShift, rb, pf.bpp);
    } else if pf.greenShift > pf.blueShift {
      BothBelow(r, pf.redShift, rb, b, pf.blueShift, bb, pf.greenShift);
      Below(g, pf.greenShift, gb, pf.bpp);
    } else {
      BothBelow(r, pf.redShift, rb, g, pf.greenShift, gb, pf.blueShift);
      Below(b, pf.blueShift, bb, pf.bpp);
    }
  }

  // -------------------------------------------------------------- byte order

  function Swap16(n: nat): nat {
    (n % 256) * 256 + (n / 256) % 256
  }

  /** SWAP16 or SWAP32, by the size of the pixel; bytes are not swapped. */
  function Swap(bpp: int, n: nat): nat {
    if bpp == 16 then Swap16(n)
    else if bpp == 32 then Swap16(n % 0x1_0000) * 0x1_0000 + Swap16(n / 0x1_0000 % 0x1_0000)
    else n
  }

  lemma SwapTwice(bpp: int, n: nat)
    requires bpp in {8, 16, 32} && n < Pow2(bpp)
    ensures Swap(bpp, Swap(bpp, n)) == n
  {
    Pow2Values();
    Pow2Add(8, 8);
    Pow2Add(16, 16);
    assert Pow2(16) == 0x1_0000 && Pow2(32) == 0x1_0000_0000;
    hide Pow2;
    if bpp == 16 {
      Swap16Twice(n);
    } else if bpp == 32 {
      Swap32Twice(n / 0x1_0000, n % 0x1_0000);
    }
  }

  lemma Swap16Twice(n: nat)
    requires n < 0x1_0000
    ensures Swap16(n) < 0x1_0000 && Swap16(Swap16(n)) == n
  {
  }

  lemma Halves(high: nat, low: nat)
    requires low < 0x1_0000
    ensures (high * 0x1_0000 + low) / 0x1_0000 == high && (high * 0x1_0000 + low) % 0x1_0000 == low
  {
  }

  lemma Swap32Twice(high: nat, low: nat)
    requires high < 0x1_0000 && low < 0x1_0000
    ensures Swap(32, Swap(32, high * 0x1_0000 + low)) == high * 0x1_0000 + low
  {
    Swap16Twice(high);
    Swap16Twice(low);
    Halves(high, low);
    Halves(0, high);
    SwapHalves(high, low);
    SwapHalves(Swap16(low), Swap16(high));
  }

  lemma SwapHalves(high: nat, low: nat)
    requires high < 0x1_0000 && low < 0x1_0000
    ensures Swap(32, high * 0x1_0000 + low) == Swap16(low) * 0x1_0000 + Swap16(high)
  {
    hide *;
    var n := high * 0x1_0000 + low;
    Halves(high, low);
    SwapWord(n);
    Reduced(high, 0x1_0000);
  }

  lemma SwapWord(n: nat)
    ensures Swap(32, n) == Swap16(n % 0x1_0000) * 0x1_0000 + Swap16(n / 0x1_0000 % 0x1_0000)
  {
    hide Swap16;
  }

  /** The pixel in the order of the machine. */
  function Native(pf: PixelFormat, hostBigEndian: bool, stored: nat): nat {
    if pf.bigEndian != hostBigEndian then Swap(pf.bpp, stored) else stored
  }

  // ------------------------------------------------------- a pixel in memory

  /** The number that one, two or four bytes are, most or least significant byte first. */
  function Number(bigEndian: bool, px: seq<Byte>): nat
    requires |px| in {1, 2, 4}
  {
    if |px| == 1 then px[0]
    else if |px| == 2 then if bigEndian then Two(px[0], px[1]) else Two(px[1], px[0])
    else if bigEndian then Four(px[0], px[1], px[2], px[3]) else Four(px[3], px[2], px[1], px[0])
  }

  function Two(a: nat, b: nat): nat { a * 0x100 + b }

  function Four(a: nat, b: nat, c: nat, d: nat): nat {
    a * 0x100_0000 + b * 0x1_0000 + c * 0x100 + d
  }

  /** pixelFromBuffer: the pixel that the bytes are, by the format alone. */
  function Value(pf: PixelFormat, px: seq<Byte>): nat
    requires |px| in {1, 2, 4}
  {
    Number(pf.bigEndian, px)
  }

  /** The bytes of one pixel. */
  predicate PixelSized(pf: PixelFormat, px: seq<Byte>) {
    |px| in {1, 2, 4} && 8 * |px| == pf.bpp
  }

  /** Loaded as the machine does and swapped if need be, the bytes are the pixel,
      and the other way round. */
  lemma NativeIsValue(pf: PixelFormat, host: bool, px: seq<Byte>)
    requires PixelSized(pf, px)
    ensures Native(pf, host, Number(host, px)) == Value(pf, px)
    ensures Native(pf, host, Value(pf, px)) == Number(host, px)
  {
    if |px| == 2 {
      SwapTwo(px[0], px[1]);
      SwapTwo(px[1], px[0]);
    } else if |px| == 4 {
      SwapFour(px[0], px[1], px[2], px[3]);
      SwapFour(px[3], px[2], px[1], px[0]);
    }
    hide Two, Four, Swap16;
  }

  lemma SwapTwo(a: nat, b: nat)
    requires a < 256 && b < 256
    ensures Swap(16, Two(a, b)) == Two(b, a) && Swap16(Two(a, b)) == Two(b, a) && Two(a, b) < 0x1_0000
  {
  }

  lemma SwapFour(a: nat, b: nat, c: nat, d: nat)
    requires a < 256 && b < 256 && c < 256 && d < 256
    ensures Swap(32, Four(a, b, c, d)) == Four(d, c, b, a)
  {
    hide *;
    SwapTwo(a, b);
    SwapTwo(c, d);
    FourHalves(a, b, c, d);
    FourHalves(d, c, b, a);
    SwapHalves(Two(a, b), Two(c, d));
  }

  lemma FourHalves(a: nat, b: nat, c: nat, d: nat)
    ensures Four(a, b, c, d) == Two(a, b) * 0x1_0000 + Two(c, d)
  {
  }

  /** The bytes in which the machine stores a number. */
  function Stored(host: bool, n: nat, size: nat): (px: seq<Byte>)
    requires size in {1, 2, 4}
    ensures |px| == size
  {
    var bytes := [n % 256, n / 256 % 256, n / 256 / 256 % 256, n / 256 / 256 / 256 % 256];
    if size == 1 then bytes[..1]
    else if size == 2 then if host then [bytes[1], bytes[0]] else bytes[..2]
    else if host then [bytes[3], bytes[2], bytes[1], bytes[0]] else bytes
  }

  /** Every number that fits is the number of some bytes. */
  lemma StoredIs(host: bool, n: nat, size: nat)
    requires size in {1, 2, 4} && n < Pow2(8 * size)
    ensures Number(host, Stored(host, n, size)) == n
  {
    Pow2Values();
    Pow2Add(8, 8);
    Pow2Add(16, 16);
    assert Pow2(8) == 256 && Pow2(16) == 0x1_0000 && Pow2(32) == 0x1_0000_0000;
    hide Pow2;
    if size == 4 { FourDigits(n, n / 256, n / 256 / 256, n / 256 / 256 / 256); }
  }

  lemma FourDigits(n: nat, a: nat, b: nat, c: nat)
    requires n < 0x1_0000_0000 && a == n / 256 && b == a / 256 && c == b / 256
    ensures Four(c % 256, b % 256, a % 256, n % 256) == n
  {
    assert n == 256 * a + n % 256 && a == 256 * b + a % 256 && b == 256 * c + b % 256;
    assert c < 256 && c % 256 == c;
  }

  lemma FourIs(px: seq<Byte>, shift: nat)
    requires |px| == 4 && shift in {0, 8, 16, 24}
    ensures Channel(Four(px[0], px[1], px[2], px[3]), shift, 8) == px[3 - shift / 8]
  {
    var p := Four(px[0], px[1], px[2], px[3]);
    assert Pow2(0) == 1 && Pow2(8) == 256 && Pow2(16) == 0x1_0000 && Pow2(24) == 0x100_0000 by {
      Pow2Values();
      Pow2Add(8, 8);
      Pow2Add(8, 16);
    }
    hide Pow2;
    if shift == 0 {
      DigitAt(p, 1, Two(px[0], px[1]) * 256 + px[2], px[3], 0);
    } else if shift == 8 {
      DigitAt(p, 256, Two(px[0], px[1]), px[2], px[3]);
    } else if shift == 16 {
      DigitAt(p, 0x1_0000, px[0], px[1], Two(px[2], px[3]));
    } else {
      DigitAt(p, 0x100_0000, 0, px[0], Two(px[1], px[2]) * 256 + px[3]);
    }
  }

  /** One digit to the base 256. */
  lemma DigitAt(p: nat, unit: nat, high: nat, digit: nat, low: nat)
    requires unit > 0 && low < unit && digit < 256 && p == Mul(high * 256 + digit, unit) + low
    ensures p / unit % 256 == digit
  {
    QuotientIs(p, unit, high * 256 + digit, low);
    QuotientIs(high * 256 + digit, 256, high, digit);
  }

  /** A byte-aligned channel of a pixel is the byte at its offset. */
  lemma ChannelIsByte(pf: PixelFormat, px: seq<Byte>, shift: nat)
    requires |px| == 4 && shift in {0, 8, 16, 24}
    ensures 0 <= Offset(pf, shift) < 4 && Channel(Value(pf, px), shift, 8) == px[Offset(pf, shift)]
  {
    FourIs(if pf.bigEndian then px else [px[3], px[2], px[1], px[0]], shift);
    hide Channel, Four;
  }

  // -------------------------------------------------------------- one pixel

  /** An 888 format with every channel in a byte of its own. */
  predicate Aligned888(pf: PixelFormat) {
    && pf.trueColour && pf.bpp == 32 && pf.depth == 24
    && pf.redMax == pf.greenMax == pf.blueMax == 255
    && pf.redShift in {0, 8, 16, 24} && pf.greenShift in {0, 8, 16, 24} && pf.blueShift in {0, 8, 16, 24}
    && pf.redShift != pf.greenShift && pf.redShift != pf.blueShift && pf.greenShift != pf.blueShift
  }

  /** Which byte of a pixel a shift stands for. */
  function Offset(pf: PixelFormat, shift: int): int {
    if pf.bigEndian then (24 - shift) / 8 else shift / 8
  }

  /** The shift of the byte that no channel uses. */
  function Unused(pf: PixelFormat): int {
    48 - pf.redShift - pf.greenShift - pf.blueShift
  }

  function Bytes888(pf: PixelFormat, r: Byte, g: Byte, b: Byte): (bytes: seq<Byte>)
    ensures |bytes| == 4
  {
    seq(4, k requires 0 <= k < 4 =>
      if k == Offset(pf, pf.redShift) then r
      else if k == Offset(pf, pf.greenShift) then g
      else if k == Offset(pf, pf.blueShift) then b
      else 0)
  }

  /** Writing the four bytes one by one. */
  lemma FourWrites(pf: PixelFormat, px: seq<Byte>, r: Byte, g: Byte, b: Byte)
    requires Aligned888(pf) && |px| == 4
    ensures var ro, go, bo := Offset(pf, pf.redShift), Offset(pf, pf.greenShift), Offset(pf, pf.blueShift);
      var xo := Offset(pf, Unused(pf));
      && 0 <= ro < 4 && 0 <= go < 4 && 0 <= bo < 4 && 0 <= xo < 4
      && px[ro := r][go := g][bo := b][xo := 0] == Bytes888(pf, r, g, b)
  {
    OffsetsApart(pf);
  }

  lemma OffsetsApart(pf: PixelFormat)
    requires Aligned888(pf)
    ensures var r, g, b := Offset(pf, pf.redShift), Offset(pf, pf.greenShift), Offset(pf, pf.blueShift);
      var x := Offset(pf, Unused(pf));
      && 0 <= r < 4 && 0 <= g < 4 && 0 <= b < 4 && 0 <= x < 4
      && r != g && r != b && g != b && x != r && x != g && x != b
  {
  }

  /** upconvTable[(bits - 1) * 256 + ((s >> shift) & 0xff)]. */
  function Stretch(s: nat, shift: nat, bits: nat): Byte
    requires 1 <= bits <= 8
  {
    Up(bits, Shr(s, shift) % 256)
  }

  function PixelTo888(to: PixelFormat, from: PixelFormat, hostBigEndian: bool, stored: nat): (bytes: seq<Byte>)
    requires ThreeChannels(from)
    ensures |bytes| == 4
  {
    var s := Native(from, hostBigEndian, stored);
    Bytes888(to, Stretch(s, from.redShift, Bits(from.redMax)),
             Stretch(s, from.greenShift, Bits(from.greenMax)),
             Stretch(s, from.blueShift, Bits(from.blueMax)))
  }

  function Shrink(b: Byte, bits: nat): nat
    requires 1 <= bits <= 8
  {
    Shr(b, 8 - bits)
  }

  function PixelFrom888(to: PixelFormat, from: PixelFormat, hostBigEndian: bool, bytes: seq<Byte>): nat
    requires ThreeChannels(to) && Aligned888(from) && |bytes| == 4
  {
    OffsetsApart(from);
    var d := Compose(to, Shrink(bytes[Offset(from, from.redShift)], Bits(to.redMax)),
                     Shrink(bytes[Offset(from, from.greenShift)], Bits(to.greenMax)),
                     Shrink(bytes[Offset(from, from.blueShift)], Bits(to.blueMax)));
    Native(to, hostBigEndian, d)
  }

  lemma StretchIsUp(s: nat, shift: nat, bits: nat)
    requires 1 <= bits <= 8
    ensures Stretch(s, shift, bits) == Up(bits, Channel(s, shift, bits))
  {
    UpPeriod(bits, Shr(s, shift));
    hide Up, Pow2, Shr;
  }

  /** The table repeats, so the bits above the channel do not matter. */
  lemma UpPeriod(bits: nat, n: nat)
    requires 1 <= bits <= 8
    ensures Up(bits, n % 256) == Up(bits, n % Pow2(bits)) == Up(bits, n)
  {
    ModTwice(n, bits);
    hide Pow2;
  }

  lemma ModTwice(n: nat, bits: nat)
    requires 1 <= bits <= 8
    ensures n % 256 % Pow2(bits) == n % Pow2(bits) == n % Pow2(bits) % Pow2(bits)
  {
    var d, q := Pow2(bits), Pow2(8 - bits);
    Pow2Values();
    Pow2Add(8 - bits, bits);
    assert Mul(q, d) == 256;
    hide Pow2;
    var a, b := n / 256, n % 256;
    QuotientMul(n, 256);
    QuotientMul(b, d);
    MulAssoc(a, q, d);
    MulAdd(Mul(a, q), b / d, d);
    MulNonNegative(a, q);
    hide Mul;
    QuotientIs(n, d, Mul(a, q) + b / d, b % d);
    Reduced(n % d, d);
  }

  lemma Reduced(n: nat, d: nat)
    requires n < d
    ensures n % d == n
  {
  }

  lemma ShrinkStretch(s: nat, shift: nat, bits: nat)
    requires 1 <= bits <= 8
    ensures Shrink(Stretch(s, shift, bits), bits) == Channel(s, shift, bits)
  {
    StretchIsUp(s, shift, bits);
    UpDown(bits, Channel(s, shift, bits));
    hide Pow2, Up, Stretch, Channel;
  }

  /** The way to 888 and back keeps the channels and clears the other bits. */
  lemma PixelThereAndBack(pf: PixelFormat, via: PixelFormat, hostBigEndian: bool, stored: nat)
    requires ThreeChannels(pf) && Aligned888(via)
    ensures var s := Native(pf, hostBigEndian, stored);
      PixelFrom888(pf, via, hostBigEndian, PixelTo888(via, pf, hostBigEndian, stored)) ==
        Native(pf, hostBigEndian,
               Compose(pf, Channel(s, pf.redShift, Bits(pf.redMax)), Channel(s, pf.greenShift, Bits(pf.greenMax)),
                       Channel(s, pf.blueShift, Bits(pf.blueMax))))
  {
    var s := Native(pf, hostBigEndian, stored);
    OffsetsApart(via);
    ShrinkStretch(s, pf.redShift, Bits(pf.redMax));
    ShrinkStretch(s, pf.greenShift, Bits(pf.greenMax));
    ShrinkStretch(s, pf.blueShift, Bits(pf.blueMax));
    hide Channel, Stretch, Shrink, Compose, Native, Offset;
  }

  /** Every channel survives the way to 888 and back. */
  lemma PixelRoundTrip(pf: PixelFormat, via: PixelFormat, hostBigEndian: bool, stored: nat)
    requires ThreeChannels(pf) && Aligned888(via)
    ensures var back := PixelFrom888(pf, via, hostBigEndian, PixelTo888(via, pf, hostBigEndian, stored));
      SameChannels(pf, hostBigEndian, stored, back)
  {
    var s := Native(pf, hostBigEndian, stored);
    var r, g, b := Channel(s, pf.redShift, Bits(pf.redMax)), Channel(s, pf.greenShift, Bits(pf.greenMax)),
      Channel(s, pf.blueShift, Bits(pf.blueMax));
    PixelThereAndBack(pf, via, hostBigEndian, stored);
    ComposeFits(pf, r, g, b);
    NativeTwice(pf, hostBigEndian, Compose(pf, r, g, b));
    ComposedChannels(pf, r, g, b);
    hide Channel, Compose, Native, PixelFrom888, PixelTo888;
  }

  predicate SameChannels(pf: PixelFormat, hostBigEndian: bool, stored: nat, stored': nat)
    requires ThreeChannels(pf)
  {
    var s, t := Native(pf, hostBigEndian, stored), Native(pf, hostBigEndian, stored');
    && Channel(t, pf.redShift, Bits(pf.redMax)) == Channel(s, pf.redShift, Bits(pf.redMax))
    && Channel(t, pf.greenShift, Bits(pf.greenMax)) == Channel(s, pf.greenShift, Bits(pf.greenMax))
    && Channel(t, pf.blueShift, Bits(pf.blueMax)) == Channel(s, pf.blueShift, Bits(pf.blueMax))
  }

  lemma NativeTwice(pf: PixelFormat, hostBigEndian: bool, n: nat)
    requires pf.bpp in {8, 16, 32} && n < Pow2(pf.bpp)
    ensures Native(pf, hostBigEndian, Native(pf, hostBigEndian, n)) == n
  {
    SwapTwice(pf.bpp, n);
  }

  // ---------------------------------------------------- each way on its own

  /** A channel stretched to eight bits: c of max is as much as b of 255, rounded down. */
  lemma UpIs(bits: nat, c: nat)
    requires 1 <= bits <= 8 && c < Pow2(bits)
    ensures var max := Pow2(bits) - 1;
      max > 0 && Mul(Up(bits, c), max) <= 255 * c < Mul(Up(bits, c) + 1, max)
  {
    Pow2AtLeastTwo(bits);
    var max := Pow2(bits) - 1;
    QuotientIs(c, Pow2(bits), 0, c) by { assert Mul(0, Pow2(bits)) == 0; }
    assert Up(bits, c) == c * 255 / max;
    hide Up, Pow2;
    QuotientMul(c * 255, max);
    MulAdd(Up(bits, c), 1, max);
    MulOf(max);
  }

  lemma MulOf(d: int)
    ensures Mul(1, d) == d
  {
  }

  /** The channels of px, stretched, are the channels of the 888 pixel `out`. */
  ghost predicate Stretches(from: PixelFormat, px: seq<Byte>, to: PixelFormat, out: seq<Byte>)
    requires ThreeChannels(from) && PixelSized(from, px) && Aligned888(to) && |out| == 4
  {
    var s, d := Value(from, px), Value(to, out);
    && Channel(d, to.redShift, 8) == Up(Bits(from.redMax), Channel(s, from.redShift, Bits(from.redMax)))
    && Channel(d, to.greenShift, 8) == Up(Bits(from.greenMax), Channel(s, from.greenShift, Bits(from.greenMax)))
    && Channel(d, to.blueShift, 8) == Up(Bits(from.blueMax), Channel(s, from.blueShift, Bits(from.blueMax)))
    && Channel(d, Unused(to), 8) == 0
  }

  /** The channels of px are the top bits of the channels of the 888 pixel `bytes`. */
  ghost predicate Takes(to: PixelFormat, px: seq<Byte>, from: PixelFormat, bytes: seq<Byte>)
    requires ThreeChannels(to) && PixelSized(to, px) && Aligned888(from) && |bytes| == 4
  {
    var s, d := Value(from, bytes), Value(to, px);
    && Channel(d, to.redShift, Bits(to.redMax)) == Shr(Channel(s, from.redShift, 8), 8 - Bits(to.redMax))
    && Channel(d, to.greenShift, Bits(to.greenMax)) == Shr(Channel(s, from.greenShift, 8), 8 - Bits(to.greenMax))
    && Channel(d, to.blueShift, Bits(to.blueMax)) == Shr(Channel(s, from.blueShift, 8), 8 - Bits(to.blueMax))
  }

  /** To 888: whatever the byte orders of the two formats and of the machine. */
  lemma To888Stretches(to: PixelFormat, from: PixelFormat, host: bool, px: seq<Byte>)
    requires ThreeChannels(from) && Aligned888(to) && PixelSized(from, px)
    ensures Stretches(from, px, to, PixelTo888(to, from, host, Number(host, px)))
  {
    var s := Value(from, px);
    NativeIsValue(from, host, px);
    var r := Stretch(s, from.redShift, Bits(from.redMax));
    var g := Stretch(s, from.greenShift, Bits(from.greenMax));
    var b := Stretch(s, from.blueShift, Bits(from.blueMax));
    StretchIsUp(s, from.redShift, Bits(from.redMax));
    StretchIsUp(s, from.greenShift, Bits(from.greenMax));
    StretchIsUp(s, from.blueShift, Bits(from.blueMax));
    assert PixelTo888(to, from, host, Number(host, px)) == Bytes888(to, r, g, b);
    hide Up, Stretch, Channel, Value, Number, Native, PixelTo888, ThreeChannels;
    Bytes888Channels(to, r, g, b);
  }

  lemma Bytes888Channels(to: PixelFormat, r: Byte, g: Byte, b: Byte)
    requires Aligned888(to)
    ensures var d := Value(to, Bytes888(to, r, g, b));
      && Channel(d, to.redShift, 8) == r && Channel(d, to.greenShift, 8) == g && Channel(d, to.blueShift, 8) == b
      && Channel(d, Unused(to), 8) == 0
  {
    AlignedShifts(to);
    hide *;
    var out := Bytes888(to, r, g, b);
    ChannelIsByte(to, out, to.redShift);
    ChannelIsByte(to, out, to.greenShift);
    ChannelIsByte(to, out, to.blueShift);
    ChannelIsByte(to, out, Unused(to));
    At888(to, r, g, b);
  }

  lemma At888(to: PixelFormat, r: Byte, g: Byte, b: Byte)
    requires Aligned888(to)
    ensures var out := Bytes888(to, r, g, b);
      && 0 <= Offset(to, to.redShift) < 4 && out[Offset(to, to.redShift)] == r
      && 0 <= Offset(to, to.greenShift) < 4 && out[Offset(to, to.greenShift)] == g
      && 0 <= Offset(to, to.blueShift) < 4 && out[Offset(to, to.blueShift)] == b
      && 0 <= Offset(to, Unused(to)) < 4 && out[Offset(to, Unused(to))] == 0
  {
    OffsetsApart(to);
    hide Offset, Unused, Aligned888;
  }

  lemma AlignedShifts(pf: PixelFormat)
    requires Aligned888(pf)
    ensures pf.redShift in {0, 8, 16, 24} && pf.greenShift in {0, 8, 16, 24} && pf.blueShift in {0, 8, 16, 24}
    ensures Unused(pf) in {0, 8, 16, 24}
  {
  }

  /** The top bits of an 888 channel. */
  function TopBits(from: PixelFormat, bytes: seq<Byte>, shift: nat, bits: nat): nat
    requires |bytes| == 4 && 1 <= bits <= 8
  {
    Shr(Channel(Value(from, bytes), shift, 8), 8 - bits)
  }

  lemma TopBitsOf(from: PixelFormat, bytes: seq<Byte>, shift: nat, bits: nat)
    requires |bytes| == 4 && shift in {0, 8, 16, 24} && 1 <= bits <= 8
    ensures 0 <= Offset(from, shift) < 4
    ensures TopBits(from, bytes, shift, bits) == Shrink(bytes[Offset(from, shift)], bits)
    ensures TopBits(from, bytes, shift, bits) < Pow2(bits)
  {
    ChannelIsByte(from, bytes, shift);
    ShrunkFits(bytes[Offset(from, shift)], bits);
    hide Channel, Value, Offset, Pow2, Shr;
  }

  lemma From888Is(to: PixelFormat, from: PixelFormat, host: bool, bytes: seq<Byte>)
    requires ThreeChannels(to) && Aligned888(from) && |bytes| == 4
    ensures PixelFrom888(to, from, host, bytes) ==
              Native(to, host, Compose(to, TopBits(from, bytes, from.redShift, Bits(to.redMax)),
                                       TopBits(from, bytes, from.greenShift, Bits(to.greenMax)),
                                       TopBits(from, bytes, from.blueShift, Bits(to.blueMax))))
  {
    OffsetsApart(from);
    TopBitsOf(from, bytes, from.redShift, Bits(to.redMax));
    TopBitsOf(from, bytes, from.greenShift, Bits(to.greenMax));
    TopBitsOf(from, bytes, from.blueShift, Bits(to.blueMax));
    hide TopBits, Shrink, Native, Compose, Offset;
  }

  /** From 888: the bytes in which the machine stores the result. */
  lemma From888Takes(to: PixelFormat, from: PixelFormat, host: bool, bytes: seq<Byte>, px: seq<Byte>)
    requires ThreeChannels(to) && Aligned888(from) && |bytes| == 4 && PixelSized(to, px)
    requires Number(host, px) == PixelFrom888(to, from, host, bytes)
    ensures Takes(to, px, from, bytes)
  {
    hide Channel, Value, Number, Native, PixelFrom888, Compose, Offset, Pow2, Shr, Shrink;
    var r := TopBits(from, bytes, from.redShift, Bits(to.redMax));
    var g := TopBits(from, bytes, from.greenShift, Bits(to.greenMax));
    var b := TopBits(from, bytes, from.blueShift, Bits(to.blueMax));
    TopBitsOf(from, bytes, from.redShift, Bits(to.redMax));
    TopBitsOf(from, bytes, from.greenShift, Bits(to.greenMax));
    TopBitsOf(from, bytes, from.blueShift, Bits(to.blueMax));
    From888Is(to, from, host, bytes);
    NativeIsValue(to, host, px);
    ComposeFits(to, r, g, b);
    NativeTwice(to, host, Compose(to, r, g, b));
    ComposedChannels(to, r, g, b);
    assert Value(to, px) == Compose(to, r, g, b);
  }

  lemma ShrunkFits(b: Byte, bits: nat)
    requires 1 <= bits <= 8
    ensures Shrink(b, bits) < Pow2(bits)
  {
    var high, unit := b / Pow2(8 - bits), Pow2(8 - bits);
    QuotientMul(b, unit);
    Pow2Add(bits, 8 - bits);
    assert Pow2(8) == 256 by { Pow2Values(); }
    if high >= Pow2(bits) { MulAtMost(Pow2(bits), high, unit); }
    hide Pow2, Mul;
  }

  /** The result fits the pixel, so that there are such bytes. */
  lemma From888Fits(to: PixelFormat, from: PixelFormat, host: bool, bytes: seq<Byte>)
    requires ThreeChannels(to) && Aligned888(from) && |bytes| == 4
    ensures var p := PixelFrom888(to, from, host, bytes);
      p < Pow2(to.bpp) && Number(host, Stored(host, p, to.bpp / 8)) == p
  {
    hide Pow2, Number, Stored, Native, Compose, TopBits, Shrink, Offset, PixelFrom888;
    TopBitsOf(from, bytes, from.redShift, Bits(to.redMax));
    TopBitsOf(from, bytes, from.greenShift, Bits(to.greenMax));
    TopBitsOf(from, bytes, from.blueShift, Bits(to.blueMax));
    From888Is(to, from, host, bytes);
    var d := Compose(to, TopBits(from, bytes, from.redShift, Bits(to.redMax)),
                     TopBits(from, bytes, from.greenShift, Bits(to.greenMax)),
                     TopBits(from, bytes, from.blueShift, Bits(to.blueMax)));
    ComposeFits(to, TopBits(from, bytes, from.redShift, Bits(to.redMax)),
                TopBits(from, bytes, from.greenShift, Bits(to.greenMax)),
                TopBits(from, bytes, from.blueShift, Bits(to.blueMax)));
    NativeFits(to, host, d);
    StoredIs(host, PixelFrom888(to, from, host, bytes), to.bpp / 8);
  }

  lemma NativeFits(pf: PixelFormat, host: bool, n: nat)
    requires pf.bpp in {8, 16, 32} && n < Pow2(pf.bpp)
    ensures Native(pf, host, n) < Pow2(pf.bpp)
  {
    var px := Stored(host, n, pf.bpp / 8);
    StoredIs(host, n, pf.bpp / 8);
    NativeIsValue(pf, host, px);
    NumberFits(pf.bigEndian, px);
    hide Pow2, Native, Number, Stored;
  }

  lemma NumberFits(bigEndian: bool, px: seq<Byte>)
    requires |px| in {1, 2, 4}
    ensures Number(bigEndian, px) < Pow2(8 * |px|)
  {
    Pow2Values();
    Pow2Add(8, 8);
    Pow2Add(16, 16);
    assert Pow2(8) == 256 && Pow2(16) == 0x1_0000 && Pow2(32) == 0x1_0000_0000;
    hide Pow2;
  }
}
