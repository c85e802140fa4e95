/** Whole rectangles of pixels to and from 888, row by row. */
module BufferConversion {
  import opened Arithmetic
  import opened Bytes
  import opened PixelBuffers
  import opened PixelFormats
  import opened PixelConversion

  // ------------------------------------------------------------------- table

  /** upconvTable: 256 entries for each number of bits. */
  ghost predicate IsUpconvTable(table: seq<Byte>) {
    |table| == 256 * 8 &&
    forall bits, i :: 1 <= bits <= 8 && 0 <= i < 256 ==> Entry(table, bits, i) == Up(bits, i)
  }

  function Entry(table: seq<Byte>, bits: nat, i: nat): Byte
    requires |table| == 256 * 8 && 1 <= bits <= 8 && i < 256
  {
    table[(bits - 1) * 256 + i]
  }

  /** PixelFormat::Init. */
  method InitUpconvTable() returns (table: array<Byte>)
    ensures fresh(table) && IsUpconvTable(table[..])
  {
    hide Up;
    table := new Byte[256 * 8](_ => 0);
    for bits := 1 to 9
      invariant forall b, i :: 1 <= b < bits && 0 <= i < 256 ==> Entry(table[..], b, i) == Up(b, i)
    {
      ghost var before := table[..];
      FillSubTable(table, bits);
      forall b, i | 1 <= b <= bits && 0 <= i < 256 ensures Entry(table[..], b, i) == Up(b, i) {
        if b < bits {
          assert table[(b - 1) * 256 + i] == before[(b - 1) * 256 + i] == Entry(before, b, i);
        }
      }
    }
  }

  /** The values of one size, and copies of them up to 256. */
  method FillSubTable(table: array<Byte>, bits: nat)
    requires table.Length == 256 * 8 && 1 <= bits <= 8
    modifies table
    ensures forall i :: 0 <= i < 256 ==> table[(bits - 1) * 256 + i] == Up(bits, i)
    ensures forall k :: 0 <= k < table.Length && !((bits - 1) * 256 <= k < bits * 256) ==> table[k] == old(table[k])
  {
    var sub, size := (bits - 1) * 256, Pow2(bits);
    ghost var times := Pow2(8 - bits);
    Pow2Values();
    Pow2Add(8 - bits, bits);
    hide Pow2, Up, Mul;
    FirstValues(table, bits);
    var i := size;
    ghost var m := 1;
    assert Mul(1, size) == size by { MulOne(size); }
    while i < 256
      invariant i == Mul(m, size) && m <= times && i <= 256
      invariant Filled(table[..], bits, i)
      invariant forall k :: 0 <= k < table.Length && !(sub <= k < sub + 256) ==> table[k] == old(table[k])
    {
      assert m < times;
      MulStep(m, times, size);
      MulAdd(m, 1, size);
      CopyValues(table, bits, i, m);
      i := i + size;
      m := m + 1;
    }
    assert Filled(table[..], bits, 256);
  }

  /** The values of one size. */
  method FirstValues(table: array<Byte>, bits: nat)
    requires table.Length == 256 * 8 && 1 <= bits <= 8 && Pow2(bits) <= 256
    modifies table
    ensures Filled(table[..], bits, Pow2(bits))
    ensures forall k :: 0 <= k < table.Length && !((bits - 1) * 256 <= k < bits * 256) ==> table[k] == old(table[k])
  {
    hide Up, Pow2;
    var sub, size := (bits - 1) * 256, Pow2(bits);
    for i := 0 to size
      invariant Filled(table[..], bits, i)
      invariant forall k :: 0 <= k < table.Length && !(sub <= k < sub + 256) ==> table[k] == old(table[k])
    {
      var value := FirstValue(bits, i);
      table[sub + i] := value;
    }
  }

  method FirstValue(bits: nat, i: nat) returns (value: Byte)
    requires 1 <= bits <= 8 && i < Pow2(bits)
    ensures value == Up(bits, i)
  {
    UpSmall(bits, i);
    value := i * 255 / (Pow2(bits) - 1);
  }

  lemma MulOne(d: nat)
    ensures Mul(1, d) == d
  {
  }

  ghost predicate Filled(table: seq<Byte>, bits: nat, n: nat) {
    && 1 <= bits <= 8 && (bits - 1) * 256 + n <= |table|
    && forall i :: 0 <= i < n ==> table[(bits - 1) * 256 + i] == Up(bits, i)
  }

  /** memcpy of the first values behind the others. */
  method CopyValues(table: array<Byte>, bits: nat, i: nat, ghost m: nat)
    requires table.Length == 256 * 8 && 1 <= bits <= 8 && i + Pow2(bits) <= 256
    requires i == Mul(m, Pow2(bits)) && m > 0 && Filled(table[..], bits, i)
    modifies table
    ensures Filled(table[..], bits, i + Pow2(bits))
    ensures forall k :: 0 <= k < table.Length && !((bits - 1) * 256 <= k < bits * 256) ==> table[k] == old(table[k])
  {
    hide Up, Pow2, Mul;
    var sub, size := (bits - 1) * 256, Pow2(bits);
    MulAtLeast(m, size);
    for k := 0 to size
      invariant Filled(table[..], bits, i + k)
      invariant forall j :: 0 <= j < table.Length && !(sub <= j < sub + 256) ==> table[j] == old(table[j])
    {
      UpRepeats(bits, m, k);
      table[sub + i + k] := table[sub + k];
    }
  }

  lemma UpRepeats(bits: nat, m: nat, k: nat)
    requires 1 <= bits <= 8 && k < Pow2(bits)
    ensures Mul(m, Pow2(bits)) + k >= 0
    ensures Up(bits, Mul(m, Pow2(bits)) + k) == Up(bits, k)
  {
    MulNonNegative(m, Pow2(bits));
    QuotientIs(Mul(m, Pow2(bits)) + k, Pow2(bits), m, k);
    Reduced(k, Pow2(bits));
    hide Pow2, Mul;
  }

  lemma UpSmall(bits: nat, i: nat)
    requires 1 <= bits <= 8 && i < Pow2(bits)
    ensures Pow2(bits) > 1 && i * 255 / (Pow2(bits) - 1) == Up(bits, i)
  {
    Pow2Values();
    Reduced(i, Pow2(bits));
  }

  // -------------------------------------------------------------------- rows

  /** now is was with each row written at its place and nothing else changed. */
  ghost predicate Blitted<T>(was: seq<T>, now: seq<T>, rows: seq<seq<T>>, length: nat, pitch: nat) {
    && |now| == |was|
    && (forall y :: 0 <= y < |rows| ==>
          && |rows[y]| == length && 0 <= RowStart(y, pitch) && RowStart(y, pitch) + length <= |now|
          && now[RowStart(y, pitch)..RowStart(y, pitch) + length] == rows[y])
    && (forall k :: 0 <= k < |now| && Outside(k, |rows|, length, pitch) ==> now[k] == was[k])
  }

  /** Position k belongs to none of the rows: padding, or behind the last row. */
  ghost predicate Outside(k: int, rows: nat, length: nat, pitch: nat) {
    forall y :: 0 <= y < rows ==> !(RowStart(y, pitch) <= k < RowStart(y, pitch) + length)
  }

  /** One more row. */
  lemma BlitRow<T>(was: seq<T>, mid: seq<T>, now: seq<T>, rows: seq<seq<T>>, row: seq<T>, pitch: nat)
    requires |row| <= pitch && Blitted(was, mid, rows, |row|, pitch)
    requires var start := RowStart(|rows|, pitch);
      && 0 <= start && start + |row| <= |mid| == |now|
      && now[start..start + |row|] == row
      && forall k :: 0 <= k < |now| && !(start <= k < start + |row|) ==> now[k] == mid[k]
    ensures Blitted(was, now, rows + [row], |row|, pitch)
  {
    hide RowStart;
    var n := |rows|;
    var all := rows + [row];
    forall y | 0 <= y < |all|
      ensures |all[y]| == |row| && 0 <= RowStart(y, pitch) && RowStart(y, pitch) + |row| <= |now|
      ensures now[RowStart(y, pitch)..RowStart(y, pitch) + |row|] == all[y]
    {
      if y < n {
        RowStartMonotone(y, n, pitch);
        assert now[RowStart(y, pitch)..RowStart(y, pitch) + |row|] ==
          mid[RowStart(y, pitch)..RowStart(y, pitch) + |row|];
      }
    }
    forall k | 0 <= k < |now| && Outside(k, n + 1, |row|, pitch) ensures now[k] == was[k] {
      assert !(RowStart(n, pitch) <= k < RowStart(n, pitch) + |row|);
      assert Outside(k, n, |row|, pitch);
    }
  }

  lemma BlitNothing<T>(was: seq<T>, length: nat, pitch: nat)
    ensures Blitted(was, was, [], length, pitch)
  {
  }

  /** A rectangle of pixels fits in a buffer with this stride. */
  predicate RectFits(length: nat, w: nat, h: nat, stride: nat) {
    w <= stride && (h > 0 ==> RowStart(h - 1, stride) + w <= length)
  }

  lemma RowFits(length: nat, w: nat, h: nat, stride: nat, y: nat)
    requires RectFits(length, w, h, stride) && y < h
    ensures 0 <= RowStart(y, stride) && RowStart(y, stride) + w <= length && w <= stride
    ensures RowStart(y + 1, stride) == RowStart(y, stride) + stride
  {
    RowStartNonNegative(y, stride);
    if y < h - 1 { RowStartMonotone(y, h - 1, stride); }
  }

  // ------------------------------------------------------------------ to 888

  function RowTo888(to: PixelFormat, from: PixelFormat, host: bool, line: seq<nat>): (bytes: seq<Byte>)
    requires ThreeChannels(from)
    ensures |bytes| == 4 * |line|
  {
    if line == [] then [] else
      RowTo888(to, from, host, line[..|line| - 1]) + PixelTo888(to, from, host, line[|line| - 1])
  }

  ghost function RowsTo888(to: PixelFormat, from: PixelFormat, host: bool, src: seq<nat>, w: nat, h: nat, stride: nat)
    : (rows: seq<seq<Byte>>)
    requires ThreeChannels(from) && RectFits(|src|, w, h, stride)
    ensures |rows| == h
  {
    seq(h, y requires 0 <= y < h =>
      RowFits(|src|, w, h, stride, y);
      RowTo888(to, from, host, src[RowStart(y, stride)..RowStart(y, stride) + w]))
  }

  lemma RowsTo888At(to: PixelFormat, from: PixelFormat, host: bool, src: seq<nat>, w: nat, h: nat, stride: nat, y: nat)
    requires ThreeChannels(from) && RectFits(|src|, w, h, stride) && y < h
    ensures 0 <= RowStart(y, stride) && RowStart(y, stride) + w <= |src|
    ensures RowsTo888(to, from, host, src, w, h, stride)[y]
      == RowTo888(to, from, host, src[RowStart(y, stride)..RowStart(y, stride) + w])
  {
    RowFits(|src|, w, h, stride, y);
  }

  /** The bytes that the machine loads as `stored` have their channels stretched in `out`. */
  ghost predicate Shown888(from: PixelFormat, host: bool, stored: nat, to: PixelFormat, out: seq<Byte>)
    requires ThreeChannels(from) && Aligned888(to) && |out| == 4
  {
    forall px: seq<Byte> :: PixelSized(from, px) && Number(host, px) == stored ==> Stretches(from, px, to, out)
  }

  /** Pixel (x, y) of the rectangle as it is in the 888 buffer. */
  ghost predicate PixelShown(from: PixelFormat, host: bool, src: seq<nat>, stride: nat, to: PixelFormat,
                             out: seq<Byte>, outStride: nat, x: int, y: int)
    requires ThreeChannels(from) && Aligned888(to)
  {
    var i, j := x + RowStart(y, stride), 4 * x + RowStart(y, 4 * outStride);
    && 0 <= i < |src| && 0 <= j && j + 4 <= |out| && Shown888(from, host, src[i], to, out[j..j + 4])
  }

  lemma {:induction false} RowTo888At(to: PixelFormat, from: PixelFormat, host: bool, line: seq<nat>, i: nat)
    requires ThreeChannels(from) && i < |line|
    ensures RowTo888(to, from, host, line)[4 * i..4 * i + 4] == PixelTo888(to, from, host, line[i])
  {
    hide PixelTo888, ThreeChannels;
    var n := |line| - 1;
    var row := RowTo888(to, from, host, line);
    assert row[..4 * n] == RowTo888(to, from, host, line[..n]) && row[4 * n..] == PixelTo888(to, from, host, line[n]);
    if i < n {
      RowTo888At(to, from, host, line[..n], i);
      assert row[4 * i..4 * i + 4] == row[..4 * n][4 * i..4 * i + 4];
    }
  }

  lemma Shows(to: PixelFormat, from: PixelFormat, host: bool, stored: nat)
    requires ThreeChannels(from) && Aligned888(to)
    ensures Shown888(from, host, stored, to, PixelTo888(to, from, host, stored))
  {
    hide ThreeChannels, Aligned888, Stretches, PixelTo888, Number;
    forall px: seq<Byte> | PixelSized(from, px) && Number(host, px) == stored
      ensures Stretches(from, px, to, PixelTo888(to, from, host, stored))
    {
      To888Stretches(to, from, host, px);
    }
  }

  lemma RowShown(to: PixelFormat, from: PixelFormat, host: bool, src: seq<nat>, w: nat, h: nat, stride: nat,
                 was: seq<Byte>, out: seq<Byte>, outStride: nat, x: nat, y: nat)
    requires ThreeChannels(from) && Aligned888(to) && RectFits(|src|, w, h, stride) && x < w && y < h
    requires Blitted(was, out, RowsTo888(to, from, host, src, w, h, stride), 4 * w, 4 * outStride)
    ensures PixelShown(from, host, src, stride, to, out, outStride, x, y)
  {
    hide RowStart, RowTo888, RowsTo888, ThreeChannels, Aligned888, Blitted, RectFits, Shown888, PixelTo888;
    var pitch := 4 * outStride;
    BlittedAt(was, out, RowsTo888(to, from, host, src, w, h, stride), 4 * w, pitch, y);
    RowsTo888At(to, from, host, src, w, h, stride, y);
    var line := src[RowStart(y, stride)..RowStart(y, stride) + w];
    RowTo888At(to, from, host, line, x);
    Shows(to, from, host, line[x]);
    PartOf(out, RowStart(y, pitch), 4 * w, 4 * x, 4);
    assert src[x + RowStart(y, stride)] == line[x];
  }

  lemma PartOf<T>(s: seq<T>, start: nat, n: nat, i: nat, m: nat)
    requires start + n <= |s| && i + m <= n
    ensures s[start..start + n][i..i + m] == s[i + start..i + start + m]
  {
    var a, b := s[start..start + n][i..i + m], s[i + start..i + start + m];
    forall k | 0 <= k < m ensures a[k] == b[k] {
      assert a[k] == s[start..start + n][i + k] == s[start + i + k];
    }
  }

  /** directBufferFromBufferTo888; the strides count pixels. */
  method DirectTo888(dst: array<Byte>, to: PixelFormat, from: PixelFormat, src: seq<nat>, w: nat, h: nat,
                     dstStride: nat, srcStride: nat, table: array<Byte>, host: bool)
    requires ThreeChannels(from) && Aligned888(to) && IsUpconvTable(table[..]) && table != dst
    requires RectFits(|src|, w, h, srcStride) && RectFits(dst.Length, 4 * w, h, 4 * dstStride)
    modifies dst
    ensures Blitted(old(dst[..]), dst[..], RowsTo888(to, from, host, src, w, h, srcStride), 4 * w, 4 * dstStride)
    ensures forall x, y :: 0 <= x < w && 0 <= y < h ==>
              PixelShown(from, host, src, srcStride, to, dst[..], dstStride, x, y)
  {
    hide *;
    ghost var rows := RowsTo888(to, from, host, src, w, h, srcStride);
    var length, pitch := 4 * w, 4 * dstStride;
    BlitNothing(dst[..], length, pitch);
    var d, s := 0, 0;
    FirstRow(srcStride);
    FirstRow(pitch);
    for y := 0 to h
      invariant d == RowStart(y, pitch) && s == RowStart(y, srcStride)
      invariant Blitted(old(dst[..]), dst[..], rows[..y], length, pitch)
    {
      RowFits(|src|, w, h, srcStride, y);
      RowFits(dst.Length, length, h, pitch, y);
      RowsTo888At(to, from, host, src, w, h, srcStride, y);
      BlitRowTo888(dst, d, to, from, src[s..s + w], table, host, pitch, old(dst[..]), rows, y);
      d := d + pitch;
      s := s + srcStride;
    }
    assert rows[..h] == rows;
    forall x, y | 0 <= x < w && 0 <= y < h
      ensures PixelShown(from, host, src, srcStride, to, dst[..], dstStride, x, y)
    {
      RowShown(to, from, host, src, w, h, srcStride, old(dst[..]), dst[..], dstStride, x, y);
    }
  }

  method BlitRowTo888(dst: array<Byte>, d: nat, to: PixelFormat, from: PixelFormat, line: seq<nat>, table: array<Byte>,
                      host: bool, pitch: nat, ghost was: seq<Byte>, ghost rows: seq<seq<Byte>>, ghost y: nat)
    requires ThreeChannels(from) && Aligned888(to) && IsUpconvTable(table[..]) && table != dst
    requires d == RowStart(y, pitch) && d + 4 * |line| <= dst.Length && 4 * |line| <= pitch
    requires y < |rows| && rows[y] == RowTo888(to, from, host, line)
    requires Blitted(was, dst[..], rows[..y], 4 * |line|, pitch)
    modifies dst
    ensures Blitted(was, dst[..], rows[..y + 1], 4 * |line|, pitch)
  {
    BlitLength(was, dst[..], rows[..y], 4 * |line|, pitch);
    hide RowStart, RowTo888, IsUpconvTable, Aligned888, ThreeChannels, Blitted;
    ghost var mid := dst[..];
    WriteRowTo888(dst, d, to, from, line, table, host);
    BlitRow(was, mid, dst[..], rows[..y], rows[y], pitch);
    assert rows[..y + 1] == rows[..y] + [rows[y]];
  }

  lemma BlitLength<T>(was: seq<T>, now: seq<T>, rows: seq<seq<T>>, length: nat, pitch: nat)
    requires Blitted(was, now, rows, length, pitch)
    ensures |was| == |now|
  {
  }

  /** What was written behind position b, with what was there before it. */
  lemma SliceGrown<T>(was: seq<T>, now: seq<T>, a: nat, b: nat, c: nat)
    requires a <= b <= c <= |was| == |now|
    requires forall k :: 0 <= k < |now| && !(b <= k < c) ==> now[k] == was[k]
    ensures now[a..c] == was[a..b] + now[b..c]
  {
  }

  lemma FirstRow(stride: nat)
    ensures RowStart(0, stride) == 0
  {
  }

  method WriteRowTo888(dst: array<Byte>, start: nat, to: PixelFormat, from: PixelFormat, line: seq<nat>,
                       table: array<Byte>, host: bool)
    requires ThreeChannels(from) && Aligned888(to) && IsUpconvTable(table[..]) && table != dst
    requires start + 4 * |line| <= dst.Length
    modifies dst
    ensures dst[start..start + 4 * |line|] == RowTo888(to, from, host, line)
    ensures forall k :: 0 <= k < dst.Length && !(start <= k < start + 4 * |line|) ==> dst[k] == old(dst[k])
  {
    hide *;
    NoPixelsTo888(to, from, host);
    assert line[..0] == [];
    for i := 0 to |line|
      invariant dst[start..start + 4 * i] == RowTo888(to, from, host, line[..i])
      invariant forall k :: 0 <= k < dst.Length && !(start <= k < start + 4 * i) ==> dst[k] == old(dst[k])
    {
      ghost var was := dst[..];
      var at := start + 4 * i;
      WritePixelTo888(dst, at, to, from, line[i], table, host);
      SliceGrown(was, dst[..], start, at, at + 4);
      RowTo888Next(to, from, host, line, i);
    }
    assert line[..|line|] == line;
  }

  lemma NoPixelsTo888(to: PixelFormat, from: PixelFormat, host: bool)
    requires ThreeChannels(from)
    ensures RowTo888(to, from, host, []) == []
  {
  }

  lemma RowTo888Next(to: PixelFormat, from: PixelFormat, host: bool, line: seq<nat>, i: nat)
    requires ThreeChannels(from) && i < |line|
    ensures RowTo888(to, from, host, line[..i + 1])
         == RowTo888(to, from, host, line[..i]) + PixelTo888(to, from, host, line[i])
  {
    assert line[..i + 1][..i] == line[..i];
    hide PixelTo888, ThreeChannels;
  }

  method WritePixelTo888(dst: array<Byte>, at: nat, to: PixelFormat, from: PixelFormat, stored: nat,
                         table: array<Byte>, host: bool)
    requires ThreeChannels(from) && Aligned888(to) && IsUpconvTable(table[..]) && table != dst
    requires at + 4 <= dst.Length
    modifies dst
    ensures dst[at..at + 4] == PixelTo888(to, from, host, stored)
    ensures forall k :: 0 <= k < dst.Length && !(at <= k < at + 4) ==> dst[k] == old(dst[k])
  {
    var s := Native(from, host, stored);
    var r := LookUp(table, s, from.redShift, Bits(from.redMax));
    var g := LookUp(table, s, from.greenShift, Bits(from.greenMax));
    var b := LookUp(table, s, from.blueShift, Bits(from.blueMax));
    hide Stretch, Native, Bytes888, IsUpconvTable;
    StoreBytes(dst, at, to, r, g, b);
  }

  method StoreBytes(dst: array<Byte>, at: nat, to: PixelFormat, r: Byte, g: Byte, b: Byte)
    requires Aligned888(to) && at + 4 <= dst.Length
    modifies dst
    ensures dst[at..at + 4] == Bytes888(to, r, g, b)
    ensures forall k :: 0 <= k < dst.Length && !(at <= k < at + 4) ==> dst[k] == old(dst[k])
  {
    FourWrites(to, dst[at..at + 4], r, g, b);
    hide Offset, Aligned888, Bytes888, Unused;
    PutByte(dst, at, Offset(to, to.redShift), r);
    PutByte(dst, at, Offset(to, to.greenShift), g);
    PutByte(dst, at, Offset(to, to.blueShift), b);
    PutByte(dst, at, Offset(to, Unused(to)), 0);
  }

  method PutByte(dst: array<Byte>, at: nat, k: nat, b: Byte)
    requires k < 4 && at + 4 <= dst.Length
    modifies dst
    ensures dst[at..at + 4] == old(dst[at..at + 4])[k := b]
    ensures forall j :: 0 <= j < dst.Length && !(at <= j < at + 4) ==> dst[j] == old(dst[j])
  {
    dst[at + k] := b;
  }

  method LookUp(table: array<Byte>, s: nat, shift: nat, bits: nat) returns (b: Byte)
    requires IsUpconvTable(table[..]) && 1 <= bits <= 8
    ensures b == Stretch(s, shift, bits)
  {
    hide Up, Shr;
    var i := Shr(s, shift) % 256;
    assert Entry(table[..], bits, i) == Up(bits, i);
    b := table[(bits - 1) * 256 + i];
  }

  // ---------------------------------------------------------------- from 888

  function RowFrom888(to: PixelFormat, from: PixelFormat, host: bool, bytes: seq<Byte>, w: nat): (line: seq<nat>)
    requires ThreeChannels(to) && Aligned888(from) && |bytes| == 4 * w
    ensures |line| == w
  {
    if w == 0 then [] else
      RowFrom888(to, from, host, bytes[..4 * w - 4], w - 1) + [PixelFrom888(to, from, host, bytes[4 * w - 4..])]
  }

  ghost function RowsFrom888(to: PixelFormat, from: PixelFormat, host: bool, src: seq<Byte>, w: nat, h: nat,
                             stride: nat)
    : (rows: seq<seq<nat>>)
    requires ThreeChannels(to) && Aligned888(from) && RectFits(|src|, 4 * w, h, 4 * stride)
    ensures |rows| == h
  {
    seq(h, y requires 0 <= y < h =>
      RowFits(|src|, 4 * w, h, 4 * stride, y);
      RowFrom888(to, from, host, src[RowStart(y, 4 * stride)..RowStart(y, 4 * stride) + 4 * w], w))
  }

  lemma RowsFrom888At(to: PixelFormat, from: PixelFormat, host: bool, src: seq<Byte>, w: nat, h: nat, stride: nat,
                      y: nat)
    requires ThreeChannels(to) && Aligned888(from) && RectFits(|src|, 4 * w, h, 4 * stride) && y < h
    ensures 0 <= RowStart(y, 4 * stride) && RowStart(y, 4 * stride) + 4 * w <= |src|
    ensures RowsFrom888(to, from, host, src, w, h, stride)[y]
      == RowFrom888(to, from, host, src[RowStart(y, 4 * stride)..RowStart(y, 4 * stride) + 4 * w], w)
  {
    RowFits(|src|, 4 * w, h, 4 * stride, y);
  }

  /** The bytes that the machine stores as p hold the top bits of the channels of `bytes`. */
  ghost predicate TakenFrom888(from: PixelFormat, host: bool, bytes: seq<Byte>, to: PixelFormat, p: nat)
    requires ThreeChannels(to) && Aligned888(from) && |bytes| == 4
  {
    && Number(host, Stored(host, p, to.bpp / 8)) == p
    && forall px: seq<Byte> :: PixelSized(to, px) && Number(host, px) == p ==> Takes(to, px, from, bytes)
  }

  /** Pixel (x, y) of the rectangle as it comes out of the 888 buffer. */
  ghost predicate PixelTaken(from: PixelFormat, host: bool, src: seq<Byte>, stride: nat, to: PixelFormat,
                             out: seq<nat>, outStride: nat, x: int, y: int)
    requires ThreeChannels(to) && Aligned888(from)
  {
    var i, j := 4 * x + RowStart(y, 4 * stride), x + RowStart(y, outStride);
    && 0 <= i && i + 4 <= |src| && 0 <= j < |out| && TakenFrom888(from, host, src[i..i + 4], to, out[j])
  }

  lemma {:induction false} RowFrom888At(to: PixelFormat, from: PixelFormat, host: bool, bytes: seq<Byte>, w: nat,
                                        i: nat)
    requires ThreeChannels(to) && Aligned888(from) && |bytes| == 4 * w && i < w
    ensures RowFrom888(to, from, host, bytes, w)[i] == PixelFrom888(to, from, host, bytes[4 * i..4 * i + 4])
  {
    hide PixelFrom888, ThreeChannels, Aligned888;
    if i < w - 1 {
      RowFrom888At(to, from, host, bytes[..4 * w - 4], w - 1, i);
      assert bytes[..4 * w - 4][4 * i..4 * i + 4] == bytes[4 * i..4 * i + 4];
    } else {
      assert bytes[4 * w - 4..] == bytes[4 * i..4 * i + 4];
    }
  }

  lemma TakesFrom(to: PixelFormat, from: PixelFormat, host: bool, bytes: seq<Byte>)
    requires ThreeChannels(to) && Aligned888(from) && |bytes| == 4
    ensures TakenFrom888(from, host, bytes, to, PixelFrom888(to, from, host, bytes))
  {
    From888Fits(to, from, host, bytes);
    hide ThreeChannels, Aligned888, Takes, PixelFrom888, Number, Stored;
    forall px: seq<Byte> | PixelSized(to, px) && Number(host, px) == PixelFrom888(to, from, host, bytes)
      ensures Takes(to, px, from, bytes)
    {
      From888Takes(to, from, host, bytes, px);
    }
  }

  lemma RowTaken(to: PixelFormat, from: PixelFormat, host: bool, src: seq<Byte>, w: nat, h: nat, stride: nat,
                 was: seq<nat>, out: seq<nat>, outStride: nat, x: nat, y: nat)
    requires ThreeChannels(to) && Aligned888(from) && RectFits(|src|, 4 * w, h, 4 * stride) && x < w && y < h
    requires Blitted(was, out, RowsFrom888(to, from, host, src, w, h, stride), w, outStride)
    ensures PixelTaken(from, host, src, stride, to, out, outStride, x, y)
  {
    hide RowStart, RowFrom888, RowsFrom888, ThreeChannels, Aligned888, Blitted, RectFits, TakenFrom888, PixelFrom888;
    var pitch := 4 * stride;
    BlittedAt(was, out, RowsFrom888(to, from, host, src, w, h, stride), w, outStride, y);
    RowsFrom888At(to, from, host, src, w, h, stride, y);
    var bytes := src[RowStart(y, pitch)..RowStart(y, pitch) + 4 * w];
    RowFrom888At(to, from, host, bytes, w, x);
    TakesFrom(to, from, host, bytes[4 * x..4 * x + 4]);
    PartOf(src, RowStart(y, pitch), 4 * w, 4 * x, 4);
    assert out[x + RowStart(y, outStride)] == out[RowStart(y, outStride)..RowStart(y, outStride) + w][x];
  }

  /** directBufferFromBufferFrom888. */
  method DirectFrom888(dst: array<nat>, to: PixelFormat, from: PixelFormat, src: seq<Byte>, w: nat, h: nat,
                       dstStride: nat, srcStride: nat, host: bool)
    requires ThreeChannels(to) && Aligned888(from)
    requires RectFits(|src|, 4 * w, h, 4 * srcStride) && RectFits(dst.Length, w, h, dstStride)
    modifies dst
    ensures Blitted(old(dst[..]), dst[..], RowsFrom888(to, from, host, src, w, h, srcStride), w, dstStride)
    ensures forall x, y :: 0 <= x < w && 0 <= y < h ==>
              PixelTaken(from, host, src, srcStride, to, dst[..], dstStride, x, y)
  {
    hide *;
    ghost var rows := RowsFrom888(to, from, host, src, w, h, srcStride);
    BlitNothing(dst[..], w, dstStride);
    var d, s := 0, 0;
    var srcPitch := 4 * srcStride;
    FirstRow(dstStride);
    FirstRow(srcPitch);
    for y := 0 to h
      invariant d == RowStart(y, dstStride) && s == RowStart(y, srcPitch)
      invariant Blitted(old(dst[..]), dst[..], rows[..y], w, dstStride)
    {
      RowFits(|src|, 4 * w, h, srcPitch, y);
      RowFits(dst.Length, w, h, dstStride, y);
      RowsFrom888At(to, from, host, src, w, h, srcStride, y);
      BlitRowFrom888(dst, d, to, from, src[s..s + 4 * w], w, host, dstStride, old(dst[..]), rows, y);
      d := d + dstStride;
      s := s + srcPitch;
    }
    assert rows[..h] == rows;
    forall x, y | 0 <= x < w && 0 <= y < h
      ensures PixelTaken(from, host, src, srcStride, to, dst[..], dstStride, x, y)
    {
      RowTaken(to, from, host, src, w, h, srcStride, old(dst[..]), dst[..], dstStride, x, y);
    }
  }

  method BlitRowFrom888(dst: array<nat>, d: nat, to: PixelFormat, from: PixelFormat, bytes: seq<Byte>, w: nat,
                        host: bool, pitch: nat, ghost was: seq<nat>, ghost rows: seq<seq<nat>>, ghost y: nat)
    requires ThreeChannels(to) && Aligned888(from) && |bytes| == 4 * w
    requires d == RowStart(y, pitch) && d + w <= dst.Length && w <= pitch
    requires y < |rows| && rows[y] == RowFrom888(to, from, host, bytes, w)
    requires Blitted(was, dst[..], rows[..y], w, pitch)
    modifies dst
    ensures Blitted(was, dst[..], rows[..y + 1], w, pitch)
  {
    BlitLength(was, dst[..], rows[..y], w, pitch);
    hide RowStart, RowFrom888, Aligned888, ThreeChannels, Blitted;
    ghost var mid := dst[..];
    WriteRowFrom888(dst, d, to, from, bytes, w, host);
    BlitRow(was, mid, dst[..], rows[..y], rows[y], pitch);
    assert rows[..y + 1] == rows[..y] + [rows[y]];
  }

  method WriteRowFrom888(dst: array<nat>, start: nat, to: PixelFormat, from: PixelFormat, bytes: seq<Byte>, w: nat,
                         host: bool)
    requires ThreeChannels(to) && Aligned888(from) && |bytes| == 4 * w && start + w <= dst.Length
    modifies dst
    ensures dst[start..start + w] == RowFrom888(to, from, host, bytes, w)
    ensures forall k :: 0 <= k < dst.Length && !(start <= k < start + w) ==> dst[k] == old(dst[k])
  {
    hide *;
    NoPixelsFrom888(to, from, host);
    assert bytes[..0] == [];
    for i := 0 to w
      invariant dst[start..start + i] == RowFrom888(to, from, host, bytes[..4 * i], i)
      invariant forall k :: 0 <= k < dst.Length && !(start <= k < start + i) ==> dst[k] == old(dst[k])
    {
      ghost var was := dst[..];
      var p := ReadPixelFrom888(to, from, bytes[4 * i..4 * i + 4], host);
      dst[start + i] := p;
      SliceGrown(was, dst[..], start, start + i, start + i + 1);
      RowFrom888Next(to, from, host, bytes, i);
    }
    assert bytes[..4 * w] == bytes;
  }

  lemma NoPixelsFrom888(to: PixelFormat, from: PixelFormat, host: bool)
    requires ThreeChannels(to) && Aligned888(from)
    ensures RowFrom888(to, from, host, [], 0) == []
  {
  }

  lemma RowFrom888Next(to: PixelFormat, from: PixelFormat, host: bool, bytes: seq<Byte>, i: nat)
    requires ThreeChannels(to) && Aligned888(from) && 4 * i + 4 <= |bytes|
    ensures RowFrom888(to, from, host, bytes[..4 * i + 4], i + 1)
         == RowFrom888(to, from, host, bytes[..4 * i], i) + [PixelFrom888(to, from, host, bytes[4 * i..4 * i + 4])]
  {
    var line := bytes[..4 * i + 4];
    assert line[..4 * i] == bytes[..4 * i] && line[4 * i..] == bytes[4 * i..4 * i + 4];
    hide PixelFrom888, ThreeChannels, Aligned888;
  }

  method ReadPixelFrom888(to: PixelFormat, from: PixelFormat, bytes: seq<Byte>, host: bool) returns (p: nat)
    requires ThreeChannels(to) && Aligned888(from) && |bytes| == 4
    ensures p == PixelFrom888(to, from, host, bytes)
  {
    OffsetsApart(from);
    var r, g, b := bytes[Offset(from, from.redShift)], bytes[Offset(from, from.greenShift)],
      bytes[Offset(from, from.blueShift)];
    hide Offset, Native, Shr, Shifted;
    var d := Shifted(Shr(r, 8 - Bits(to.redMax)), to.redShift);
    d := d + Shifted(Shr(g, 8 - Bits(to.greenMax)), to.greenShift);
    d := d + Shifted(Shr(b, 8 - Bits(to.blueMax)), to.blueShift);
    p := Native(to, host, d);
  }

  // -------------------------------------------------------------- round trip

  /** A row there and back, pixel by pixel. */
  lemma {:induction false} RowRoundTrip(pf: PixelFormat, via: PixelFormat, host: bool, line: seq<nat>, i: nat)
    requires ThreeChannels(pf) && Aligned888(via) && i < |line|
    ensures SameChannels(pf, host, line[i], RowFrom888(pf, via, host, RowTo888(via, pf, host, line), |line|)[i])
  {
    hide ThreeChannels, Aligned888, PixelFrom888, PixelTo888, SameChannels;
    var n := |line| - 1;
    var bytes := RowTo888(via, pf, host, line);
    assert bytes[..4 * n] == RowTo888(via, pf, host, line[..n]);
    assert bytes[4 * n..] == PixelTo888(via, pf, host, line[n]);
    if i == n {
      PixelRoundTrip(pf, via, host, line[n]);
    } else {
      RowRoundTrip(pf, via, host, line[..n], i);
    }
  }

  ghost predicate PixelKept(pf: PixelFormat, host: bool, src: seq<nat>, stride: nat, back: seq<nat>, backStride: nat,
                            x: int, y: int)
    requires ThreeChannels(pf)
  {
    && 0 <= x + RowStart(y, stride) < |src| && 0 <= x + RowStart(y, backStride) < |back|
    && SameChannels(pf, host, src[x + RowStart(y, stride)], back[x + RowStart(y, backStride)])
  }

  lemma BlittedAt<T>(was: seq<T>, now: seq<T>, rows: seq<seq<T>>, length: nat, pitch: nat, y: nat)
    requires Blitted(was, now, rows, length, pitch) && y < |rows|
    ensures |rows[y]| == length && 0 <= RowStart(y, pitch) && RowStart(y, pitch) + length <= |now|
    ensures now[RowStart(y, pitch)..RowStart(y, pitch) + length] == rows[y]
  {
  }

  /** The row of an image that has come back is the row sent, converted both ways. */
  lemma RowBack(pf: PixelFormat, via: PixelFormat, host: bool, src: seq<nat>, w: nat, h: nat, stride: nat,
                was888: seq<Byte>, via888: seq<Byte>, viaStride: nat, was: seq<nat>, back: seq<nat>, backStride: nat,
                y: nat)
    requires ThreeChannels(pf) && Aligned888(via) && y < h
    requires RectFits(|src|, w, h, stride) && RectFits(|via888|, 4 * w, h, 4 * viaStride)
    requires Blitted(was888, via888, RowsTo888(via, pf, host, src, w, h, stride), 4 * w, 4 * viaStride)
    requires Blitted(was, back, RowsFrom888(pf, via, host, via888, w, h, viaStride), w, backStride)
    ensures 0 <= RowStart(y, stride) && RowStart(y, stride) + w <= |src|
    ensures 0 <= RowStart(y, backStride) && RowStart(y, backStride) + w <= |back|
    ensures var line := src[RowStart(y, stride)..RowStart(y, stride) + w];
      back[RowStart(y, backStride)..RowStart(y, backStride) + w]
        == RowFrom888(pf, via, host, RowTo888(via, pf, host, line), w)
  {
    hide *;
    RowsTo888At(via, pf, host, src, w, h, stride, y);
    RowsFrom888At(pf, via, host, via888, w, h, viaStride, y);
    BlittedAt(was888, via888, RowsTo888(via, pf, host, src, w, h, stride), 4 * w, 4 * viaStride, y);
    BlittedAt(was, back, RowsFrom888(pf, via, host, via888, w, h, viaStride), w, backStride, y);
  }

  lemma KeptInRow(pf: PixelFormat, via: PixelFormat, host: bool, src: seq<nat>, stride: nat, back: seq<nat>,
                  backStride: nat, w: nat, x: nat, y: nat)
    requires ThreeChannels(pf) && Aligned888(via) && x < w
    requires 0 <= RowStart(y, stride) && RowStart(y, stride) + w <= |src|
    requires 0 <= RowStart(y, backStride) && RowStart(y, backStride) + w <= |back|
    requires var line := src[RowStart(y, stride)..RowStart(y, stride) + w];
      back[RowStart(y, backStride)..RowStart(y, backStride) + w]
        == RowFrom888(pf, via, host, RowTo888(via, pf, host, line), w)
    ensures PixelKept(pf, host, src, stride, back, backStride, x, y)
  {
    hide RowStart, RowTo888, RowFrom888, SameChannels, ThreeChannels, Aligned888;
    var line := src[RowStart(y, stride)..RowStart(y, stride) + w];
    RowRoundTrip(pf, via, host, line, x);
    assert src[x + RowStart(y, stride)] == line[x];
    assert back[x + RowStart(y, backStride)] == back[RowStart(y, backStride)..RowStart(y, backStride) + w][x];
  }

  /** Into an 888 buffer and out again: every channel of every pixel comes back,
      and in both buffers everything outside the rows is left alone. */
  method ThereAndBack(via888: array<Byte>, back: array<nat>, pf: PixelFormat, via: PixelFormat, src: seq<nat>,
                      w: nat, h: nat, stride: nat, viaStride: nat, backStride: nat, host: bool)
    requires ThreeChannels(pf) && Aligned888(via)
    requires RectFits(|src|, w, h, stride) && RectFits(via888.Length, 4 * w, h, 4 * viaStride)
    requires RectFits(back.Length, w, h, backStride)
    modifies via888, back
    ensures forall x, y :: 0 <= x < w && 0 <= y < h ==> PixelKept(pf, host, src, stride, back[..], backStride, x, y)
    ensures forall k :: 0 <= k < via888.Length && Outside(k, h, 4 * w, 4 * viaStride) ==> via888[k] == old(via888[k])
    ensures forall k :: 0 <= k < back.Length && Outside(k, h, w, backStride) ==> back[k] == old(back[k])
  {
    hide RowStart, Aligned888, ThreeChannels, RowsTo888, RowsFrom888, IsUpconvTable, Outside, PixelKept, RectFits;
    var table := InitUpconvTable();
    DirectTo888(via888, via, pf, src, w, h, viaStride, stride, table, host);
    DirectFrom888(back, pf, via, via888[..], w, h, backStride, viaStride, host);
    forall x, y | 0 <= x < w && 0 <= y < h ensures PixelKept(pf, host, src, stride, back[..], backStride, x, y) {
      RowBack(pf, via, host, src, w, h, stride, old(via888[..]), via888[..], viaStride, old(back[..]), back[..],
              backStride, y);
      KeptInRow(pf, via, host, src, stride, back[..], backStride, w, x, y);
    }
  }
}
