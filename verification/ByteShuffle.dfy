/** Pixels from one 888 format to another: their bytes, in another order. */
module ByteShuffling {
  import opened Arithmetic
  import opened Bytes
  import opened PixelBuffers
  import opened PixelFormats
  import opened PixelConversion
  import opened BufferConversion

  /** Each channel's byte at its place in the other format, and the unused byte at its. */
  function ShufflePixel(to: PixelFormat, from: PixelFormat, px: seq<Byte>): (out: seq<Byte>)
    requires Aligned888(to) && Aligned888(from) && |px| == 4
    ensures |out| == 4
  {
    OffsetsApart(from);
    seq(4, k requires 0 <= k < 4 =>
      if k == Offset(to, to.redShift) then px[Offset(from, from.redShift)]
      else if k == Offset(to, to.greenShift) then px[Offset(from, from.greenShift)]
      else if k == Offset(to, to.blueShift) then px[Offset(from, from.blueShift)]
      else px[Offset(from, Unused(from))])
  }

  // ---------------------------------------------------------------- channels

  /** The three channels of the shuffled pixel are those of the pixel, whatever
      byte orders the two formats have. */
  lemma ShuffleKeepsChannels(to: PixelFormat, from: PixelFormat, px: seq<Byte>)
    requires Aligned888(to) && Aligned888(from) && |px| == 4
    ensures var p, q := Value(from, px), Value(to, ShufflePixel(to, from, px));
      && Channel(q, to.redShift, 8) == Channel(p, from.redShift, 8)
      && Channel(q, to.greenShift, 8) == Channel(p, from.greenShift, 8)
      && Channel(q, to.blueShift, 8) == Channel(p, from.blueShift, 8)
  {
    var out := ShufflePixel(to, from, px);
    ChannelIsByte(from, px, from.redShift);
    ChannelIsByte(from, px, from.greenShift);
    ChannelIsByte(from, px, from.blueShift);
    ChannelIsByte(to, out, to.redShift);
    ChannelIsByte(to, out, to.greenShift);
    ChannelIsByte(to, out, to.blueShift);
    ShuffledPlaces(to, from, px);
    hide Channel, Value, Offset, ShufflePixel, Aligned888;
  }

  lemma ShuffledPlaces(to: PixelFormat, from: PixelFormat, px: seq<Byte>)
    requires Aligned888(to) && Aligned888(from) && |px| == 4
    ensures forall pf :: pf == to || pf == from ==>
              && 0 <= Offset(pf, pf.redShift) < 4 && 0 <= Offset(pf, pf.greenShift) < 4
              && 0 <= Offset(pf, pf.blueShift) < 4 && 0 <= Offset(pf, Unused(pf)) < 4
    ensures var out := ShufflePixel(to, from, px);
      && out[Offset(to, to.redShift)] == px[Offset(from, from.redShift)]
      && out[Offset(to, to.greenShift)] == px[Offset(from, from.greenShift)]
      && out[Offset(to, to.blueShift)] == px[Offset(from, from.blueShift)]
      && out[Offset(to, Unused(to))] == px[Offset(from, Unused(from))]
  {
    OffsetsApart(to);
    OffsetsApart(from);
    hide Offset, Unused, Aligned888;
  }

  /** Shuffling back gives the pixel, its unused byte included. */
  lemma ShuffleBack(a: PixelFormat, b: PixelFormat, px: seq<Byte>)
    requires Aligned888(a) && Aligned888(b) && |px| == 4
    ensures ShufflePixel(a, b, ShufflePixel(b, a, px)) == px
  {
    var there := ShufflePixel(b, a, px);
    var back := ShufflePixel(a, b, there);
    ShuffledPlaces(b, a, px);
    ShuffledPlaces(a, b, there);
    OffsetsApart(a);
    var r, g, bl, x := Offset(a, a.redShift), Offset(a, a.greenShift), Offset(a, a.blueShift), Offset(a, Unused(a));
    assert back[r] == px[r] && back[g] == px[g] && back[bl] == px[bl] && back[x] == px[x];
    hide Offset, Unused, ShufflePixel, Aligned888;
    SameFour(px, back, r, g, bl, x);
  }

  lemma SameFour(px: seq<Byte>, back: seq<Byte>, r: int, g: int, b: int, x: int)
    requires |px| == |back| == 4 && FourApart(r, g, b, x)
    requires back[r] == px[r] && back[g] == px[g] && back[b] == px[b] && back[x] == px[x]
    ensures back == px
  {
    forall k | 0 <= k < 4 ensures back[k] == px[k] {
      assert k == r || k == g || k == b || k == x;
    }
  }

  // -------------------------------------------------------------------- rows

  function RowShuffled(to: PixelFormat, from: PixelFormat, bytes: seq<Byte>, w: nat): (row: seq<Byte>)
    requires Aligned888(to) && Aligned888(from) && |bytes| == 4 * w
    ensures |row| == 4 * w
  {
    if w == 0 then [] else
      RowShuffled(to, from, bytes[..4 * w - 4], w - 1) + ShufflePixel(to, from, bytes[4 * w - 4..])
  }

  lemma {:induction false} RowShuffledBack(a: PixelFormat, b: PixelFormat, bytes: seq<Byte>, w: nat)
    requires Aligned888(a) && Aligned888(b) && |bytes| == 4 * w
    ensures RowShuffled(a, b, RowShuffled(b, a, bytes, w), w) == bytes
  {
    hide ShufflePixel, Aligned888;
    if w > 0 {
      var first, last := bytes[..4 * w - 4], bytes[4 * w - 4..];
      var there := RowShuffled(b, a, bytes, w);
      assert there[..4 * w - 4] == RowShuffled(b, a, first, w - 1);
      assert there[4 * w - 4..] == ShufflePixel(b, a, last);
      RowShuffledBack(a, b, first, w - 1);
      ShuffleBack(a, b, last);
      assert first + last == bytes;
    }
  }

  ghost function RowsShuffled(to: PixelFormat, from: PixelFormat, src: seq<Byte>, w: nat, h: nat, stride: nat)
    : (rows: seq<seq<Byte>>)
    requires Aligned888(to) && Aligned888(from) && RectFits(|src|, 4 * w, h, 4 * stride)
    ensures |rows| == h
  {
    seq(h, y requires 0 <= y < h =>
      RowFits(|src|, 4 * w, h, 4 * stride, y);
      RowShuffled(to, from, src[RowStart(y, 4 * stride)..RowStart(y, 4 * stride) + 4 * w], w))
  }

  lemma RowsShuffledAt(to: PixelFormat, from: PixelFormat, src: seq<Byte>, w: nat, h: nat, stride: nat, y: nat)
    requires Aligned888(to) && Aligned888(from) && RectFits(|src|, 4 * w, h, 4 * stride) && y < h
    ensures 0 <= RowStart(y, 4 * stride) && RowStart(y, 4 * stride) + 4 * w <= |src|
    ensures RowsShuffled(to, from, src, w, h, stride)[y]
      == RowShuffled(to, from, src[RowStart(y, 4 * stride)..RowStart(y, 4 * stride) + 4 * w], w)
  {
    RowFits(|src|, 4 * w, h, 4 * stride, y);
  }

  /** Where the bytes of a pixel go: d[k] is the place of byte k. */
  ghost predicate IsPlan(d: seq<int>, to: PixelFormat, from: PixelFormat)
    requires Aligned888(from)
  {
    OffsetsApart(from);
    && |d| == 4
    && d[Offset(from, from.redShift)] == Offset(to, to.redShift)
    && d[Offset(from, from.greenShift)] == Offset(to, to.greenShift)
    && d[Offset(from, from.blueShift)] == Offset(to, to.blueShift)
    && d[Offset(from, Unused(from))] == Offset(to, Unused(to))
  }

  lemma PlanPlaces(d: seq<int>, to: PixelFormat, from: PixelFormat, px: seq<Byte>)
    requires Aligned888(to) && Aligned888(from) && IsPlan(d, to, from) && |px| == 4
    ensures Carried(d, px, ShufflePixel(to, from, px))
  {
    OffsetsApart(to);
    OffsetsApart(from);
    ShuffledPlaces(to, from, px);
    hide Offset, Unused, ShufflePixel, Aligned888, Carried;
    FourPlaces(d, px, ShufflePixel(to, from, px), Offset(from, from.redShift), Offset(from, from.greenShift),
               Offset(from, from.blueShift), Offset(from, Unused(from)), Offset(to, to.redShift),
               Offset(to, to.greenShift), Offset(to, to.blueShift), Offset(to, Unused(to)));
  }

  /** Byte k of a pixel is at place d[k] of the other, and every place is taken. */
  ghost predicate Carried(d: seq<int>, px: seq<Byte>, out: seq<Byte>) {
    && |d| == |px| == |out| == 4
    && 0 <= d[0] < 4 && 0 <= d[1] < 4 && 0 <= d[2] < 4 && 0 <= d[3] < 4
    && d[0] != d[1] && d[0] != d[2] && d[0] != d[3] && d[1] != d[2] && d[1] != d[3] && d[2] != d[3]
    && out[d[0]] == px[0] && out[d[1]] == px[1] && out[d[2]] == px[2] && out[d[3]] == px[3]
  }

  /** Four different numbers below 4 are all there are. */
  predicate FourApart(r: int, g: int, b: int, x: int) {
    && 0 <= r < 4 && 0 <= g < 4 && 0 <= b < 4 && 0 <= x < 4
    && r != g && r != b && r != x && g != b && g != x && b != x
  }

  lemma FourPlaces(d: seq<int>, px: seq<Byte>, out: seq<Byte>, r: int, g: int, b: int, x: int,
                   r': int, g': int, b': int, x': int)
    requires |d| == |px| == |out| == 4 && FourApart(r, g, b, x) && FourApart(r', g', b', x')
    requires d[r] == r' && d[g] == g' && d[b] == b' && d[x] == x'
    requires out[r'] == px[r] && out[g'] == px[g] && out[b'] == px[b] && out[x'] == px[x]
    ensures Carried(d, px, out)
  {
    assert 0 == r || 0 == g || 0 == b || 0 == x;
    assert 1 == r || 1 == g || 1 == b || 1 == x;
    assert 2 == r || 2 == g || 2 == b || 2 == x;
    assert 3 == r || 3 == g || 3 == b || 3 == x;
  }

  /** Writing the bytes one by one. */
  lemma FourCarried(d: seq<int>, was: seq<Byte>, px: seq<Byte>, out: seq<Byte>)
    requires Carried(d, px, out) && |was| == 4
    ensures was[d[0] := px[0]][d[1] := px[1]][d[2] := px[2]][d[3] := px[3]] == out
  {
    var written := was[d[0] := px[0]][d[1] := px[1]][d[2] := px[2]][d[3] := px[3]];
    forall k | 0 <= k < 4 ensures written[k] == out[k] {
      assert k == d[0] || k == d[1] || k == d[2] || k == d[3];
    }
  }

  /** The pointers s and d of bufferFromBuffer, as offsets. */
  method Plan(to: PixelFormat, from: PixelFormat) returns (d: array<int>)
    requires Aligned888(to) && Aligned888(from)
    ensures fresh(d) && IsPlan(d[..], to, from)
  {
    OffsetsApart(from);
    hide Offset, Unused, Aligned888;
    d := new int[4](_ => 0);
    d[Offset(from, from.redShift)] := Offset(to, to.redShift);
    d[Offset(from, from.greenShift)] := Offset(to, to.greenShift);
    d[Offset(from, from.blueShift)] := Offset(to, to.blueShift);
    d[Offset(from, Unused(from))] := Offset(to, Unused(to));
  }

  /** One pixel: *d[k] = *(src++) for each of the four bytes. */
  method PutShuffled(dst: array<Byte>, at: nat, d: seq<int>, ghost to: PixelFormat, ghost from: PixelFormat,
                     src: seq<Byte>, pos: nat)
    requires Aligned888(to) && Aligned888(from) && IsPlan(d, to, from) && at + 4 <= dst.Length && pos + 4 <= |src|
    modifies dst
    ensures dst[at..at + 4] == ShufflePixel(to, from, src[pos..pos + 4])
    ensures forall j :: 0 <= j < dst.Length && !(at <= j < at + 4) ==> dst[j] == old(dst[j])
  {
    ghost var px, was := src[pos..pos + 4], dst[at..at + 4];
    PlanPlaces(d, to, from, px);
    FourCarried(d, was, px, ShufflePixel(to, from, px));
    hide Aligned888, ShufflePixel, IsPlan;
    PutByte(dst, at, d[0], src[pos]);
    PutByte(dst, at, d[1], src[pos + 1]);
    PutByte(dst, at, d[2], src[pos + 2]);
    PutByte(dst, at, d[3], src[pos + 3]);
    assert dst[at..at + 4] == was[d[0] := px[0]][d[1] := px[1]][d[2] := px[2]][d[3] := px[3]];
  }

  method WriteRowShuffled(dst: array<Byte>, start: nat, d: seq<int>, ghost to: PixelFormat, ghost from: PixelFormat,
                          src: seq<Byte>, pos: nat, w: nat)
    requires Aligned888(to) && Aligned888(from) && IsPlan(d, to, from)
    requires start + 4 * w <= dst.Length && pos + 4 * w <= |src|
    modifies dst
    ensures dst[start..start + 4 * w] == RowShuffled(to, from, src[pos..pos + 4 * w], w)
    ensures forall k :: 0 <= k < dst.Length && !(start <= k < start + 4 * w) ==> dst[k] == old(dst[k])
  {
    hide Aligned888, ShufflePixel, IsPlan, RowShuffled;
    NothingShuffled(to, from);
    assert src[pos..pos + 4 * 0] == [];
    for i := 0 to w
      invariant dst[start..start + 4 * i] == RowShuffled(to, from, src[pos..pos + 4 * i], i)
      invariant forall k :: 0 <= k < dst.Length && !(start <= k < start + 4 * i) ==> dst[k] == old(dst[k])
    {
      ghost var was := dst[..];
      var at := start + 4 * i;
      PutShuffled(dst, at, d, to, from, src, pos + 4 * i);
      SliceGrown(was, dst[..], start, at, at + 4);
      RowShuffledNext(to, from, src, pos, i);
    }
  }

  lemma NothingShuffled(to: PixelFormat, from: PixelFormat)
    requires Aligned888(to) && Aligned888(from)
    ensures RowShuffled(to, from, [], 0) == []
  {
  }

  lemma RowShuffledNext(to: PixelFormat, from: PixelFormat, src: seq<Byte>, pos: nat, i: nat)
    requires Aligned888(to) && Aligned888(from) && pos + 4 * i + 4 <= |src|
    ensures RowShuffled(to, from, src[pos..pos + 4 * i + 4], i + 1)
         == RowShuffled(to, from, src[pos..pos + 4 * i], i)
            + ShufflePixel(to, from, src[pos + 4 * i..pos + 4 * i + 4])
  {
    var line := src[pos..pos + 4 * i + 4];
    assert line[..4 * i] == src[pos..pos + 4 * i] && line[4 * i..] == src[pos + 4 * i..pos + 4 * i + 4];
    hide ShufflePixel, Aligned888;
  }

  /** The case "byte shuffling" of bufferFromBuffer; the strides count pixels. */
  method ShuffleBuffer(dst: array<Byte>, to: PixelFormat, from: PixelFormat, src: seq<Byte>, w: nat, h: nat,
                       dstStride: nat, srcStride: nat)
    requires Aligned888(to) && Aligned888(from)
    requires RectFits(|src|, 4 * w, h, 4 * srcStride) && RectFits(dst.Length, 4 * w, h, 4 * dstStride)
    modifies dst
    ensures Blitted(old(dst[..]), dst[..], RowsShuffled(to, from, src, w, h, srcStride), 4 * w, 4 * dstStride)
  {
    hide *;
    ghost var rows := RowsShuffled(to, from, src, w, h, srcStride);
    var length, dstPitch, srcPitch := 4 * w, 4 * dstStride, 4 * srcStride;
    BlitNothing(dst[..], length, dstPitch);
    var plan := Plan(to, from);
    var d, s := 0, 0;
    FirstRow(srcPitch);
    FirstRow(dstPitch);
    for y := 0 to h
      invariant d == RowStart(y, dstPitch) && s == RowStart(y, srcPitch)
      invariant IsPlan(plan[..], to, from)
      invariant Blitted(old(dst[..]), dst[..], rows[..y], length, dstPitch)
    {
      RowFits(|src|, length, h, srcPitch, y);
      RowFits(dst.Length, length, h, dstPitch, y);
      RowsShuffledAt(to, from, src, w, h, srcStride, y);
      BlitRowShuffled(dst, d, plan[..], to, from, src, s, w, dstPitch, old(dst[..]), rows, y);
      d := d + dstPitch;
      s := s + srcPitch;
    }
    assert rows[..h] == rows;
  }

  method BlitRowShuffled(dst: array<Byte>, start: nat, d: seq<int>, ghost to: PixelFormat, ghost from: PixelFormat,
                         src: seq<Byte>, pos: nat, w: nat, pitch: nat,
                         ghost was: seq<Byte>, ghost rows: seq<seq<Byte>>, ghost y: nat)
    requires Aligned888(to) && Aligned888(from) && IsPlan(d, to, from)
    requires start == RowStart(y, pitch) && start + 4 * w <= dst.Length && 4 * w <= pitch && pos + 4 * w <= |src|
    requires y < |rows| && rows[y] == RowShuffled(to, from, src[pos..pos + 4 * w], w)
    requires Blitted(was, dst[..], rows[..y], 4 * w, pitch)
    modifies dst
    ensures Blitted(was, dst[..], rows[..y + 1], 4 * w, pitch)
  {
    BlitLength(was, dst[..], rows[..y], 4 * w, pitch);
    hide RowStart, RowShuffled, IsPlan, Aligned888, Blitted;
    ghost var mid := dst[..];
    WriteRowShuffled(dst, start, d, to, from, src, pos, w);
    BlitRow(was, mid, dst[..], rows[..y], rows[y], pitch);
    assert rows[..y + 1] == rows[..y] + [rows[y]];
  }
}
