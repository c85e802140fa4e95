/** Comparing a rectangle of the framebuffer with the shadow, block by block. */
module ShadowCompare {
  import opened Arithmetic
  import opened Banding
  import opened Bytes
  import opened XRegion
  import opened RegionAlgebra
  import opened RegionRects
  import opened PixelBuffers

  const BLOCK_SIZE := 64

  /** The shadow picture with the area `r` brought up to date. */
  ghost function Refreshed<T>(shadow: (int, int) -> T, fb: (int, int) -> T, r: Rect, x: int, y: int): T {
    if InBox(r, x, y) then fb(x, y) else shadow(x, y)
  }

  ghost predicate Differs(shadow: Picture, fb: Picture, r: Rect) {
    exists x, y :: InBox(r, x, y) && shadow(x, y) != fb(x, y)
  }

  /** memcmp of n bytes. */
  method SameBytes(a: array<Byte>, i: nat, b: array<Byte>, j: nat, n: nat) returns (same: bool)
    requires i + n <= a.Length && j + n <= b.Length
    ensures same <==> a[i..i + n] == b[j..j + n]
  {
    for k := 0 to n
      invariant a[i..i + k] == b[j..j + k]
    {
      if a[i + k] != b[j + k] {
        assert a[i..i + n][k] != b[j..j + n][k];
        return false;
      }
    }
    return true;
  }

  /** memcpy of n bytes from another buffer. */
  method CopyBytes(dst: array<Byte>, i: nat, src: array<Byte>, j: nat, n: nat)
    requires i + n <= dst.Length && j + n <= src.Length && dst != src
    modifies dst
    ensures forall k :: 0 <= k < dst.Length && !(i <= k < i + n) ==> dst[k] == old(dst[k])
    ensures forall k :: i <= k < i + n ==> dst[k] == src[k - i + j]
  {
    for k := 0 to n
      invariant forall m :: 0 <= m < dst.Length && !(i <= m < i + k) ==> dst[m] == old(dst[m])
      invariant forall m :: i <= m < i + k ==> dst[m] == src[m - i + j]
    {
      dst[i + k] := src[j + k];
    }
  }

  ghost predicate TwoBuffers(fb: PixelBuffer, shadow: PixelBuffer)
    reads fb, shadow
  {
    && fb != shadow && fb.data != shadow.data && fb.size == shadow.size
    && fb.Valid() && shadow.Valid() && fb.GetRect() == shadow.GetRect()
  }

  /** One row of a block, as the two memory ranges hold it. */
  method SameRow(fb: PixelBuffer, shadow: PixelBuffer, x1: int, x2: int, y: int) returns (same: bool)
    requires TwoBuffers(fb, shadow)
    requires 0 <= x1 <= x2 <= fb.width && 0 <= y < fb.height
    ensures same <==> forall x :: x1 <= x < x2 ==> shadow.View()(x, y) == fb.View()(x, y)
  {
    hide ByteCount, BytesOf;
    ByteRange(x1, x2, fb.stride, fb.size);
    ByteRange(x1, x2, shadow.stride, fb.size);
    same := SameByteRow(fb, shadow, ByteCount(x1, fb.size), ByteCount(x2, fb.size), y);
    SamePixels(shadow.Memory(), fb.Memory(), fb.size, x1, x2, y);
    hide PixelAt;
    assert forall x :: shadow.View()(x, y) == PixelAt(shadow.Memory(), fb.size, x, y);
    assert forall x :: fb.View()(x, y) == PixelAt(fb.Memory(), fb.size, x, y);
  }

  /** The same, counted in bytes. */
  method SameByteRow(fb: PixelBuffer, shadow: PixelBuffer, x1: int, x2: int, y: int) returns (same: bool)
    requires TwoBuffers(fb, shadow)
    requires 0 <= x1 <= x2 <= fb.Pitch() && x2 <= shadow.Pitch() && 0 <= y < fb.height
    ensures same <==> forall x :: x1 <= x < x2 ==> shadow.Memory()(x, y) == fb.Memory()(x, y)
  {
    RowBounds(x1, x2, y, fb.height, fb.Pitch());
    RowBounds(x1, x2, y, shadow.height, shadow.Pitch());
    var i, j := x1 + RowStart(y, shadow.Pitch()), x1 + RowStart(y, fb.Pitch());
    same := SameBytes(shadow.data, i, fb.data, j, x2 - x1);
    ghost var n := x2 - x1;
    ghost var s, t := shadow.data[i..i + n], fb.data[j..j + n];
    forall x | x1 <= x < x2 ensures shadow.Memory()(x, y) == s[x - x1] && fb.Memory()(x, y) == t[x - x1] {
      RowBounds(x, x + 1, y, fb.height, fb.Pitch());
      RowBounds(x, x + 1, y, shadow.height, shadow.Pitch());
    }
    if !same && forall x :: x1 <= x < x2 ==> shadow.Memory()(x, y) == fb.Memory()(x, y) {
      forall k | 0 <= k < n ensures s[k] == t[k] {
        assert shadow.Memory()(x1 + k, y) == fb.Memory()(x1 + k, y);
      }
    }
  }

  /** Rows of pixels are equal exactly if their bytes are. */
  lemma SamePixels(a: ByteMap, b: ByteMap, size: nat, x1: int, x2: int, y: int)
    requires size > 0
    ensures (forall c :: ByteCount(x1, size) <= c < ByteCount(x2, size) ==> a(c, y) == b(c, y))
      <==> forall x :: x1 <= x < x2 ==> PixelAt(a, size, x, y) == PixelAt(b, size, x, y)
  {
    hide ByteCount;
    if forall c :: ByteCount(x1, size) <= c < ByteCount(x2, size) ==> a(c, y) == b(c, y) {
      forall x | x1 <= x < x2 ensures PixelAt(a, size, x, y) == PixelAt(b, size, x, y) {
        forall k | 0 <= k < size ensures PixelAt(a, size, x, y)[k] == PixelAt(b, size, x, y)[k] {
          InColumns(x, x1, x2, size, k);
        }
      }
    }
    if forall x :: x1 <= x < x2 ==> PixelAt(a, size, x, y) == PixelAt(b, size, x, y) {
      forall c | ByteCount(x1, size) <= c < ByteCount(x2, size) ensures a(c, y) == b(c, y) {
        var x, k := ColumnOf(c, size);
        InColumns(x, x1, x2, size, k);
        assert PixelAt(a, size, x, y)[k] == PixelAt(b, size, x, y)[k];
      }
    }
  }

  method CopyRowAcross(fb: PixelBuffer, shadow: PixelBuffer, x1: int, x2: int, y: int)
    requires TwoBuffers(fb, shadow)
    requires 0 <= x1 <= x2 <= fb.width && 0 <= y < fb.height
    modifies shadow.data
    ensures forall u, v :: shadow.View()(u, v) == Refreshed(old(shadow.View()), fb.View(), Box(x1, y, x2, y + 1), u, v)
  {
    ghost var was := shadow.Memory();
    ByteRange(x1, x2, fb.stride, fb.size);
    ByteRange(x1, x2, shadow.stride, fb.size);
    CopyBytesAcross(fb, shadow, ByteCount(x1, fb.size), ByteCount(x2, fb.size), y);
    forall u, v ensures shadow.View()(u, v) == Refreshed(old(shadow.View()), fb.View(), Box(x1, y, x2, y + 1), u, v) {
      RefreshedPixels(was, shadow.Memory(), fb.Memory(), fb.size, x1, x2, y, u, v);
    }
  }

  /** A row refreshed byte by byte is one refreshed pixel by pixel. */
  lemma RefreshedPixels(was: ByteMap, now: ByteMap, fb: ByteMap, size: nat, x1: int, x2: int, y: int, u: int, v: int)
    requires forall c, w :: now(c, w) ==
               Refreshed(was, fb, Box(ByteCount(x1, size), y, ByteCount(x2, size), y + 1), c, w)
    ensures PixelAt(now, size, u, v) == Refreshed(Grouped(was, size), Grouped(fb, size), Box(x1, y, x2, y + 1), u, v)
  {
    hide ByteCount;
    var from := if InBox(Box(x1, y, x2, y + 1), u, v) then PixelAt(fb, size, u, v) else PixelAt(was, size, u, v);
    forall k | 0 <= k < size ensures PixelAt(now, size, u, v)[k] == from[k] {
      InColumns(u, x1, x2, size, k);
    }
    assert PixelAt(now, size, u, v) == from;
  }

  /** The same, counted in bytes. */
  method CopyBytesAcross(fb: PixelBuffer, shadow: PixelBuffer, x1: int, x2: int, y: int)
    requires TwoBuffers(fb, shadow)
    requires 0 <= x1 <= x2 <= fb.Pitch() && x2 <= shadow.Pitch() && 0 <= y < fb.height
    modifies shadow.data
    ensures forall u, v :: shadow.Memory()(u, v) ==
              Refreshed(old(shadow.Memory()), fb.Memory(), Box(x1, y, x2, y + 1), u, v)
  {
    RowBounds(x1, x2, y, fb.height, fb.Pitch());
    RowBounds(x1, x2, y, shadow.height, shadow.Pitch());
    var i, j := x1 + RowStart(y, shadow.Pitch()), x1 + RowStart(y, fb.Pitch());
    hide RowStart, BytesOf, ByteCount, PixelBuffer.Pitch;
    CopyBytes(shadow.data, i, fb.data, j, x2 - x1);
    RowAcrossView(old(shadow.data[..]), shadow.data[..], shadow.height, shadow.Pitch(),
                  fb.data[..], fb.height, fb.Pitch(), x1, x2, y);
  }

  lemma RowAcrossView(px: seq<Byte>, px': seq<Byte>, height: nat, stride: nat,
                      src: seq<Byte>, srcHeight: nat, srcStride: nat, x1: int, x2: int, y: int)
    requires RowStart(height, stride) <= |px| == |px'| && RowStart(srcHeight, srcStride) <= |src|
    requires 0 <= x1 <= x2 <= stride && x2 <= srcStride && 0 <= y < height && y < srcHeight
    requires 0 <= x1 + RowStart(y, stride) && 0 <= x1 + RowStart(y, srcStride) && x2 + RowStart(y, srcStride) <= |src|
    requires forall k :: 0 <= k < |px| && !(x1 + RowStart(y, stride) <= k < x2 + RowStart(y, stride)) ==>
               px'[k] == px[k]
    requires forall k :: x1 + RowStart(y, stride) <= k < x2 + RowStart(y, stride) && k < |px| ==>
               px'[k] == src[k - RowStart(y, stride) + RowStart(y, srcStride)]
    ensures forall u, v :: BytesOf(px', height, stride)(u, v)
                           == Refreshed(BytesOf(px, height, stride), BytesOf(src, srcHeight, srcStride),
                                        Box(x1, y, x2, y + 1), u, v)
  {
    forall u, v | 0 <= u < stride && 0 <= v < height
      ensures BytesOf(px', height, stride)(u, v)
              == Refreshed(BytesOf(px, height, stride), BytesOf(src, srcHeight, srcStride), Box(x1, y, x2, y + 1), u, v)
    {
      RowBounds(u, u + 1, v, height, stride);
      var k := u + RowStart(v, stride);
      var dst := x1 + RowStart(y, stride);
      if InBox(Box(x1, y, x2, y + 1), u, v) {
        RowBounds(u, u + 1, v, srcHeight, srcStride);
      } else if dst <= k < dst + (x2 - x1) {
        AddressUnique(u, v, k - RowStart(y, stride), y, stride);
      }
    }
  }

  ghost predicate SameRows(shadow: Picture, fb: Picture, b: Rect, y: int) {
    forall u, v :: b.x1 <= u < b.x2 && b.y1 <= v < y ==> shadow(u, v) == fb(u, v)
  }

  ghost predicate RowDiffers(shadow: Picture, fb: Picture, b: Rect, y: int) {
    exists u :: b.x1 <= u < b.x2 && shadow(u, y) != fb(u, y)
  }

  /** The first row of a block that differs. */
  method FirstDifferent(fb: PixelBuffer, shadow: PixelBuffer, b: Rect) returns (y: int)
    requires TwoBuffers(fb, shadow) && EnclosedBy(b, fb.GetRect()) && !IsEmpty(b)
    ensures b.y1 <= y <= b.y2 && SameRows(shadow.View(), fb.View(), b, y)
    ensures y < b.y2 ==> RowDiffers(shadow.View(), fb.View(), b, y)
  {
    hide PixelBuffer.View;
    y := b.y1;
    while y < b.y2
      invariant b.y1 <= y <= b.y2 && SameRows(shadow.View(), fb.View(), b, y)
      decreases b.y2 - y
    {
      var same := SameRow(fb, shadow, b.x1, b.x2, y);
      if !same { return; }
      y := y + 1;
    }
  }

  /** One block of compareRect: stop at the first differing row and copy that row
      and all below it. */
  method CompareBlock(fb: PixelBuffer, shadow: PixelBuffer, b: Rect) returns (changed: bool)
    requires TwoBuffers(fb, shadow) && EnclosedBy(b, fb.GetRect()) && !IsEmpty(b)
    modifies shadow.data
    ensures changed <==> Differs(old(shadow.View()), fb.View(), b)
    ensures forall x, y :: shadow.View()(x, y) == Refreshed(old(shadow.View()), fb.View(), b, x, y)
  {
    hide PixelBuffer.View, SameRows, RowDiffers, Differs, Refreshed;
    var y := FirstDifferent(fb, shadow, b);
    changed := y < b.y2;
    BlockRefreshed(shadow.View(), fb.View(), b, y);
    if changed {
      CopyFrom(fb, shadow, b, y);
    }
  }

  lemma BlockRefreshed(shadow: Picture, fb: Picture, b: Rect, y: int)
    requires !IsEmpty(b) && b.y1 <= y <= b.y2 && SameRows(shadow, fb, b, y)
    requires y < b.y2 ==> RowDiffers(shadow, fb, b, y)
    ensures Differs(shadow, fb, b) <==> y < b.y2
    ensures forall u, v :: Refreshed(shadow, fb, b.(y1 := y), u, v) == Refreshed(shadow, fb, b, u, v)
    ensures y == b.y2 ==> forall u, v :: shadow(u, v) == Refreshed(shadow, fb, b, u, v)
  {
    if y < b.y2 {
      var u :| b.x1 <= u < b.x2 && shadow(u, y) != fb(u, y);
      assert InBox(b, u, y);
    }
  }

  /** The rows of block b from y down. */
  method CopyFrom(fb: PixelBuffer, shadow: PixelBuffer, b: Rect, y: int)
    requires TwoBuffers(fb, shadow) && EnclosedBy(b, fb.GetRect()) && b.y1 <= y < b.y2 && b.x1 < b.x2
    modifies shadow.data
    ensures forall u, v :: shadow.View()(u, v) == Refreshed(old(shadow.View()), fb.View(), b.(y1 := y), u, v)
  {
    var y2 := y;
    while y2 < b.y2
      invariant y <= y2 <= b.y2
      invariant forall u, v :: shadow.View()(u, v) ==
                  Refreshed(old(shadow.View()), fb.View(), Box(b.x1, y, b.x2, y2), u, v)
    {
      CopyRowAcross(fb, shadow, b.x1, b.x2, y2);
      y2 := y2 + 1;
    }
  }

  /** Both points lie in one block of the grid that starts at (x0, y0). */
  predicate SameBlock(x0: int, y0: int, x: int, y: int, u: int, v: int) {
    (x - x0) / 64 == (u - x0) / 64 && (y - y0) / 64 == (v - y0) / 64
  }

  /** The block of `area` in which (x, y) lies holds a difference. */
  ghost predicate BlockDiffers(shadow: Picture, fb: Picture, area: Rect, x0: int, y0: int, x: int, y: int) {
    InBox(area, x, y) && exists u, v :: InBox(area, u, v) && SameBlock(x0, y0, x, y, u, v) && shadow(u, v) != fb(u, v)
  }

  /** `blocks` are the blocks of `area` that hold a difference. */
  ghost predicate FoundBlocks(blocks: seq<Rect>, shadow: Picture, fb: Picture, area: Rect, x0: int, y0: int) {
    forall x, y :: Covered(blocks, x, y) <==> BlockDiffers(shadow, fb, area, x0, y0, x, y)
  }

  /** No block reaches from one area into the other. */
  ghost predicate BlocksApart(area1: Rect, area2: Rect, x0: int, y0: int) {
    forall x, y, u, v :: InBox(area1, x, y) && InBox(area2, u, v) ==>
      !SameBlock(x0, y0, x, y, u, v) && !SameBlock(x0, y0, u, v, x, y)
  }

  /** Two neighbouring areas searched one after the other. */
  lemma FoundBoth(blocks1: seq<Rect>, area1: Rect, blocks2: seq<Rect>, area2: Rect, area: Rect, x0: int, y0: int,
                  shadow: Picture, shadow1: Picture, fb: Picture)
    requires FoundBlocks(blocks1, shadow, fb, area1, x0, y0) && FoundBlocks(blocks2, shadow1, fb, area2, x0, y0)
    requires forall x, y :: InBox(area, x, y) <==> InBox(area1, x, y) || InBox(area2, x, y)
    requires forall x, y :: InBox(area2, x, y) ==> shadow1(x, y) == shadow(x, y)
    requires BlocksApart(area1, area2, x0, y0)
    ensures FoundBlocks(blocks1 + blocks2, shadow, fb, area, x0, y0)
  {
    hide Covered, SameBlock;
    forall x, y ensures Covered(blocks1 + blocks2, x, y) <==> BlockDiffers(shadow, fb, area, x0, y0, x, y) {
      CoveredConcat(blocks1, blocks2, x, y);
      DiffersBoth(area1, area2, area, x0, y0, shadow, shadow1, fb, x, y);
    }
  }

  lemma DiffersBoth(area1: Rect, area2: Rect, area: Rect, x0: int, y0: int, shadow: Picture, shadow1: Picture,
                    fb: Picture, x: int, y: int)
    requires forall u, v :: InBox(area, u, v) <==> InBox(area1, u, v) || InBox(area2, u, v)
    requires forall u, v :: InBox(area2, u, v) ==> shadow1(u, v) == shadow(u, v)
    requires BlocksApart(area1, area2, x0, y0)
    ensures BlockDiffers(shadow, fb, area, x0, y0, x, y)
      <==> BlockDiffers(shadow, fb, area1, x0, y0, x, y) || BlockDiffers(shadow1, fb, area2, x0, y0, x, y)
  {
    hide SameBlock;
    if BlockDiffers(shadow, fb, area, x0, y0, x, y) {
      var u, v :| InBox(area, u, v) && SameBlock(x0, y0, x, y, u, v) && shadow(u, v) != fb(u, v);
      assert InBox(area1, u, v) || InBox(area2, u, v);
    }
  }

  /** `now` is `before` with the area brought up to date. */
  ghost predicate RefreshedIn(before: Picture, fb: Picture, area: Rect, now: Picture) {
    forall x, y :: now(x, y) == Refreshed(before, fb, area, x, y)
  }

  /** `area` is area1 with area2 beside or below it. */
  ghost predicate Extends(area1: Rect, area2: Rect, area: Rect) {
    && (forall x, y :: InBox(area, x, y) <==> InBox(area1, x, y) || InBox(area2, x, y))
    && (forall x, y :: InBox(area1, x, y) ==> !InBox(area2, x, y))
  }

  /** One more area searched and refreshed. */
  lemma SearchedBoth(blocks1: seq<Rect>, area1: Rect, blocks2: seq<Rect>, area2: Rect, area: Rect, x0: int, y0: int,
                     was: Picture, before: Picture, now: Picture, fb: Picture)
    requires FoundBlocks(blocks1, was, fb, area1, x0, y0) && RefreshedIn(was, fb, area1, before)
    requires FoundBlocks(blocks2, before, fb, area2, x0, y0) && RefreshedIn(before, fb, area2, now)
    requires Extends(area1, area2, area) && BlocksApart(area1, area2, x0, y0)
    ensures FoundBlocks(blocks1 + blocks2, was, fb, area, x0, y0) && RefreshedIn(was, fb, area, now)
  {
    hide FoundBlocks, BlocksApart;
    FoundBoth(blocks1, area1, blocks2, area2, area, x0, y0, was, before, fb);
  }

  lemma NothingSearched(was: Picture, fb: Picture, area: Rect, x0: int, y0: int)
    requires IsEmpty(area)
    ensures FoundBlocks([], was, fb, area, x0, y0) && RefreshedIn(was, fb, area, was)
  {
  }

  /** A cut along a grid line separates blocks. */
  lemma CutApart(area1: Rect, area2: Rect, x0: int, y0: int)
    requires (area1.x2 <= area2.x1 && (area2.x1 - x0) % BLOCK_SIZE == 0)
               || (area1.y2 <= area2.y1 && (area2.y1 - y0) % BLOCK_SIZE == 0)
    ensures BlocksApart(area1, area2, x0, y0)
  {
  }

  /** The next block of a strip ends at the grid line or at the end of the strip. */
  lemma NextAcross(strip: Rect, left: int, right: int, block: Rect, y0: int)
    requires strip.x1 <= left < strip.x2 && right == Min(left + BLOCK_SIZE, strip.x2)
    requires (left - strip.x1) % BLOCK_SIZE == 0 && !IsEmpty(strip)
    requires strip.y2 - strip.y1 <= BLOCK_SIZE && (strip.y1 - y0) % BLOCK_SIZE == 0
    requires block == Box(left, strip.y1, right, strip.y2)
    ensures left < right <= strip.x2 && (right < strip.x2 ==> (right - strip.x1) % BLOCK_SIZE == 0)
    ensures Extends(strip.(x2 := left), block, strip.(x2 := right)) && !IsEmpty(block)
    ensures BlocksApart(strip.(x2 := left), block, strip.x1, y0) && InGrid(block, strip.x1, y0)
  {
    CutApart(strip.(x2 := left), block, strip.x1, y0);
    hide BlocksApart;
  }

  lemma NextDown(r: Rect, top: int, bottom: int, strip: Rect)
    requires r.y1 <= top < r.y2 && bottom == Min(top + BLOCK_SIZE, r.y2) && (top - r.y1) % BLOCK_SIZE == 0
    requires strip == Box(r.x1, top, r.x2, bottom) && !IsEmpty(r)
    ensures top < bottom <= r.y2 && (bottom < r.y2 ==> (bottom - r.y1) % BLOCK_SIZE == 0)
    ensures Extends(r.(y2 := top), strip, r.(y2 := bottom)) && !IsEmpty(strip) && bottom - top <= BLOCK_SIZE
    ensures BlocksApart(r.(y2 := top), strip, r.x1, r.y1)
  {
    CutApart(r.(y2 := top), strip, r.x1, r.y1);
    hide BlocksApart;
  }

  lemma PartEnclosed(part: Rect, whole: Rect, bounds: Rect)
    requires EnclosedBy(whole, bounds)
    requires whole.x1 <= part.x1 && whole.y1 <= part.y1 && part.x2 <= whole.x2 && part.y2 <= whole.y2
    ensures EnclosedBy(part, bounds)
  {
  }

  /** The blocks of one strip [top, bottom), left to right. */
  method CompareStrip(fb: PixelBuffer, shadow: PixelBuffer, strip: Rect, ghost y0: int) returns (blocks: seq<Rect>)
    requires TwoBuffers(fb, shadow) && EnclosedBy(strip, fb.GetRect()) && !IsEmpty(strip)
    requires strip.y2 - strip.y1 <= BLOCK_SIZE && (strip.y1 - y0) % BLOCK_SIZE == 0
    modifies shadow.data
    ensures FoundBlocks(blocks, old(shadow.View()), fb.View(), strip, strip.x1, y0)
    ensures RefreshedIn(old(shadow.View()), fb.View(), strip, shadow.View())
  {
    hide PixelBuffer.View, FoundBlocks, RefreshedIn, Extends, BlocksApart, InGrid, EnclosedBy;
    blocks := [];
    var blockLeft := strip.x1;
    ghost var was := shadow.View();
    NothingSearched(was, fb.View(), strip.(x2 := blockLeft), strip.x1, y0);
    while blockLeft < strip.x2
      invariant strip.x1 <= blockLeft <= strip.x2
      invariant blockLeft < strip.x2 ==> (blockLeft - strip.x1) % BLOCK_SIZE == 0
      invariant FoundBlocks(blocks, was, fb.View(), strip.(x2 := blockLeft), strip.x1, y0)
      invariant RefreshedIn(was, fb.View(), strip.(x2 := blockLeft), shadow.View())
      decreases strip.x2 - blockLeft
    {
      var blockRight := Min(blockLeft + BLOCK_SIZE, strip.x2);
      var block := Box(blockLeft, strip.y1, blockRight, strip.y2);
      ghost var before := shadow.View();
      NextAcross(strip, blockLeft, blockRight, block, y0);
      PartEnclosed(block, strip, fb.GetRect());
      var found := BlockIfChanged(fb, shadow, block, strip.x1, y0);
      SearchedBoth(blocks, strip.(x2 := blockLeft), found, block, strip.(x2 := blockRight), strip.x1, y0,
                   was, before, shadow.View(), fb.View());
      blocks := blocks + found;
      blockLeft := blockRight;
    }
  }

  ghost predicate InGrid(block: Rect, x0: int, y0: int) {
    && (block.x1 - x0) % BLOCK_SIZE == 0 && block.x2 - block.x1 <= BLOCK_SIZE
    && (block.y1 - y0) % BLOCK_SIZE == 0 && block.y2 - block.y1 <= BLOCK_SIZE
  }

  method BlockIfChanged(fb: PixelBuffer, shadow: PixelBuffer, block: Rect, ghost x0: int, ghost y0: int)
    returns (found: seq<Rect>)
    requires TwoBuffers(fb, shadow) && EnclosedBy(block, fb.GetRect()) && !IsEmpty(block) && InGrid(block, x0, y0)
    modifies shadow.data
    ensures FoundBlocks(found, old(shadow.View()), fb.View(), block, x0, y0)
    ensures RefreshedIn(old(shadow.View()), fb.View(), block, shadow.View())
  {
    hide PixelBuffer.View, FoundBlocks, Refreshed, Differs;
    var changed := CompareBlock(fb, shadow, block);
    found := if changed then [block] else [];
    OneBlock(found, block, old(shadow.View()), fb.View(), x0, y0);
  }

  lemma OneBlock(found: seq<Rect>, block: Rect, shadow: Picture, fb: Picture, x0: int, y0: int)
    requires found == if Differs(shadow, fb, block) then [block] else []
    requires InGrid(block, x0, y0)
    ensures FoundBlocks(found, shadow, fb, block, x0, y0)
  {
    forall x, y, u, v | InBox(block, x, y) && InBox(block, u, v) ensures SameBlock(x0, y0, x, y, u, v) {
    }
    hide SameBlock;
    if Differs(shadow, fb, block) {
      var u, v :| InBox(block, u, v) && shadow(u, v) != fb(u, v);
      assert forall x, y :: InBox(block, x, y) ==> SameBlock(x0, y0, x, y, u, v);
      forall x, y ensures Covered(found, x, y) <==> InBox(block, x, y) {
        if InBox(block, x, y) { assert InBox(found[0], x, y); }
      }
    }
  }

  method CompareBlocks(fb: PixelBuffer, shadow: PixelBuffer, r: Rect) returns (blocks: seq<Rect>)
    requires TwoBuffers(fb, shadow) && EnclosedBy(r, fb.GetRect()) && !IsEmpty(r)
    modifies shadow.data
    ensures FoundBlocks(blocks, old(shadow.View()), fb.View(), r, r.x1, r.y1)
    ensures RefreshedIn(old(shadow.View()), fb.View(), r, shadow.View())
  {
    hide PixelBuffer.View, FoundBlocks, RefreshedIn, Extends, BlocksApart, EnclosedBy;
    blocks := [];
    var blockTop := r.y1;
    ghost var was := shadow.View();
    NothingSearched(was, fb.View(), r.(y2 := blockTop), r.x1, r.y1);
    while blockTop < r.y2
      invariant r.y1 <= blockTop <= r.y2
      invariant blockTop < r.y2 ==> (blockTop - r.y1) % BLOCK_SIZE == 0
      invariant FoundBlocks(blocks, was, fb.View(), r.(y2 := blockTop), r.x1, r.y1)
      invariant RefreshedIn(was, fb.View(), r.(y2 := blockTop), shadow.View())
      decreases r.y2 - blockTop
    {
      var blockBottom := Min(blockTop + BLOCK_SIZE, r.y2);
      var strip := Box(r.x1, blockTop, r.x2, blockBottom);
      ghost var before := shadow.View();
      NextDown(r, blockTop, blockBottom, strip);
      PartEnclosed(strip, r, fb.GetRect());
      var found := CompareStrip(fb, shadow, strip, r.y1);
      SearchedBoth(blocks, r.(y2 := blockTop), found, strip, r.(y2 := blockBottom), r.x1, r.y1,
                   was, before, shadow.View(), fb.View());
      blocks := blocks + found;
      blockTop := blockBottom;
    }
  }

  /** The block of the cropped rectangle in which (x, y) lies holds a difference. */
  ghost predicate RectDiffers(shadow: Picture, fb: Picture, r: Rect, bounds: Rect, x: int, y: int) {
    var safe := Clip(r, bounds);
    BlockDiffers(shadow, fb, safe, safe.x1, safe.y1, x, y)
  }

  /** compareRect: crop to the framebuffer, compare block by block, add the
      differing blocks to `newChanged` and bring the shadow up to date. */
  method CompareRect(fb: PixelBuffer, shadow: PixelBuffer, r: Rect, newChanged: Region)
    requires TwoBuffers(fb, shadow) && newChanged.Valid()
    modifies shadow.data, newChanged
    ensures newChanged.Valid()
    ensures forall x, y :: shadow.View()(x, y) == Refreshed(old(shadow.View()), fb.View(), Clip(r, fb.GetRect()), x, y)
    ensures forall x, y :: Covered(newChanged.rects, x, y) <==>
              Covered(old(newChanged.rects), x, y) || RectDiffers(old(shadow.View()), fb.View(), r, fb.GetRect(), x, y)
  {
    hide PixelBuffer.View, Covered, SameBlock, Canonical;
    var safe := Clip(r, fb.GetRect());
    if IsEmpty(safe) { return; }
    var blocks := CompareBlocks(fb, shadow, safe);
    NoPoints();
    if |blocks| != 0 {
      var temp := new Region();
      SetOrderedRects(temp, blocks);
      UnionRegion(newChanged, temp, newChanged);
    }
  }

  // ------------------------------------------------ a list of rectangles

  /** The shadow refreshed in all of `rects`. */
  ghost function RefreshedAll(shadow: Picture, fb: Picture, rects: seq<Rect>, bounds: Rect, x: int, y: int): Pixel {
    if Covered(rects, x, y) && InBox(bounds, x, y) then fb(x, y) else shadow(x, y)
  }

  /** Point (x, y) lies in a block with a difference, in one of the rectangles. */
  ghost predicate Kept(shadow: Picture, fb: Picture, rects: seq<Rect>, bounds: Rect, x: int, y: int) {
    exists k :: 0 <= k < |rects| && RectDiffers(shadow, fb, rects[k], bounds, x, y)
  }

  /** `kept` is made up of the blocks of `rects` that hold a difference. */
  ghost predicate Filtered(shadow: Picture, fb: Picture, rects: seq<Rect>, bounds: Rect, kept: seq<Box>) {
    forall x, y :: Covered(kept, x, y) <==> Kept(shadow, fb, rects, bounds, x, y)
  }

  /** Nothing that differs is lost, and nothing is added. */
  lemma FilteredBetween(shadow: Picture, fb: Picture, rects: seq<Rect>, bounds: Rect, kept: seq<Box>, x: int, y: int)
    requires Filtered(shadow, fb, rects, bounds, kept)
    ensures Covered(kept, x, y) ==> Covered(rects, x, y) && InBox(bounds, x, y)
    ensures Covered(rects, x, y) && InBox(bounds, x, y) && shadow(x, y) != fb(x, y) ==> Covered(kept, x, y)
  {
    assert Covered(kept, x, y) <==> Kept(shadow, fb, rects, bounds, x, y);
    if Kept(shadow, fb, rects, bounds, x, y) {
      var k :| 0 <= k < |rects| && RectDiffers(shadow, fb, rects[k], bounds, x, y);
      assert InBox(Clip(rects[k], bounds), x, y);
    }
    if Covered(rects, x, y) && InBox(bounds, x, y) && shadow(x, y) != fb(x, y) {
      var k :| 0 <= k < |rects| && InBox(rects[k], x, y);
      assert InBox(Clip(rects[k], bounds), x, y);
      assert RectDiffers(shadow, fb, rects[k], bounds, x, y);
    }
  }

  /** Filtered depends on the shadow's pixels and on the points kept only. */
  lemma FilteredSame(a: Picture, b: Picture, fb: Picture, rects: seq<Rect>, bounds: Rect, kept: seq<Box>)
    requires Filtered(a, fb, rects, bounds, kept)
    requires forall x, y :: a(x, y) == b(x, y)
    ensures Filtered(b, fb, rects, bounds, kept)
  {
    hide Covered, Kept;
    forall x, y ensures Covered(kept, x, y) <==> Kept(b, fb, rects, bounds, x, y) {
      KeptSame(a, b, fb, rects, bounds, x, y);
    }
  }

  lemma KeptSame(a: Picture, b: Picture, fb: Picture, rects: seq<Rect>, bounds: Rect, x: int, y: int)
    requires forall u, v :: a(u, v) == b(u, v)
    ensures Kept(a, fb, rects, bounds, x, y) <==> Kept(b, fb, rects, bounds, x, y)
  {
    forall k | 0 <= k < |rects|
      ensures RectDiffers(a, fb, rects[k], bounds, x, y) <==> RectDiffers(b, fb, rects[k], bounds, x, y)
    {
    }
  }

  lemma FilteredPoints(a: Picture, fb: Picture, rects: seq<Rect>, bounds: Rect, kept: seq<Box>, kept': seq<Box>)
    requires Filtered(a, fb, rects, bounds, kept)
    requires forall x, y :: Covered(kept', x, y) <==> Covered(kept, x, y)
    ensures Filtered(a, fb, rects, bounds, kept')
  {
    hide Covered, Kept;
  }

  lemma NothingAdded(a: Picture, fb: Picture, rects: seq<Rect>, bounds: Rect, kept: seq<Box>)
    requires Filtered(a, fb, rects, bounds, kept)
    ensures forall x, y :: Covered(kept, x, y) ==> Covered(rects, x, y)
  {
    forall x, y | Covered(kept, x, y) ensures Covered(rects, x, y) {
      FilteredBetween(a, fb, rects, bounds, kept, x, y);
    }
  }

  /** One more rectangle compared. */
  lemma FilteredStep(shadow: Picture, now: Picture, fb: Picture, rects: seq<Rect>, k: nat, bounds: Rect,
                     kept: seq<Box>, kept': seq<Box>)
    requires k < |rects| && Banded(rects)
    requires forall x, y :: now(x, y) == RefreshedAll(shadow, fb, rects[..k], bounds, x, y)
    requires Filtered(shadow, fb, rects[..k], bounds, kept)
    requires forall x, y :: Covered(kept', x, y) <==>
               Covered(kept, x, y) || RectDiffers(now, fb, rects[k], bounds, x, y)
    ensures Filtered(shadow, fb, rects[..k + 1], bounds, kept')
  {
    hide Covered, RectDiffers, Kept;
    forall x, y ensures Covered(kept', x, y) <==> Kept(shadow, fb, rects[..k + 1], bounds, x, y) {
      NotYetRefreshed(shadow, now, fb, rects, k, bounds, x, y);
      KeptStep(shadow, fb, rects, k, bounds, x, y);
    }
  }

  lemma KeptStep(shadow: Picture, fb: Picture, rects: seq<Rect>, k: nat, bounds: Rect, x: int, y: int)
    requires k < |rects|
    ensures Kept(shadow, fb, rects[..k + 1], bounds, x, y)
      <==> Kept(shadow, fb, rects[..k], bounds, x, y) || RectDiffers(shadow, fb, rects[k], bounds, x, y)
  {
    hide RectDiffers;
    var before, after := rects[..k], rects[..k + 1];
    assert forall i :: 0 <= i < k ==> before[i] == after[i];
    assert after[k] == rects[k];
  }

  /** Rectangle k has not been touched by the rectangles before it. */
  lemma NotYetRefreshed(shadow: Picture, now: Picture, fb: Picture, rects: seq<Rect>, k: nat, bounds: Rect, x: int,
                        y: int)
    requires k < |rects| && Banded(rects)
    requires forall u, v :: now(u, v) == RefreshedAll(shadow, fb, rects[..k], bounds, u, v)
    ensures RectDiffers(now, fb, rects[k], bounds, x, y) <==> RectDiffers(shadow, fb, rects[k], bounds, x, y)
  {
    forall u, v | InBox(Clip(rects[k], bounds), u, v) ensures now(u, v) == shadow(u, v) {
      if Covered(rects[..k], u, v) { BandedApart(rects, k, u, v); }
    }
    hide SameBlock, Covered, Banded;
  }

  lemma RefreshedStep(shadow: Picture, fb: Picture, rects: seq<Rect>, k: nat, bounds: Rect, x: int, y: int)
    requires k < |rects|
    ensures RefreshedAll(shadow, fb, rects[..k + 1], bounds, x, y)
      == if InBox(Clip(rects[k], bounds), x, y) then fb(x, y) else RefreshedAll(shadow, fb, rects[..k], bounds, x, y)
  {
    assert rects[..k + 1] == rects[..k] + [rects[k]];
    AddCovered(rects[..k], rects[k]);
  }

  /** One turn of the loop of compare() over the changed rectangles. */
  method CompareNext(fb: PixelBuffer, shadow: PixelBuffer, rects: seq<Rect>, k: nat, newChanged: Region,
                     ghost was: Picture)
    requires TwoBuffers(fb, shadow) && newChanged.Valid() && k < |rects| && Banded(rects)
    requires Filtered(was, fb.View(), rects[..k], fb.GetRect(), newChanged.rects)
    requires forall x, y :: shadow.View()(x, y) == RefreshedAll(was, fb.View(), rects[..k], fb.GetRect(), x, y)
    modifies shadow.data, newChanged
    ensures newChanged.Valid()
    ensures Filtered(was, fb.View(), rects[..k + 1], fb.GetRect(), newChanged.rects)
    ensures forall x, y :: shadow.View()(x, y) == RefreshedAll(was, fb.View(), rects[..k + 1], fb.GetRect(), x, y)
  {
    hide Covered, Canonical, Filtered, RectDiffers, PixelBuffer.View, Banded;
    ghost var now, kept := shadow.View(), newChanged.rects;
    CompareRect(fb, shadow, rects[k], newChanged);
    FilteredStep(was, now, fb.View(), rects, k, fb.GetRect(), kept, newChanged.rects);
    forall x, y ensures shadow.View()(x, y) == RefreshedAll(was, fb.View(), rects[..k + 1], fb.GetRect(), x, y) {
      RefreshedStep(was, fb.View(), rects, k, fb.GetRect(), x, y);
      assert shadow.View()(x, y) == Refreshed(now, fb.View(), Clip(rects[k], fb.GetRect()), x, y);
    }
  }

  /** The loop of compare() over the changed rectangles. */
  method CompareRects(fb: PixelBuffer, shadow: PixelBuffer, rects: seq<Rect>) returns (newChanged: Region)
    requires TwoBuffers(fb, shadow) && Banded(rects)
    modifies shadow.data
    ensures fresh(newChanged) && newChanged.Valid()
    ensures Filtered(old(shadow.View()), fb.View(), rects, fb.GetRect(), newChanged.rects)
    ensures forall x, y :: shadow.View()(x, y) == RefreshedAll(old(shadow.View()), fb.View(), rects, fb.GetRect(), x, y)
  {
    newChanged := new Region();
    ghost var was := shadow.View();
    NoPoints();
    assert rects[..0] == [];
    hide Covered, Canonical;
    for k := 0 to |rects|
      invariant fresh(newChanged) && newChanged.Valid()
      invariant Filtered(was, fb.View(), rects[..k], fb.GetRect(), newChanged.rects)
      invariant forall x, y :: shadow.View()(x, y) == RefreshedAll(was, fb.View(), rects[..k], fb.GetRect(), x, y)
    {
      CompareNext(fb, shadow, rects, k, newChanged, was);
    }
    assert rects[..|rects|] == rects;
  }

  /** The first comparison: a copy of the framebuffer, 64 rows at a time. */
  method CopyAll(fb: PixelBuffer, shadow: PixelBuffer)
    requires TwoBuffers(fb, shadow)
    modifies shadow.data
    ensures forall x, y :: InBox(fb.GetRect(), x, y) ==> shadow.View()(x, y) == fb.View()(x, y)
  {
    var y := 0;
    while y < fb.height
      invariant 0 <= y <= fb.height
      invariant forall u, v :: InBox(Box(0, 0, fb.width, y), u, v) ==> shadow.View()(u, v) == fb.View()(u, v)
      decreases fb.height - y
    {
      var bottom := Min(fb.height, y + BLOCK_SIZE);
      while y < bottom
        invariant 0 <= y <= bottom <= fb.height
        invariant forall u, v :: InBox(Box(0, 0, fb.width, y), u, v) ==> shadow.View()(u, v) == fb.View()(u, v)
        decreases bottom - y
      {
        ghost var before := shadow.View();
        CopyRowAcross(fb, shadow, 0, fb.width, y);
        y := y + 1;
      }
    }
  }
}
