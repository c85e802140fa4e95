/** Looking for areas of one colour. */
module SolidSearch {
  import opened Arithmetic
  import opened Banding
  import opened PixelBuffers

  const SOLID_SEARCH_BLOCK := 16

  ghost predicate Solid(img: Picture, r: Rect, colour: Pixel) {
    forall x, y :: InBox(r, x, y) ==> img(x, y) == colour
  }

  /** checkSolidTile: walk the rows of the tile through the buffer. */
  method CheckSolidTile(r: Rect, colour: Pixel, pb: PixelBuffer) returns (solid: bool)
    requires pb.Valid() && EnclosedBy(r, pb.GetRect()) && r.x1 <= r.x2 && r.y1 <= r.y2
    ensures solid <==> Solid(pb.View(), r, colour)
  {
    var w, h := r.x2 - r.x1, r.y2 - r.y1;
    var pad := ByteCount(pb.stride - w, pb.size);
    var buffer := ByteCount(r.x1, pb.size) + RowStart(r.y1, pb.Pitch());
    PadBytes(pb.stride, r.x1, r.x2, pb.size);
    hide ByteCount, RowStart, BytesOf, PixelBuffer.View;
    while h > 0
      invariant 0 <= h <= r.y2 - r.y1
      invariant buffer == ByteCount(r.x1, pb.size) + RowStart(r.y2 - h, pb.Pitch())
      invariant Solid(pb.View(), r.(y2 := r.y2 - h), colour)
    {
      ghost var y := r.y2 - h;
      solid, buffer := CheckSolidRow(r, y, w, buffer, colour, pb);
      if !solid { return; }
      buffer := buffer + pad;
      h := h - 1;
      NextRow(y, pb.Pitch());
    }
    return true;
  }

  /** The inner loop, over row y of the tile. */
  method CheckSolidRow(ghost r: Rect, ghost y: int, w: int, start: int, colour: Pixel, pb: PixelBuffer)
    returns (solid: bool, buffer: int)
    requires pb.Valid() && EnclosedBy(r, pb.GetRect()) && r.x1 <= r.x2 && r.y1 <= y < r.y2 && w == r.x2 - r.x1
    requires start == ByteCount(r.x1, pb.size) + RowStart(y, pb.Pitch())
    ensures solid ==> Solid(pb.View(), Box(r.x1, y, r.x2, y + 1), colour)
    ensures solid ==> buffer == ByteCount(r.x2, pb.size) + RowStart(y, pb.Pitch())
    ensures !solid ==> !Solid(pb.View(), r, colour)
  {
    hide ByteCount, RowStart, BytesOf, PixelBuffer.View;
    buffer := start;
    var w_ := w;
    while w_ > 0
      invariant 0 <= w_ <= w
      invariant buffer == ByteCount(r.x2 - w_, pb.size) + RowStart(y, pb.Pitch())
      invariant Solid(pb.View(), Box(r.x1, y, r.x2 - w_, y + 1), colour)
    {
      PixelBytes(pb, r.x2 - w_, y);
      if pb.data[buffer..buffer + pb.size] != colour {
        assert InBox(r, r.x2 - w_, y);
        return false, buffer;
      }
      ByteCountNext(r.x2 - w_, pb.size);
      buffer := buffer + pb.size;
      w_ := w_ - 1;
    }
    solid := true;
  }

  lemma PadBytes(stride: int, x1: int, x2: int, size: nat)
    ensures ByteCount(x2, size) + ByteCount(stride - (x2 - x1), size) == ByteCount(x1, size) + ByteCount(stride, size)
  {
    ByteCountSum(x2, stride - (x2 - x1), size);
    ByteCountSum(x1, stride, size);
  }

  /** The bytes of a pixel of the buffer lie next to each other. */
  lemma PixelBytes(pb: PixelBuffer, x: int, y: int)
    requires pb.Valid() && InBox(pb.GetRect(), x, y)
    ensures var start := ByteCount(x, pb.size) + RowStart(y, pb.Pitch());
      && 0 <= start && start + pb.size <= pb.data.Length
      && pb.data[start..start + pb.size] == pb.View()(x, y)
  {
    var c, pitch := ByteCount(x, pb.size), pb.Pitch();
    ByteRange(x, x + 1, pb.stride, pb.size);
    ByteCountNext(x, pb.size);
    RowBounds(c, c + pb.size, y, pb.height, pitch);
    forall k | 0 <= k < pb.size
      ensures pb.data[c + RowStart(y, pitch)..c + RowStart(y, pitch) + pb.size][k] == pb.View()(x, y)[k]
    {
      RowBounds(c + k, c + k + 1, y, pb.height, pitch);
    }
  }

  function XYWH(x: int, y: int, w: int, h: int): Rect {
    Box(x, y, x + w, y + h)
  }

  /** Whole blocks from the edge, or all there is. */
  predicate InBlocks(n: int, total: int) {
    0 < n <= total && (n % 16 == 0 || n == total)
  }

  /** A number of whole strips, or all there is. */
  predicate AtBlock(n: int, total: int) {
    0 <= n <= total && (n % 16 == 0 || n == total)
  }

  /** The inner search of extendSolidAreaByBlock: how far right the strip stays
      solid, block by block. */
  method ExtendStrip(r: Rect, dy: int, dh: int, colour: Pixel, pb: PixelBuffer, w_prev: int) returns (w: int)
    requires pb.Valid() && EnclosedBy(r, pb.GetRect()) && r.y1 <= dy < dy + dh <= r.y2 && InBlocks(w_prev, r.x2 - r.x1)
    ensures w == 0 || (0 < w <= w_prev && InBlocks(w, r.x2 - r.x1))
    ensures Solid(pb.View(), XYWH(r.x1, dy, w, dh), colour)
    ensures w < w_prev ==> !Solid(pb.View(), XYWH(r.x1 + w, dy, Min(SOLID_SEARCH_BLOCK, w_prev - w), dh), colour)
  {
    hide Solid, InBlocks, PixelBuffer.View;
    EmptyIsSolid(pb.View(), r.x1, dy, dh, colour);
    TileInBlocks(0, w_prev, r.x2 - r.x1);
    var dw := Min(SOLID_SEARCH_BLOCK, w_prev);
    var solid := CheckSolidTile(XYWH(r.x1, dy, dw, dh), colour, pb);
    if !solid { return 0; }
    var dx := r.x1 + dw;
    while dx < r.x1 + w_prev
      invariant r.x1 < dx <= r.x1 + w_prev && InBlocks(dx - r.x1, r.x2 - r.x1)
      invariant Solid(pb.View(), XYWH(r.x1, dy, dx - r.x1, dh), colour)
      decreases r.x1 + w_prev - dx
    {
      dw := SOLID_SEARCH_BLOCK;
      if dx + dw > r.x1 + w_prev { dw := r.x1 + w_prev - dx; }
      TileInBlocks(dx - r.x1, w_prev, r.x2 - r.x1);
      solid := CheckSolidTile(XYWH(dx, dy, dw, dh), colour, pb);
      if !solid { break; }
      SolidBeside(pb.View(), r.x1, dx, dx + dw, dy, dh, colour);
      dx := dx + dw;
    }
    w := dx - r.x1;
  }

  /** One more tile still gives whole blocks. */
  lemma TileInBlocks(w: int, w_prev: int, total: int)
    requires InBlocks(w_prev, total) && (w == 0 || (InBlocks(w, total) && w < w_prev))
    ensures w < w + Min(SOLID_SEARCH_BLOCK, w_prev - w) <= w_prev <= total
    ensures InBlocks(w + Min(SOLID_SEARCH_BLOCK, w_prev - w), total)
  {
  }

  lemma EmptyIsSolid(img: Picture, x: int, y: int, h: int, colour: Pixel)
    ensures Solid(img, XYWH(x, y, 0, h), colour)
  {
  }

  lemma SolidBeside(img: Picture, x1: int, x: int, x2: int, y: int, h: int, colour: Pixel)
    requires Solid(img, XYWH(x1, y, x - x1, h), colour) && Solid(img, XYWH(x, y, x2 - x, h), colour)
    ensures Solid(img, XYWH(x1, y, x2 - x1, h), colour)
  {
  }

  /** No area of whole blocks at the corner of r, up to height h, is larger than `best`. */
  ghost predicate NoneLarger(img: Picture, r: Rect, h: int, colour: Pixel, best: int) {
    forall w', h' :: InBlocks(w', r.x2 - r.x1) && InBlocks(h', r.y2 - r.y1) && h' <= h ==>
      Solid(img, XYWH(r.x1, r.y1, w', h'), colour) ==> AreaOf(w', h') <= best
  }

  /** No wider area of whole blocks has the full height h. */
  ghost predicate NoneWider(img: Picture, r: Rect, h: int, colour: Pixel, w: int) {
    forall w' :: InBlocks(w', r.x2 - r.x1) && Solid(img, XYWH(r.x1, r.y1, w', h), colour) ==> w' <= w
  }

  /** After one more strip. */
  lemma StripDone(img: Picture, r: Rect, h: int, dh: int, colour: Pixel, w_prev: int, w: int)
    requires 0 <= h && 0 < dh && InBlocks(w_prev, r.x2 - r.x1)
    requires w == 0 || (w <= w_prev && InBlocks(w, r.x2 - r.x1))
    requires NoneWider(img, r, h, colour, w_prev)
    requires w < w_prev ==> !Solid(img, XYWH(r.x1 + w, r.y1 + h, Min(SOLID_SEARCH_BLOCK, w_prev - w), dh), colour)
    ensures NoneWider(img, r, h + dh, colour, w)
  {
    hide Solid;
    var below := h + dh;
    forall w' | InBlocks(w', r.x2 - r.x1) && Solid(img, XYWH(r.x1, r.y1, w', below), colour) ensures w' <= w {
      SolidPart(img, XYWH(r.x1, r.y1, w', below), XYWH(r.x1, r.y1, w', h), colour);
      if w < w' { NextTileSolid(img, r, h, dh, colour, w_prev, w, w'); }
    }
  }

  /** A solid area wider than w holds the tile at which the strip's search ended. */
  lemma NextTileSolid(img: Picture, r: Rect, h: int, dh: int, colour: Pixel, w_prev: int, w: int, w': int)
    requires 0 <= h && 0 < dh && InBlocks(w', r.x2 - r.x1) && InBlocks(w_prev, r.x2 - r.x1)
    requires w == 0 || InBlocks(w, r.x2 - r.x1)
    requires w < w' <= w_prev && Solid(img, XYWH(r.x1, r.y1, w', h + dh), colour)
    ensures Solid(img, XYWH(r.x1 + w, r.y1 + h, Min(SOLID_SEARCH_BLOCK, w_prev - w), dh), colour)
  {
    var step := Min(SOLID_SEARCH_BLOCK, w_prev - w);
    assert w + step <= w';
    SolidPart(img, XYWH(r.x1, r.y1, w', h + dh), XYWH(r.x1 + w, r.y1 + h, step, dh), colour);
  }

  lemma SolidPart(img: Picture, r: Rect, part: Rect, colour: Pixel)
    requires Solid(img, r, colour) && EnclosedBy(part, r)
    ensures Solid(img, part, colour)
  {
  }

  /** The best so far stays the best when the new strip is counted in. */
  lemma BestSoFar(img: Picture, r: Rect, h: int, dh: int, colour: Pixel, w: int, best: int, best': int)
    requires AtBlock(h, r.y2 - r.y1) && dh == Min(SOLID_SEARCH_BLOCK, r.y2 - r.y1 - h) && dh > 0
    requires NoneLarger(img, r, h, colour, best) && NoneWider(img, r, h + dh, colour, w)
    requires best <= best' && AreaOf(w, h + dh) <= best'
    ensures NoneLarger(img, r, h + dh, colour, best') && AtBlock(h + dh, r.y2 - r.y1)
  {
    hide Solid, AreaOf, InBlocks, AtBlock;
    forall w', h' | InBlocks(w', r.x2 - r.x1) && InBlocks(h', r.y2 - r.y1) && h' <= h + dh
      && Solid(img, XYWH(r.x1, r.y1, w', h'), colour)
      ensures AreaOf(w', h') <= best'
    {
      if h' > h {
        NextStrip(h, dh, r.y2 - r.y1, h');
        NotMore(w', w, h + dh);
      }
    }
    NextStrip(h, dh, r.y2 - r.y1, h + dh);
  }

  /** No height of whole strips lies between h and the next one. */
  lemma NextStrip(h: int, dh: int, total: int, h': int)
    requires AtBlock(h, total) && dh == Min(SOLID_SEARCH_BLOCK, total - h) && dh > 0 && h < h' <= h + dh
    ensures AtBlock(h + dh, total) && InBlocks(h + dh, total)
    ensures InBlocks(h', total) ==> h' == h + dh
  {
  }

  lemma NotMore(a: int, b: int, c: int)
    requires a <= b && 0 <= c
    ensures AreaOf(a, c) <= AreaOf(b, c)
  {
  }

  /** Where the search stands after h rows: w_prev is the greatest width of that
      height, w_best by h_best the largest area. */
  ghost predicate Search(img: Picture, r: Rect, h: int, colour: Pixel, w_prev: int, w_best: int, h_best: int) {
    && AtBlock(h, r.y2 - r.y1) && InBlocks(w_prev, r.x2 - r.x1)
    && 0 <= w_best <= r.x2 - r.x1 && 0 <= h_best <= r.y2 - r.y1
    && (if h > 0 then 0 < w_best && 0 < h_best else w_prev == r.x2 - r.x1 && w_best == 0)
    && Solid(img, XYWH(r.x1, r.y1, w_prev, h), colour) && Solid(img, XYWH(r.x1, r.y1, w_best, h_best), colour)
    && NoneWider(img, r, h, colour, w_prev) && NoneLarger(img, r, h, colour, AreaOf(w_best, h_best))
  }

  lemma SearchStep(img: Picture, r: Rect, h: int, dh: int, colour: Pixel, w_prev: int, w_best: int, h_best: int,
                   w: int, w_best': int, h_best': int)
    requires Search(img, r, h, colour, w_prev, w_best, h_best)
    requires h < r.y2 - r.y1 && dh == Min(SOLID_SEARCH_BLOCK, r.y2 - r.y1 - h)
    requires 0 < w <= w_prev && InBlocks(w, r.x2 - r.x1)
    requires Solid(img, XYWH(r.x1, r.y1 + h, w, dh), colour) && NoneWider(img, r, h + dh, colour, w)
    requires if AreaOf(w, h + dh) > AreaOf(w_best, h_best) then w_best' == w && h_best' == h + dh
             else w_best' == w_best && h_best' == h_best
    ensures Search(img, r, h + dh, colour, w, w_best', h_best')
  {
    assert 0 <= h;
    SolidNarrower(img, r, w_prev, w, h, colour);
    SolidBelow(img, XYWH(r.x1, r.y1, w, h), dh, colour);
    PositiveProduct(w, h + dh);
    hide Solid, NoneWider, NoneLarger, AreaOf;
    BestSoFar(img, r, h, dh, colour, w, AreaOf(w_best, h_best), AreaOf(w_best', h_best'));
  }

  /** One turn of the loop of extendSolidAreaByBlock; no width means it is over. */
  method SearchStrip(r: Rect, h: int, colour: Pixel, pb: PixelBuffer, w_prev: int, w_best: int, h_best: int)
    returns (w: int, w_best': int, h_best': int, dh: int)
    requires pb.Valid() && EnclosedBy(r, pb.GetRect()) && NonEmptyBox(r) && 0 <= h < r.y2 - r.y1
    requires Search(pb.View(), r, h, colour, w_prev, w_best, h_best)
    ensures dh == Min(SOLID_SEARCH_BLOCK, r.y2 - r.y1 - h)
    ensures w != 0 ==> Search(pb.View(), r, h + dh, colour, w, w_best', h_best')
    ensures w == 0 ==> w_best' == w_best && h_best' == h_best && NoneWider(pb.View(), r, h + dh, colour, 0)
  {
    hide Solid, NoneWider, NoneLarger, AreaOf, InBlocks, AtBlock;
    w_best', h_best', dh := w_best, h_best, SOLID_SEARCH_BLOCK;
    if h + dh > r.y2 - r.y1 { dh := r.y2 - r.y1 - h; }
    w := ExtendStrip(r, r.y1 + h, dh, colour, pb, w_prev);
    StripDone(pb.View(), r, h, dh, colour, w_prev, w);
    if w == 0 { return; }
    if AreaOf(w, h + dh) > AreaOf(w_best, h_best) {
      w_best', h_best' := w, h + dh;
    }
    SearchStep(pb.View(), r, h, dh, colour, w_prev, w_best, h_best, w, w_best', h_best');
  }

  /** extendSolidAreaByBlock: grow right and down from the corner of r in blocks
      and keep the largest area seen: no solid area of whole blocks is larger. */
  method ExtendSolidAreaByBlock(r: Rect, colour: Pixel, pb: PixelBuffer) returns (er: Rect)
    requires pb.Valid() && EnclosedBy(r, pb.GetRect()) && NonEmptyBox(r)
    ensures er.x1 == r.x1 && er.y1 == r.y1 && er.x1 <= er.x2 <= r.x2 && er.y1 <= er.y2 <= r.y2
    ensures Solid(pb.View(), er, colour)
    ensures NoneLarger(pb.View(), r, r.y2 - r.y1, colour, AreaOf(er.x2 - er.x1, er.y2 - er.y1))
    ensures FirstBlockSolid(pb.View(), r, colour) ==> NonEmptyBox(er)
  {
    var w_prev, w_best, h_best, h := r.x2 - r.x1, 0, 0, 0;
    BeforeSearch(pb.View(), r, colour);
    while h < r.y2 - r.y1
      invariant 0 <= h <= r.y2 - r.y1
      invariant Search(pb.View(), r, h, colour, w_prev, w_best, h_best)
      decreases r.y2 - r.y1 - h
    {
      hide Search, Solid, NoneWider, NoneLarger, AreaOf;
      var w, dh;
      w, w_best, h_best, dh := SearchStrip(r, h, colour, pb, w_prev, w_best, h_best);
      if w == 0 {
        SearchOver(pb.View(), r, h, dh, colour, w_prev, w_best, h_best);
        break;
      }
      w_prev := w;
      h := h + dh;
    }
    hide Solid, NoneWider, NoneLarger, AreaOf;
    er := XYWH(r.x1, r.y1, w_best, h_best);
  }

  lemma BeforeSearch(img: Picture, r: Rect, colour: Pixel)
    requires NonEmptyBox(r)
    ensures Search(img, r, 0, colour, r.x2 - r.x1, 0, 0)
  {
  }

  lemma SolidNarrower(img: Picture, r: Rect, w: int, w': int, h: int, colour: Pixel)
    requires Solid(img, XYWH(r.x1, r.y1, w, h), colour) && w' <= w
    ensures Solid(img, XYWH(r.x1, r.y1, w', h), colour)
  {
  }

  lemma SolidBelow(img: Picture, r: Rect, dh: int, colour: Pixel)
    requires Solid(img, r, colour) && Solid(img, XYWH(r.x1, r.y2, r.x2 - r.x1, dh), colour)
    ensures Solid(img, XYWH(r.x1, r.y1, r.x2 - r.x1, r.y2 - r.y1 + dh), colour)
  {
  }

  /** No solid block at the left edge: nothing reaches further down. */
  lemma SearchOver(img: Picture, r: Rect, h: int, dh: int, colour: Pixel, w_prev: int, w_best: int, h_best: int)
    requires NonEmptyBox(r) && 0 <= h < r.y2 - r.y1 && dh == Min(SOLID_SEARCH_BLOCK, r.y2 - r.y1 - h)
    requires Search(img, r, h, colour, w_prev, w_best, h_best) && NoneWider(img, r, h + dh, colour, 0)
    ensures NoneLarger(img, r, r.y2 - r.y1, colour, AreaOf(w_best, h_best))
    ensures h == 0 ==> !FirstBlockSolid(img, r, colour)
  {
    hide AreaOf;
    forall w', h' | InBlocks(w', r.x2 - r.x1) && InBlocks(h', r.y2 - r.y1)
      && Solid(img, XYWH(r.x1, r.y1, w', h'), colour)
      ensures h' <= h
    {
      if h' > h { SolidPart(img, XYWH(r.x1, r.y1, w', h'), XYWH(r.x1, r.y1, w', h + dh), colour); }
    }
    assert InBlocks(Min(SOLID_SEARCH_BLOCK, r.x2 - r.x1), r.x2 - r.x1);
  }

  ghost predicate FirstBlockSolid(img: Picture, r: Rect, colour: Pixel) {
    Solid(img, XYWH(r.x1, r.y1, Min(SOLID_SEARCH_BLOCK, r.x2 - r.x1), Min(SOLID_SEARCH_BLOCK, r.y2 - r.y1)), colour)
  }

  function AreaOf(w: int, h: int): int { w * h }

  lemma PositiveProduct(a: int, b: int)
    requires a > 0 && b > 0
    ensures AreaOf(a, b) > 0 && forall n :: AreaOf(0, n) == 0
  {
  }

  /** No neighbouring row or column within r has the colour throughout. */
  ghost predicate Maximal(img: Picture, r: Rect, er: Rect, colour: Pixel) {
    && (er.y1 > r.y1 ==> !Solid(img, Box(er.x1, er.y1 - 1, er.x2, er.y1), colour))
    && (er.y2 < r.y2 ==> !Solid(img, Box(er.x1, er.y2, er.x2, er.y2 + 1), colour))
    && (er.x1 > r.x1 ==> !Solid(img, Box(er.x1 - 1, er.y1, er.x1, er.y2), colour))
    && (er.x2 < r.x2 ==> !Solid(img, Box(er.x2, er.y1, er.x2 + 1, er.y2), colour))
  }

  method ExtendUp(r: Rect, sr: Rect, colour: Pixel, pb: PixelBuffer) returns (y1: int)
    requires pb.Valid() && EnclosedBy(r, pb.GetRect()) && EnclosedBy(sr, r) && NonEmptyBox(sr)
    requires Solid(pb.View(), sr, colour)
    ensures r.y1 <= y1 <= sr.y1 && Solid(pb.View(), sr.(y1 := y1), colour)
    ensures y1 > r.y1 ==> !Solid(pb.View(), Box(sr.x1, y1 - 1, sr.x2, y1), colour)
  {
    var cy := sr.y1 - 1;
    while cy >= r.y1
      invariant r.y1 - 1 <= cy < sr.y1
      invariant Solid(pb.View(), sr.(y1 := cy + 1), colour)
      decreases cy
    {
      var solid := CheckSolidTile(XYWH(sr.x1, cy, sr.x2 - sr.x1, 1), colour, pb);
      if !solid { break; }
      cy := cy - 1;
    }
    y1 := cy + 1;
  }

  method ExtendDown(r: Rect, sr: Rect, colour: Pixel, pb: PixelBuffer) returns (y2: int)
    requires pb.Valid() && EnclosedBy(r, pb.GetRect()) && EnclosedBy(sr, r) && NonEmptyBox(sr)
    requires Solid(pb.View(), sr, colour)
    ensures sr.y2 <= y2 <= r.y2 && Solid(pb.View(), sr.(y2 := y2), colour)
    ensures y2 < r.y2 ==> !Solid(pb.View(), Box(sr.x1, y2, sr.x2, y2 + 1), colour)
  {
    y2 := sr.y2;
    while y2 < r.y2
      invariant sr.y2 <= y2 <= r.y2
      invariant Solid(pb.View(), sr.(y2 := y2), colour)
    {
      var solid := CheckSolidTile(XYWH(sr.x1, y2, sr.x2 - sr.x1, 1), colour, pb);
      if !solid { break; }
      y2 := y2 + 1;
    }
  }

  method ExtendLeft(r: Rect, sr: Rect, colour: Pixel, pb: PixelBuffer) returns (x1: int)
    requires pb.Valid() && EnclosedBy(r, pb.GetRect()) && EnclosedBy(sr, r) && NonEmptyBox(sr)
    requires Solid(pb.View(), sr, colour)
    ensures r.x1 <= x1 <= sr.x1 && Solid(pb.View(), sr.(x1 := x1), colour)
    ensures x1 > r.x1 ==> !Solid(pb.View(), Box(x1 - 1, sr.y1, x1, sr.y2), colour)
  {
    var cx := sr.x1 - 1;
    while cx >= r.x1
      invariant r.x1 - 1 <= cx < sr.x1
      invariant Solid(pb.View(), sr.(x1 := cx + 1), colour)
      decreases cx
    {
      var solid := CheckSolidTile(XYWH(cx, sr.y1, 1, sr.y2 - sr.y1), colour, pb);
      if !solid { break; }
      cx := cx - 1;
    }
    x1 := cx + 1;
  }

  method ExtendRight(r: Rect, sr: Rect, colour: Pixel, pb: PixelBuffer) returns (x2: int)
    requires pb.Valid() && EnclosedBy(r, pb.GetRect()) && EnclosedBy(sr, r) && NonEmptyBox(sr)
    requires Solid(pb.View(), sr, colour)
    ensures sr.x2 <= x2 <= r.x2 && Solid(pb.View(), sr.(x2 := x2), colour)
    ensures x2 < r.x2 ==> !Solid(pb.View(), Box(x2, sr.y1, x2 + 1, sr.y2), colour)
  {
    x2 := sr.x2;
    while x2 < r.x2
      invariant sr.x2 <= x2 <= r.x2
      invariant Solid(pb.View(), sr.(x2 := x2), colour)
    {
      var solid := CheckSolidTile(XYWH(x2, sr.y1, 1, sr.y2 - sr.y1), colour, pb);
      if !solid { break; }
      x2 := x2 + 1;
    }
  }

  /** extendSolidAreaByPixel: up, down, left, right, one row or column at a time. */
  method ExtendSolidAreaByPixel(r: Rect, sr: Rect, colour: Pixel, pb: PixelBuffer) returns (er: Rect)
    requires pb.Valid() && EnclosedBy(r, pb.GetRect()) && EnclosedBy(sr, r) && NonEmptyBox(sr)
    requires Solid(pb.View(), sr, colour)
    ensures EnclosedBy(sr, er) && EnclosedBy(er, r)
    ensures Solid(pb.View(), er, colour)
    ensures Maximal(pb.View(), r, er, colour)
  {
    er := sr;
    var y1 := ExtendUp(r, er, colour, pb);
    er := er.(y1 := y1);
    var y2 := ExtendDown(r, er, colour, pb);
    er := er.(y2 := y2);
    var x1 := ExtendLeft(r, er, colour, pb);
    er := er.(x1 := x1);
    var x2 := ExtendRight(r, er, colour, pb);
    er := er.(x2 := x2);
    hide Solid;
    Wider(pb.View(), sr.x1, sr.x2, er.x1, er.x2, y1 - 1, colour);
    Wider(pb.View(), sr.x1, sr.x2, er.x1, er.x2, y2, colour);
  }

  /** A row that is not solid stays so when it is widened. */
  lemma Wider(img: Picture, x1: int, x2: int, x1': int, x2': int, y: int, colour: Pixel)
    requires x1' <= x1 && x2 <= x2'
    ensures !Solid(img, Box(x1, y, x2, y + 1), colour) ==> !Solid(img, Box(x1', y, x2', y + 1), colour)
  {
    if Solid(img, Box(x1', y, x2', y + 1), colour) {
      forall x, v | InBox(Box(x1, y, x2, y + 1), x, v) ensures img(x, v) == colour {
        assert InBox(Box(x1', y, x2', y + 1), x, v);
      }
    }
  }
}
