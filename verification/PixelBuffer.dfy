/** Framebuffers: a block of bytes with a stride, and the row loops over it. */
module PixelBuffers {
  import opened Arithmetic
  import opened Banding
  import opened Bytes

  datatype Point = Point(x: int, y: int)

  /** rfb::Rect has the corners of a box. */
  type Rect = Box

  /** A pixel is the bytes that hold it, in memory order. */
  type Pixel = seq<Byte>

  /** What a framebuffer shows, as a function of the coordinates. */
  type Picture = (int, int) -> Pixel

  /** Rows of bytes, by column and row. */
  type ByteMap = (int, int) -> Byte

  function Intersect(a: Rect, b: Rect): (r: Rect)
    ensures r.x1 <= r.x2 && r.y1 <= r.y2
    ensures forall x, y :: InBox(r, x, y) <==> InBox(a, x, y) && InBox(b, x, y)
  {
    var x1, y1 := Max(a.x1, b.x1), Max(a.y1, b.y1);
    Box(x1, y1, Max(Min(a.x2, b.x2), x1), Max(Min(a.y2, b.y2), y1))
  }

  predicate IsEmpty(r: Rect) {
    r.x1 >= r.x2 || r.y1 >= r.y2
  }

  predicate EnclosedBy(r: Rect, s: Rect) {
    r.x1 >= s.x1 && r.y1 >= s.y1 && r.x2 <= s.x2 && r.y2 <= s.y2
  }

  function Translate(r: Rect, d: Point): Rect {
    Box(r.x1 + d.x, r.y1 + d.y, r.x2 + d.x, r.y2 + d.y)
  }

  function Clip(r: Rect, bounds: Rect): (c: Rect)
    ensures forall x, y :: InBox(c, x, y) <==> InBox(r, x, y) && InBox(bounds, x, y)
  {
    if EnclosedBy(r, bounds) then r else Intersect(r, bounds)
  }

  /** The destination left after clipping destination and source to the buffer. */
  lemma ClipExact(rect: Rect, bounds: Rect, delta: Point, drect: Rect)
    requires var back := Translate(Clip(rect, bounds), Point(-delta.x, -delta.y));
      drect == if EnclosedBy(back, bounds) then Clip(rect, bounds) else Translate(Intersect(back, bounds), delta)
    ensures forall x, y :: InBox(drect, x, y) <==>
      InBox(rect, x, y) && InBox(bounds, x, y) && InBox(bounds, x - delta.x, y - delta.y)
  {
    var c := Clip(rect, bounds);
    var back := Translate(c, Point(-delta.x, -delta.y));
    forall x, y ensures InBox(drect, x, y) <==> InBox(c, x, y) && InBox(bounds, x - delta.x, y - delta.y) {
      assert InBox(back, x - delta.x, y - delta.y) <==> InBox(c, x, y);
      assert InBox(Intersect(back, bounds), x - delta.x, y - delta.y)
        <==> InBox(back, x - delta.x, y - delta.y) && InBox(bounds, x - delta.x, y - delta.y);
    }
  }

  // ------------------------------------------------------------- addressing

  /** Index of the first pixel of row y. */
  function RowStart(y: int, stride: int): int {
    y * stride
  }

  lemma RowStartMonotone(y: int, y': int, stride: int)
    requires y < y' && 0 <= stride
    ensures RowStart(y, stride) + stride <= RowStart(y', stride)
  {
    ProductStep(y, y', stride);
  }

  lemma NextRow(y: int, stride: int)
    ensures RowStart(y + 1, stride) == RowStart(y, stride) + stride
  {
  }

  /** Two pixels of a buffer share an address only if they are the same pixel. */
  lemma AddressUnique(x: int, y: int, x': int, y': int, stride: int)
    requires 0 <= x < stride && 0 <= x' < stride
    requires x + RowStart(y, stride) == x' + RowStart(y', stride)
    ensures x == x' && y == y'
  {
    if y < y' { RowStartMonotone(y, y', stride); }
    if y' < y { RowStartMonotone(y', y, stride); }
  }

  // --------------------------------------------------------- bytes and pixels

  /** The number of bytes n pixels take. */
  function ByteCount(n: int, size: int): int {
    n * size
  }

  ghost function PixelAt(img: ByteMap, size: nat, x: int, y: int): (p: Pixel)
    ensures |p| == size
    ensures forall k :: 0 <= k < size ==> p[k] == img(ByteCount(x, size) + k, y)
  {
    seq(size, k requires 0 <= k < size => img(ByteCount(x, size) + k, y))
  }

  /** Rows of bytes seen as rows of pixels of `size` bytes each. */
  ghost function Grouped(img: ByteMap, size: nat): Picture {
    (x, y) => PixelAt(img, size, x, y)
  }

  /** The columns of pixel x lie in those of the pixels x1 up to x2 exactly if x does. */
  lemma InColumns(x: int, x1: int, x2: int, size: nat, k: int)
    requires 0 <= k < size
    ensures ByteCount(x1, size) <= ByteCount(x, size) + k < ByteCount(x2, size) <==> x1 <= x < x2
  {
    if x < x1 { ProductStep(x, x1, size); }
    if x1 < x { ProductStep(x1, x, size); }
    if x < x2 { ProductStep(x, x2, size); }
    if x2 < x { ProductStep(x2, x, size); }
  }

  lemma ColumnOf(c: int, size: nat) returns (x: int, k: nat)
    requires size > 0
    ensures k < size && c == ByteCount(x, size) + k
  {
    x, k := c / size, c % size;
  }

  lemma ByteCountNext(x: int, size: nat)
    ensures ByteCount(x + 1, size) == ByteCount(x, size) + size
  {
  }

  lemma ByteCountSum(a: int, b: int, size: int)
    ensures ByteCount(a + b, size) == ByteCount(a, size) + ByteCount(b, size)
    ensures ByteCount(a - b, size) == ByteCount(a, size) - ByteCount(b, size)
  {
  }

  lemma ByteCountOrder(a: int, b: int, size: nat)
    requires a <= b
    ensures ByteCount(a, size) <= ByteCount(b, size)
    ensures a >= 0 ==> ByteCount(a, size) >= 0
  {
    if a < b { ProductStep(a, b, size); }
  }

  class PixelBuffer {
    var width: nat
    var height: nat
    var stride: nat
    var data: array<Byte>
    const size: nat          // bytes per pixel

    ghost predicate Valid()
      reads this
    {
      size > 0 && width <= stride && RowStart(height, Pitch()) <= data.Length
    }

    function GetRect(): Rect
      reads this
    {
      Box(0, 0, width, height)
    }

    /** Bytes from one row to the next. */
    function Pitch(): (n: nat)
      reads this
    {
      ByteCountOrder(0, stride, size);
      ByteCount(stride, size)
    }

    ghost function Memory(): ByteMap
      requires Valid()
      reads this, data
    {
      BytesOf(data[..], height, Pitch())
    }

    /** The buffer as a picture; the padding between rows counts as pixels too. */
    ghost function View(): Picture
      requires Valid()
      reads this, data
    {
      Grouped(Memory(), size)
    }

    constructor (w: nat, h: nat, pixelSize: nat)
      requires pixelSize > 0
      ensures Valid() && width == w && height == h && stride == w && size == pixelSize && fresh(data)
    {
      width, height, stride, size := w, h, w, pixelSize;
      ByteCountOrder(0, w, pixelSize);
      RowStartNonNegative(h, ByteCount(w, pixelSize));
      data := new Byte[RowStart(h, ByteCount(w, pixelSize))](_ => 0);
    }

    /** setSize of a managed buffer: the block of bytes only ever grows. */
    method SetSize(w: nat, h: nat)
      requires size > 0
      modifies this
      ensures Valid() && width == w && height == h && stride == w
      ensures data == old(data) || fresh(data)
    {
      width, height, stride := w, h, w;
      if data.Length < RowStart(h, Pitch()) {
        data := new Byte[RowStart(h, Pitch())](_ => 0);
      }
    }

    // --------------------------------------------------------------- copying

    /** memmove of n bytes; memcpy when the ranges are disjoint. */
    method MoveRow(dst: nat, src: nat, n: nat)
      requires dst + n <= data.Length && src + n <= data.Length
      modifies data
      ensures RowMoved(old(data[..]), data[..], dst, src, n)
    {
      forall k | 0 <= k < n {
        data[dst + k] := data[src + k];
      }
    }

    method CopyRow(dst: nat, src: nat, n: nat)
      requires dst + n <= data.Length && src + n <= data.Length
      requires dst + n <= src || src + n <= dst
      modifies data
      ensures RowMoved(old(data[..]), data[..], dst, src, n)
    {
      var k := 0;
      while k < n
        invariant 0 <= k <= n
        invariant RowMoved(old(data[..]), data[..], dst, src, k)
      {
        data[dst + k] := data[src + k];
        k := k + 1;
      }
    }

    /** One turn of the row loops of copyRect: row ty, columns [x1, x2), from row sy. */
    method CopyRectRow(x1: int, x2: int, ty: int, sx: int, sy: int)
      requires Valid() && 0 <= x1 <= x2 <= stride && 0 <= ty < height
      requires 0 <= sx && sx + x2 - x1 <= stride && 0 <= sy < height
      modifies data
      ensures forall x, y :: View()(x, y) == RowMovedAt(old(View()), x1, x2, ty, sx, sy, x, y)
    {
      ghost var was := Memory();
      ByteRange(x1, x2, stride, size);
      ByteRange(sx, sx + x2 - x1, stride, size);
      ByteCountSum(sx, x2 - x1, size);
      ByteCountSum(x2, x1, size);
      CopyByteRow(ByteCount(x1, size), ByteCount(x2, size), ty, ByteCount(sx, size), sy);
      forall x, y ensures View()(x, y) == RowMovedAt(old(View()), x1, x2, ty, sx, sy, x, y) {
        RowMovedPixels(was, Memory(), size, x1, x2, ty, sx, sy, x, y);
      }
    }

    /** The same, counted in bytes. */
    method CopyByteRow(x1: int, x2: int, ty: int, sx: int, sy: int)
      requires Valid() && 0 <= x1 <= x2 <= Pitch() && 0 <= ty < height
      requires 0 <= sx && sx + x2 - x1 <= Pitch() && 0 <= sy < height
      modifies data
      ensures forall x, y :: Memory()(x, y) == RowMovedAt(old(Memory()), x1, x2, ty, sx, sy, x, y)
    {
      hide Pitch;
      var dst := x1 + RowStart(ty, Pitch());
      var src := sx + RowStart(sy, Pitch());
      RowBounds(x1, x2, ty, height, Pitch());
      RowBounds(sx, sx + x2 - x1, sy, height, Pitch());
      if ty == sy {
        MoveRow(dst, src, x2 - x1);
      } else {
        RowsApart(x1, x2, ty, sx, sx + x2 - x1, sy, Pitch());
        CopyRow(dst, src, x2 - x1);
      }
      RowMovedView(old(data[..]), data[..], height, Pitch(), x1, x2, ty, sx, sy);
    }

    /** copyRect: every point of `rect` that lies in the buffer and whose source
        lies in the buffer receives the old value of its source, however the
        two areas overlap. */
    method CopyRect(rect: Rect, delta: Point)
      requires Valid()
      modifies data
      ensures forall x, y :: View()(x, y) == Copied(old(View()), GetRect(), rect, delta, x, y)
    {
      var drect := Clip(rect, GetRect());
      if IsEmpty(drect) { return; }
      var srect := Translate(drect, Point(-delta.x, -delta.y));
      if !EnclosedBy(srect, GetRect()) {
        srect := Intersect(srect, GetRect());
        drect := Translate(srect, delta);
      }
      ClipExact(rect, GetRect(), delta, drect);
      if IsEmpty(srect) { return; }
      CopyRows(drect, srect, delta);
    }

    /** The three row loops of copyRect: rows top to bottom, or bottom to top
        when the data is shifted downwards. */
    method CopyRows(drect: Rect, srect: Rect, delta: Point)
      requires Valid() && drect == Translate(srect, delta) && !IsEmpty(srect)
      requires EnclosedBy(drect, GetRect()) && EnclosedBy(srect, GetRect())
      modifies data
      ensures forall x, y :: View()(x, y) == Moved(old(View()), drect, delta, x, y)
    {
      hide View;
      var h := drect.y2 - drect.y1;
      var done := 0;
      ghost var was := View();
      while done < h
        invariant 0 <= done <= h
        invariant forall x, y :: View()(x, y) == Moved(was, PartDone(drect, delta.y, done), delta, x, y)
      {
        var i := if delta.y > 0 then h - 1 - done else done;
        ghost var before := View();
        CopyRectRow(drect.x1, drect.x2, drect.y1 + i, srect.x1, srect.y1 + i);
        forall x, y ensures View()(x, y) == Moved(was, PartDone(drect, delta.y, done + 1), delta, x, y) {
          RowsStep(was, before, drect, srect, delta, done, i, x, y);
        }
        done := done + 1;
      }
    }
  }

  /** One more row of the rectangle moved, from the safe end. */
  lemma RowsStep(was: Picture, before: Picture, drect: Rect, srect: Rect, delta: Point, done: nat, i: int, x: int,
                 y: int)
    requires drect == Translate(srect, delta) && done < drect.y2 - drect.y1
    requires i == if delta.y > 0 then drect.y2 - drect.y1 - 1 - done else done
    requires forall u, v :: before(u, v) == Moved(was, PartDone(drect, delta.y, done), delta, u, v)
    ensures RowMovedAt(before, drect.x1, drect.x2, drect.y1 + i, srect.x1, srect.y1 + i, x, y)
         == Moved(was, PartDone(drect, delta.y, done + 1), delta, x, y)
  {
    assert before(x - drect.x1 + srect.x1, srect.y1 + i)
        == Moved(was, PartDone(drect, delta.y, done), delta, x - drect.x1 + srect.x1, srect.y1 + i);
  }

  /** The picture with the area `r` taken from where it was before moving by delta. */
  ghost function Moved(img: Picture, r: Rect, delta: Point, x: int, y: int): Pixel {
    if InBox(r, x, y) then img(x - delta.x, y - delta.y) else img(x, y)
  }

  /** The effect of copyRect: a point of `r` takes the old value of its source
      if both lie in the buffer. */
  ghost function Copied(img: Picture, bounds: Rect, r: Rect, delta: Point, x: int, y: int): Pixel {
    if InBox(r, x, y) && InBox(bounds, x, y) && InBox(bounds, x - delta.x, y - delta.y)
    then img(x - delta.x, y - delta.y) else img(x, y)
  }

  /** The rows of `d` that a copy by (_, dy) has finished after `done` turns. */
  function PartDone(d: Rect, dy: int, done: int): Rect {
    if dy > 0 then Box(d.x1, d.y2 - done, d.x2, d.y2) else Box(d.x1, d.y1, d.x2, d.y1 + done)
  }

  ghost predicate RowMoved(px: seq<Byte>, px': seq<Byte>, dst: nat, src: nat, n: nat)
    requires src + n <= |px|
  {
    && |px'| == |px|
    && (forall k :: 0 <= k < |px| && !(dst <= k < dst + n) ==> px'[k] == px[k])
    && (forall k :: dst <= k < dst + n && k < |px| ==> px'[k] == px[k - dst + src])
  }

  lemma RowBounds(x1: int, x2: int, y: int, height: nat, stride: nat)
    requires 0 <= x1 <= x2 <= stride && 0 <= y < height
    ensures 0 <= x1 + RowStart(y, stride)
    ensures x2 + RowStart(y, stride) <= RowStart(height, stride)
  {
    RowStartMonotone(y, height, stride);
    RowStartNonNegative(y, stride);
  }

  lemma RowsApart(x1: int, x2: int, y: int, x1': int, x2': int, y': int, stride: nat)
    requires 0 <= x1 <= x2 <= stride && 0 <= x1' <= x2' <= stride && y != y'
    ensures x2 + RowStart(y, stride) <= x1' + RowStart(y', stride)
              || x2' + RowStart(y', stride) <= x1 + RowStart(y, stride)
  {
    if y < y' { RowStartMonotone(y, y', stride); } else { RowStartMonotone(y', y, stride); }
  }

  lemma ByteRange(x1: int, x2: int, stride: int, size: nat)
    requires 0 <= x1 <= x2 <= stride
    ensures 0 <= ByteCount(x1, size) <= ByteCount(x2, size) <= ByteCount(stride, size)
  {
    ByteCountOrder(x1, x2, size);
    ByteCountOrder(x2, stride, size);
  }

  /** A row copy of bytes is one of pixels. */
  lemma RowMovedPixels(img: ByteMap, img': ByteMap, size: nat, x1: int, x2: int, ty: int, sx: int, sy: int, x: int,
                       y: int)
    requires forall c, v :: img'(c, v) ==
               RowMovedAt(img, ByteCount(x1, size), ByteCount(x2, size), ty, ByteCount(sx, size), sy, c, v)
    ensures PixelAt(img', size, x, y) == RowMovedAt(Grouped(img, size), x1, x2, ty, sx, sy, x, y)
  {
    hide ByteCount;
    var from := if y == ty && x1 <= x < x2 then PixelAt(img, size, x - x1 + sx, sy) else PixelAt(img, size, x, y);
    forall k | 0 <= k < size ensures PixelAt(img', size, x, y)[k] == from[k] {
      InColumns(x, x1, x2, size, k);
      ByteCountSum(x, x1, size);
      ByteCountSum(x - x1, sx, size);
    }
    assert PixelAt(img', size, x, y) == from;
  }

  /** A row copy seen in columns and rows. */
  lemma RowMovedView(px: seq<Byte>, px': seq<Byte>, height: nat, stride: nat,
                     x1: int, x2: int, y1: int, sx: int, sy: int)
    requires RowStart(height, stride) <= |px|
    requires 0 <= x1 <= x2 <= stride && 0 <= y1 < height && 0 <= sx && sx + x2 - x1 <= stride && 0 <= sy < height
    requires 0 <= x1 + RowStart(y1, stride) && 0 <= sx + RowStart(sy, stride)
    requires sx + x2 - x1 + RowStart(sy, stride) <= |px|
    requires RowMoved(px, px', x1 + RowStart(y1, stride), sx + RowStart(sy, stride), x2 - x1)
    ensures forall x, y :: BytesOf(px', height, stride)(x, y) ==
              RowMovedAt(BytesOf(px, height, stride), x1, x2, y1, sx, sy, x, y)
  {
    forall x, y | 0 <= x < stride && 0 <= y < height
      ensures BytesOf(px', height, stride)(x, y) == RowMovedAt(BytesOf(px, height, stride), x1, x2, y1, sx, sy, x, y)
    {
      RowBounds(x, x + 1, y, height, stride);
      var k := x + RowStart(y, stride);
      var dst := x1 + RowStart(y1, stride);
      if dst <= k < dst + (x2 - x1) {
        AddressUnique(x, y, k - RowStart(y1, stride), y1, stride);
        assert px'[k] == px[x - x1 + sx + RowStart(sy, stride)];
      } else {
        assert px'[k] == px[k];
      }
    }
  }

  ghost function RowMovedAt<T>(img: (int, int) -> T, x1: int, x2: int, y1: int, sx: int, sy: int, x: int, y: int): T {
    if y == y1 && x1 <= x < x2 then img(x - x1 + sx, sy) else img(x, y)
  }

  /** Byte k of pixel (x, y) in memory: pixels lie side by side, rows a stride apart. */
  lemma ViewAt(pb: PixelBuffer, x: int, y: int, k: int)
    requires pb.Valid() && InBox(pb.GetRect(), x, y) && 0 <= k < pb.size
    ensures var at := (y * pb.stride + x) * pb.size + k;
      0 <= at < pb.data.Length && pb.View()(x, y)[k] == pb.data[at]
  {
    var c := ByteCount(x, pb.size) + k;
    InColumns(x, 0, pb.stride, pb.size, k);
    assert ByteCount(0, pb.size) == 0;
    RowBounds(c, c + 1, y, pb.height, pb.Pitch());
    BytePlace(x, y, pb.stride, pb.size);
    hide RowStart, ByteCount;
  }

  lemma BytePlace(x: int, y: int, stride: int, size: int)
    ensures (y * stride + x) * size == ByteCount(x, size) + RowStart(y, ByteCount(stride, size))
  {
  }

  /** A block of memory as rows of bytes. */
  ghost function BytesOf(px: seq<Byte>, height: nat, stride: nat): (img: ByteMap)
    requires RowStart(height, stride) <= |px|
  {
    (x, y) => if 0 <= x < stride && 0 <= y < height then Fetch(px, height, stride, x, y) else 0
  }

  function Fetch(px: seq<Byte>, height: nat, stride: nat, x: int, y: int): Byte
    requires RowStart(height, stride) <= |px|
    requires 0 <= x < stride && 0 <= y < height
  {
    RowStartMonotone(y, height, stride);
    RowStartNonNegative(y, stride);
    px[x + RowStart(y, stride)]
  }

  lemma RowStartNonNegative(y: nat, stride: nat)
    ensures 0 <= RowStart(y, stride)
  {
  }
}
