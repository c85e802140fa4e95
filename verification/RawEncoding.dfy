/** The Raw encoding: the bytes of a rectangle's pixels, row by row. */
module RawEncoding {
  import opened Arithmetic
  import opened Banding
  import opened Bytes
  import opened PixelBuffers
  import opened UpdateMessages

  // ------------------------------------------------------------------ rows

  /** A packed image with one more row. */
  lemma AppendRowView(image: seq<Byte>, line: seq<Byte>, rows: nat, c: int, y: int)
    requires |image| == RowStart(rows, |line|)
    ensures |image + line| == RowStart(rows + 1, |line|)
    ensures BytesOf(image + line, rows + 1, |line|)(c, y)
      == if 0 <= c < |line| && y == rows then line[c] else BytesOf(image, rows, |line|)(c, y)
  {
    var w := |line|;
    NextRow(rows, w);
    if 0 <= c < w && 0 <= y < rows {
      RowBounds(c, c + 1, y, rows, w);
      assert (image + line)[c + RowStart(y, w)] == image[c + RowStart(y, w)];
    } else if 0 <= c < w && y == rows {
      assert (image + line)[c + RowStart(y, w)] == line[c];
    }
  }

  /** Bytes of one row of a buffer, by column. */
  lemma RowBytes(px: seq<Byte>, height: nat, pitch: nat, c1: int, c2: int, y: int)
    requires RowStart(height, pitch) <= |px| && 0 <= c1 <= c2 <= pitch && 0 <= y < height
    ensures 0 <= c1 + RowStart(y, pitch) && c2 + RowStart(y, pitch) <= |px|
    ensures forall c :: c1 <= c < c2 ==>
              px[c1 + RowStart(y, pitch)..c2 + RowStart(y, pitch)][c - c1] == BytesOf(px, height, pitch)(c, y)
  {
    RowBounds(c1, c2, y, height, pitch);
    forall c | c1 <= c < c2
      ensures px[c1 + RowStart(y, pitch)..c2 + RowStart(y, pitch)][c - c1] == BytesOf(px, height, pitch)(c, y)
    {
      RowBounds(c, c + 1, y, height, pitch);
    }
  }

  /** memcpy of one row of bytes into the buffer. */
  method PutRow(pb: PixelBuffer, c1: int, y: int, line: seq<Byte>)
    requires pb.Valid() && 0 <= c1 && c1 + |line| <= pb.Pitch() && 0 <= y < pb.height
    modifies pb.data
    ensures forall u, v :: pb.Memory()(u, v) == RowPut(old(pb.Memory()), c1, y, line, u, v)
  {
    RowBounds(c1, c1 + |line|, y, pb.height, pb.Pitch());
    var start := c1 + RowStart(y, pb.Pitch());
    ghost var px := pb.data[..];
    hide RowStart, BytesOf, ByteCount, PixelBuffer.Pitch;
    for k := 0 to |line|
      invariant forall m :: 0 <= m < pb.data.Length && !(start <= m < start + k) ==> pb.data[m] == px[m]
      invariant forall m :: start <= m < start + k ==> pb.data[m] == line[m - start]
    {
      pb.data[start + k] := line[k];
    }
    RowPutView(px, pb.data[..], pb.height, pb.Pitch(), c1, y, line);
  }

  ghost function RowPut(img: ByteMap, c1: int, y: int, line: seq<Byte>, u: int, v: int): Byte {
    if v == y && c1 <= u < c1 + |line| then line[u - c1] else img(u, v)
  }

  lemma RowPutView(px: seq<Byte>, px': seq<Byte>, height: nat, pitch: nat, c1: int, y: int, line: seq<Byte>)
    requires RowStart(height, pitch) <= |px| == |px'| && 0 <= c1 && c1 + |line| <= pitch && 0 <= y < height
    requires 0 <= c1 + RowStart(y, pitch)
    requires forall m :: 0 <= m < |px| && !(c1 + RowStart(y, pitch) <= m < c1 + RowStart(y, pitch) + |line|) ==>
               px'[m] == px[m]
    requires forall m :: c1 + RowStart(y, pitch) <= m < c1 + RowStart(y, pitch) + |line| && m < |px| ==>
               px'[m] == line[m - (c1 + RowStart(y, pitch))]
    ensures forall u, v :: BytesOf(px', height, pitch)(u, v) == RowPut(BytesOf(px, height, pitch), c1, y, line, u, v)
  {
    forall u, v | 0 <= u < pitch && 0 <= v < height
      ensures BytesOf(px', height, pitch)(u, v) == RowPut(BytesOf(px, height, pitch), c1, y, line, u, v)
    {
      RowBounds(u, u + 1, v, height, pitch);
      var m := u + RowStart(v, pitch);
      if c1 + RowStart(y, pitch) <= m < c1 + RowStart(y, pitch) + |line| {
        AddressUnique(u, v, m - RowStart(y, pitch), y, pitch);
      }
    }
  }

  // -------------------------------------------------------------- encoding

  /** The columns a rectangle of pixels takes, counted in bytes. */
  function InBytes(r: Rect, size: int): Rect {
    Box(ByteCount(r.x1, size), r.y1, ByteCount(r.x2, size), r.y2)
  }

  lemma InBytesFits(r: Rect, pb: PixelBuffer)
    requires pb.Valid() && EnclosedBy(r, pb.GetRect()) && NonEmptyBox(r)
    ensures var b := InBytes(r, pb.size);
      0 <= b.x1 && b.x2 <= pb.Pitch() && b.x2 - b.x1 == LineBytes(r, pb.size) > 0 && NonEmptyBox(b)
  {
    ByteRange(r.x1, r.x2, pb.stride, pb.size);
    ByteCountSum(r.x2, r.x1, pb.size);
    ProductStep(r.x1, r.x2, pb.size);
  }

  /** `image` holds the first rows of the rectangle of bytes, without padding. */
  ghost predicate HoldsRows(image: seq<Byte>, mem: ByteMap, b: Rect, rows: nat) {
    && NonEmptyBox(b)
    && |image| == RowStart(rows, Width(b))
    && forall c, y :: InBox(b.(y2 := b.y1 + rows), c, y) ==>
         BytesOf(image, rows, Width(b))(c - b.x1, y - b.y1) == mem(c, y)
  }

  /** RawEncoder::writeRect on the part r of a strided buffer: a line of bytes,
      then on by the stride in bytes. */
  method RawEncode(pb: PixelBuffer, r: Rect) returns (bytes: seq<Byte>)
    requires pb.Valid() && EnclosedBy(r, pb.GetRect()) && NonEmptyBox(r)
    ensures Delivers(DataMsg(r, pb.size, bytes), pb.View())
  {
    InBytesFits(r, pb);
    var lineBytes, strideBytes := LineBytes(r, pb.size), pb.Pitch();
    ghost var b := InBytes(r, pb.size);
    var buffer := ByteCount(r.x1, pb.size) + RowStart(r.y1, strideBytes);
    var h := r.y2 - r.y1;
    bytes := [];
    hide ByteCount, PixelBuffer.Pitch, RowStart, BytesOf;
    NoRows(pb.Memory(), b);
    while h > 0
      invariant 0 <= h <= r.y2 - r.y1
      invariant buffer == b.x1 + RowStart(r.y2 - h, strideBytes)
      invariant HoldsRows(bytes, pb.Memory(), b, r.y2 - r.y1 - h)
    {
      ghost var y := r.y2 - h;
      RowBytes(pb.data[..], pb.height, strideBytes, b.x1, b.x2, y);
      var line := pb.data[buffer..buffer + lineBytes];
      HoldsNextRow(bytes, line, pb.Memory(), b, y - r.y1, y);
      bytes := bytes + line;
      NextRow(y, strideBytes);
      buffer := buffer + strideBytes;
      h := h - 1;
    }
    PackedDelivers(bytes, pb.Memory(), r, pb.size);
  }

  lemma NoRows(mem: ByteMap, b: Rect)
    requires NonEmptyBox(b)
    ensures HoldsRows([], mem, b, 0)
  {
  }

  lemma HoldsNextRow(image: seq<Byte>, line: seq<Byte>, mem: ByteMap, b: Rect, rows: nat, next: int)
    requires HoldsRows(image, mem, b, rows) && |line| == Width(b) && next == b.y1 + rows
    requires forall c :: b.x1 <= c < b.x2 ==> line[c - b.x1] == mem(c, next)
    ensures HoldsRows(image + line, mem, b, rows + 1)
  {
    AppendRowView(image, line, rows, 0, 0);
    forall c, y | InBox(b.(y2 := b.y1 + rows + 1), c, y)
      ensures BytesOf(image + line, rows + 1, Width(b))(c - b.x1, y - b.y1) == mem(c, y)
    {
      AppendRowView(image, line, rows, c - b.x1, y - b.y1);
      if y < b.y1 + rows { assert InBox(b.(y2 := b.y1 + rows), c, y); }
    }
  }

  /** The packed bytes of a rectangle are its pixels. */
  lemma PackedDelivers(bytes: seq<Byte>, mem: ByteMap, r: Rect, size: nat)
    requires NonEmptyBox(r) && size > 0 && HoldsRows(bytes, mem, InBytes(r, size), Height(r))
    requires Width(InBytes(r, size)) == LineBytes(r, size)
    ensures Delivers(DataMsg(r, size, bytes), Grouped(mem, size))
  {
    var b := InBytes(r, size);
    forall x, y | InBox(r, x, y)
      ensures PixelAt(BytesOf(bytes, Height(r), Width(b)), size, x - r.x1, y - r.y1) == PixelAt(mem, size, x, y)
    {
      hide ByteCount, BytesOf, RowStart;
      var packed := PixelAt(BytesOf(bytes, Height(r), Width(b)), size, x - r.x1, y - r.y1);
      forall k | 0 <= k < size ensures packed[k] == PixelAt(mem, size, x, y)[k] {
        InColumns(x, r.x1, r.x2, size, k);
        ByteCountSum(x, r.x1, size);
        assert InBox(b.(y2 := b.y1 + Height(r)), ByteCount(x, size) + k, y);
      }
    }
  }

  /** Byte k of the pixel a data rectangle carries for (x, y): row after row, and in a
      row pixel after pixel. */
  lemma PackedAt(m: Msg, x: int, y: int, k: nat)
    requires WellFormed(m) && m.DataMsg? && InBox(m.r, x, y) && k < m.size
    ensures var at := ((y - m.r.y1) * Width(m.r) + (x - m.r.x1)) * m.size + k;
      0 <= at < |m.bytes| && Payload(m, x, y)[k] == m.bytes[at]
  {
    var line := LineBytes(m.r, m.size);
    var c := ByteCount(x - m.r.x1, m.size) + k;
    InColumns(x - m.r.x1, 0, Width(m.r), m.size, k);
    assert ByteCount(0, m.size) == 0;
    RowBounds(c, c + 1, y - m.r.y1, Height(m.r), line);
    BytePlace(x - m.r.x1, y - m.r.y1, Width(m.r), m.size);
    hide RowStart, ByteCount;
  }

  // -------------------------------------------------------------- decoding

  /** The picture with `part` in place of rectangle r. */
  ghost function Pasted<T>(img: (int, int) -> T, r: Rect, part: (int, int) -> T, x: int, y: int): T {
    if InBox(r, x, y) then part(x - r.x1, y - r.y1) else img(x, y)
  }

  /** Pasted as far down as scanline `bottom`. */
  ghost function PastedTo<T>(img: (int, int) -> T, r: Rect, part: (int, int) -> T, bottom: int, x: int, y: int): T {
    if y < bottom then Pasted(img, r, part, x, y) else img(x, y)
  }

  /** An image of `rows` lines with a stride; the last line need not be padded. */
  ghost predicate ImageFits(image: seq<Byte>, rows: nat, line: nat, pitch: nat) {
    rows > 0 ==> RowStart(rows - 1, pitch) + line <= |image|
  }

  lemma LineFits(image: seq<Byte>, rows: nat, line: nat, pitch: nat, y: nat)
    requires ImageFits(image, rows, line, pitch) && y < rows
    ensures 0 <= RowStart(y, pitch) && RowStart(y, pitch) + line <= |image|
  {
    RowStartNonNegative(y, pitch);
    if y < rows - 1 { RowStartMonotone(y, rows - 1, pitch); }
  }

  ghost function LinesOf(image: seq<Byte>, rows: nat, line: nat, pitch: nat): ByteMap
    requires ImageFits(image, rows, line, pitch)
  {
    (c, y) => if 0 <= c < line && 0 <= y < rows then ByteIn(image, rows, line, pitch, c, y) else 0
  }

  ghost function ByteIn(image: seq<Byte>, rows: nat, line: nat, pitch: nat, c: nat, y: nat): Byte
    requires ImageFits(image, rows, line, pitch) && c < line && y < rows
  {
    LineFits(image, rows, line, pitch, y);
    image[c + RowStart(y, pitch)]
  }

  /** The distance between the lines of an image handed to imageRect. */
  function SourcePitch(r: Rect, srcStride: nat, size: nat): int {
    ByteCount(if srcStride == 0 then Width(r) else srcStride, size)
  }

  lemma SourcePitchPositive(r: Rect, srcStride: nat, size: nat)
    requires NonEmptyBox(r)
    ensures SourcePitch(r, srcStride, size) >= 0 && LineBytes(r, size) >= 0
  {
    ByteCountOrder(0, Width(r), size);
    ByteCountOrder(0, srcStride, size);
  }

  /** The pixels of such an image. */
  ghost function SourcePixels(image: seq<Byte>, r: Rect, srcStride: nat, size: nat): Picture
    requires NonEmptyBox(r) && SourceFits(image, r, srcStride, size)
  {
    SourcePitchPositive(r, srcStride, size);
    Grouped(LinesOf(image, Height(r), LineBytes(r, size), SourcePitch(r, srcStride, size)), size)
  }

  ghost predicate SourceFits(image: seq<Byte>, r: Rect, srcStride: nat, size: nat)
    requires NonEmptyBox(r)
  {
    SourcePitchPositive(r, srcStride, size);
    ImageFits(image, Height(r), LineBytes(r, size), SourcePitch(r, srcStride, size))
  }

  /** imageRect: an image with a stride into the buffer, row by row. */
  method ImageRect(pb: PixelBuffer, r: Rect, image: seq<Byte>, srcStride: nat)
    requires pb.Valid() && EnclosedBy(r, pb.GetRect()) && NonEmptyBox(r)
    requires SourceFits(image, r, srcStride, pb.size)
    modifies pb.data
    ensures forall x, y :: pb.View()(x, y) ==
              Pasted(old(pb.View()), r, SourcePixels(image, r, srcStride, pb.size), x, y)
  {
    hide ByteCount, PixelBuffer.Pitch, RowStart, BytesOf, ImageFits, PixelAt;
    SourcePitchPositive(r, srcStride, pb.size);
    InBytesFits(r, pb);
    var fill := LineBytes(r, pb.size);
    var pitch := SourcePitch(r, srcStride, pb.size);
    ghost var was := pb.Memory();
    ghost var lines := LinesOf(image, Height(r), fill, pitch);
    ImageBytes(pb, InBytes(r, pb.size), image, fill, pitch);
    forall x, y ensures pb.View()(x, y) == Pasted(old(pb.View()), r, Grouped(lines, pb.size), x, y) {
      PastedPixels(was, pb.Memory(), lines, pb.size, r, x, y);
    }
  }

  /** The same, counted in bytes. */
  method ImageBytes(pb: PixelBuffer, b: Rect, image: seq<Byte>, line: nat, pitch: nat)
    requires pb.Valid() && NonEmptyBox(b) && 0 <= b.x1 && b.x2 <= pb.Pitch() && 0 <= b.y1 && b.y2 <= pb.height
    requires line == Width(b) && ImageFits(image, Height(b), line, pitch)
    modifies pb.data
    ensures forall c, y :: pb.Memory()(c, y) ==
              Pasted(old(pb.Memory()), b, LinesOf(image, Height(b), line, pitch), c, y)
  {
    hide PixelBuffer.Pitch, BytesOf, ImageFits;
    ghost var was := pb.Memory();
    ghost var lines := LinesOf(image, Height(b), line, pitch);
    var src := 0;
    assert RowStart(0, pitch) == 0;
    hide RowStart;
    for done := 0 to Height(b)
      invariant src == RowStart(done, pitch)
      invariant forall c, y :: pb.Memory()(c, y) == PastedTo(was, b, lines, b.y1 + done, c, y)
    {
      ghost var before := pb.Memory();
      LineFits(image, Height(b), line, pitch, done);
      var row := image[src..src + line];
      PutRow(pb, b.x1, b.y1 + done, row);
      forall c, y ensures pb.Memory()(c, y) == PastedTo(was, b, lines, b.y1 + done + 1, c, y) {
        PasteStep(was, before, b, image, line, pitch, done, row, c, y);
      }
      NextRow(done, pitch);
      src := src + pitch;
    }
  }

  lemma PasteStep(was: ByteMap, before: ByteMap, b: Rect, image: seq<Byte>, line: nat, pitch: nat, done: nat,
                  row: seq<Byte>, c: int, y: int)
    requires NonEmptyBox(b) && line == Width(b) && ImageFits(image, Height(b), line, pitch) && done < Height(b)
    requires 0 <= RowStart(done, pitch) && RowStart(done, pitch) + line <= |image|
    requires row == image[RowStart(done, pitch)..RowStart(done, pitch) + line]
    requires forall u, v :: before(u, v) == PastedTo(was, b, LinesOf(image, Height(b), line, pitch), b.y1 + done, u, v)
    ensures RowPut(before, b.x1, b.y1 + done, row, c, y)
         == PastedTo(was, b, LinesOf(image, Height(b), line, pitch), b.y1 + done + 1, c, y)
  {
    hide RowStart;
    if y == b.y1 + done && b.x1 <= c < b.x2 {
      assert row[c - b.x1] == image[c - b.x1 + RowStart(done, pitch)];
    }
  }

  /** Bytes pasted are pixels pasted. */
  lemma PastedPixels(was: ByteMap, now: ByteMap, lines: ByteMap, size: nat, r: Rect, x: int, y: int)
    requires forall c, v :: now(c, v) == Pasted(was, InBytes(r, size), lines, c, v)
    ensures PixelAt(now, size, x, y) == Pasted(Grouped(was, size), r, Grouped(lines, size), x, y)
  {
    hide ByteCount;
    var from := if InBox(r, x, y) then PixelAt(lines, size, x - r.x1, y - r.y1) else PixelAt(was, size, x, y);
    forall k | 0 <= k < size ensures PixelAt(now, size, x, y)[k] == from[k] {
      InColumns(x, r.x1, r.x2, size, k);
      ByteCountSum(x, r.x1, size);
    }
    assert PixelAt(now, size, x, y) == from;
  }

  // --------------------------------------------------------- the image buffer

  /** How many times w goes into n. */
  method HowMany(n: nat, w: int) returns (q: nat)
    requires w > 0
    ensures q == n / w && (n >= w ==> q > 0)
  {
    q := n / w;
  }

  /** The buffer CMsgReader keeps for decoders. */
  class MsgReader {
    var imageBuf: array<Byte>
    var imageBufSize: nat
    const imageBufIdealSize: nat

    ghost predicate Valid()
      reads this
    {
      imageBuf.Length == imageBufSize
    }

    constructor (idealSize: nat)
      ensures Valid() && fresh(imageBuf) && imageBufSize == 0 && imageBufIdealSize == idealSize
    {
      imageBuf := new Byte[0];
      imageBufSize := 0;
      imageBufIdealSize := idealSize;
    }

    /** getImageBuf: room for the pixels required, whatever size they have and
        whatever the buffer was used for before; grown for the pixels requested
        only as far as the ideal size. */
    method GetImageBuf(required: nat, requested: nat, size: nat) returns (nPixels: nat)
      requires Valid() && size > 0
      modifies this
      ensures Valid() && (imageBuf == old(imageBuf) || fresh(imageBuf))
      ensures required <= nPixels && ByteCount(nPixels, size) <= imageBufSize < ByteCount(nPixels + 1, size)
      ensures old(imageBufSize) <= imageBufSize
      ensures imageBufSize > old(imageBufSize) ==>
                imageBufSize == Max(ByteCount(required, size), Min(ByteCount(requested, size), imageBufIdealSize))
    {
      ByteCountOrder(0, required, size);
      ByteCountOrder(0, requested, size);
      var requiredBytes := ByteCount(required, size);
      var requestedBytes := ByteCount(requested, size);
      hide ByteCount;
      var want := requestedBytes;
      if want > imageBufIdealSize { want := imageBufIdealSize; }
      if want < requiredBytes { want := requiredBytes; }
      if imageBufSize < want {
        imageBufSize := want;
        imageBuf := new Byte[imageBufSize];
      }
      nPixels := HowMany(imageBufSize, size);
      Quotient(imageBufSize, size, required);
    }
  }

  lemma Quotient(n: nat, size: nat, m: nat)
    requires size > 0
    ensures ByteCount(n / size, size) <= n < ByteCount(n / size + 1, size)
    ensures ByteCount(m, size) <= n ==> m <= n / size
  {
    assert n == n / size * size + n % size;
    if m > n / size { ByteCountOrder(n / size + 1, m, size); }
  }

  /** readBytes into the image buffer. */
  method Receive(buf: array<Byte>, bytes: seq<Byte>, pos: nat, n: nat)
    requires n <= buf.Length && pos + n <= |bytes|
    modifies buf
    ensures buf[..n] == bytes[pos..pos + n]
  {
    for k := 0 to n
      invariant forall m :: 0 <= m < k ==> buf[m] == bytes[pos + m]
    {
      buf[k] := bytes[pos + k];
    }
  }

  lemma RowSum(a: nat, b: nat, w: nat)
    ensures RowStart(a + b, w) == RowStart(a, w) + RowStart(b, w)
  {
  }

  lemma ChunkBounds(rows: nat, w: nat, from: nat, n: nat)
    requires from + n <= rows
    ensures 0 <= RowStart(from, w) <= RowStart(from + n, w) <= RowStart(rows, w)
    ensures RowStart(from + n, w) - RowStart(from, w) == RowStart(n, w) >= 0
  {
    RowStartNonNegative(from, w);
    RowStartNonNegative(n, w);
    RowSum(from, n, w);
    RowSum(from + n, rows - from - n, w);
    RowStartNonNegative(rows - from - n, w);
  }

  /** A buffer of n pixels has room for n / w rows of w. */
  lemma RowsFit(nPixels: nat, w: nat, rows: nat, size: nat, room: nat)
    requires w > 0 && rows <= nPixels / w && ByteCount(nPixels, size) <= room
    ensures 0 <= RowStart(rows, ByteCount(w, size)) <= room
  {
    ByteCountOrder(0, w, size);
    RowStartNonNegative(rows, ByteCount(w, size));
    assert nPixels == nPixels / w * w + nPixels % w;
    ByteCountOrder(rows, nPixels / w, w);
    ByteCountOrder(ByteCount(rows, w), nPixels, size);
    assert RowStart(rows, ByteCount(w, size)) == ByteCount(ByteCount(rows, w), size);
  }

  /** RawDecoder::readRect: whole rows, as many at a time as the image buffer holds. */
  method RawDecode(pb: PixelBuffer, r: Rect, bytes: seq<Byte>, reader: MsgReader)
    requires pb.Valid() && EnclosedBy(r, pb.GetRect()) && NonEmptyBox(r)
    requires LineBytes(r, pb.size) >= 0 && |bytes| == RowStart(Height(r), LineBytes(r, pb.size))
    requires reader.Valid() && reader.imageBuf != pb.data
    modifies pb.data, reader, reader.imageBuf
    ensures reader.Valid() && (reader.imageBuf == old(reader.imageBuf) || fresh(reader.imageBuf))
    ensures forall x, y :: pb.View()(x, y) ==
              Pasted(old(pb.View()), r, Grouped(BytesOf(bytes, Height(r), LineBytes(r, pb.size)), pb.size), x, y)
  {
    hide BytesOf, RowStart, ByteCount, PixelBuffer.Pitch, PixelAt;
    var w, h := Width(r), Height(r);
    var bytesPerRow := LineBytes(r, pb.size);
    var nPixels := reader.GetImageBuf(w, w * h, pb.size);
    var y, pos := r.y1, 0;
    ghost var was := pb.View();
    ghost var part := Grouped(BytesOf(bytes, h, bytesPerRow), pb.size);
    FirstRow(bytesPerRow);
    ghost var buf, room := reader.imageBuf, reader.imageBufSize;
    while h > 0
      invariant 0 <= h <= Height(r) && y == r.y2 - h && pos == RowStart(Height(r) - h, bytesPerRow)
      invariant reader.imageBuf == buf && reader.imageBufSize == room
      invariant forall u, v :: pb.View()(u, v) == PastedTo(was, r, part, y, u, v)
    {
      var nRows := HowMany(nPixels, w);
      if nRows > h { nRows := h; }
      ghost var from := Height(r) - h;
      ChunkBounds(Height(r), bytesPerRow, from, nRows);
      RowsFit(nPixels, w, nRows, pb.size, reader.imageBufSize);
      ReadRows(pb, Box(r.x1, y, r.x2, y + nRows), bytes, pos, reader.imageBuf, was, r, from);
      h := h - nRows;
      y := y + nRows;
      pos := pos + RowStart(nRows, bytesPerRow);
    }
  }

  lemma FirstRow(pitch: int)
    ensures RowStart(0, pitch) == 0
  {
  }

  /** One turn of the loop of readRect: some rows into the image buffer and on
      into the framebuffer. */
  method ReadRows(pb: PixelBuffer, rows: Rect, bytes: seq<Byte>, pos: nat, buf: array<Byte>,
                  ghost was: Picture, ghost r: Rect, ghost from: nat)
    requires pb.Valid() && EnclosedBy(rows, pb.GetRect()) && NonEmptyBox(rows) && buf != pb.data && NonEmptyBox(r)
    requires LineBytes(rows, pb.size) >= 0 && 0 <= RowStart(Height(rows), LineBytes(rows, pb.size)) <= buf.Length
    requires rows == Box(r.x1, r.y1 + from, r.x2, r.y1 + from + Height(rows)) && from + Height(rows) <= Height(r)
    requires |bytes| == RowStart(Height(r), LineBytes(rows, pb.size)) && pos == RowStart(from, LineBytes(rows, pb.size))
    requires pos + RowStart(Height(rows), LineBytes(rows, pb.size)) <= |bytes|
    requires forall u, v :: pb.View()(u, v) ==
               PastedTo(was, r, Grouped(BytesOf(bytes, Height(r), LineBytes(rows, pb.size)), pb.size), rows.y1, u, v)
    modifies pb.data, buf
    ensures forall u, v :: pb.View()(u, v) ==
              PastedTo(was, r, Grouped(BytesOf(bytes, Height(r), LineBytes(rows, pb.size)), pb.size), rows.y2, u, v)
  {
    hide BytesOf, RowStart, ByteCount, PixelBuffer.Pitch, PixelAt;
    ghost var before, line := pb.View(), LineBytes(rows, pb.size);
    Receive(buf, bytes, pos, RowStart(Height(rows), LineBytes(rows, pb.size)));
    PackedFits(buf[..], rows, pb.size);
    ImageRect(pb, rows, buf[..], 0);
    forall u, v
      ensures pb.View()(u, v) == PastedTo(was, r, Grouped(BytesOf(bytes, Height(r), line), pb.size), rows.y2, u, v)
    {
      ChunkStep(was, before, r, bytes, buf[..], rows, from, pb.size, u, v);
    }
  }

  lemma PackedFits(image: seq<Byte>, r: Rect, size: nat)
    requires NonEmptyBox(r) && LineBytes(r, size) >= 0 && RowStart(Height(r), LineBytes(r, size)) <= |image|
    ensures SourceFits(image, r, 0, size)
  {
    NextRow(Height(r) - 1, LineBytes(r, size));
  }

  lemma ChunkStep(was: Picture, before: Picture, r: Rect, bytes: seq<Byte>, image: seq<Byte>, rows: Rect, from: nat,
                  size: nat, x: int, y: int)
    requires NonEmptyBox(r) && NonEmptyBox(rows) && LineBytes(r, size) >= 0
    requires rows == Box(r.x1, r.y1 + from, r.x2, r.y1 + from + Height(rows)) && from + Height(rows) <= Height(r)
    requires |bytes| == RowStart(Height(r), LineBytes(r, size)) && SourceFits(image, rows, 0, size)
    requires var n, pos := RowStart(Height(rows), LineBytes(r, size)), RowStart(from, LineBytes(r, size));
      0 <= n <= |image| && 0 <= pos && pos + n <= |bytes| && image[..n] == bytes[pos..pos + n]
    requires forall u, v :: before(u, v) ==
               PastedTo(was, r, Grouped(BytesOf(bytes, Height(r), LineBytes(r, size)), size), rows.y1, u, v)
    ensures Pasted(before, rows, SourcePixels(image, rows, 0, size), x, y)
         == PastedTo(was, r, Grouped(BytesOf(bytes, Height(r), LineBytes(r, size)), size), rows.y2, x, y)
  {
    if InBox(rows, x, y) {
      ChunkPixel(r, bytes, image, rows, from, size, x, y);
    }
  }

  lemma ChunkPixel(r: Rect, bytes: seq<Byte>, image: seq<Byte>, rows: Rect, from: nat, size: nat, x: int, y: int)
    requires NonEmptyBox(r) && NonEmptyBox(rows) && LineBytes(r, size) >= 0 && InBox(rows, x, y)
    requires rows == Box(r.x1, r.y1 + from, r.x2, r.y1 + from + Height(rows)) && from + Height(rows) <= Height(r)
    requires |bytes| == RowStart(Height(r), LineBytes(r, size)) && SourceFits(image, rows, 0, size)
    requires var n, pos := RowStart(Height(rows), LineBytes(r, size)), RowStart(from, LineBytes(r, size));
      0 <= n <= |image| && 0 <= pos && pos + n <= |bytes| && image[..n] == bytes[pos..pos + n]
    ensures SourcePixels(image, rows, 0, size)(x - rows.x1, y - rows.y1)
         == PixelAt(BytesOf(bytes, Height(r), LineBytes(r, size)), size, x - r.x1, y - r.y1)
  {
    var line := LineBytes(r, size);
    SourcePitchPositive(rows, 0, size);
    var a := PixelAt(LinesOf(image, Height(rows), line, line), size, x - rows.x1, y - rows.y1);
    var b := PixelAt(BytesOf(bytes, Height(r), line), size, x - r.x1, y - r.y1);
    forall k | 0 <= k < size ensures a[k] == b[k] {
      InColumns(x - r.x1, 0, Width(r), size, k);
      ChunkByte(r, bytes, image, Height(rows), from, line, ByteCount(x - r.x1, size) + k, y - rows.y1);
    }
    assert a == b;
  }

  lemma ChunkByte(r: Rect, bytes: seq<Byte>, image: seq<Byte>, n: nat, from: nat, line: nat, c: nat, y: nat)
    requires NonEmptyBox(r) && c < line && y < n && from + n <= Height(r) && |bytes| == RowStart(Height(r), line)
    requires ImageFits(image, n, line, line)
    requires var len, pos := RowStart(n, line), RowStart(from, line);
      0 <= len <= |image| && 0 <= pos && pos + len <= |bytes| && image[..len] == bytes[pos..pos + len]
    ensures LinesOf(image, n, line, line)(c, y) == BytesOf(bytes, Height(r), line)(c, from + y)
  {
    RowBounds(c, c + 1, y, n, line);
    RowBounds(c, c + 1, from + y, Height(r), line);
    RowSum(from, y, line);
    assert image[..RowStart(n, line)][c + RowStart(y, line)] == bytes[c + RowStart(from + y, line)];
  }
}
