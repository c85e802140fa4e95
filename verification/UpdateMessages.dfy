/** The rectangles of a framebuffer update and what they do to the viewer. */
module UpdateMessages {
  import opened Arithmetic
  import opened Banding
  import opened Bytes
  import opened RegionRects
  import opened PixelBuffers
  import opened RegionCopy

  /** One rectangle on the wire.  A data rectangle carries the bytes of its pixels
      row by row; the size of a pixel is that of the format in force. */
  datatype Msg =
    | CopyMsg(r: Rect, srcX: int, srcY: int)
    | SolidMsg(r: Rect, colour: Pixel)
    | DataMsg(r: Rect, size: nat, bytes: seq<Byte>)

  function Width(r: Rect): int { r.x2 - r.x1 }
  function Height(r: Rect): int { r.y2 - r.y1 }

  /** Bytes in a row of the rectangle. */
  function LineBytes(r: Rect, size: nat): int {
    ByteCount(Width(r), size)
  }

  predicate WellFormed(m: Msg) {
    && NonEmptyBox(m.r)
    && (m.DataMsg? ==> LineBytes(m.r, m.size) >= 0 && |m.bytes| == RowStart(Height(m.r), LineBytes(m.r, m.size)))
  }

  /** The size of the pixels a solid or data rectangle carries. */
  function PixelSize(m: Msg): nat
    requires !m.CopyMsg?
  {
    if m.SolidMsg? then |m.colour| else m.size
  }

  ghost predicate AllWellFormed(msgs: seq<Msg>) {
    forall i :: 0 <= i < |msgs| ==> WellFormed(msgs[i])
  }

  /** The pixel a solid or data rectangle carries for (x, y). */
  ghost function Payload(m: Msg, x: int, y: int): Pixel
    requires WellFormed(m) && !m.CopyMsg?
  {
    match m
    case SolidMsg(r, colour) => colour
    case DataMsg(r, size, bytes) => PixelAt(BytesOf(bytes, Height(r), LineBytes(r, size)), size, x - r.x1, y - r.y1)
  }

  /** The picture after one rectangle. */
  ghost function Shown(img: Picture, m: Msg, x: int, y: int): Pixel
    requires WellFormed(m)
  {
    if !InBox(m.r, x, y) then img(x, y)
    else if m.CopyMsg? then img(x - (m.r.x1 - m.srcX), y - (m.r.y1 - m.srcY))
    else Payload(m, x, y)
  }

  ghost function Show(img: Picture, m: Msg): Picture
    requires WellFormed(m)
  {
    (x, y) => Shown(img, m, x, y)
  }

  /** The picture after a sequence of rectangles. */
  ghost function Play(img: Picture, msgs: seq<Msg>): Picture
    requires AllWellFormed(msgs)
  {
    if msgs == [] then img else Show(Play(img, msgs[..|msgs| - 1]), msgs[|msgs| - 1])
  }

  lemma {:induction false} PlayConcat(img: Picture, a: seq<Msg>, b: seq<Msg>)
    requires AllWellFormed(a) && AllWellFormed(b)
    ensures AllWellFormed(a + b) && Play(img, a + b) == Play(Play(img, a), b)
  {
    if b == [] {
      assert a + b == a;
    } else {
      assert (a + b)[..|a + b| - 1] == a + b[..|b| - 1];
      PlayConcat(img, a, b[..|b| - 1]);
    }
  }

  function Rects(msgs: seq<Msg>): (rs: seq<Rect>)
    ensures |rs| == |msgs| && forall i :: 0 <= i < |msgs| ==> rs[i] == msgs[i].r
  {
    seq(|msgs|, i requires 0 <= i < |msgs| => msgs[i].r)
  }

  /** No rectangle overlaps another. */
  ghost predicate Disjoint(rs: seq<Rect>) {
    forall i, j, x, y :: 0 <= i < j < |rs| && InBox(rs[i], x, y) ==> !InBox(rs[j], x, y)
  }

  /** Solid and data rectangles deliver the pixels of `fb`. */
  ghost predicate Delivers(m: Msg, fb: Picture) {
    && WellFormed(m) && !m.CopyMsg?
    && forall x, y :: InBox(m.r, x, y) ==> Payload(m, x, y) == fb(x, y)
  }

  /** What is delivered has the size of the framebuffer's pixels. */
  lemma DeliveredSize(m: Msg, fb: Picture, size: nat)
    requires Delivers(m, fb) && forall x, y :: |fb(x, y)| == size
    ensures PixelSize(m) == size
  {
    assert InBox(m.r, m.r.x1, m.r.y1);
    assert |Payload(m, m.r.x1, m.r.y1)| == PixelSize(m);
  }

  ghost predicate AllDeliver(msgs: seq<Msg>, fb: Picture) {
    forall i :: 0 <= i < |msgs| ==> Delivers(msgs[i], fb)
  }

  lemma DeliverWellFormed(msgs: seq<Msg>, fb: Picture)
    requires AllDeliver(msgs, fb)
    ensures AllWellFormed(msgs)
  {
  }

  /** Rectangles that deliver the framebuffer's pixels bring exactly their area up to date. */
  lemma {:induction false} PlayDelivered(img: Picture, msgs: seq<Msg>, fb: Picture, x: int, y: int)
    requires AllDeliver(msgs, fb)
    ensures AllWellFormed(msgs)
    ensures Play(img, msgs)(x, y) == if Covered(Rects(msgs), x, y) then fb(x, y) else img(x, y)
  {
    DeliverWellFormed(msgs, fb);
    if msgs != [] {
      var init, last := msgs[..|msgs| - 1], msgs[|msgs| - 1];
      PlayDelivered(img, init, fb, x, y);
      assert Rects(msgs) == Rects(init) + [last.r];
      AddCovered(Rects(init), last.r);
      assert Delivers(last, fb);
    }
  }

  /** The copy rectangles of a region, in sending order. */
  function CopyMsgs(rects: seq<Rect>, delta: Point): (msgs: seq<Msg>)
    ensures |msgs| == |rects|
    ensures forall i :: 0 <= i < |rects| ==> msgs[i] == CopyMsg(rects[i], rects[i].x1 - delta.x, rects[i].y1 - delta.y)
  {
    seq(|rects|, i requires 0 <= i < |rects| => CopyMsg(rects[i], rects[i].x1 - delta.x, rects[i].y1 - delta.y))
  }

  /** Copy rectangles sent in get_rects order move the whole region at once. */
  lemma {:induction false} PlayCopies(img: Picture, rects: seq<Rect>, delta: Point)
    requires forall i :: 0 <= i < |rects| ==> NonEmptyBox(rects[i])
    requires NeverReadsMoved(rects, delta)
    ensures AllWellFormed(CopyMsgs(rects, delta))
    ensures forall x, y :: Play(img, CopyMsgs(rects, delta))(x, y) == MovedRegion(img, rects, delta, x, y)
  {
    hide Covered, NeverReadsMoved, BytesOf;
    NoPoints();
    if rects != [] {
      var k, msgs := |rects| - 1, CopyMsgs(rects, delta);
      var init := rects[..k];
      InitSafe(rects, delta);
      PlayCopies(img, init, delta);
      assert msgs[..k] == CopyMsgs(init, delta);
      LastCopy(img, Play(img, msgs[..k]), rects, init, delta, msgs[k]);
    }
  }

  lemma LastCopy(img: Picture, before: Picture, rects: seq<Rect>, init: seq<Rect>, delta: Point, m: Msg)
    requires rects != [] && init == rects[..|rects| - 1] && NeverReadsMoved(rects, delta) && WellFormed(m)
    requires m == CopyMsg(rects[|rects| - 1], rects[|rects| - 1].x1 - delta.x, rects[|rects| - 1].y1 - delta.y)
    requires forall x, y :: before(x, y) == MovedRegion(img, init, delta, x, y)
    ensures forall x, y :: Show(before, m)(x, y) == MovedRegion(img, rects, delta, x, y)
  {
    hide Covered, NeverReadsMoved;
    forall x, y ensures Show(before, m)(x, y) == MovedRegion(img, rects, delta, x, y) {
      MoveStep(img, before, rects, |rects| - 1, delta, x, y);
      assert rects[..|rects| - 1 + 1] == rects;
    }
  }

  lemma InitSafe(rects: seq<Rect>, delta: Point)
    requires NeverReadsMoved(rects, delta) && rects != []
    ensures NeverReadsMoved(rects[..|rects| - 1], delta)
  {
    var init := rects[..|rects| - 1];
    forall i, j, x, y | 0 <= i < j < |init| && InBox(init[j], x, y) ensures !InBox(init[i], x - delta.x, y - delta.y) {
      assert InBox(rects[j], x, y) && init[i] == rects[i];
    }
  }
}
