/** Moving a whole region of a framebuffer, one rectangle after another. */
module RegionCopy {
  import opened Banding
  import opened XRegion
  import opened RegionRects
  import opened PixelBuffers

  /** The picture with every point of `rs` taken from where it was before the
      move: the whole region at once, from the old contents. */
  ghost function MovedRegion(img: Picture, rs: seq<Box>, delta: Point, x: int, y: int): Pixel {
    if Covered(rs, x, y) then img(x - delta.x, y - delta.y) else img(x, y)
  }

  /** The destination of an earlier rect never meets the source of a later one. */
  ghost predicate NeverReadsMoved(rects: seq<Rect>, delta: Point) {
    forall i, j, x, y :: 0 <= i < j < |rects| && InBox(rects[j], x, y) ==> !InBox(rects[i], x - delta.x, y - delta.y)
  }

  lemma PairSafe(a: Rect, b: Rect, delta: Point, x: int, y: int)
    requires Visited(a, b, delta.x <= 0, delta.y <= 0) || (a == b && a.y2 <= b.y1)
    ensures InBox(b, x, y) ==> !InBox(a, x - delta.x, y - delta.y)
  {
  }

  /** The direction chosen from the signs of delta makes sequential copying safe. */
  lemma DirectionSafe(rects: seq<Rect>, src: seq<Box>, delta: Point)
    requires Enumerates(rects, rects, src, delta.x <= 0, delta.y <= 0, 0)
    ensures NeverReadsMoved(rects, delta)
  {
    forall i, j, x, y | 0 <= i < j < |rects| && InBox(rects[j], x, y)
      ensures !InBox(rects[i], x - delta.x, y - delta.y)
    {
      PairSafe(rects[i], rects[j], delta, x, y);
    }
  }

  /** Destination and source of every point of the region lie in the buffer. */
  ghost predicate InBuffer(rs: seq<Box>, delta: Point, bounds: Rect) {
    forall x, y :: Covered(rs, x, y) ==> InBox(bounds, x, y) && InBox(bounds, x - delta.x, y - delta.y)
  }

  ghost predicate RectInBuffer(r: Rect, delta: Point, bounds: Rect) {
    forall x, y :: InBox(r, x, y) ==> InBox(bounds, x, y) && InBox(bounds, x - delta.x, y - delta.y)
  }

  /** copyRect where nothing is clipped. */
  method CopyRectInside(fb: PixelBuffer, r: Rect, delta: Point)
    requires fb.Valid() && RectInBuffer(r, delta, fb.GetRect())
    modifies fb.data
    ensures forall x, y :: fb.View()(x, y) == Moved(old(fb.View()), r, delta, x, y)
  {
    ghost var was := fb.View();
    fb.CopyRect(r, delta);
    forall x, y ensures fb.View()(x, y) == Moved(was, r, delta, x, y) {
      assert Copied(was, fb.GetRect(), r, delta, x, y) == Moved(was, r, delta, x, y);
    }
  }

  /** The same, clipped as copyRect does: a point moves if it and its source lie
      in the buffer. */
  ghost function CopiedRegion(img: Picture, bounds: Rect, rs: seq<Box>, delta: Point, x: int, y: int): Pixel {
    if Covered(rs, x, y) && InBox(bounds, x, y) && InBox(bounds, x - delta.x, y - delta.y)
    then img(x - delta.x, y - delta.y) else img(x, y)
  }

  ghost function MovedPicture(img: Picture, rs: seq<Box>, delta: Point): Picture {
    (x, y) => MovedRegion(img, rs, delta, x, y)
  }

  ghost function CopiedPicture(img: Picture, bounds: Rect, rs: seq<Box>, delta: Point): Picture {
    (x, y) => CopiedRegion(img, bounds, rs, delta, x, y)
  }

  /** Copying rectangle by rectangle in get_rects order equals the simultaneous
      move, for every direction and every overlap, wherever the region lies. */
  method CopyRegionRects(fb: PixelBuffer, region: Region, delta: Point)
    requires fb.Valid() && region.Valid()
    modifies fb.data
    ensures forall x, y :: fb.View()(x, y) == CopiedRegion(old(fb.View()), fb.GetRect(), region.rects, delta, x, y)
  {
    hide Covered, Enumerates, SmallSlices, FullSlices, InOrder, NeverReadsMoved, Copied, PixelBuffer.View;
    ghost var was := fb.View();
    var rects, origin := GetRects(region, delta.x <= 0, delta.y <= 0, 0);
    WholeBoxes(rects, origin, region.rects, delta.x <= 0, delta.y <= 0);
    DirectionSafe(rects, region.rects, delta);
    NoPoints();
    assert rects[..0] == [];
    for k := 0 to |rects|
      invariant forall x, y :: fb.View()(x, y) == CopiedRegion(was, fb.GetRect(), rects[..k], delta, x, y)
    {
      ghost var before := fb.View();
      fb.CopyRect(rects[k], delta);
      forall x, y ensures fb.View()(x, y) == CopiedRegion(was, fb.GetRect(), rects[..k + 1], delta, x, y) {
        CopyStep(was, before, fb.GetRect(), rects, k, delta, x, y);
      }
    }
    assert rects[..|rects|] == rects;
  }

  /** One more rectangle copied. */
  lemma CopyStep(was: Picture, before: Picture, bounds: Rect, rects: seq<Rect>, k: nat, delta: Point, x: int, y: int)
    requires NeverReadsMoved(rects, delta) && k < |rects|
    requires forall u, v :: before(u, v) == CopiedRegion(was, bounds, rects[..k], delta, u, v)
    ensures Copied(before, bounds, rects[k], delta, x, y) == CopiedRegion(was, bounds, rects[..k + 1], delta, x, y)
  {
    assert rects[..k + 1] == rects[..k] + [rects[k]];
    AddCovered(rects[..k], rects[k]);
    if InBox(rects[k], x, y) {
      NotMovedYet(rects, k, delta, x, y);
    }
  }

  /** One more rectangle moved. */
  lemma MoveStep(was: Picture, before: Picture, rects: seq<Rect>, k: nat, delta: Point, x: int, y: int)
    requires NeverReadsMoved(rects, delta) && k < |rects|
    requires forall u, v :: before(u, v) == MovedRegion(was, rects[..k], delta, u, v)
    ensures Moved(before, rects[k], delta, x, y) == MovedRegion(was, rects[..k + 1], delta, x, y)
  {
    assert rects[..k + 1] == rects[..k] + [rects[k]];
    AddCovered(rects[..k], rects[k]);
    if InBox(rects[k], x, y) {
      NotMovedYet(rects, k, delta, x, y);
    }
  }

  lemma NotMovedYet(rects: seq<Rect>, k: nat, delta: Point, x: int, y: int)
    requires NeverReadsMoved(rects, delta) && k < |rects| && InBox(rects[k], x, y)
    ensures !Covered(rects[..k], x - delta.x, y - delta.y)
  {
    forall i | 0 <= i < k ensures !InBox(rects[..k][i], x - delta.x, y - delta.y) {
      assert !InBox(rects[i], x - delta.x, y - delta.y);
    }
  }
}
