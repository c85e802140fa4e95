/** What has changed since the last update, and what has merely moved. */
module UpdateTracking {
  import opened Banding
  import opened XRegion
  import opened RegionAlgebra
  import opened RegionShrink
  import opened RegionRects
  import opened PixelBuffers
  import opened RegionCopy
  import opened ShadowCompare

  // --------------------------------------------------- meaning of a tracker

  /** Outside `changed`, the framebuffer is the shadow with `copied` moved by delta. */
  ghost predicate Tracks(fb: Picture, shadow: Picture, changed: seq<Box>, copied: seq<Box>, delta: Point,
                         bounds: Rect) {
    && InBuffer(copied, delta, bounds)
    && forall x, y :: InBox(bounds, x, y) && !Covered(changed, x, y) ==>
         fb(x, y) == MovedRegion(shadow, copied, delta, x, y)
  }

  /** Some source point of the copy is itself the destination of the pending one. */
  ghost predicate Continues(dest: seq<Box>, delta: Point, copied: seq<Box>) {
    exists x, y :: Covered(dest, x, y) && Covered(copied, x - delta.x, y - delta.y)
  }

  /** The three ways add_copied can go. */
  datatype CopyMode = GiveUp | StartNew | Continue

  /** Point (x, y) counts as changed after add_copied(dest, delta). */
  ghost predicate ChangedAfter(mode: CopyMode, changed: seq<Box>, copied: seq<Box>, dest: seq<Box>, delta: Point,
                               x: int, y: int) {
    match mode
    case GiveUp => Covered(changed, x, y) || Covered(dest, x, y)
    case StartNew =>
      Covered(changed, x, y) || Covered(copied, x, y)
      || (Covered(dest, x, y) && Covered(changed, x - delta.x, y - delta.y))
    case Continue =>
      Covered(changed, x, y)
      || (if CopiedAfter(mode, copied, dest, delta, x, y) then Covered(changed, x - delta.x, y - delta.y)
          else Covered(dest, x, y) || Covered(copied, x, y))
  }

  /** Point (x, y) counts as copied after add_copied(dest, delta). */
  ghost predicate CopiedAfter(mode: CopyMode, copied: seq<Box>, dest: seq<Box>, delta: Point, x: int, y: int) {
    match mode
    case GiveUp => Covered(copied, x, y)
    case StartNew => Covered(dest, x, y)
    case Continue => Covered(dest, x, y) && Covered(copied, x - delta.x, y - delta.y)
  }

  function DeltaAfter(mode: CopyMode, d: Point, delta: Point): Point {
    match mode
    case GiveUp => d
    case StartNew => delta
    case Continue => Point(d.x + delta.x, d.y + delta.y)
  }

  /** The tracker after add_copied, point by point. */
  ghost predicate CopyRecorded(mode: CopyMode, changed: seq<Box>, copied: seq<Box>, d: Point, dest: seq<Box>,
                               delta: Point, changed': seq<Box>, copied': seq<Box>, d': Point)
  {
    && d' == DeltaAfter(mode, d, delta)
    && (forall x, y :: Covered(copied', x, y) <==> CopiedAfter(mode, copied, dest, delta, x, y))
    && (forall x, y :: Covered(changed', x, y) <==> ChangedAfter(mode, changed, copied, dest, delta, x, y))
    && (mode == StartNew ==> !Continues(dest, delta, copied))
  }

  /** A copy on the screen, recorded by add_copied, keeps the tracker truthful. */
  lemma CopyTracks(fb: Picture, fb': Picture, shadow: Picture, mode: CopyMode,
                   changed: seq<Box>, copied: seq<Box>, d: Point, dest: seq<Box>, delta: Point,
                   changed': seq<Box>, copied': seq<Box>, d': Point, bounds: Rect)
    requires Tracks(fb, shadow, changed, copied, d, bounds)
    requires InBuffer(dest, delta, bounds)
    requires forall x, y :: InBox(bounds, x, y) ==> fb'(x, y) == MovedRegion(fb, dest, delta, x, y)
    requires CopyRecorded(mode, changed, copied, d, dest, delta, changed', copied', d')
    ensures Tracks(fb', shadow, changed', copied', d', bounds)
  {
    forall x, y | InBox(bounds, x, y) && !Covered(changed', x, y)
      ensures fb'(x, y) == MovedRegion(shadow, copied', d', x, y)
    {
      assert !ChangedAfter(mode, changed, copied, dest, delta, x, y);
      assert Covered(copied', x, y) <==> CopiedAfter(mode, copied, dest, delta, x, y);
      CopyTracksAt(fb, fb', shadow, mode, changed, copied, d, dest, delta, bounds, x, y);
    }
    forall x, y | Covered(copied', x, y) ensures InBox(bounds, x, y) && InBox(bounds, x - d'.x, y - d'.y) {
      assert CopiedAfter(mode, copied, dest, delta, x, y);
    }
  }

  lemma CopyTracksAt(fb: Picture, fb': Picture, shadow: Picture, mode: CopyMode,
                     changed: seq<Box>, copied: seq<Box>, d: Point, dest: seq<Box>, delta: Point,
                     bounds: Rect, x: int, y: int)
    requires Tracks(fb, shadow, changed, copied, d, bounds)
    requires InBuffer(dest, delta, bounds) && InBox(bounds, x, y)
    requires fb'(x, y) == MovedRegion(fb, dest, delta, x, y)
    requires mode == StartNew ==> !Continues(dest, delta, copied)
    requires !ChangedAfter(mode, changed, copied, dest, delta, x, y)
    ensures var d' := DeltaAfter(mode, d, delta);
      fb'(x, y) == if CopiedAfter(mode, copied, dest, delta, x, y) then shadow(x - d'.x, y - d'.y) else shadow(x, y)
  {
    assert fb(x, y) == MovedRegion(shadow, copied, d, x, y);
    if Covered(dest, x, y) {
      var u, v := x - delta.x, y - delta.y;
      assert InBox(bounds, u, v);
      assert !Covered(changed, u, v) ==> fb(u, v) == MovedRegion(shadow, copied, d, u, v);
    }
  }

  /** The source points of a copy to `dest` that the pending copy has just written. */
  ghost predicate SourceInPending(overlap: seq<Box>, dest: seq<Box>, delta: Point, copied: seq<Box>) {
    forall x, y {:trigger Covered(overlap, x, y)} ::
      Covered(overlap, x, y) <==> Covered(dest, x + delta.x, y + delta.y) && Covered(copied, x, y)
  }

  ghost predicate WithInvalidSource(changed: seq<Box>, overlap: seq<Box>, delta: Point, changed': seq<Box>) {
    forall x, y {:trigger Covered(changed', x, y)} :: Covered(changed', x, y) <==>
      Covered(changed, x, y)
      || (Covered(overlap, x - delta.x, y - delta.y) && Covered(changed, x - delta.x, y - delta.y))
  }

  ghost predicate WithRest(changed: seq<Box>, moved: seq<Box>, dest: seq<Box>, copied: seq<Box>, changed': seq<Box>) {
    forall x, y {:trigger Covered(changed', x, y)} :: Covered(changed', x, y) <==>
      Covered(changed, x, y) || (!Covered(moved, x, y) && (Covered(dest, x, y) || Covered(copied, x, y)))
  }

  lemma ContinueShape(changed: seq<Box>, copied: seq<Box>, dest: seq<Box>, delta: Point,
                      overlap: seq<Box>, changed1: seq<Box>, moved: seq<Box>, changed2: seq<Box>)
    requires SourceInPending(overlap, dest, delta, copied)
    requires WithInvalidSource(changed, overlap, delta, changed1)
    requires MovedPoints(moved, overlap, delta.x, delta.y)
    requires WithRest(changed1, moved, dest, copied, changed2)
    ensures forall x, y :: Covered(moved, x, y) <==> CopiedAfter(Continue, copied, dest, delta, x, y)
    ensures forall x, y :: Covered(changed2, x, y) <==> ChangedAfter(Continue, changed, copied, dest, delta, x, y)
  {
    forall x, y
      ensures Covered(moved, x, y) <==> CopiedAfter(Continue, copied, dest, delta, x, y)
      ensures Covered(changed2, x, y) <==> ChangedAfter(Continue, changed, copied, dest, delta, x, y)
    {
      assert Covered(overlap, x - delta.x, y - delta.y)
        <==> Covered(dest, x - delta.x + delta.x, y - delta.y + delta.y) && Covered(copied, x - delta.x, y - delta.y);
    }
  }

  /** The overlap of source and pending copy is empty exactly if nothing continues. */
  lemma OverlapContinues(overlap: seq<Box>, e: Box, dest: seq<Box>, delta: Point, copied: seq<Box>)
    requires Canonical(overlap, e)
    requires SourceInPending(overlap, dest, delta, copied)
    ensures overlap != [] <==> Continues(dest, delta, copied)
  {
    if overlap != [] {
      var x, y := overlap[0].x1, overlap[0].y1;
      assert InBox(overlap[0], x, y);
      assert Covered(overlap, x, y);
      assert Covered(dest, x + delta.x, y + delta.y) && Covered(copied, x + delta.x - delta.x, y + delta.y - delta.y);
    }
    if Continues(dest, delta, copied) {
      var x, y :| Covered(dest, x, y) && Covered(copied, x - delta.x, y - delta.y);
      assert Covered(overlap, x - delta.x, y - delta.y);
    }
  }

  function Area(r: Rect): int {
    if IsEmpty(r) then 0 else (r.x2 - r.x1) * (r.y2 - r.y1)
  }

  /** rfb::Region's copy constructor. */
  method CopyOf(r: Region) returns (c: Region)
    requires r.Valid()
    ensures fresh(c) && c.Valid()
    ensures forall x, y :: Covered(c.rects, x, y) <==> Covered(r.rects, x, y)
  {
    c := new Region();
    UnionRegion(c, r, c);
  }

  /** rfb::Region's assignment operator. */
  method Assign(to: Region, r: Region)
    requires r.Valid() && to != r
    modifies to
    ensures to.Valid()
    ensures forall x, y :: Covered(to.rects, x, y) <==> Covered(r.rects, x, y)
  {
    ClearRegion(to);
    UnionRegion(to, r, to);
  }

  lemma SourceShape(dest: seq<Box>, atDest: seq<Box>, src: seq<Box>, delta: Point)
    requires forall x, y :: Covered(atDest, x, y) <==> Covered(dest, x, y)
    requires MovedPoints(src, atDest, -delta.x, -delta.y)
    ensures MovedPoints(src, dest, -delta.x, -delta.y)
  {
  }

  lemma OverlapShape(src: seq<Box>, dest: seq<Box>, delta: Point, copied: seq<Box>, overlap: seq<Box>)
    requires MovedPoints(src, dest, -delta.x, -delta.y)
    requires forall x, y :: Covered(overlap, x, y) <==> Covered(src, x, y) && Covered(copied, x, y)
    ensures SourceInPending(overlap, dest, delta, copied)
  {
  }

  /** The source area of a copy to `dest`, and its overlap with the pending copy. */
  method SourceOverlap(dest: Region, delta: Point, copied: Region) returns (src: Region, overlap: Region)
    requires dest.Valid() && copied.Valid()
    ensures fresh(src) && fresh(overlap) && src != overlap && src.Valid() && overlap.Valid()
    ensures MovedPoints(src.rects, dest.rects, -delta.x, -delta.y)
    ensures SourceInPending(overlap.rects, dest.rects, delta, copied.rects)
    ensures overlap.rects != [] <==> Continues(dest.rects, delta, copied.rects)
  {
    hide Covered, Canonical;
    src := CopyOf(dest);
    ghost var atDest := src.rects;
    OffsetRegion(src, -delta.x, -delta.y);
    SourceShape(dest.rects, atDest, src.rects, delta);
    overlap := new Region();
    IntersectRegion(src, copied, overlap);
    OverlapShape(src.rects, dest.rects, delta, copied.rects, overlap.rects);
    OverlapContinues(overlap.rects, overlap.extents, dest.rects, delta, copied.rects);
  }

  /** intersect, translated: the points of `a` and `b`, moved by delta. */
  method IntersectMoved(a: Region, b: Region, delta: Point) returns (c: Region)
    requires a.Valid() && b.Valid()
    ensures fresh(c) && c.Valid()
    ensures forall x, y :: Covered(c.rects, x, y) <==>
              Covered(a.rects, x - delta.x, y - delta.y) && Covered(b.rects, x - delta.x, y - delta.y)
  {
    hide Covered, Canonical;
    c := new Region();
    IntersectRegion(a, b, c);
    ghost var both := c.rects;
    OffsetRegion(c, delta.x, delta.y);
    forall x, y ensures Covered(c.rects, x, y) <==>
                        Covered(a.rects, x - delta.x, y - delta.y) && Covered(b.rects, x - delta.x, y - delta.y)
    {
      assert Covered(c.rects, x, y) <==> Covered(both, x - delta.x, y - delta.y);
    }
  }

  class SimpleUpdateTracker {
    const changed: Region
    const copied: Region
    var copyDelta: Point
    var copyEnabled: bool

    ghost predicate Valid()
      reads this, changed, copied
    {
      changed != copied && changed.Valid() && copied.Valid()
    }

    constructor (useCopyrect: bool)
      ensures Valid() && fresh(changed) && fresh(copied)
      ensures changed.rects == [] && copied.rects == [] && copyEnabled == useCopyrect
    {
      var c := new Region();
      var k := new Region();
      changed, copied := c, k;
      copyDelta, copyEnabled := Point(0, 0), useCopyrect;
    }

    method AddChanged(region: Region)
      requires Valid() && region.Valid()
      modifies changed
      ensures Valid()
      ensures forall x, y :: Covered(changed.rects, x, y) <==>
                Covered(old(changed.rects), x, y) || Covered(old(region.rects), x, y)
    {
      UnionRegion(changed, region, changed);
    }

    method EnableCopyrect(enable: bool)
      requires Valid()
      modifies this, changed, copied
      ensures Valid() && copyEnabled == enable && copyDelta == old(copyDelta)
      ensures !enable && old(copyEnabled) ==> copied.rects == []
      ensures !enable && old(copyEnabled) ==> forall x, y ::
                Covered(changed.rects, x, y) <==> Covered(old(changed.rects), x, y) || Covered(old(copied.rects), x, y)
      ensures enable || !old(copyEnabled) ==> changed.rects == old(changed.rects) && copied.rects == old(copied.rects)
    {
      if !enable && copyEnabled {
        AddChanged(copied);
        ClearRegion(copied);
      }
      copyEnabled := enable;
    }

    /** add_copied: start a copy, continue the pending one, or give up copying. */
    method AddCopied(dest: Region, delta: Point) returns (ghost mode: CopyMode)
      requires Valid() && dest.Valid() && dest != changed && dest != copied
      modifies this, changed, copied
      ensures Valid() && copyEnabled == old(copyEnabled)
      ensures CopyRecorded(mode, old(changed.rects), old(copied.rects), old(copyDelta), dest.rects, delta,
                           changed.rects, copied.rects, copyDelta)
      ensures mode == Continue <==> copyEnabled && Continues(dest.rects, delta, old(copied.rects))
      ensures mode == StartNew <==> copyEnabled && dest.rects != [] && mode != Continue
                                    && Area(old(copied.extents)) <= Area(dest.extents)
    {
      hide Covered, Canonical;
      mode := GiveUp;
      if !copyEnabled {
        AddChanged(dest);
        return;
      }
      if |dest.rects| == 0 {
        NoPoints();
        return;
      }
      var src, overlap := SourceOverlap(dest, delta, copied);
      if |overlap.rects| == 0 {
        if Area(copied.extents) > Area(dest.extents) {
          UnionRegion(changed, dest, changed);
        } else {
          mode := StartNew;
          StartCopy(dest, src, delta);
        }
      } else {
        mode := Continue;
        ContinueCopy(dest, overlap, delta);
      }
    }

    method StartCopy(dest: Region, src: Region, delta: Point)
      requires Valid() && dest.Valid() && src.Valid()
      requires {dest, src} !! {changed, copied}
      requires MovedPoints(src.rects, dest.rects, -delta.x, -delta.y)
      modifies this`copyDelta, changed, copied
      ensures Valid() && copyDelta == delta
      ensures forall x, y :: Covered(copied.rects, x, y) <==> Covered(dest.rects, x, y)
      ensures forall x, y :: Covered(changed.rects, x, y) <==>
                ChangedAfter(StartNew, old(changed.rects), old(copied.rects), dest.rects, delta, x, y)
    {
      hide Covered, Canonical;
      var invalidSrc := IntersectMoved(src, changed, delta);
      UnionRegion(changed, invalidSrc, changed);
      UnionRegion(changed, copied, changed);
      Assign(copied, dest);
      copyDelta := delta;
    }

    /** changed gains what moved out of it by the copy. */
    method AddInvalidSource(overlap: Region, delta: Point)
      requires Valid() && overlap.Valid() && overlap != changed
      modifies changed
      ensures Valid()
      ensures WithInvalidSource(old(changed.rects), overlap.rects, delta, changed.rects)
    {
      var invalidSrc := IntersectMoved(overlap, changed, delta);
      UnionRegion(changed, invalidSrc, changed);
    }

    /** changed gains what is copied or was to be copied but not continued. */
    method AddNonOverlapped(dest: Region, moved: Region)
      requires Valid() && dest.Valid() && moved.Valid() && {dest, moved} !! {changed, copied}
      modifies changed
      ensures Valid()
      ensures WithRest(old(changed.rects), moved.rects, dest.rects, copied.rects, changed.rects)
    {
      var nonoverlapped := new Region();
      UnionRegion(dest, copied, nonoverlapped);
      SubtractRegion(nonoverlapped, moved, nonoverlapped);
      UnionRegion(changed, nonoverlapped, changed);
    }

    /** The changed area when the pending copy is continued; `overlap` is moved on. */
    method ContinueChanged(dest: Region, overlap: Region, delta: Point)
      requires Valid() && dest.Valid() && overlap.Valid()
      requires {dest, overlap} !! {changed, copied} && dest != overlap
      requires SourceInPending(overlap.rects, dest.rects, delta, copied.rects)
      modifies changed, overlap
      ensures Valid() && overlap.Valid()
      ensures forall x, y :: Covered(overlap.rects, x, y) <==>
                CopiedAfter(Continue, copied.rects, dest.rects, delta, x, y)
      ensures forall x, y :: Covered(changed.rects, x, y) <==>
                ChangedAfter(Continue, old(changed.rects), copied.rects, dest.rects, delta, x, y)
    {
      hide Covered, Canonical, SourceInPending, MovedPoints, WithInvalidSource, WithRest;
      ghost var atSource, changed0 := overlap.rects, changed.rects;
      AddInvalidSource(overlap, delta);
      ghost var changed1 := changed.rects;
      OffsetRegion(overlap, delta.x, delta.y);
      AddNonOverlapped(dest, overlap);
      ContinueShape(changed0, copied.rects, dest.rects, delta, atSource, changed1, overlap.rects, changed.rects);
    }

    method ContinueCopy(dest: Region, overlap: Region, delta: Point)
      requires Valid() && dest.Valid() && overlap.Valid()
      requires {dest, overlap} !! {changed, copied} && dest != overlap
      requires SourceInPending(overlap.rects, dest.rects, delta, copied.rects)
      modifies this`copyDelta, changed, copied, overlap
      ensures Valid() && copyDelta == Point(old(copyDelta).x + delta.x, old(copyDelta).y + delta.y)
      ensures forall x, y :: Covered(copied.rects, x, y) <==>
                CopiedAfter(Continue, old(copied.rects), dest.rects, delta, x, y)
      ensures forall x, y :: Covered(changed.rects, x, y) <==>
                ChangedAfter(Continue, old(changed.rects), old(copied.rects), dest.rects, delta, x, y)
    {
      ContinueChanged(dest, overlap, delta);
      Assign(copied, overlap);
      copyDelta := Point(copyDelta.x + delta.x, copyDelta.y + delta.y);
    }

    /** getUpdateInfo: what changed wins over what was copied; both clipped. */
    method GetUpdateInfo(clip: Region) returns (uiChanged: Region, uiCopied: Region, uiDelta: Point)
      requires Valid() && clip.Valid() && clip != copied
      modifies copied
      ensures Valid() && fresh(uiChanged) && fresh(uiCopied) && uiChanged != uiCopied
      ensures uiChanged.Valid() && uiCopied.Valid() && uiDelta == copyDelta
      ensures forall x, y :: Covered(copied.rects, x, y) <==>
                Covered(old(copied.rects), x, y) && !Covered(changed.rects, x, y)
      ensures forall x, y :: Covered(uiChanged.rects, x, y) <==>
                Covered(changed.rects, x, y) && Covered(clip.rects, x, y)
      ensures forall x, y :: Covered(uiCopied.rects, x, y) <==> Covered(copied.rects, x, y) && Covered(clip.rects, x, y)
    {
      SubtractRegion(copied, changed, copied);
      uiChanged := new Region();
      IntersectRegion(changed, clip, uiChanged);
      uiCopied := new Region();
      IntersectRegion(copied, clip, uiCopied);
      uiDelta := copyDelta;
    }

    method Clear()
      requires Valid()
      modifies changed, copied
      ensures Valid() && changed.rects == [] && copied.rects == []
    {
      ClearRegion(changed);
      ClearRegion(copied);
    }
  }

  // ------------------------------------------------- the comparing tracker

  lemma BandedRects(r: Region)
    requires r.Valid()
    ensures Banded(r.rects)
  {
  }

  class ComparingUpdateTracker {
    const updates: SimpleUpdateTracker
    const fb: PixelBuffer
    const oldFb: PixelBuffer
    var firstCompare: bool
    var enabled: bool

    ghost predicate Valid()
      reads this, updates, updates.changed, updates.copied, fb, oldFb
    {
      && updates.Valid()
      && fb != oldFb && fb.data != oldFb.data && fb.size == oldFb.size
      && fb.Valid() && oldFb.Valid()
      && (!firstCompare ==> oldFb.GetRect() == fb.GetRect())
    }

    /** The whole framebuffer counts as changed at first. */
    constructor (buffer: PixelBuffer)
      requires buffer.Valid()
      ensures Valid() && fb == buffer && firstCompare && enabled
      ensures fresh(updates) && fresh(updates.changed) && fresh(updates.copied) && fresh(oldFb) && fresh(oldFb.data)
      ensures updates.copied.rects == []
      ensures forall x, y :: Covered(updates.changed.rects, x, y) <==> InBox(buffer.GetRect(), x, y)
    {
      fb := buffer;
      var empty := new PixelBuffer(0, 0, buffer.size);
      oldFb := empty;
      var tracker := new SimpleUpdateTracker(true);
      var all := RectRegion(buffer.GetRect());
      NoPoints();
      tracker.AddChanged(all);
      updates := tracker;
      firstCompare, enabled := true, true;
    }

    method Enable()
      modifies this`enabled
      ensures enabled
    {
      enabled := true;
    }

    /** The next comparison starts from a fresh copy. */
    method Disable()
      modifies this`enabled, this`firstCompare
      ensures !enabled && firstCompare
    {
      enabled := false;
      firstCompare := true;
    }

    /** The shadow with the pending copy carried out, from before compare(). */
    ghost function Shifted(): Picture
      requires oldFb.Valid()
      reads updates, updates.copied, fb, oldFb, oldFb.data
    {
      CopiedPicture(oldFb.View(), fb.GetRect(), updates.copied.rects, updates.copyDelta)
    }

    /** compare: copy the framebuffer the first time; afterwards carry out the
        pending copy on the shadow, then compare what was reported changed. */
    method Compare() returns (filtered: bool)
      requires Valid()
      modifies this`firstCompare, oldFb, oldFb.data, updates.changed
      ensures Valid() && firstCompare == (old(firstCompare) && !enabled)
      ensures !enabled || old(firstCompare) ==> !filtered && updates.changed.rects == old(updates.changed.rects)
      ensures !enabled ==> oldFb.View() == old(oldFb.View())
      ensures oldFb.data == old(oldFb.data) || fresh(oldFb.data)
      ensures enabled && old(firstCompare) ==>
                forall x, y :: InBox(fb.GetRect(), x, y) ==> oldFb.View()(x, y) == fb.View()(x, y)
      ensures enabled && !old(firstCompare) ==>
                forall x, y :: oldFb.View()(x, y) ==
                  RefreshedAll(old(Shifted()), fb.View(), old(updates.changed.rects), fb.GetRect(), x, y)
      ensures enabled && !old(firstCompare) ==>
                Filtered(old(Shifted()), fb.View(), old(updates.changed.rects), fb.GetRect(), updates.changed.rects)
      ensures filtered <==>
                exists x, y :: Covered(old(updates.changed.rects), x, y) && !Covered(updates.changed.rects, x, y)
    {
      if !enabled { return false; }
      if firstCompare {
        oldFb.SetSize(fb.width, fb.height);
        CopyAll(fb, oldFb);
        firstCompare := false;
        return false;
      }
      filtered := CompareAgain();
    }

    /** compare after the first time. */
    method CompareAgain() returns (filtered: bool)
      requires Valid() && !firstCompare
      modifies oldFb.data, updates.changed
      ensures Valid()
      ensures forall x, y :: oldFb.View()(x, y) ==
                RefreshedAll(old(Shifted()), fb.View(), old(updates.changed.rects), fb.GetRect(), x, y)
      ensures Filtered(old(Shifted()), fb.View(), old(updates.changed.rects), fb.GetRect(), updates.changed.rects)
      ensures filtered <==>
                exists x, y :: Covered(old(updates.changed.rects), x, y) && !Covered(updates.changed.rects, x, y)
    {
      hide Covered, Canonical, Filtered, PixelBuffer.View;
      BandedRects(updates.changed);
      ghost var shifted := Shifted();
      CopyRegionRects(oldFb, updates.copied, updates.copyDelta);
      ghost var copied := oldFb.View();
      var rects := AllRects(updates.changed);
      var newChanged := CompareRects(fb, oldFb, rects);
      FilteredSame(copied, shifted, fb.View(), updates.changed.rects, fb.GetRect(), newChanged.rects);
      NothingAdded(shifted, fb.View(), updates.changed.rects, fb.GetRect(), newChanged.rects);
      var same := EqualRegion(updates.changed, newChanged);
      if same {
        FilteredPoints(shifted, fb.View(), rects, fb.GetRect(), newChanged.rects, rects);
        return false;
      }
      Assign(updates.changed, newChanged);
      NothingAdded(shifted, fb.View(), rects, fb.GetRect(), newChanged.rects);
      FilteredPoints(shifted, fb.View(), rects, fb.GetRect(), newChanged.rects, updates.changed.rects);
      return true;
    }
  }
}
