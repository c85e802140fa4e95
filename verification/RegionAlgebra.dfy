/** The public region operations.  Destination and sources may be the same
    object; every operation keeps the canonical form and is exact on points. */
module RegionAlgebra {
  import opened Arithmetic
  import opened Banding
  import opened RegionSweep
  import opened XRegion

  // -------------------------------------------------------------- extents

  /** miSetExtents. */
  method SetExtents(pReg: Region)
    requires Banded(pReg.rects)
    modifies pReg`extents
    ensures pReg.rects != [] ==> Tight(pReg.rects, pReg.extents)
    ensures pReg.rects == [] ==> pReg.extents == Box(0, 0, 0, 0)
  {
    if |pReg.rects| == 0 {
      pReg.extents := Box(0, 0, 0, 0);
      return;
    }
    var rs := pReg.rects;
    var last := |rs| - 1;
    pReg.extents := Box(rs[0].x1, rs[0].y1, rs[last].x2, rs[last].y2);
    var i := 0;
    ghost var left, right := 0, last;
    while i <= last
      invariant i <= |rs|
      invariant left < |rs| && right < |rs|
      invariant pReg.extents == Box(rs[left].x1, rs[0].y1, rs[right].x2, rs[last].y2)
      invariant forall k :: 0 <= k < i ==> pReg.extents.x1 <= rs[k].x1 && rs[k].x2 <= pReg.extents.x2
    {
      if rs[i].x1 < pReg.extents.x1 {
        pReg.extents := pReg.extents.(x1 := rs[i].x1);
        left := i;
      }
      if rs[i].x2 > pReg.extents.x2 {
        pReg.extents := pReg.extents.(x2 := rs[i].x2);
        right := i;
      }
      i := i + 1;
    }
    forall k | 0 <= k < |rs| ensures rs[0].y1 <= rs[k].y1 && rs[k].y2 <= rs[last].y2 {
      if k > 0 { assert Before(rs[0], rs[k]); }
      if k < last { assert Before(rs[k], rs[last]); }
    }
  }

  ghost predicate HasColumn(rs: seq<Box>, x: int) {
    exists y :: Covered(rs, x, y)
  }

  ghost predicate HasRow(rs: seq<Box>, y: int) {
    exists x :: Covered(rs, x, y)
  }

  /** A tight box around the points, stated by points. */
  ghost predicate TightOnPoints(rs: seq<Box>, e: Box) {
    && (forall x, y :: Covered(rs, x, y) ==> InBox(e, x, y))
    && HasColumn(rs, e.x1) && HasColumn(rs, e.x2 - 1) && HasRow(rs, e.y1) && HasRow(rs, e.y2 - 1)
  }

  lemma TightPoints(rs: seq<Box>, e: Box)
    requires Banded(rs) && rs != [] && Tight(rs, e)
    ensures TightOnPoints(rs, e)
  {
    var a :| 0 <= a < |rs| && rs[a].x1 == e.x1;
    var b :| 0 <= b < |rs| && rs[b].x2 == e.x2;
    var c :| 0 <= c < |rs| && rs[c].y1 == e.y1;
    var d :| 0 <= d < |rs| && rs[d].y2 == e.y2;
    assert InBox(rs[a], e.x1, rs[a].y1) && Covered(rs, e.x1, rs[a].y1);
    assert InBox(rs[b], e.x2 - 1, rs[b].y1) && Covered(rs, e.x2 - 1, rs[b].y1);
    assert InBox(rs[c], rs[c].x1, e.y1) && Covered(rs, rs[c].x1, e.y1);
    assert InBox(rs[d], rs[d].x1, e.y2 - 1) && Covered(rs, rs[d].x1, e.y2 - 1);
  }

  lemma PointsTight(rs: seq<Box>, e: Box)
    requires Banded(rs) && TightOnPoints(rs, e)
    ensures Tight(rs, e)
  {
    forall i | 0 <= i < |rs|
      ensures e.x1 <= rs[i].x1 && rs[i].x2 <= e.x2 && e.y1 <= rs[i].y1 && rs[i].y2 <= e.y2
    {
      assert InBox(rs[i], rs[i].x1, rs[i].y1) && InBox(rs[i], rs[i].x2 - 1, rs[i].y2 - 1);
      assert Covered(rs, rs[i].x1, rs[i].y1) && Covered(rs, rs[i].x2 - 1, rs[i].y2 - 1);
    }
    var ya :| Covered(rs, e.x1, ya);
    var yb :| Covered(rs, e.x2 - 1, yb);
    var xc :| Covered(rs, xc, e.y1);
    var xd :| Covered(rs, xd, e.y2 - 1);
  }

  /** The extents of a union are the extents around both. */
  lemma UnionTight(p: seq<Box>, ep: Box, q: seq<Box>, eq: Box, rs: seq<Box>)
    requires Canonical(p, ep) && Canonical(q, eq) && p != [] && q != [] && Banded(rs)
    requires forall x, y :: Covered(rs, x, y) <==> Covered(p, x, y) || Covered(q, x, y)
    ensures Tight(rs, Box(Min(ep.x1, eq.x1), Min(ep.y1, eq.y1), Max(ep.x2, eq.x2), Max(ep.y2, eq.y2)))
  {
    hide Covered, Tight, Banded, Coalesced;
    TightPoints(p, ep);
    TightPoints(q, eq);
    PointsTight(rs, Box(Min(ep.x1, eq.x1), Min(ep.y1, eq.y1), Max(ep.x2, eq.x2), Max(ep.y2, eq.y2)));
  }

  lemma TightUnique(rs: seq<Box>, e: Box, f: Box)
    requires Tight(rs, e) && Tight(rs, f)
    ensures e == f
  {
  }

  /** A one-box region is its extents. */
  lemma OneBox(rs: seq<Box>, e: Box, x: int, y: int)
    requires Tight(rs, e) && |rs| == 1
    ensures Covered(rs, x, y) <==> InBox(e, x, y)
  {
    assert rs[0] == e;
  }

  lemma InsideExtents(rs: seq<Box>, e: Box, x: int, y: int)
    requires rs != [] ==> Tight(rs, e)
    requires Covered(rs, x, y)
    ensures InBox(e, x, y)
  {
  }

  // ------------------------------------------------------------ operations

  predicate ExtentCheck(a: Box, b: Box) {
    a.x2 > b.x1 && a.x1 < b.x2 && a.y2 > b.y1 && a.y1 < b.y2
  }

  /** miRegionCopy. */
  method RegionCopy(dstrgn: Region, rgn: Region)
    modifies dstrgn
    ensures dstrgn.rects == old(rgn.rects) && dstrgn.extents == old(rgn.extents)
  {
    if dstrgn != rgn {
      dstrgn.rects := rgn.rects;
      dstrgn.extents := rgn.extents;
    }
  }

  method IntersectRegion(reg1: Region, reg2: Region, newReg: Region)
    requires reg1.Valid() && reg2.Valid()
    requires !(newReg == reg1 && newReg == reg2)
    modifies newReg
    ensures newReg.Valid()
    ensures forall x, y :: Covered(newReg.rects, x, y) <==>
              Covered(old(reg1.rects), x, y) && Covered(old(reg2.rects), x, y)
  {
    if |reg1.rects| == 0 || |reg2.rects| == 0 || !ExtentCheck(reg1.extents, reg2.extents) {
      forall x, y ensures !(Covered(reg1.rects, x, y) && Covered(reg2.rects, x, y)) {
        if Covered(reg1.rects, x, y) && Covered(reg2.rects, x, y) {
          InsideExtents(reg1.rects, reg1.extents, x, y);
          InsideExtents(reg2.rects, reg2.extents, x, y);
        }
      }
      newReg.rects := [];
    } else {
      RegionOp(newReg, reg1, reg2, Intersect);
    }
    SetExtents(newReg);
  }

  /** Has one box only, and that box contains the extents of the other region. */
  predicate Subsumes(reg1: Region, reg2: Region)
    reads reg1, reg2
  {
    && |reg1.rects| == 1
    && reg1.extents.x1 <= reg2.extents.x1 && reg1.extents.y1 <= reg2.extents.y1
    && reg1.extents.x2 >= reg2.extents.x2 && reg1.extents.y2 >= reg2.extents.y2
  }

  lemma SubsumesAll(reg1: Region, reg2: Region)
    requires reg1.Valid() && reg2.Valid() && Subsumes(reg1, reg2)
    ensures forall x, y :: Covered(reg2.rects, x, y) ==> Covered(reg1.rects, x, y)
  {
    forall x, y | Covered(reg2.rects, x, y) ensures Covered(reg1.rects, x, y) {
      InsideExtents(reg2.rects, reg2.extents, x, y);
      OneBox(reg1.rects, reg1.extents, x, y);
    }
  }

  method UnionRegion(reg1: Region, reg2: Region, newReg: Region)
    requires reg1.Valid() && reg2.Valid()
    modifies newReg
    ensures newReg.Valid()
    ensures forall x, y :: Covered(newReg.rects, x, y) <==>
              Covered(old(reg1.rects), x, y) || Covered(old(reg2.rects), x, y)
  {
    if reg1 == reg2 || |reg1.rects| == 0 {
      if newReg != reg2 { RegionCopy(newReg, reg2); }
    } else if |reg2.rects| == 0 {
      if newReg != reg1 { RegionCopy(newReg, reg1); }
    } else if Subsumes(reg1, reg2) {
      SubsumesAll(reg1, reg2);
      if newReg != reg1 { RegionCopy(newReg, reg1); }
    } else if Subsumes(reg2, reg1) {
      SubsumesAll(reg2, reg1);
      if newReg != reg2 { RegionCopy(newReg, reg2); }
    } else {
      ghost var p, q := reg1.rects, reg2.rects;
      ghost var ep, eq := reg1.extents, reg2.extents;
      RegionOp(newReg, reg1, reg2, Union);
      newReg.extents := newReg.extents.(x1 := Min(reg1.extents.x1, reg2.extents.x1));
      newReg.extents := newReg.extents.(y1 := Min(reg1.extents.y1, reg2.extents.y1));
      newReg.extents := newReg.extents.(x2 := Max(reg1.extents.x2, reg2.extents.x2));
      newReg.extents := newReg.extents.(y2 := Max(reg1.extents.y2, reg2.extents.y2));
      UnionTight(p, ep, q, eq, newReg.rects);
    }
  }

  method SubtractRegion(regM: Region, regS: Region, regD: Region)
    requires regM.Valid() && regS.Valid()
    requires !(regD == regM && regD == regS)
    modifies regD
    ensures regD.Valid()
    ensures forall x, y :: Covered(regD.rects, x, y) <==>
              Covered(old(regM.rects), x, y) && !Covered(old(regS.rects), x, y)
  {
    if |regM.rects| == 0 || |regS.rects| == 0 || !ExtentCheck(regM.extents, regS.extents) {
      forall x, y ensures !(Covered(regM.rects, x, y) && Covered(regS.rects, x, y)) {
        if Covered(regM.rects, x, y) && Covered(regS.rects, x, y) {
          InsideExtents(regM.rects, regM.extents, x, y);
          InsideExtents(regS.rects, regS.extents, x, y);
        }
      }
      RegionCopy(regD, regM);
      return;
    }
    RegionOp(regD, regM, regS, Subtract);
    SetExtents(regD);
  }

  method XorRegion(sra: Region, srb: Region, dr: Region)
    requires sra.Valid() && srb.Valid()
    modifies dr
    ensures dr.Valid()
    ensures forall x, y :: Covered(dr.rects, x, y) <==> (Covered(old(sra.rects), x, y) != Covered(old(srb.rects), x, y))
  {
    var tra := new Region();
    var trb := new Region();
    SubtractRegion(sra, srb, tra);
    SubtractRegion(srb, sra, trb);
    UnionRegion(tra, trb, dr);
  }

  // --------------------------------------------------------------- queries

  /** XEqualRegion compares fields only, yet decides equality of point sets. */
  method EqualRegion(r1: Region, r2: Region) returns (eq: bool)
    requires r1.Valid() && r2.Valid()
    ensures eq <==> forall x, y :: Covered(r1.rects, x, y) <==> Covered(r2.rects, x, y)
  {
    CanonicalUnique(r1.rects, r2.rects);
    if |r1.rects| != |r2.rects| { return false; }
    if |r1.rects| == 0 { return true; }
    if r1.rects == r2.rects { TightUnique(r1.rects, r1.extents, r2.extents); }
    if r1.extents.x1 != r2.extents.x1 { return false; }
    if r1.extents.x2 != r2.extents.x2 { return false; }
    if r1.extents.y1 != r2.extents.y1 { return false; }
    if r1.extents.y2 != r2.extents.y2 { return false; }
    for i := 0 to |r1.rects|
      invariant forall k :: 0 <= k < i ==> r1.rects[k] == r2.rects[k]
    {
      if r1.rects[i].x1 != r2.rects[i].x1 { return false; }
      if r1.rects[i].x2 != r2.rects[i].x2 { return false; }
      if r1.rects[i].y1 != r2.rects[i].y1 { return false; }
      if r1.rects[i].y2 != r2.rects[i].y2 { return false; }
    }
    return true;
  }

  method PointInRegion(pRegion: Region, x: int, y: int) returns (inside: bool)
    requires pRegion.Valid()
    ensures inside <==> Covered(pRegion.rects, x, y)
  {
    if |pRegion.rects| == 0 { return false; }
    if !InBox(pRegion.extents, x, y) {
      if Covered(pRegion.rects, x, y) { InsideExtents(pRegion.rects, pRegion.extents, x, y); }
      return false;
    }
    for i := 0 to |pRegion.rects|
      invariant forall k :: 0 <= k < i ==> !InBox(pRegion.rects[k], x, y)
    {
      if InBox(pRegion.rects[i], x, y) { return true; }
    }
    return false;
  }

  datatype Overlapping = RectangleOut | RectangleIn | RectanglePart

  /** What has been established when the scan of XRectInRegion has reached
      scanline ry: the part of the rectangle above it is classified. */
  ghost predicate Classified(rs: seq<Box>, rect: Box, ry: int, partIn: bool, partOut: bool) {
    && (forall x, y :: InBox(rect, x, y) && y < ry ==> (partOut || Covered(rs, x, y)) && (partIn || !Covered(rs, x, y)))
    && (partIn ==> exists x, y :: InBox(rect, x, y) && Covered(rs, x, y))
    && (partOut ==> exists x, y :: InBox(rect, x, y) && !Covered(rs, x, y))
  }

  /** The boxes before i lie above scanline ry or left of the rectangle. */
  ghost predicate Behind(rs: seq<Box>, rect: Box, i: nat, ry: int) {
    && i <= |rs|
    && forall k :: 0 <= k < i ==> rs[k].y2 <= ry || (rs[k].x2 <= rect.x1 && rs[k].y1 <= ry)
  }

  /** A point above or left of the next box, with everything earlier behind, is free. */
  lemma ClearPoint(rs: seq<Box>, rect: Box, i: nat, ry: int, x: int, y: int)
    requires Banded(rs) && Behind(rs, rect, i, ry) && ry <= y && rect.x1 <= x
    requires i < |rs| ==> y < rs[i].y1 || (rs[i].y1 <= y < rs[i].y2 && x < rs[i].x1)
    ensures !Covered(rs, x, y)
  {
    forall k | i < k < |rs| ensures !InBox(rs[k], x, y) {
      assert Before(rs[i], rs[k]);
    }
  }

  /** The point just right of a box of the current band is free. */
  lemma ClearRight(rs: seq<Box>, rect: Box, i: nat, ry: int)
    requires Banded(rs) && Behind(rs, rect, i, ry) && i < |rs|
    requires rs[i].y1 <= ry < rs[i].y2 && rect.x1 <= rs[i].x2
    ensures !Covered(rs, rs[i].x2, ry)
  {
    forall k | i < k < |rs| ensures !InBox(rs[k], rs[i].x2, ry) {
      assert Before(rs[i], rs[k]);
    }
  }

  /** Box i reaches the right edge: the rectangle is classified down to its bottom. */
  lemma BandFinished(rs: seq<Box>, rect: Box, i: nat, ry: int, partIn: bool, partOut: bool)
    requires Banded(rs) && Behind(rs, rect, i, ry) && i < |rs|
    requires Classified(rs, rect, ry, partIn, partOut)
    requires rs[i].y1 <= ry < rs[i].y2 && rs[i].x2 >= rect.x2
    requires !partOut ==> rs[i].x1 <= rect.x1
    requires !partIn ==> rs[i].x1 >= rect.x2
    ensures Classified(rs, rect, rs[i].y2, partIn, partOut)
    ensures Behind(rs, rect, i + 1, rs[i].y2)
  {
    forall x, y | InBox(rect, x, y) && y < rs[i].y2
      ensures (partOut || Covered(rs, x, y)) && (partIn || !Covered(rs, x, y))
    {
      if ry <= y {
        if !partOut { assert InBox(rs[i], x, y); }
        if !partIn { ClearPoint(rs, rect, i, ry, x, y); }
      }
    }
  }

  /** What the last line of XRectInRegion relies on. */
  ghost predicate Verdict(rs: seq<Box>, rect: Box, ry: int, partIn: bool) {
    && (!partIn ==> forall x, y :: InBox(rect, x, y) ==> !Covered(rs, x, y))
    && (partIn && ry >= rect.y2 ==> forall x, y :: InBox(rect, x, y) ==> Covered(rs, x, y))
    && (partIn ==> exists x, y :: InBox(rect, x, y) && Covered(rs, x, y))
    && (partIn && ry < rect.y2 ==> exists x, y :: InBox(rect, x, y) && !Covered(rs, x, y))
  }

  /** XRectInRegion, with its skipped boxes and early exits. */
  method RectInRegion(region: Region, rx0: int, ry0: int, rwidth: nat, rheight: nat) returns (result: Overlapping)
    requires region.Valid() && rwidth > 0 && rheight > 0
    ensures result == RectangleIn <==>
      forall x, y :: InBox(Box(rx0, ry0, rx0 + rwidth, ry0 + rheight), x, y) ==> Covered(region.rects, x, y)
    ensures result == RectangleOut <==>
      forall x, y :: InBox(Box(rx0, ry0, rx0 + rwidth, ry0 + rheight), x, y) ==> !Covered(region.rects, x, y)
  {
    hide Row, Coalesced;
    var rect := Box(rx0, ry0, rx0 + rwidth, ry0 + rheight);
    var rs := region.rects;
    assert InBox(rect, rx0, ry0);
    if |rs| == 0 || !ExtentCheck(region.extents, rect) {
      forall x, y | InBox(rect, x, y) ensures !Covered(region.rects, x, y) {
        if Covered(region.rects, x, y) { InsideExtents(rs, region.extents, x, y); }
      }
      return RectangleOut;
    }
    var rx, ry := rx0, ry0;
    var partIn, partOut := false, false;
    var i := 0;
    while i < |rs|
      invariant 0 <= i <= |rs| && rx == rx0 && ry0 <= ry
      invariant Classified(rs, rect, ry, partIn, partOut) && Behind(rs, rect, i, ry)
      invariant ry < rect.y2 && !(partIn && partOut)
      decreases |rs| - i
    {
      if rs[i].y2 > ry {
        if rs[i].y1 > ry {
          partOut := true;
          ClearPoint(rs, rect, i, ry, rx, ry);
          forall x, y | InBox(rect, x, y) && ry <= y < rs[i].y1 ensures !Covered(rs, x, y) {
            ClearPoint(rs, rect, i, ry, x, y);
          }
          if partIn || rs[i].y1 >= rect.y2 {
            break;
          }
          ry := rs[i].y1;
        }
        if rs[i].x2 > rx {
          if rs[i].x1 > rx {
            partOut := true;
            ClearPoint(rs, rect, i, ry, rx, ry);
            if partIn {
              break;
            }
          }
          if rs[i].x1 < rect.x2 {
            partIn := true;
            assert InBox(rs[i], Max(rs[i].x1, rx), ry) && InBox(rect, Max(rs[i].x1, rx), ry);
            if partOut {
              break;
            }
          }
          if rs[i].x2 >= rect.x2 {
            BandFinished(rs, rect, i, ry, partIn, partOut);
            ry := rs[i].y2;
            if ry >= rect.y2 {
              break;
            }
            rx := rect.x1;
          } else {
            ClearRight(rs, rect, i, ry);
            break;
          }
        }
      }
      i := i + 1;
    }
    if i == |rs| {
      assert InBox(rect, rx, ry);
      forall x, y | InBox(rect, x, y) && ry <= y ensures !Covered(rs, x, y) {
        ClearPoint(rs, rect, i, ry, x, y);
      }
    }
    assert Verdict(rs, rect, ry, partIn);
    result := if partIn then if ry < rect.y2 then RectanglePart else RectangleIn else RectangleOut;
  }
}
