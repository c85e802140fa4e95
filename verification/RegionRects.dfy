/** rfb::Region on top of the X region code: building a region from rectangles
    and enumerating its rectangles in a chosen direction. */
module RegionRects {
  import opened Banding
  import opened RegionSweep
  import opened XRegion
  import opened RegionAlgebra

  /** Box a comes before box b when rows run down (or up) and columns right (or left). */
  predicate Visited(a: Box, b: Box, left2right: bool, topdown: bool) {
    if a.y1 == b.y1 && a.y2 == b.y2
    then if left2right then a.x2 < b.x1 else b.x2 < a.x1
    else if topdown then a.y2 <= b.y1 else b.y2 <= a.y1
  }

  /** A horizontal slice of box `b`. */
  predicate SliceOf(r: Box, b: Box) {
    r.x1 == b.x1 && r.x2 == b.x2 && b.y1 <= r.y1 < r.y2 <= b.y2
  }

  /** Rects cut from boxes (`origin[k]` is the box rect k was cut from), in
      visiting order, the slices of one box top to bottom. */
  ghost predicate InOrder(out: seq<Box>, origin: seq<Box>, left2right: bool, topdown: bool) {
    && |origin| == |out|
    && (forall k :: 0 <= k < |out| ==> SliceOf(out[k], origin[k]))
    && (forall i, j :: 0 <= i < j < |out| ==>
          Visited(origin[i], origin[j], left2right, topdown) || (origin[i] == origin[j] && out[i].y2 <= out[j].y1))
  }

  function BoxArea(w: int, h: int): int { w * h }

  /** No rect is larger than maxArea, except where a single row of it would be. */
  ghost predicate SmallSlices(out: seq<Box>, maxArea: nat) {
    forall k :: 0 <= k < |out| ==>
      out[k].x2 - out[k].x1 <= maxArea ==> BoxArea(out[k].x2 - out[k].x1, out[k].y2 - out[k].y1) <= maxArea
  }

  /** One row more would make a rect larger than maxArea, unless it ends where its box ends. */
  ghost predicate FullSlices(out: seq<Box>, origin: seq<Box>, maxArea: nat) {
    && |origin| == |out|
    && forall k :: 0 <= k < |out| && out[k].y2 != origin[k].y2 ==>
         maxArea < BoxArea(out[k].x2 - out[k].x1, out[k].y2 - out[k].y1 + 1)
  }

  /** `out` enumerates exactly the boxes `src`. */
  ghost predicate Enumerates(out: seq<Box>, origin: seq<Box>, src: seq<Box>, left2right: bool, topdown: bool,
                             maxArea: nat) {
    && InOrder(out, origin, left2right, topdown)
    && (forall k :: 0 <= k < |origin| ==> origin[k] in src)
    && (forall x, y :: Covered(out, x, y) <==> Covered(src, x, y))
    && SmallSlices(out, maxArea) && FullSlices(out, origin, maxArea)
    && (maxArea == 0 ==> out == origin && multiset(out) == multiset(src))
    && (maxArea == 0 && left2right && topdown ==> out == src)
  }

  /** Without an area limit the boxes come whole. */
  lemma WholeBoxes(out: seq<Box>, origin: seq<Box>, src: seq<Box>, left2right: bool, topdown: bool)
    requires Enumerates(out, origin, src, left2right, topdown, 0)
    ensures origin == out
  {
    hide InOrder, SmallSlices, FullSlices, Covered;
  }

  ghost predicate AllVisited(p: seq<Box>, q: seq<Box>, left2right: bool, topdown: bool) {
    forall a, b :: a in p && b in q ==> Visited(a, b, left2right, topdown)
  }

  lemma OrderBoth(out1: seq<Box>, origin1: seq<Box>, src1: seq<Box>, out2: seq<Box>, origin2: seq<Box>, src2: seq<Box>,
                  left2right: bool, topdown: bool)
    requires InOrder(out1, origin1, left2right, topdown) && InOrder(out2, origin2, left2right, topdown)
    requires forall k :: 0 <= k < |origin1| ==> origin1[k] in src1
    requires forall k :: 0 <= k < |origin2| ==> origin2[k] in src2
    requires AllVisited(src1, src2, left2right, topdown)
    ensures InOrder(out1 + out2, origin1 + origin2, left2right, topdown)
  {
    var out, origin := out1 + out2, origin1 + origin2;
    forall i, j | 0 <= i < j < |out|
      ensures Visited(origin[i], origin[j], left2right, topdown) || (origin[i] == origin[j] && out[i].y2 <= out[j].y1)
    {
      if i < |out1| <= j {
        assert origin1[i] in src1 && origin2[j - |out1|] in src2;
      }
    }
  }

  lemma CoverBoth(out1: seq<Box>, src1: seq<Box>, out2: seq<Box>, src2: seq<Box>, src: seq<Box>)
    requires forall x, y :: Covered(out1, x, y) <==> Covered(src1, x, y)
    requires forall x, y :: Covered(out2, x, y) <==> Covered(src2, x, y)
    requires src == src1 + src2 || src == src2 + src1
    ensures forall x, y :: Covered(out1 + out2, x, y) <==> Covered(src, x, y)
  {
    hide Covered;
    forall x, y ensures Covered(out1 + out2, x, y) <==> Covered(src, x, y) {
      CoveredConcat(out1, out2, x, y);
      CoveredConcat(src1, src2, x, y);
      CoveredConcat(src2, src1, x, y);
    }
  }

  /** Enumerating one part after the other. */
  lemma EnumerateBoth(out1: seq<Box>, origin1: seq<Box>, src1: seq<Box>, out2: seq<Box>, origin2: seq<Box>,
                      src2: seq<Box>, src: seq<Box>, left2right: bool, topdown: bool, maxArea: nat)
    requires Enumerates(out1, origin1, src1, left2right, topdown, maxArea)
    requires Enumerates(out2, origin2, src2, left2right, topdown, maxArea)
    requires AllVisited(src1, src2, left2right, topdown)
    requires src == src1 + src2 || (src == src2 + src1 && !(left2right && topdown))
    ensures Enumerates(out1 + out2, origin1 + origin2, src, left2right, topdown, maxArea)
  {
    OrderBoth(out1, origin1, src1, out2, origin2, src2, left2right, topdown);
    CoverBoth(out1, src1, out2, src2, src);
    hide Covered, InOrder, AllVisited;
  }

  lemma NothingEnumerated(left2right: bool, topdown: bool, maxArea: nat)
    ensures Enumerates([], [], [], left2right, topdown, maxArea)
  {
  }

  /** Slices of `b` from its top edge down to scanline y. */
  ghost predicate Sliced(slices: seq<Box>, b: Box, y: int) {
    && (forall k :: 0 <= k < |slices| ==> SliceOf(slices[k], b) && slices[k].y2 <= y)
    && (forall i, j :: 0 <= i < j < |slices| ==> slices[i].y2 <= slices[j].y1)
    && (forall x, v :: Covered(slices, x, v) <==> InBox(b, x, v) && v < y)
  }

  lemma SlicedStep(slices: seq<Box>, b: Box, y: int, y': int)
    requires NonEmptyBox(b) && Sliced(slices, b, y) && b.y1 <= y < y' <= b.y2
    ensures Sliced(slices + [Box(b.x1, y, b.x2, y')], b, y')
  {
    AddCovered(slices, Box(b.x1, y, b.x2, y'));
  }

  /** Rows per slice: as many as fit in maxArea, all of them if none fits. */
  method SliceHeight(b: Box, maxArea: nat) returns (h: int)
    requires NonEmptyBox(b)
    ensures 0 < h && (maxArea < b.x2 - b.x1 ==> h == b.y2 - b.y1)
    ensures b.x2 - b.x1 <= maxArea ==> BoxArea(b.x2 - b.x1, h) <= maxArea
    ensures b.x2 - b.x1 <= maxArea ==> maxArea < BoxArea(b.x2 - b.x1, h + 1)
  {
    h := maxArea / (b.x2 - b.x1);
    assert maxArea == (b.x2 - b.x1) * h + maxArea % (b.x2 - b.x1);
    if h == 0 { h := b.y2 - b.y1; }
  }

  lemma FewerRows(w: nat, h: nat, h': nat)
    requires h <= h'
    ensures BoxArea(w, h) <= BoxArea(w, h')
  {
    assert w * (h' - h) >= 0;
  }

  /** Slices of at most h rows down to scanline y. */
  ghost predicate Slicing(slices: seq<Box>, b: Box, y: int, h: int, maxArea: nat) {
    && NonEmptyBox(b) && b.y1 <= y <= b.y2 && 0 < h
    && Sliced(slices, b, y) && SmallSlices(slices, maxArea)
    && (b.x2 - b.x1 <= maxArea ==> BoxArea(b.x2 - b.x1, h) <= maxArea)
    && (maxArea < b.x2 - b.x1 ==>
          (y == b.y1 && slices == [] && h == b.y2 - b.y1) || (y == b.y2 && slices == [b]))
  }

  lemma SlicingStep(slices: seq<Box>, b: Box, y: int, h: int, maxArea: nat)
    requires Slicing(slices, b, y, h, maxArea) && y + h <= b.y2
    ensures Slicing(slices + [Box(b.x1, y, b.x2, y + h)], b, y + h, h, maxArea)
  {
    hide BoxArea, Sliced;
    SlicedStep(slices, b, y, y + h);
  }

  lemma SlicingLess(slices: seq<Box>, b: Box, y: int, h: int, maxArea: nat)
    requires Slicing(slices, b, y, h, maxArea) && y < b.y2 < y + h
    ensures Slicing(slices, b, y, b.y2 - y, maxArea)
  {
    hide BoxArea, Sliced, SmallSlices;
    FewerRows(b.x2 - b.x1, b.y2 - y, h);
  }

  lemma NothingSliced(b: Box, h: int, maxArea: nat)
    requires NonEmptyBox(b) && 0 < h && (maxArea < b.x2 - b.x1 ==> h == b.y2 - b.y1)
    requires b.x2 - b.x1 <= maxArea ==> BoxArea(b.x2 - b.x1, h) <= maxArea
    ensures Slicing([], b, b.y1, h, maxArea)
  {
    hide BoxArea;
  }

  /** The inner do-loop: slices of at most h rows, top to bottom. */
  method SliceBox(b: Box, left2right: bool, topdown: bool, maxArea: nat)
    returns (slices: seq<Box>, ghost from: seq<Box>)
    requires NonEmptyBox(b)
    ensures Enumerates(slices, from, [b], left2right, topdown, maxArea)
  {
    hide BoxArea, Enumerates, Slicing;
    var y := b.y1;
    var h := SliceHeight(b, maxArea);
    slices := [];
    from := [];
    NothingSliced(b, h, maxArea);
    while y < b.y2
      invariant Slicing(slices, b, y, h, maxArea) && y <= b.y2 && 0 < h
      invariant y == b.y2 || h == b.y2 - y || maxArea < BoxArea(b.x2 - b.x1, h + 1)
      invariant FullSlices(slices, from, maxArea) && forall k :: 0 <= k < |from| ==> from[k] == b
      decreases b.y2 - y
    {
      if h > b.y2 - y {
        SlicingLess(slices, b, y, h, maxArea);
        h := b.y2 - y;
      }
      SlicingStep(slices, b, y, h, maxArea);
      slices := slices + [Box(b.x1, y, b.x2, y + h)];
      from := from + [b];
      y := y + h;
    }
    OneBoxEnumerated(slices, from, b, h, left2right, topdown, maxArea);
  }

  lemma AddCovered(rs: seq<Box>, r: Box)
    ensures forall x, y :: Covered(rs + [r], x, y) <==> Covered(rs, x, y) || InBox(r, x, y)
  {
    forall x, y ensures Covered(rs + [r], x, y) <==> Covered(rs, x, y) || InBox(r, x, y) {
      CoveredConcat(rs, [r], x, y);
      assert Covered([r], x, y) <==> InBox(r, x, y) by {
        if InBox(r, x, y) { assert InBox([r][0], x, y); }
      }
    }
  }

  lemma OneBoxEnumerated(slices: seq<Box>, origin: seq<Box>, b: Box, h: int, left2right: bool, topdown: bool,
                         maxArea: nat)
    requires FullSlices(slices, origin, maxArea) && Slicing(slices, b, b.y2, h, maxArea)
    requires forall k :: 0 <= k < |slices| ==> origin[k] == b
    ensures Enumerates(slices, origin, [b], left2right, topdown, maxArea)
  {
    forall x, y ensures Covered(slices, x, y) <==> Covered([b], x, y) {
      if InBox(b, x, y) { assert InBox([b][0], x, y); }
    }
    if maxArea == 0 { assert origin == [b]; }
  }

  lemma BoxOfBanded(rs: seq<Box>, i: nat)
    requires Banded(rs) && i < |rs|
    ensures NonEmptyBox(rs[i])
  {
  }

  /** The loop over one band [a..b), left to right or right to left. */
  method EmitBand(rs: seq<Box>, a: nat, b: nat, left2right: bool, topdown: bool, maxArea: nat)
    returns (rects: seq<Box>, ghost origin: seq<Box>)
    requires Banded(rs) && IsBand(rs, a, b)
    ensures Enumerates(rects, origin, rs[a..b], left2right, topdown, maxArea)
  {
    hide Enumerates, Covered, Banded;
    NothingEnumerated(left2right, topdown, maxArea);
    var i: int := if left2right then a else b - 1;
    var xInc := if left2right then 1 else -1;
    var nRectsInBand := b - a;
    rects, origin := [], [];
    assert BandPart(rs, a, b, i, left2right) == [];
    while nRectsInBand > 0
      invariant 0 <= nRectsInBand <= b - a
      invariant i == if left2right then b - nRectsInBand else a + nRectsInBand - 1
      invariant Enumerates(rects, origin, BandPart(rs, a, b, i, left2right), left2right, topdown, maxArea)
      decreases nRectsInBand
    {
      BoxOfBanded(rs, i);
      var slices, from := SliceBox(rs[i], left2right, topdown, maxArea);
      BandStep(rs, a, b, i, left2right, topdown, maxArea, rects, origin, slices, from);
      rects := rects + slices;
      origin := origin + from;
      i := i + xInc;
      nRectsInBand := nRectsInBand - 1;
    }
    assert BandPart(rs, a, b, i, left2right) == rs[a..b];
  }

  /** The boxes of band [a..b) visited before index i. */
  function BandPart(rs: seq<Box>, a: nat, b: nat, i: int, left2right: bool): seq<Box>
    requires a <= b <= |rs| && if left2right then a <= i <= b else a <= i + 1 <= b
  {
    if left2right then rs[a..i] else rs[i + 1..b]
  }

  lemma BandStep(rs: seq<Box>, a: nat, b: nat, i: nat, left2right: bool, topdown: bool, maxArea: nat,
                 rects: seq<Box>, origin: seq<Box>, slices: seq<Box>, from: seq<Box>)
    requires Banded(rs) && IsBand(rs, a, b) && a <= i < b
    requires Enumerates(rects, origin, BandPart(rs, a, b, i, left2right), left2right, topdown, maxArea)
    requires Enumerates(slices, from, [rs[i]], left2right, topdown, maxArea)
    ensures Enumerates(rects + slices, origin + from,
                       BandPart(rs, a, b, if left2right then i + 1 else i - 1, left2right),
                       left2right, topdown, maxArea)
  {
    var src := BandPart(rs, a, b, i, left2right);
    var src' := BandPart(rs, a, b, if left2right then i + 1 else i - 1, left2right);
    assert if left2right then src' == src + [rs[i]] else src' == [rs[i]] + src;
    BandVisited(rs, a, b, i, left2right, topdown);
    EnumerateBoth(rects, origin, src, slices, from, [rs[i]], src', left2right, topdown, maxArea);
  }

  lemma BandVisited(rs: seq<Box>, a: nat, b: nat, i: nat, left2right: bool, topdown: bool)
    requires Banded(rs) && IsBand(rs, a, b) && a <= i < b
    ensures AllVisited(BandPart(rs, a, b, i, left2right), [rs[i]], left2right, topdown)
  {
    BandBounds(rs, a, b);
    var src := BandPart(rs, a, b, i, left2right);
    forall p | p in src ensures Visited(p, rs[i], left2right, topdown) {
      var k :| 0 <= k < |src| && src[k] == p;
      if left2right { assert Before(rs[a + k], rs[i]); } else { assert Before(rs[i], rs[i + 1 + k]); }
    }
  }

  /** The boxes of the bands above (or, bottom-up, below) index i. */
  function BandsPart(rs: seq<Box>, i: nat, topdown: bool): seq<Box>
    requires i <= |rs|
  {
    if topdown then rs[..i] else rs[i..]
  }

  lemma BandsStep(rs: seq<Box>, a: nat, b: nat, left2right: bool, topdown: bool, maxArea: nat,
                  rects: seq<Box>, origin: seq<Box>, band: seq<Box>, from: seq<Box>)
    requires Banded(rs) && IsBand(rs, a, b)
    requires Enumerates(rects, origin, BandsPart(rs, if topdown then a else b, topdown), left2right, topdown, maxArea)
    requires Enumerates(band, from, rs[a..b], left2right, topdown, maxArea)
    ensures Enumerates(rects + band, origin + from,
                       BandsPart(rs, if topdown then b else a, topdown), left2right, topdown, maxArea)
  {
    var src, src' := BandsPart(rs, if topdown then a else b, topdown), BandsPart(rs, if topdown then b else a, topdown);
    assert if topdown then src' == src + rs[a..b] else src' == rs[a..b] + src;
    BandsVisited(rs, a, b, left2right, topdown);
    EnumerateBoth(rects, origin, src, band, from, rs[a..b], src', left2right, topdown, maxArea);
  }

  lemma BandsVisited(rs: seq<Box>, a: nat, b: nat, left2right: bool, topdown: bool)
    requires Banded(rs) && IsBand(rs, a, b)
    ensures AllVisited(BandsPart(rs, if topdown then a else b, topdown), rs[a..b], left2right, topdown)
  {
    BandBounds(rs, a, b);
    var src := BandsPart(rs, if topdown then a else b, topdown);
    hide Banded;
    forall p, q | p in src && q in rs[a..b] ensures Visited(p, q, left2right, topdown) {
      var k :| 0 <= k < |src| && src[k] == p;
      var m :| 0 <= m < b - a && rs[a..b][m] == q;
      assert q.y1 == rs[a].y1 && q.y2 == rs[a].y2;
      if topdown { assert p == rs[k]; } else { assert p == rs[b + k]; }
    }
  }

  /** The band-counting loop of get_rects, walking down or up from index i. */
  method CountBand(rs: seq<Box>, i: nat, topdown: bool) returns (a: nat, b: nat)
    requires i < |rs|
    requires if topdown then i > 0 ==> rs[i - 1].y1 != rs[i].y1 else i + 1 < |rs| ==> rs[i + 1].y1 != rs[i].y1
    ensures IsBand(rs, a, b)
    ensures if topdown then a == i else b == i + 1
  {
    var nRects := if topdown then |rs| - i else i + 1;
    var yInc := if topdown then 1 else -1;
    var firstInNextBand: int := i;
    while nRects > 0 && rs[firstInNextBand].y1 == rs[i].y1
      invariant 0 <= nRects
      invariant nRects == if topdown then |rs| - firstInNextBand else firstInNextBand + 1
      invariant topdown ==> i <= firstInNextBand && forall k :: i <= k < firstInNextBand ==> rs[k].y1 == rs[i].y1
      invariant !topdown ==> firstInNextBand <= i && forall k :: firstInNextBand < k <= i ==> rs[k].y1 == rs[i].y1
      decreases nRects
    {
      firstInNextBand := firstInNextBand + yInc;
      nRects := nRects - 1;
    }
    a, b := if topdown then i else firstInNextBand + 1, if topdown then firstInNextBand else i + 1;
  }

  /** get_rects: bands top-down or bottom-up, boxes of a band in either direction. */
  method GetRects(region: Region, left2right: bool, topdown: bool, maxArea: nat)
    returns (rects: seq<Box>, ghost origin: seq<Box>)
    requires region.Valid()
    ensures Enumerates(rects, origin, region.rects, left2right, topdown, maxArea)
    ensures forall x, y :: Covered(rects, x, y) <==> Covered(region.rects, x, y)
    ensures SmallSlices(rects, maxArea) && FullSlices(rects, origin, maxArea)
    ensures forall k :: 0 <= k < |origin| ==> origin[k] in region.rects
    ensures maxArea == 0 ==> multiset(rects) == multiset(region.rects)
    ensures maxArea == 0 && left2right && topdown ==> rects == region.rects
  {
    NothingEnumerated(left2right, topdown, maxArea);
    hide Enumerates, Covered;
    var rs := region.rects;
    var nRects: int := |rs|;
    var i: int := if topdown then 0 else nRects - 1;
    rects, origin := [], [];
    assert BandsPart(rs, if topdown then i else i + 1, topdown) == [];
    while nRects > 0
      invariant 0 <= nRects <= |rs|
      invariant i == if topdown then |rs| - nRects else nRects - 1
      invariant topdown && 0 < i < |rs| ==> rs[i - 1].y1 != rs[i].y1
      invariant !topdown && 0 <= i < |rs| - 1 ==> rs[i + 1].y1 != rs[i].y1
      invariant 0 <= i + (if topdown then 0 else 1) <= |rs|
      invariant Enumerates(rects, origin, BandsPart(rs, if topdown then i else i + 1, topdown), left2right, topdown,
                           maxArea)
      decreases nRects
    {
      var a, b := CountBand(rs, i, topdown);
      var band, from := EmitBand(rs, a, b, left2right, topdown, maxArea);
      BandsStep(rs, a, b, left2right, topdown, maxArea, rects, origin, band, from);
      rects := rects + band;
      origin := origin + from;
      nRects := nRects - (b - a);
      i := if topdown then |rs| - nRects else nRects - 1;
    }
    assert BandsPart(rs, if topdown then i else i + 1, topdown) == rs;
    Enumerated(rects, origin, rs, left2right, topdown, maxArea);
  }

  /** What an enumeration says about the rects alone. */
  lemma Enumerated(out: seq<Box>, origin: seq<Box>, src: seq<Box>, left2right: bool, topdown: bool, maxArea: nat)
    requires Enumerates(out, origin, src, left2right, topdown, maxArea)
    ensures forall x, y :: Covered(out, x, y) <==> Covered(src, x, y)
    ensures SmallSlices(out, maxArea) && FullSlices(out, origin, maxArea)
    ensures forall k :: 0 <= k < |origin| ==> origin[k] in src
    ensures maxArea == 0 ==> multiset(out) == multiset(src)
    ensures maxArea == 0 && left2right && topdown ==> out == src
  {
  }

  /** get_rects with its default arguments lists the boxes as they are stored. */
  method AllRects(region: Region) returns (rects: seq<Box>)
    requires region.Valid()
    ensures rects == region.rects
  {
    ghost var origin;
    rects, origin := GetRects(region, true, true, 0);
  }

  // ---------------------------------------------- building from rectangles

  lemma SingleBoxCanonical(b: Box)
    requires NonEmptyBox(b)
    ensures Canonical([b], b)
    ensures forall x, y :: Covered([b], x, y) <==> InBox(b, x, y)
  {
    var rs := [b];
    assert IsStrip(rs, b.y1, b.y2);
    StripBanded(rs, b.y1, b.y2);
    assert rs[0] == b;
    forall x, y ensures Covered(rs, x, y) <==> InBox(b, x, y) {
      if InBox(b, x, y) { assert InBox(rs[0], x, y); }
    }
  }

  /** _RectRegion: a one-box region whose box is its extents; no box if empty. */
  method RectRegion(r: Box) returns (region: Region)
    ensures fresh(region) && region.Valid()
    ensures forall x, y :: Covered(region.rects, x, y) <==> InBox(r, x, y)
  {
    region := new Region();
    region.extents := r;
    if r.x1 >= r.x2 || r.y1 >= r.y2 {
      region.rects := [];
    } else {
      SingleBoxCanonical(r);
      region.rects := [r];
    }
  }

  /** clear. */
  method ClearRegion(region: Region)
    modifies region
    ensures region.Valid() && region.rects == []
  {
    region.rects := [];
    region.extents := Box(0, 0, 0, 0);
  }

  /** setOrderedRects: any list of rectangles becomes the canonical region of
      their union. */
  method SetOrderedRects(region: Region, rects: seq<Box>)
    modifies region
    ensures region.Valid()
    ensures forall x, y :: Covered(region.rects, x, y) <==> Covered(rects, x, y)
  {
    ClearRegion(region);
    for i := 0 to |rects|
      invariant region.Valid()
      invariant forall x, y :: Covered(region.rects, x, y) <==> Covered(rects[..i], x, y)
    {
      assert rects[..i + 1] == rects[..i] + [rects[i]];
      AddCovered(rects[..i], rects[i]);
      var rr := RectRegion(rects[i]);
      UnionRegion(region, rr, region);
    }
    assert rects[..|rects|] == rects;
  }
}
