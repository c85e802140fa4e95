/** Writing a framebuffer update: copies, solid areas, then tiles of the rest. */
module EncodeManagement {
  import opened Arithmetic
  import opened Banding
  import opened XRegion
  import opened RegionAlgebra
  import opened RegionRects
  import opened PixelBuffers
  import opened RegionCopy
  import opened UpdateMessages
  import opened RawEncoding
  import opened SolidSearch

  const SUB_RECT_MAX_AREA := 65536
  const SUB_RECT_MAX_WIDTH := 2048
  const SOLID_BLOCK_MIN_AREA := 2048

  // ----------------------------------------------------------------- tiling

  /** No split necessary? */
  predicate FitsWhole(r: Rect) {
    Width(r) * Height(r) < 65536 && Width(r) < 2048
  }

  function TileWidth(r: Rect): int {
    if Width(r) <= 2048 then Width(r) else 2048
  }

  function TileHeight(r: Rect): int
    requires NonEmptyBox(r)
  {
    65536 / TileWidth(r)
  }

  predicate SmallTile(t: Rect) {
    NonEmptyBox(t) && Width(t) <= 2048 && Width(t) * Height(t) <= 65536
  }

  /** Rectangles that partition the area r. */
  ghost predicate Partition(rs: seq<Rect>, r: Rect) {
    && Disjoint(rs)
    && forall x, y :: Covered(rs, x, y) <==> InBox(r, x, y)
  }

  lemma DisjointBoth(a: seq<Rect>, b: seq<Rect>)
    requires Disjoint(a) && Disjoint(b)
    requires forall x, y :: Covered(a, x, y) ==> !Covered(b, x, y)
    ensures Disjoint(a + b)
  {
    var c := a + b;
    forall i, j, x, y | 0 <= i < j < |c| && InBox(c[i], x, y) ensures !InBox(c[j], x, y) {
      if i < |a| <= j {
        assert InBox(a[i], x, y);
        assert Covered(a, x, y);
        assert c[j] == b[j - |a|];
      } else if j >= |a| {
        assert c[j] == b[j - |a|] && c[i] == b[i - |a|];
      }
    }
  }

  /** Two neighbouring areas, each partitioned. */
  lemma PartitionBoth(a: seq<Rect>, ra: Rect, b: seq<Rect>, rb: Rect, r: Rect)
    requires Partition(a, ra) && Partition(b, rb)
    requires forall x, y :: InBox(r, x, y) <==> InBox(ra, x, y) || InBox(rb, x, y)
    requires forall x, y :: InBox(ra, x, y) ==> !InBox(rb, x, y)
    ensures Partition(a + b, r)
  {
    hide Covered, Disjoint;
    DisjointBoth(a, b);
    forall x, y ensures Covered(a + b, x, y) <==> InBox(r, x, y) {
      CoveredConcat(a, b, x, y);
    }
  }

  lemma PartitionOne(r: Rect)
    ensures Partition([r], r)
  {
    forall x, y ensures Covered([r], x, y) <==> InBox(r, x, y) {
      if InBox(r, x, y) { assert InBox([r][0], x, y); }
    }
  }

  // ------------------------------------------------------- counting the tiles

  /** How many steps of size d a loop from lo to hi takes. */
  function Steps(lo: int, hi: int, d: int): nat
    requires d > 0
    decreases hi - lo
  {
    if lo >= hi then 0 else 1 + Steps(lo + d, hi, d)
  }

  /** ceil((hi - lo) / d), as computeNumRects writes it. */
  lemma {:induction false} StepsFormula(lo: int, hi: int, d: int)
    requires d > 0 && lo < hi
    ensures Steps(lo, hi, d) == (hi - lo - 1) / d + 1
    decreases hi - lo
  {
    if lo + d < hi {
      StepsFormula(lo + d, hi, d);
      QuotientStep(hi - lo - 1 - d, d);
    } else {
      assert Steps(lo + d, hi, d) == 0;
      SmallQuotient(hi - lo - 1, d);
    }
  }

  lemma QuotientStep(n: int, d: int)
    requires d > 0 && n >= 0
    ensures (n + d) / d == n / d + 1
  {
    var q := n / d;
    assert n == q * d + n % d;
    var k := (n + d) / d;
    assert n + d == k * d + (n + d) % d;
    if k < q + 1 { ProductStep(k, q + 1, d); }
    if q + 1 < k { ProductStep(q + 1, k, d); }
  }

  lemma SmallQuotient(n: int, d: int)
    requires 0 <= n < d
    ensures n / d == 0
  {
  }

  /** The number of tiles a rectangle is sent as. */
  function TileCount(r: Rect): nat
    requires NonEmptyBox(r)
  {
    if FitsWhole(r) then 1
    else if TileHeight(r) <= 0 then 0
    else Steps(r.y1, r.y2, TileHeight(r)) * Steps(r.x1, r.x2, TileWidth(r))
  }

  function TileCounts(rs: seq<Rect>): nat
    requires forall i :: 0 <= i < |rs| ==> NonEmptyBox(rs[i])
  {
    if rs == [] then 0 else TileCounts(rs[..|rs| - 1]) + TileCount(rs[|rs| - 1])
  }

  lemma TileSize(r: Rect)
    requires NonEmptyBox(r)
    ensures 0 < TileWidth(r) <= SUB_RECT_MAX_WIDTH && 0 < TileHeight(r)
    ensures TileWidth(r) * TileHeight(r) <= SUB_RECT_MAX_AREA
  {
    var w, h := TileWidth(r), TileHeight(r);
    assert SUB_RECT_MAX_AREA == w * h + SUB_RECT_MAX_AREA % w;
  }

  lemma SmallerProduct(a: int, b: int, c: int, d: int)
    requires 0 <= a <= c && 0 <= b <= d
    ensures a * b <= c * d
  {
    assert (c - a) * b >= 0 && c * (d - b) >= 0;
  }

  /** Data rectangles that bring exactly the area r up to date, each small enough. */
  ghost predicate Tiled(msgs: seq<Msg>, fb: Picture, r: Rect) {
    && AllDeliver(msgs, fb)
    && (forall i :: 0 <= i < |msgs| ==> msgs[i].DataMsg? && SmallTile(msgs[i].r))
    && Partition(Rects(msgs), r)
  }

  lemma NothingTiled(fb: Picture, r: Rect)
    requires IsEmpty(r)
    ensures Tiled([], fb, r)
  {
  }

  lemma TiledBoth(a: seq<Msg>, ra: Rect, b: seq<Msg>, rb: Rect, r: Rect, fb: Picture)
    requires Tiled(a, fb, ra) && Tiled(b, fb, rb)
    requires forall x, y :: InBox(r, x, y) <==> InBox(ra, x, y) || InBox(rb, x, y)
    requires forall x, y :: InBox(ra, x, y) ==> !InBox(rb, x, y)
    ensures Tiled(a + b, fb, r)
  {
    hide Partition, Delivers;
    PartitionBoth(Rects(a), ra, Rects(b), rb, r);
    assert Rects(a + b) == Rects(a) + Rects(b);
  }

  lemma TiledOne(m: Msg, fb: Picture)
    requires Delivers(m, fb) && m.DataMsg? && SmallTile(m.r)
    ensures Tiled([m], fb, m.r)
  {
    hide Partition, Delivers;
    PartitionOne(m.r);
    assert Rects([m]) == [m.r];
  }

  // ---------------------------------------------------------------- the sender

  class EncodeManager {
    /** What has been written of the update so far, and the announced count. */
    var out: seq<Msg>
    var announced: int
    const supportsLastRect: bool

    constructor (lastRect: bool)
      ensures out == [] && supportsLastRect == lastRect
    {
      out := [];
      announced := 0;
      supportsLastRect := lastRect;
    }

    /** writeSubRect, for an encoder that delivers the exact pixels. */
    method WriteSubRect(r: Rect, pb: PixelBuffer) returns (ghost added: seq<Msg>)
      requires pb.Valid() && EnclosedBy(r, pb.GetRect()) && SmallTile(r)
      modifies this`out
      ensures out == old(out) + added && |added| == 1 && Tiled(added, pb.View(), r)
    {
      var image := RawEncode(pb, r);
      added := [DataMsg(r, pb.size, image)];
      TiledOne(DataMsg(r, pb.size, image), pb.View());
      out := out + [DataMsg(r, pb.size, image)];
    }

    /** The inner loop of writeRects: one row of tiles. */
    method WriteTileRow(row: Rect, sw: int, pb: PixelBuffer) returns (ghost added: seq<Msg>)
      requires pb.Valid() && EnclosedBy(row, pb.GetRect()) && NonEmptyBox(row)
      requires 0 < sw <= SUB_RECT_MAX_WIDTH && sw * Height(row) <= SUB_RECT_MAX_AREA
      modifies this`out
      ensures out == old(out) + added && |added| == Steps(row.x1, row.x2, sw) && Tiled(added, pb.View(), row)
    {
      hide Tiled;
      added := [];
      var x := row.x1;
      NothingTiled(pb.View(), row.(x2 := x));
      ghost var end := x;
      while x < row.x2
        invariant row.x1 <= x && end == Min(x, row.x2)
        invariant out == old(out) + added && |added| + Steps(x, row.x2, sw) == Steps(row.x1, row.x2, sw)
        invariant Tiled(added, pb.View(), row.(x2 := end))
        decreases row.x2 - x
      {
        var sr := Box(x, row.y1, x + sw, row.y2);
        if sr.x2 > row.x2 { sr := sr.(x2 := row.x2); }
        SmallerProduct(Width(sr), Height(sr), sw, Height(row));
        var tile := WriteSubRect(sr, pb);
        TiledBoth(added, row.(x2 := end), tile, sr, row.(x2 := sr.x2), pb.View());
        added := added + tile;
        end := sr.x2;
        x := x + sw;
      }
      assert row.(x2 := end) == row;
    }

    /** writeRects for one rectangle: whole if small, else in tiles. */
    method WriteOneRect(r: Rect, pb: PixelBuffer) returns (ghost added: seq<Msg>)
      requires pb.Valid() && EnclosedBy(r, pb.GetRect()) && NonEmptyBox(r)
      modifies this`out
      ensures out == old(out) + added && |added| == TileCount(r) && Tiled(added, pb.View(), r)
    {
      if Width(r) * Height(r) < SUB_RECT_MAX_AREA && Width(r) < SUB_RECT_MAX_WIDTH {
        added := WriteSubRect(r, pb);
        return;
      }
      TileSize(r);
      var sw := if Width(r) <= SUB_RECT_MAX_WIDTH then Width(r) else SUB_RECT_MAX_WIDTH;
      added := WriteTiles(r, sw, SUB_RECT_MAX_AREA / sw, pb);
      TimesIsProduct(Steps(r.y1, r.y2, TileHeight(r)), Steps(r.x1, r.x2, TileWidth(r)));
    }

    /** The outer loop of writeRects. */
    method WriteTiles(r: Rect, sw: int, sh: int, pb: PixelBuffer) returns (ghost added: seq<Msg>)
      requires pb.Valid() && EnclosedBy(r, pb.GetRect()) && NonEmptyBox(r)
      requires 0 < sw <= SUB_RECT_MAX_WIDTH && 0 < sh && sw * sh <= SUB_RECT_MAX_AREA
      modifies this`out
      ensures out == old(out) + added && Tiled(added, pb.View(), r)
      ensures |added| == Times(Steps(r.y1, r.y2, sh), Steps(r.x1, r.x2, sw))
    {
      hide Tiled;
      added := [];
      var y := r.y1;
      NothingTiled(pb.View(), r.(y2 := y));
      ghost var end, rows: nat := y, 0;
      while y < r.y2
        invariant r.y1 <= y && end == Min(y, r.y2)
        invariant out == old(out) + added && rows + Steps(y, r.y2, sh) == Steps(r.y1, r.y2, sh)
        invariant |added| == Times(rows, Steps(r.x1, r.x2, sw))
        invariant Tiled(added, pb.View(), r.(y2 := end))
        decreases r.y2 - y
      {
        var sr := Box(r.x1, y, r.x2, y + sh);
        if sr.y2 > r.y2 { sr := sr.(y2 := r.y2); }
        SmallerProduct(sw, Height(sr), sw, sh);
        var row := WriteTileRow(sr, sw, pb);
        TiledBoth(added, r.(y2 := end), row, sr, r.(y2 := sr.y2), pb.View());
        added := added + row;
        end := sr.y2;
        rows := rows + 1;
        y := y + sh;
      }
      assert r.(y2 := end) == r;
    }

    /** One turn of the loop of writeRects. */
    method WriteNextRect(rs: seq<Rect>, k: nat, pb: PixelBuffer, ghost sofar: seq<Msg>) returns (ghost added: seq<Msg>)
      requires pb.Valid() && k < |rs| && Banded(rs) && InsideBuffer(rs, pb.GetRect())
      requires DataSent(sofar, pb.View(), rs[..k])
      modifies this`out
      ensures out == old(out) + added
      ensures DataSent(sofar + added, pb.View(), rs[..k + 1])
    {
      RectInside(rs, k, pb.GetRect());
      added := WriteOneRect(rs[k], pb);
      SentNext(sofar, added, pb.View(), rs, k);
      assert rs[..k + 1][..k] == rs[..k];
    }

    /** writeRects. */
    method WriteRects(changed: Region, pb: PixelBuffer) returns (ghost added: seq<Msg>)
      requires pb.Valid() && changed.Valid() && InsideBuffer(changed.rects, pb.GetRect())
      modifies this`out
      ensures out == old(out) + added
      ensures DataSent(added, pb.View(), changed.rects)
    {
      var rects := AllRects(changed);
      added := [];
      NothingSent(pb.View());
      assert rects[..0] == [];
      hide DataSent;
      for k := 0 to |rects|
        invariant out == old(out) + added
        invariant DataSent(added, pb.View(), rects[..k])
      {
        var more := WriteNextRect(rects, k, pb, added);
        added := added + more;
      }
      assert rects[..|rects|] == rects;
    }

    /** computeNumRects counts, by division, the tiles writeRects will write. */
    method ComputeNumRects(changed: Region) returns (numRects: nat)
      requires changed.Valid()
      ensures numRects == TileCounts(changed.rects)
    {
      var rects := AllRects(changed);
      numRects := 0;
      for k := 0 to |rects|
        invariant numRects == TileCounts(rects[..k])
      {
        var n := CountTiles(rects[k]);
        assert rects[..k + 1][..k] == rects[..k];
        numRects := numRects + n;
      }
      assert rects[..|rects|] == rects;
    }

    /** The search of writeSolidRects in one rectangle; it stops at the first area found. */
    method FindSolid(r: Rect, pb: PixelBuffer) returns (found: bool, erp: Rect, colour: Pixel)
      requires pb.Valid() && EnclosedBy(r, pb.GetRect()) && NonEmptyBox(r)
      ensures found ==> NonEmptyBox(erp) && EnclosedBy(erp, r)
      ensures found ==> erp == r || AreaOf(Width(erp), Height(erp)) >= SOLID_BLOCK_MIN_AREA
      ensures found ==> Solid(pb.View(), erp, colour) && Maximal(pb.View(), r, erp, colour)
      ensures !found ==> OfManyColours(pb.View(), r)
      ensures !found ==> forall dx, dy :: Seed(r, dx, dy) ==> NoneWorthwhile(pb.View(), r, dx, dy)
    {
      hide Solid, NoneWorthwhile, Maximal, AreaOf, PixelBuffer.View;
      var dy := r.y1;
      while dy < r.y2
        invariant r.y1 <= dy && (dy - r.y1) % SOLID_SEARCH_BLOCK == 0
        invariant NoneAbove(pb.View(), r, dy) && (dy > r.y1 ==> OfManyColours(pb.View(), r))
        decreases r.y2 - dy
      {
        found, erp, colour := FindInRow(r, dy, pb);
        if found { return; }
        RowSearched(pb.View(), r, dy);
        dy := dy + SOLID_SEARCH_BLOCK;
      }
      found, erp, colour := false, r, [];
    }

    /** The inner loop of the search: the seed blocks of one row. */
    method FindInRow(r: Rect, dy: int, pb: PixelBuffer) returns (found: bool, erp: Rect, colour: Pixel)
      requires pb.Valid() && EnclosedBy(r, pb.GetRect()) && r.x1 < r.x2 && r.y1 <= dy < r.y2
      ensures found ==> NonEmptyBox(erp) && EnclosedBy(erp, r)
      ensures found ==> erp == r || AreaOf(Width(erp), Height(erp)) >= SOLID_BLOCK_MIN_AREA
      ensures found ==> Solid(pb.View(), erp, colour) && Maximal(pb.View(), r, erp, colour)
      ensures !found ==> forall dx :: Seed(r, dx, dy) ==> NoneWorthwhile(pb.View(), r, dx, dy)
      ensures !found && dy == r.y1 ==> OfManyColours(pb.View(), r)
    {
      hide Solid, NoneWorthwhile, Maximal, AreaOf, PixelBuffer.View;
      var dh := SOLID_SEARCH_BLOCK;
      if dy + dh > r.y2 { dh := r.y2 - dy; }
      var dx := r.x1;
      while dx < r.x2
        invariant r.x1 <= dx && (dx - r.x1) % SOLID_SEARCH_BLOCK == 0
        invariant forall u :: Seed(r, u, dy) && u < dx ==> NoneWorthwhile(pb.View(), r, u, dy)
        invariant dx > r.x1 && dy == r.y1 ==> OfManyColours(pb.View(), r)
        decreases r.x2 - dx
      {
        found, erp, colour := SolidFrom(r, dx, dy, dh, pb);
        if found { return; }
        dx := dx + SOLID_SEARCH_BLOCK;
      }
      found, erp, colour := false, r, [];
    }

    /** One seed block of the search. */
    method SolidFrom(r: Rect, dx: int, dy: int, dh: int, pb: PixelBuffer)
      returns (found: bool, erp: Rect, colour: Pixel)
      requires pb.Valid() && EnclosedBy(r, pb.GetRect())
      requires r.x1 <= dx < r.x2 && r.y1 <= dy < r.y2 && dh == Min(SOLID_SEARCH_BLOCK, r.y2 - dy)
      ensures found ==> NonEmptyBox(erp) && EnclosedBy(erp, r)
      ensures found ==> erp == r || AreaOf(Width(erp), Height(erp)) >= SOLID_BLOCK_MIN_AREA
      ensures found ==> Solid(pb.View(), erp, colour) && Maximal(pb.View(), r, erp, colour)
      ensures !found ==> NoneWorthwhile(pb.View(), r, dx, dy)
      ensures !found && dx == r.x1 && dy == r.y1 ==> OfManyColours(pb.View(), r)
    {
      hide Solid, NoneLarger, AreaOf, NoneWorthwhile, ByteCount, RowStart, PixelBuffer.View;
      var dw := SOLID_SEARCH_BLOCK;
      if dx + dw > r.x2 { dw := r.x2 - dx; }
      var start := ByteCount(dx, pb.size) + RowStart(dy, pb.Pitch());
      PixelBytes(pb, dx, dy);
      colour := pb.data[start..start + pb.size];
      erp := r;
      var solid := CheckSolidTile(XYWH(dx, dy, dw, dh), colour, pb);
      if !solid {
        NoSolidSeed(pb.View(), r, dx, dy, colour);
        return false, erp, colour;
      }
      var erb := ExtendSolidAreaByBlock(Box(dx, dy, r.x2, r.y2), colour, pb);
      if erb == r {
        return true, erb, colour;
      }
      NotAllSolid(pb.View(), r, dx, dy, colour, erb);
      if Width(erb) * Height(erb) < SOLID_BLOCK_MIN_AREA {
        TooSmall(pb.View(), r, dx, dy, colour, erb);
        return false, erp, colour;
      }
      erp := ExtendSolidAreaByPixel(r, erb, colour, pb);
      LargerArea(erb, erp);
      found := true;
    }

    /** One turn of the loop of writeSolidRects. */
    method WriteNextSolid(changed: Region, rs: seq<Rect>, k: nat, pb: PixelBuffer, ghost sofar: seq<Msg>)
      returns (ghost added: seq<Msg>)
      requires pb.Valid() && changed.Valid() && k < |rs| && Banded(rs) && InsideBuffer(rs, pb.GetRect())
      requires SolidSent(sofar, pb.View(), rs[..k], rs, changed.rects) && Searched(sofar, pb.View(), rs[..k])
      modifies this`out, changed
      ensures changed.Valid() && out == old(out) + added
      ensures SolidSent(sofar + added, pb.View(), rs[..k + 1], rs, changed.rects)
      ensures Searched(sofar + added, pb.View(), rs[..k + 1])
    {
      hide Searched, SolidSent, Seed, NoneWorthwhile, OfManyColours, Maximal, Solid, AreaOf, Canonical;
      hide PixelBuffer.View;
      RectInside(rs, k, pb.GetRect());
      var found, erp, colour := FindSolid(rs[k], pb);
      added := [];
      ghost var before := changed.rects;
      if found {
        added := [SolidMsg(erp, colour)];
        out := out + [SolidMsg(erp, colour)];
        var tmp := RectRegion(erp);
        SubtractRegion(changed, tmp, changed);
        SolidNext(sofar, erp, colour, pb.View(), rs, k, before, changed.rects);
        SearchedNext(sofar, SolidMsg(erp, colour), pb.View(), rs, k);
      } else {
        SolidSkip(sofar, pb.View(), rs, k, before);
        SearchedSkip(sofar, pb.View(), rs, k);
        assert sofar + added == sofar;
      }
    }

    /** writeSolidRects: one solid area in every rectangle in which the search finds
        one, taken out of `changed`. */
    method WriteSolidRects(changed: Region, pb: PixelBuffer) returns (ghost added: seq<Msg>)
      requires pb.Valid() && changed.Valid() && InsideBuffer(changed.rects, pb.GetRect())
      modifies this`out, changed
      ensures changed.Valid() && out == old(out) + added
      ensures SolidSent(added, pb.View(), old(changed.rects), old(changed.rects), changed.rects)
      ensures Searched(added, pb.View(), old(changed.rects))
    {
      hide SolidSent, Searched, Canonical, InsideBuffer, Covered, Banded, PixelBuffer.View;
      var rects := AllRects(changed);
      added := [];
      NothingSolid(pb.View(), changed.rects);
      NothingSearched(pb.View());
      ValidBanded(changed);
      assert rects[..0] == [];
      for k := 0 to |rects|
        invariant changed.Valid() && out == old(out) + added
        invariant SolidSent(added, pb.View(), rects[..k], rects, changed.rects)
        invariant Searched(added, pb.View(), rects[..k])
      {
        var more := WriteNextSolid(changed, rects, k, pb, added);
        added := added + more;
      }
      assert rects[..|rects|] == rects;
    }

    /** writeCopyRects, in the direction that never overwrites a source too early. */
    method WriteCopyRects(copied: Region, delta: Point) returns (ghost rects: seq<Rect>)
      requires copied.Valid()
      modifies this`out
      ensures Enumerates(rects, rects, copied.rects, delta.x <= 0, delta.y <= 0, 0)
      ensures out == old(out) + CopyMsgs(rects, delta)
    {
      hide Enumerates;
      var rs, origin := GetRects(copied, delta.x <= 0, delta.y <= 0, 0);
      WholeBoxes(rs, origin, copied.rects, delta.x <= 0, delta.y <= 0);
      rects := rs;
      for k := 0 to |rs|
        invariant out == old(out) + CopyMsgs(rs, delta)[..k]
      {
        out := out + [CopyMsg(rs[k], rs[k].x1 - delta.x, rs[k].y1 - delta.y)];
      }
    }

    /** The solid areas of `changed`, taken out of it if the client knows LastRect. */
    method WriteSolidPart(changed: Region, pb: PixelBuffer) returns (ghost solid: seq<Msg>)
      requires pb.Valid() && changed.Valid() && InsideBuffer(changed.rects, pb.GetRect())
      modifies this`out, changed
      ensures changed.Valid() && InsideBuffer(changed.rects, pb.GetRect())
      ensures out == old(out) + solid
      ensures SolidSent(solid, pb.View(), old(changed.rects), old(changed.rects), changed.rects)
      ensures supportsLastRect ==> Searched(solid, pb.View(), old(changed.rects))
      ensures !supportsLastRect ==> solid == [] && changed.rects == old(changed.rects)
    {
      hide SolidSent, Searched, Canonical, Covered;
      ghost var all := changed.rects;
      solid := [];
      NothingSolid(pb.View(), all);
      NothingSeen(pb.View(), all);
      if supportsLastRect {
        solid := WriteSolidRects(changed, pb);
      }
      SolidInside(solid, pb.View(), all, changed.rects, pb.GetRect());
    }

    /** The changed area: solid areas, then the rest. */
    method WriteChanged(uiChanged: Region, pb: PixelBuffer) returns (ghost rest: seq<Msg>)
      requires pb.Valid() && uiChanged.Valid() && InsideBuffer(uiChanged.rects, pb.GetRect())
      modifies this`out
      ensures out == old(out) + rest && Sent(rest, pb.View(), uiChanged.rects)
      ensures supportsLastRect ==> Searched(rest, pb.View(), uiChanged.rects)
      ensures !supportsLastRect ==> OnlyData(rest) && |rest| == TileCounts(uiChanged.rects)
    {
      hide Searched, OnlyData, SolidSent, DataSent, Sent, Canonical, InsideBuffer, Covered, TileCounts;
      hide PixelBuffer.View;
      var changed := CopyFrom(uiChanged);
      var solid := WriteSolidPart(changed, pb);
      var data := WriteRects(changed, pb);
      DataCount(data, pb.View(), changed.rects);
      rest := solid + data;
      assert solid == [] ==> rest == data;
      if supportsLastRect { SearchedData(solid, data, pb.View(), uiChanged.rects); }
      SentBoth(solid, data, pb.View(), uiChanged.rects, changed.rects);
    }

    /** writeUpdate: announce, copy, then send the changed area.  A server-side
        cursor comes last. */
    method WriteUpdate(uiChanged: Region, uiCopied: Region, delta: Point, pb: PixelBuffer, cursor: seq<Msg>)
      returns (ghost copies: seq<Rect>, ghost rest: seq<Msg>)
      requires pb.Valid() && uiChanged.Valid() && uiCopied.Valid()
      requires InsideBuffer(uiChanged.rects, pb.GetRect()) && |cursor| <= 1
      modifies this
      ensures out == CopyMsgs(copies, delta) + rest + cursor
      ensures Enumerates(copies, copies, uiCopied.rects, delta.x <= 0, delta.y <= 0, 0)
      ensures Sent(rest, pb.View(), uiChanged.rects)
      ensures if supportsLastRect then Searched(rest, pb.View(), uiChanged.rects) else OnlyData(rest)
      ensures announced == if supportsLastRect then 0xFFFF else |out|
    {
      hide Sent, Searched, OnlyData, Covered, Enumerates, InsideBuffer, Canonical;
      out := [];
      if supportsLastRect {
        announced := 0xFFFF;
      } else {
        var n := ComputeNumRects(uiChanged);
        announced := |uiCopied.rects| + n + |cursor|;
      }
      copies := WriteCopyRects(uiCopied, delta);
      CopyCount(copies, uiCopied.rects, delta);
      rest := WriteChanged(uiChanged, pb);
      out := out + cursor;
    }
  }

  // ----------------------------------------------- what the search passes over

  /** A corner at which writeSolidRects starts to look in r. */
  predicate Seed(r: Rect, dx: int, dy: int) {
    && r.x1 <= dx < r.x2 && (dx - r.x1) % 16 == 0
    && r.y1 <= dy < r.y2 && (dy - r.y1) % 16 == 0
  }

  /** No single-coloured area of whole blocks at this corner is worth a solid rectangle. */
  ghost predicate NoneWorthwhile(img: Picture, r: Rect, dx: int, dy: int) {
    NoneLargerAnyColour(img, Box(dx, dy, r.x2, r.y2), r.y2 - dy, 2047)
  }

  ghost predicate NoneLargerAnyColour(img: Picture, r: Rect, h: int, best: int) {
    forall c :: NoneLarger(img, r, h, c, best)
  }

  /** No seed above dy led to anything. */
  ghost predicate NoneAbove(img: Picture, r: Rect, dy: int) {
    forall u, v :: Seed(r, u, v) && v < dy ==> NoneWorthwhile(img, r, u, v)
  }

  lemma RowSearched(img: Picture, r: Rect, dy: int)
    requires NoneAbove(img, r, dy) && (dy - r.y1) % SOLID_SEARCH_BLOCK == 0
    requires forall dx :: Seed(r, dx, dy) ==> NoneWorthwhile(img, r, dx, dy)
    ensures NoneAbove(img, r, dy + SOLID_SEARCH_BLOCK)
  {
    hide NoneWorthwhile;
    forall u, v | Seed(r, u, v) && v < dy + SOLID_SEARCH_BLOCK ensures NoneWorthwhile(img, r, u, v) {
      assert v <= dy;
    }
  }

  ghost predicate OfManyColours(img: Picture, r: Rect) {
    forall c :: !Solid(img, r, c)
  }

  /** The colour of an area is that of its corner. */
  lemma CornerColour(img: Picture, x: int, y: int, w: int, h: int, c: Pixel)
    requires w > 0 && h > 0 && Solid(img, XYWH(x, y, w, h), c)
    ensures c == img(x, y)
  {
    assert InBox(XYWH(x, y, w, h), x, y);
  }

  lemma NoSolidSeed(img: Picture, r: Rect, dx: int, dy: int, colour: Pixel)
    requires r.x1 <= dx < r.x2 && r.y1 <= dy < r.y2 && colour == img(dx, dy)
    requires !Solid(img, XYWH(dx, dy, Min(SOLID_SEARCH_BLOCK, r.x2 - dx), Min(SOLID_SEARCH_BLOCK, r.y2 - dy)), colour)
    ensures NoneWorthwhile(img, r, dx, dy)
    ensures dx == r.x1 && dy == r.y1 ==> OfManyColours(img, r)
  {
    var block := XYWH(dx, dy, Min(SOLID_SEARCH_BLOCK, r.x2 - dx), Min(SOLID_SEARCH_BLOCK, r.y2 - dy));
    forall w, h, c | InBlocks(w, r.x2 - dx) && InBlocks(h, r.y2 - dy) ensures !Solid(img, XYWH(dx, dy, w, h), c) {
      if Solid(img, XYWH(dx, dy, w, h), c) {
        CornerColour(img, dx, dy, w, h, c);
        SolidPart(img, XYWH(dx, dy, w, h), block, c);
      }
    }
    if dx == r.x1 && dy == r.y1 {
      forall c ensures !Solid(img, r, c) { assert XYWH(dx, dy, r.x2 - dx, r.y2 - dy) == r; }
    }
  }

  /** If all of r had one colour, the area found would have been r. */
  lemma NotAllSolid(img: Picture, r: Rect, dx: int, dy: int, colour: Pixel, erb: Rect)
    requires r.x1 <= dx < r.x2 && r.y1 <= dy < r.y2 && colour == img(dx, dy) && erb != r
    requires erb.x1 == dx && erb.y1 == dy && erb.x1 <= erb.x2 <= r.x2 && erb.y1 <= erb.y2 <= r.y2
    requires NoneLarger(img, Box(dx, dy, r.x2, r.y2), r.y2 - dy, colour, AreaOf(Width(erb), Height(erb)))
    ensures dx == r.x1 && dy == r.y1 ==> OfManyColours(img, r)
  {
    hide Solid;
    if dx == r.x1 && dy == r.y1 {
      SmallerArea(Width(erb), Height(erb), Width(r), Height(r));
      forall c ensures !Solid(img, r, c) {
        assert XYWH(dx, dy, Width(r), Height(r)) == r;
        if Solid(img, r, c) { CornerColour(img, dx, dy, Width(r), Height(r), c); }
      }
    }
  }

  lemma SmallerArea(w: int, h: int, w': int, h': int)
    requires 0 <= w <= w' && 0 <= h <= h' && (w, h) != (w', h') && w' > 0 && h' > 0
    ensures AreaOf(w, h) < AreaOf(w', h')
  {
    if w < w' { SmallerProduct(w, h, w' - 1, h'); } else { SmallerProduct(w, h, w', h' - 1); }
  }

  lemma TooSmall(img: Picture, r: Rect, dx: int, dy: int, colour: Pixel, erb: Rect)
    requires r.x1 <= dx < r.x2 && r.y1 <= dy < r.y2 && colour == img(dx, dy)
    requires Width(erb) * Height(erb) < SOLID_BLOCK_MIN_AREA
    requires NoneLarger(img, Box(dx, dy, r.x2, r.y2), r.y2 - dy, colour, AreaOf(Width(erb), Height(erb)))
    ensures NoneWorthwhile(img, r, dx, dy)
  {
    assert AreaOf(Width(erb), Height(erb)) <= SOLID_BLOCK_MIN_AREA - 1;
    hide Solid, AreaOf;
    forall w, h, c | InBlocks(w, r.x2 - dx) && InBlocks(h, r.y2 - dy) && Solid(img, XYWH(dx, dy, w, h), c)
      ensures AreaOf(w, h) <= SOLID_BLOCK_MIN_AREA - 1
    {
      CornerColour(img, dx, dy, w, h, c);
    }
  }

  lemma LargerArea(erb: Rect, erp: Rect)
    requires EnclosedBy(erb, erp) && NonEmptyBox(erb) && Width(erb) * Height(erb) >= SOLID_BLOCK_MIN_AREA
    ensures AreaOf(Width(erp), Height(erp)) >= SOLID_BLOCK_MIN_AREA
  {
    SmallerProduct(Width(erb), Height(erb), Width(erp), Height(erp));
  }

  // ------------------------------------------------ solid areas that are sent

  /** A solid rectangle for the box r: all of it, or large enough, and not extensible. */
  ghost predicate Worthwhile(fb: Picture, r: Rect, m: Msg) {
    && m.SolidMsg? && NonEmptyBox(m.r) && EnclosedBy(m.r, r)
    && (m.r == r || AreaOf(Width(m.r), Height(m.r)) >= 2048)
    && Solid(fb, m.r, m.colour) && Maximal(fb, r, m.r, m.colour)
  }

  /** The search of writeSolidRects finds nothing in r. */
  ghost predicate Fruitless(fb: Picture, r: Rect) {
    OfManyColours(fb, r) && forall dx, dy :: Seed(r, dx, dy) ==> NoneWorthwhile(fb, r, dx, dy)
  }

  ghost predicate SolidWithin(m: Msg, r: Rect) {
    m.SolidMsg? && EnclosedBy(m.r, r)
  }

  /** Message i is the one solid rectangle in r. */
  ghost predicate OnlySolid(msgs: seq<Msg>, i: int, fb: Picture, r: Rect) {
    && 0 <= i < |msgs| && Worthwhile(fb, r, msgs[i])
    && forall j :: 0 <= j < |msgs| && SolidWithin(msgs[j], r) ==> j == i
  }

  /** One solid rectangle is sent in r, or none and there is none to be found. */
  ghost predicate SolidDone(msgs: seq<Msg>, fb: Picture, r: Rect) {
    || (exists i :: OnlySolid(msgs, i, fb, r))
    || (Fruitless(fb, r) && forall j :: 0 <= j < |msgs| ==> !SolidWithin(msgs[j], r))
  }

  ghost predicate AllSolidDone(msgs: seq<Msg>, fb: Picture, rs: seq<Box>) {
    forall k :: 0 <= k < |rs| ==> SolidDone(msgs, fb, rs[k])
  }

  /** Every solid rectangle lies in one of the boxes. */
  ghost predicate SolidsPlaced(msgs: seq<Msg>, rs: seq<Box>) {
    forall i :: 0 <= i < |msgs| && msgs[i].SolidMsg? ==> NonEmptyBox(msgs[i].r) && Placed(msgs[i].r, rs)
  }

  ghost predicate Placed(r: Rect, rs: seq<Box>) {
    exists k :: 0 <= k < |rs| && EnclosedBy(r, rs[k])
  }

  /** The search has been through the boxes rs. */
  ghost predicate Searched(msgs: seq<Msg>, fb: Picture, rs: seq<Box>) {
    AllSolidDone(msgs, fb, rs) && SolidsPlaced(msgs, rs)
  }

  lemma InOneBox(r: Rect, a: Box, b: Box)
    requires NonEmptyBox(r) && EnclosedBy(r, a) && (Before(a, b) || Before(b, a))
    ensures !EnclosedBy(r, b)
  {
  }

  /** A rectangle in one of the first boxes is not in the next one. */
  lemma NotPlaced(r: Rect, rs: seq<Box>, k: nat)
    requires Banded(rs) && k < |rs| && NonEmptyBox(r) && Placed(r, rs[..k])
    ensures !EnclosedBy(r, rs[k])
  {
    var j :| 0 <= j < k && EnclosedBy(r, rs[..k][j]);
    assert Before(rs[j], rs[k]);
    hide Banded;
    InOneBox(r, rs[j], rs[k]);
  }

  lemma PlacedNext(msgs: seq<Msg>, rs: seq<Box>, k: nat)
    requires k < |rs| && SolidsPlaced(msgs, rs[..k])
    ensures SolidsPlaced(msgs, rs[..k + 1])
  {
    forall i | 0 <= i < |msgs| && msgs[i].SolidMsg? ensures Placed(msgs[i].r, rs[..k + 1]) {
      var j :| 0 <= j < k && EnclosedBy(msgs[i].r, rs[..k][j]);
      assert rs[..k + 1][j] == rs[..k][j];
    }
  }

  lemma NoneWithin(msgs: seq<Msg>, rs: seq<Box>, k: nat)
    requires Banded(rs) && k < |rs| && SolidsPlaced(msgs, rs[..k])
    ensures forall j :: 0 <= j < |msgs| ==> !SolidWithin(msgs[j], rs[k])
  {
    forall j | 0 <= j < |msgs| ensures !SolidWithin(msgs[j], rs[k]) {
      if msgs[j].SolidMsg? { NotPlaced(msgs[j].r, rs, k); }
    }
  }

  /** Another message elsewhere changes nothing for r. */
  lemma DoneStill(msgs: seq<Msg>, m: Msg, fb: Picture, r: Rect)
    requires SolidDone(msgs, fb, r) && !SolidWithin(m, r)
    ensures SolidDone(msgs + [m], fb, r)
  {
    hide Worthwhile, Fruitless, SolidWithin;
    var all := msgs + [m];
    if exists i :: OnlySolid(msgs, i, fb, r) {
      var i :| OnlySolid(msgs, i, fb, r);
      assert all[i] == msgs[i];
      assert OnlySolid(all, i, fb, r);
    }
  }

  lemma SearchedSkip(msgs: seq<Msg>, fb: Picture, rs: seq<Box>, k: nat)
    requires Banded(rs) && k < |rs| && Searched(msgs, fb, rs[..k]) && Fruitless(fb, rs[k])
    ensures Searched(msgs, fb, rs[..k + 1])
  {
    NoneWithin(msgs, rs, k);
    PlacedNext(msgs, rs, k);
    hide SolidDone, Banded, SolidsPlaced, SolidWithin, Fruitless;
    assert SolidDone(msgs, fb, rs[k]) by { NothingThere(msgs, fb, rs[k]); }
    var done := rs[..k + 1];
    forall j | 0 <= j < |done| ensures SolidDone(msgs, fb, done[j]) {
      if j < k { assert done[j] == rs[..k][j]; }
    }
  }

  lemma NothingThere(msgs: seq<Msg>, fb: Picture, r: Rect)
    requires Fruitless(fb, r) && forall j :: 0 <= j < |msgs| ==> !SolidWithin(msgs[j], r)
    ensures SolidDone(msgs, fb, r)
  {
    hide Fruitless;
  }

  lemma FirstThere(msgs: seq<Msg>, m: Msg, fb: Picture, r: Rect)
    requires Worthwhile(fb, r, m) && forall j :: 0 <= j < |msgs| ==> !SolidWithin(msgs[j], r)
    ensures SolidDone(msgs + [m], fb, r)
  {
    hide Worthwhile, SolidWithin;
    assert OnlySolid(msgs + [m], |msgs|, fb, r);
  }

  lemma SearchedNext(msgs: seq<Msg>, m: Msg, fb: Picture, rs: seq<Box>, k: nat)
    requires Banded(rs) && k < |rs| && Searched(msgs, fb, rs[..k]) && Worthwhile(fb, rs[k], m)
    ensures Searched(msgs + [m], fb, rs[..k + 1])
  {
    NoneWithin(msgs, rs, k);
    PlacedNext(msgs, rs, k);
    FirstThere(msgs, m, fb, rs[k]);
    forall j | 0 <= j < k ensures SolidDone(msgs + [m], fb, rs[j]) {
      assert Before(rs[j], rs[k]);
      InOneBox(m.r, rs[k], rs[j]);
      assert rs[..k][j] == rs[j];
      DoneStill(msgs, m, fb, rs[j]);
    }
    hide SolidDone, Banded, SolidWithin;
    assert rs[..k + 1][k] == rs[k];
  }

  lemma NothingSearched(fb: Picture)
    ensures Searched([], fb, [])
  {
  }

  lemma ValidBanded(r: Region)
    requires r.Valid()
    ensures Banded(r.rects)
  {
    hide Banded;
  }

  /** Data rectangles do not count. */
  lemma {:induction false} SearchedData(msgs: seq<Msg>, data: seq<Msg>, fb: Picture, rs: seq<Box>)
    requires Searched(msgs, fb, rs) && OnlyData(data)
    ensures Searched(msgs + data, fb, rs)
    decreases |data|
  {
    if data == [] {
      assert msgs + data == msgs;
    } else {
      var m, rest := data[|data| - 1], data[..|data| - 1];
      SearchedData(msgs, rest, fb, rs);
      assert msgs + data == msgs + rest + [m];
      forall k | 0 <= k < |rs| ensures SolidDone(msgs + data, fb, rs[k]) {
        DoneStill(msgs + rest, m, fb, rs[k]);
      }
      hide Placed, SolidDone;
    }
  }

  // ------------------------------------------------------ what has been sent

  ghost predicate InsideBuffer(rs: seq<Box>, bounds: Rect) {
    forall x, y :: Covered(rs, x, y) ==> InBox(bounds, x, y)
  }

  lemma RectInside(rs: seq<Rect>, k: nat, bounds: Rect)
    requires Banded(rs) && k < |rs| && InsideBuffer(rs, bounds)
    ensures NonEmptyBox(rs[k]) && EnclosedBy(rs[k], bounds)
  {
    assert InBox(rs[k], rs[k].x1, rs[k].y1) && InBox(rs[k], rs[k].x2 - 1, rs[k].y2 - 1);
    assert Covered(rs, rs[k].x1, rs[k].y1) && Covered(rs, rs[k].x2 - 1, rs[k].y2 - 1);
  }

  /** Rectangles that bring exactly the area `rs` up to date, none overlapping. */
  ghost predicate Sent(msgs: seq<Msg>, fb: Picture, rs: seq<Box>) {
    && AllDeliver(msgs, fb)
    && (forall i :: 0 <= i < |msgs| ==> msgs[i].DataMsg? ==> SmallTile(msgs[i].r))
    && Disjoint(Rects(msgs))
    && forall x, y :: Covered(Rects(msgs), x, y) <==> Covered(rs, x, y)
  }

  /** The same by data rectangles only, as many as computeNumRects counts. */
  ghost predicate DataSent(msgs: seq<Msg>, fb: Picture, rs: seq<Box>) {
    && Sent(msgs, fb, rs)
    && OnlyData(msgs) && (forall i :: 0 <= i < |rs| ==> NonEmptyBox(rs[i]))
    && |msgs| == TileCounts(rs)
  }

  ghost predicate OnlyData(msgs: seq<Msg>) {
    forall i :: 0 <= i < |msgs| ==> msgs[i].DataMsg?
  }

  lemma DataCount(msgs: seq<Msg>, fb: Picture, rs: seq<Box>)
    requires DataSent(msgs, fb, rs)
    ensures (forall i :: 0 <= i < |rs| ==> NonEmptyBox(rs[i])) && |msgs| == TileCounts(rs) && OnlyData(msgs)
  {
  }

  lemma NothingSent(fb: Picture)
    ensures DataSent([], fb, [])
  {
    assert Rects([]) == [];
  }

  lemma SentNext(msgs: seq<Msg>, more: seq<Msg>, fb: Picture, rs: seq<Box>, k: nat)
    requires Banded(rs) && k < |rs|
    requires Sent(msgs, fb, rs[..k]) && Tiled(more, fb, rs[k])
    ensures Sent(msgs + more, fb, rs[..k + 1])
  {
    assert Rects(msgs + more) == Rects(msgs) + Rects(more);
    assert rs[..k + 1] == rs[..k] + [rs[k]];
    AddCovered(rs[..k], rs[k]);
    hide Covered, Disjoint, Delivers;
    forall x, y | Covered(rs[..k], x, y) ensures !InBox(rs[k], x, y) { BandedApart(rs, k, x, y); }
    DisjointBoth(Rects(msgs), Rects(more));
    forall x, y ensures Covered(Rects(msgs) + Rects(more), x, y) <==> Covered(rs[..k + 1], x, y) {
      CoveredConcat(Rects(msgs), Rects(more), x, y);
    }
  }

  lemma CountProduct(w: int, h: int, sw: int, sh: int, a: nat, b: nat)
    requires sw > 0 && sh > 0 && a == (w - 1) / sw + 1 && b == (h - 1) / sh + 1
    ensures ((w - 1) / sw + 1) * ((h - 1) / sh + 1) == b * a
  {
  }

  /** rfb::Region::copyFrom: the canonical form of the same points is the same list. */
  method CopyFrom(r: Region) returns (c: Region)
    requires r.Valid()
    ensures fresh(c) && c.Valid() && c.rects == r.rects
  {
    c := new Region();
    UnionRegion(r, r, c);
    CanonicalUnique(c.rects, r.rects);
  }

  /** computeNumRects for one rectangle. */
  method CountTiles(r: Rect) returns (n: nat)
    requires NonEmptyBox(r)
    ensures n == TileCount(r)
  {
    var w, h := Width(r), Height(r);
    if w * h < SUB_RECT_MAX_AREA && w < SUB_RECT_MAX_WIDTH { return 1; }
    TileSize(r);
    var sw := if w <= SUB_RECT_MAX_WIDTH then w else SUB_RECT_MAX_WIDTH;
    var sh := SUB_RECT_MAX_AREA / sw;
    StepsFormula(r.x1, r.x2, sw);
    StepsFormula(r.y1, r.y2, sh);
    CountProduct(w, h, sw, sh, Steps(r.x1, r.x2, sw), Steps(r.y1, r.y2, sh));
    n := ((w - 1) / sw + 1) * ((h - 1) / sh + 1);
  }

  /** Solid areas found in the rectangles `seen` of `all`; `left` is what remains of `all`. */
  ghost predicate SolidSent(msgs: seq<Msg>, fb: Picture, seen: seq<Box>, all: seq<Box>, left: seq<Box>) {
    && AllDeliver(msgs, fb)
    && (forall i :: 0 <= i < |msgs| ==> msgs[i].SolidMsg?)
    && Disjoint(Rects(msgs))
    && (forall x, y :: Covered(Rects(msgs), x, y) ==> Covered(seen, x, y))
    && (forall x, y :: Covered(left, x, y) <==> Covered(all, x, y) && !Covered(Rects(msgs), x, y))
  }

  lemma NothingSolid(fb: Picture, all: seq<Box>)
    ensures SolidSent([], fb, [], all, all)
  {
    assert Rects([]) == [];
  }

  lemma SolidSkip(msgs: seq<Msg>, fb: Picture, rs: seq<Box>, k: nat, left: seq<Box>)
    requires k < |rs| && SolidSent(msgs, fb, rs[..k], rs, left)
    ensures SolidSent(msgs, fb, rs[..k + 1], rs, left)
  {
    assert rs[..k + 1] == rs[..k] + [rs[k]];
    AddCovered(rs[..k], rs[k]);
  }

  lemma SolidDelivers(r: Rect, colour: Pixel, fb: Picture)
    requires NonEmptyBox(r) && Solid(fb, r, colour)
    ensures Delivers(SolidMsg(r, colour), fb)
  {
  }

  lemma SolidNext(msgs: seq<Msg>, erp: Rect, colour: Pixel, fb: Picture, rs: seq<Box>, k: nat, left: seq<Box>,
                  left': seq<Box>)
    requires Banded(rs) && k < |rs| && SolidSent(msgs, fb, rs[..k], rs, left)
    requires NonEmptyBox(erp) && EnclosedBy(erp, rs[k]) && Solid(fb, erp, colour)
    requires forall x, y :: Covered(left', x, y) <==> Covered(left, x, y) && !InBox(erp, x, y)
    ensures SolidSent(msgs + [SolidMsg(erp, colour)], fb, rs[..k + 1], rs, left')
  {
    var more := [SolidMsg(erp, colour)];
    SolidDelivers(erp, colour, fb);
    assert Rects(msgs + more) == Rects(msgs) + [erp];
    assert rs[..k + 1] == rs[..k] + [rs[k]];
    AddCovered(rs[..k], rs[k]);
    AddCovered(Rects(msgs), erp);
    forall x, y | Covered(rs[..k], x, y) ensures !InBox(erp, x, y) { BandedApart(rs, k, x, y); }
    PartitionOne(erp);
    hide Covered, Disjoint, Delivers, Solid, Banded;
    DisjointBoth(Rects(msgs), [erp]);
  }

  lemma CopyCount(copies: seq<Rect>, src: seq<Box>, delta: Point)
    requires Enumerates(copies, copies, src, delta.x <= 0, delta.y <= 0, 0)
    ensures |CopyMsgs(copies, delta)| == |src|
  {
    assert |copies| == |multiset(copies)| == |multiset(src)| == |src|;
  }

  lemma SolidInside(msgs: seq<Msg>, fb: Picture, all: seq<Box>, left: seq<Box>, bounds: Rect)
    requires InsideBuffer(all, bounds) && SolidSent(msgs, fb, all, all, left)
    ensures InsideBuffer(left, bounds)
  {
  }

  lemma NothingSeen(fb: Picture, all: seq<Box>)
    requires SolidSent([], fb, [], all, all)
    ensures SolidSent([], fb, all, all, all)
  {
    assert Rects([]) == [];
  }

  /** The solid areas and the tiles of what is left make up the changed area. */
  lemma SentBoth(solid: seq<Msg>, data: seq<Msg>, fb: Picture, all: seq<Box>, left: seq<Box>)
    requires SolidSent(solid, fb, all, all, left) && DataSent(data, fb, left)
    ensures Sent(solid + data, fb, all)
  {
    hide Covered, Disjoint, Delivers;
    assert Rects(solid + data) == Rects(solid) + Rects(data);
    DisjointBoth(Rects(solid), Rects(data));
    forall x, y ensures Covered(Rects(solid) + Rects(data), x, y) <==> Covered(all, x, y) {
      CoveredConcat(Rects(solid), Rects(data), x, y);
    }
  }

  // --------------------------------------------------------- the main theorem

  /** Replaying an update: the changed area shows the framebuffer, the copied area
      what was there before the move, the rest is untouched. */
  lemma UpdateShown(img: Picture, copies: seq<Rect>, copied: seq<Box>, delta: Point, rest: seq<Msg>, changed: seq<Box>,
                    fb: Picture, x: int, y: int)
    requires Enumerates(copies, copies, copied, delta.x <= 0, delta.y <= 0, 0)
    requires Banded(copied) && Sent(rest, fb, changed)
    ensures AllWellFormed(CopyMsgs(copies, delta) + rest)
    ensures Play(img, CopyMsgs(copies, delta) + rest)(x, y)
         == if Covered(changed, x, y) then fb(x, y) else MovedRegion(img, copied, delta, x, y)
  {
    DirectionSafe(copies, copied, delta);
    PlayCopies(img, copies, delta);
    DeliverWellFormed(rest, fb);
    PlayConcat(img, CopyMsgs(copies, delta), rest);
    PlayDelivered(Play(img, CopyMsgs(copies, delta)), rest, fb, x, y);
  }
}
