/** The region object and its operations: a growable box array rewritten in
    place, the generic band sweep, and the operations built from it. */
module XRegion {
  import opened Arithmetic
  import opened Banding
  import opened RegionSweep

  /** `e` is the smallest box around the points of `rs`. */
  ghost predicate Tight(rs: seq<Box>, e: Box) {
    && (forall i :: 0 <= i < |rs| ==> e.x1 <= rs[i].x1 && rs[i].x2 <= e.x2 && e.y1 <= rs[i].y1 && rs[i].y2 <= e.y2)
    && (exists i :: 0 <= i < |rs| && rs[i].x1 == e.x1)
    && (exists i :: 0 <= i < |rs| && rs[i].x2 == e.x2)
    && (exists i :: 0 <= i < |rs| && rs[i].y1 == e.y1)
    && (exists i :: 0 <= i < |rs| && rs[i].y2 == e.y2)
  }

  /** The canonical form.  Nothing is said of the extents of an empty region:
      translating one moves its extents away from the origin. */
  ghost predicate Canonical(rs: seq<Box>, e: Box) {
    Banded(rs) && Coalesced(rs) && (rs != [] ==> Tight(rs, e))
  }

  /** Strictly more than one band from box c on. */
  ghost predicate SeveralBands(rs: seq<Box>, c: nat)
    requires c < |rs|
  {
    BandEnd(rs, c) < |rs|
  }

  class Region {
    var rects: seq<Box>
    var extents: Box

    ghost predicate Valid()
      reads this
    {
      Canonical(rects, extents)
    }

    constructor ()
      ensures Valid() && rects == [] && extents == Box(0, 0, 0, 0)
    {
      rects := [];
      extents := Box(0, 0, 0, 0);
    }

    // ------------------------------------------------------------ coalescing

    /** miCoalesce.  The returned index is where the last band starts, except
        when several bands were appended and the first of them was merged: the
        bands below are then moved down but the index is not. */
    method Coalesce(prevStart: nat, curStart: nat) returns (band: nat)
      requires Appended(rects, prevStart, curStart)
      modifies this`rects
      ensures Banded(rects) && Coalesced(rects) && rects != []
      ensures forall x, y :: Covered(rects, x, y) <==> old(Covered(rects, x, y))
      ensures forall y :: old(EndsBy(rects, y)) ==> EndsBy(rects, y)
      ensures |rects| == |old(rects)| || !SeveralBands(old(rects), curStart) ==> LastBand(rects, band)
      ensures |rects| < |old(rects)| && SeveralBands(old(rects), curStart) ==> !LastBand(rects, band)
    {
      AppendedBounds(rects, prevStart, curStart);
      hide Row, Covered, Appended, Coalesced, Banded, Merged, SamePlaces;
      ghost var rs := rects;
      var cur;
      cur, band := FindAppended(rects, curStart);
      var several := cur != |rects|;
      var same := SameSpans(prevStart, curStart, cur);
      if same {
        MergeBands(prevStart, curStart, cur);
        MergedFacts(rs, prevStart, curStart);
        if several {
          MergedIndex(rs, prevStart, curStart, band);
        } else {
          band := prevStart;
        }
      } else {
        NotMergedCoalesced(rects, prevStart, curStart);
      }
    }

    /** Rewrite the array: the previous band is stretched, the current one removed. */
    method MergeBands(p: nat, c: nat, cur: nat)
      requires Appended(rects, p, c) && c > 0 && cur == BandEnd(rects, c) && SamePlaces(rects, p, c, cur)
      modifies this`rects
      ensures rects == Merged(old(rects), p, c, cur)
    {
      ghost var rs := rects;
      assert BandRange(rects, p, c) && BandRange(rects, c, cur) by {
        AppendedTop(rects, p, c);
        BandBounds(rects, p, c);
        BandBounds(rects, c, cur);
      }
      hide Appended, SamePlaces;
      StretchBand(p, c, cur);
      MoveDown(c, cur);
      MergedShape(rs, rects, p, c, cur);
    }

    /** The comparing loop of miCoalesce. */
    method SameSpans(p: nat, c: nat, e: nat) returns (same: bool)
      requires p <= c < e <= |rects|
      ensures same <==> SamePlaces(rects, p, c, e)
    {
      if e - c != c - p || rects[p].y2 != rects[c].y1 { return false; }
      var k := 0;
      while k < c - p
        invariant 0 <= k <= c - p
        invariant forall m :: p <= m < p + k ==> SpanOf(rects[m]) == SpanOf(rects[m - p + c])
      {
        if rects[p + k].x1 != rects[c + k].x1 || rects[p + k].x2 != rects[c + k].x2 {
          assert SpanOf(rects[p + k]) != SpanOf(rects[p + k - p + c]);
          return false;
        }
        k := k + 1;
      }
      return true;
    }

    /** The loop of miCoalesce that gives the previous band its new bottom edge. */
    method StretchBand(p: nat, c: nat, e: nat)
      requires p < c < e <= |rects| && e - c == c - p
      requires BandRange(rects, c, e)
      modifies this`rects
      ensures |rects| == |old(rects)|
      ensures forall m :: 0 <= m < p || c <= m < |rects| ==> rects[m] == old(rects)[m]
      ensures forall m :: p <= m < c ==> rects[m] == old(rects)[m].(y2 := old(rects)[c].y2)
    {
      ghost var rs := rects;
      var k := 0;
      while k < e - c
        invariant 0 <= k <= e - c
        invariant |rects| == |rs|
        invariant forall m :: 0 <= m < p || p + k <= m < |rs| ==> rects[m] == rs[m]
        invariant forall m :: p <= m < p + k ==> rects[m] == rs[m].(y2 := rs[c].y2)
      {
        rects := rects[p + k := rects[p + k].(y2 := rects[c + k].y2)];
        k := k + 1;
      }
    }

    /** The loop of miCoalesce that copies the bands below down over [c..e). */
    method MoveDown(c: nat, e: nat)
      requires c < e <= |rects|
      modifies this`rects
      ensures rects == old(rects)[..c] + old(rects)[e..]
    {
      ghost var rs := rects;
      var to, from := c, e;
      while from != |rects|
        invariant c <= to && to - c == from - e && e <= from <= |rects| == |rs|
        invariant forall m :: 0 <= m < c || to <= m < |rs| ==> rects[m] == rs[m]
        invariant forall m :: c <= m < to ==> rects[m] == rs[m - c + e]
        decreases |rects| - from
      {
        rects := rects[to := rects[from]];
        to, from := to + 1, from + 1;
      }
      rects := rects[..to];
    }

    // ------------------------------------------------------- band callbacks

    /** miUnionNonO and miSubtractNonO1, which are the same loop. */
    method CopyBand(band: seq<Box>, y1: int, y2: int)
      requires y1 < y2
      requires Gapped(band)
      modifies this`rects
      ensures StripAdded(old(rects), rects, y1, y2)
      ensures Spans(rects[|old(rects)|..]) == Spans(band)
      ensures forall x :: CoversX(rects[|old(rects)|..], x) <==> CoversX(band, x)
    {
      ghost var n := |rects|;
      var r := 0;
      while r != |band|
        invariant r <= |band| && |rects| == n + r && rects[..n] == old(rects)
        invariant forall k :: 0 <= k < r ==> rects[n..][k] == Box(band[k].x1, y1, band[k].x2, y2)
        decreases |band| - r
      {
        rects := rects + [Box(band[r].x1, y1, band[r].x2, y2)];
        r := r + 1;
      }
      CopyCovers(band, rects[n..]);
    }

    /** The MERGERECT macro: widen the last box of the strip or start a new one. */
    method MergeRect(ghost n: nat, r: Box, y1: int, y2: int)
      requires y1 < y2 && r.x1 < r.x2 && n <= |rects|
      requires EndsBy(rects[..n], y1) && IsStrip(rects[n..], y1, y2)
      requires forall k :: n <= k < |rects| ==> rects[k].x1 <= r.x1
      modifies this`rects
      ensures n <= |rects| && rects[..n] == old(rects[..n])
      ensures IsStrip(rects[n..], y1, y2)
      ensures forall k :: n <= k < |rects| ==> rects[k].x1 <= r.x1
      ensures forall x :: CoversX(rects[n..], x) <==> old(CoversX(rects[n..], x)) || r.x1 <= x < r.x2
    {
      hide CoversX, Gapped;
      ghost var strip := rects[n..];
      var last := |rects| - 1;
      if |rects| != 0 && rects[last].y1 == y1 && rects[last].y2 == y2 && rects[last].x2 >= r.x1 {
        assert n > 0 ==> rects[..n][n - 1].y2 <= y1;
        assert strip[|strip| - 1] == rects[last];
        StripWiden(strip, Max(rects[last].x2, r.x2), y1, y2);
        if rects[last].x2 < r.x2 {
          rects := rects[last := rects[last].(x2 := r.x2)];
        }
        assert rects[n..] == Widen(strip, rects[last].x2);
      } else {
        MergeGap(strip, r.x1);
        StripSnoc(strip, Box(r.x1, y1, r.x2, y2));
        rects := rects + [Box(r.x1, y1, r.x2, y2)];
        assert rects[n..] == strip + [Box(r.x1, y1, r.x2, y2)];
      }
    }

    /** miUnionO: always take the box that starts further left. */
    method UnionO(b1: seq<Box>, b2: seq<Box>, y1: int, y2: int)
      requires y1 < y2 && EndsBy(rects, y1) && Gapped(b1) && Gapped(b2)
      modifies this`rects
      ensures StripAdded(old(rects), rects, y1, y2)
      ensures forall x :: CoversX(rects[|old(rects)|..], x) <==> Combine(Union, CoversX(b1, x), CoversX(b2, x))
    {
      hide CoversX;
      NothingCovered();
      ghost var n := |rects|;
      var r1, r2 := 0, 0;
      assert rects[n..] == [] && b1[0..] == b1 && b2[0..] == b2;
      while r1 != |b1| || r2 != |b2|
        invariant r1 <= |b1| && r2 <= |b2| && n <= |rects| && rects[..n] == old(rects)
        invariant IsStrip(rects[n..], y1, y2)
        invariant r1 < |b1| ==> forall k :: n <= k < |rects| ==> rects[k].x1 <= b1[r1].x1
        invariant r2 < |b2| ==> forall k :: n <= k < |rects| ==> rects[k].x1 <= b2[r2].x1
        invariant forall x :: CoversX(rects[n..], x) || CoversX(b1[r1..], x) || CoversX(b2[r2..], x)
                              <==> CoversX(b1, x) || CoversX(b2, x)
        decreases |b1| - r1 + |b2| - r2
      {
        if r2 == |b2| || (r1 != |b1| && b1[r1].x1 < b2[r2].x1) {
          GappedCons(b1, r1);
          MergeRect(n, b1[r1], y1, y2);
          r1 := r1 + 1;
        } else {
          GappedCons(b2, r2);
          MergeRect(n, b2[r2], y1, y2);
          r2 := r2 + 1;
        }
      }
      assert b1[r1..] == [] && b2[r2..] == [];
    }

    /** miIntersectO. */
    method IntersectO(b1: seq<Box>, b2: seq<Box>, y1: int, y2: int)
      requires y1 < y2 && Gapped(b1) && Gapped(b2)
      modifies this`rects
      ensures StripAdded(old(rects), rects, y1, y2)
      ensures forall x :: CoversX(rects[|old(rects)|..], x) <==> Combine(Intersect, CoversX(b1, x), CoversX(b2, x))
    {
      hide CoversX;
      NothingCovered();
      ghost var n := |rects|;
      var r1, r2 := 0, 0;
      assert rects[n..] == [] && b1[0..] == b1 && b2[0..] == b2;
      while r1 != |b1| && r2 != |b2|
        invariant r1 <= |b1| && r2 <= |b2| && n <= |rects| && rects[..n] == old(rects)
        invariant IsStrip(rects[n..], y1, y2)
        invariant r1 < |b1| && r2 < |b2| ==> LeftOf(rects[n..], Max(b1[r1].x1, b2[r2].x1))
        invariant forall x :: CoversX(rects[n..], x) || (CoversX(b1[r1..], x) && CoversX(b2[r2..], x))
                              <==> CoversX(b1, x) && CoversX(b2, x)
        decreases |b1| - r1 + |b2| - r2
      {
        GappedCons(b1, r1);
        GappedCons(b2, r2);
        var x1 := Max(b1[r1].x1, b2[r2].x1);
        var x2 := Min(b1[r1].x2, b2[r2].x2);
        if x1 < x2 {
          StripSnoc(rects[n..], Box(x1, y1, x2, y2));
          assert (rects + [Box(x1, y1, x2, y2)])[n..] == rects[n..] + [Box(x1, y1, x2, y2)];
          rects := rects + [Box(x1, y1, x2, y2)];
        }
        if b1[r1].x2 < b2[r2].x2 {
          r1 := r1 + 1;
        } else if b2[r2].x2 < b1[r1].x2 {
          r2 := r2 + 1;
        } else {
          r1 := r1 + 1;
          r2 := r2 + 1;
        }
      }
      assert b1[|b1|..] == [] && b2[|b2|..] == [];
    }

    /** Append [x1, x2) to the strip that starts at index n. */
    method AddPiece(ghost n: nat, x1: int, x2: int, y1: int, y2: int)
      requires n <= |rects| && IsStrip(rects[n..], y1, y2) && LeftOf(rects[n..], x1) && x1 < x2
      modifies this`rects
      ensures n <= |rects| && rects[..n] == old(rects[..n])
      ensures IsStrip(rects[n..], y1, y2) && forall x :: x2 < x ==> LeftOf(rects[n..], x)
      ensures forall x :: CoversX(rects[n..], x) <==> old(CoversX(rects[n..], x)) || x1 <= x < x2
    {
      StripSnoc(rects[n..], Box(x1, y1, x2, y2));
      assert (rects + [Box(x1, y1, x2, y2)])[n..] == rects[n..] + [Box(x1, y1, x2, y2)];
      rects := rects + [Box(x1, y1, x2, y2)];
    }

    /** miSubtractO.  `x1` is the left-most point of the minuend not yet checked. */
    method SubtractO(b1: seq<Box>, b2: seq<Box>, y1: int, y2: int)
      requires y1 < y2 && Gapped(b1) && Gapped(b2) && b1 != []
      modifies this`rects
      ensures StripAdded(old(rects), rects, y1, y2)
      ensures forall x :: CoversX(rects[|old(rects)|..], x) <==> Combine(Subtract, CoversX(b1, x), CoversX(b2, x))
    {
      hide CoversX;
      NothingCovered();
      ghost var n := |rects|;
      var r1, r2 := 0, 0;
      assert rects[n..] == [] && b1[0..] == b1 && b2[0..] == b2;
      var x1 := b1[0].x1;
      GappedCons(b1, 0);
      while r1 != |b1| && r2 != |b2|
        invariant r1 <= |b1| && r2 <= |b2| && n <= |rects| && rects[..n] == old(rects)
        invariant IsStrip(rects[n..], y1, y2)
        invariant r1 < |b1| ==> b1[r1].x1 <= x1 < b1[r1].x2 && LeftOf(rects[n..], x1)
        invariant forall x :: CoversX(rects[n..], x) || (Fenced(b1, r1, x1, x) && !CoversX(b2[r2..], x))
                              <==> CoversX(b1, x) && !CoversX(b2, x)
        decreases |b1| - r1 + |b2| - r2
      {
        FencedCons(b1, r1);
        GappedCons(b2, r2);
        if b2[r2].x2 <= x1 {
          r2 := r2 + 1;
        } else if b2[r2].x1 <= x1 {
          x1 := b2[r2].x2;
          if x1 >= b1[r1].x2 {
            r1 := r1 + 1;
            if r1 != |b1| { x1 := b1[r1].x1; }
          } else {
            r2 := r2 + 1;
          }
        } else if b2[r2].x1 < b1[r1].x2 {
          AddPiece(n, x1, b2[r2].x1, y1, y2);
          x1 := b2[r2].x2;
          if x1 >= b1[r1].x2 {
            r1 := r1 + 1;
            if r1 != |b1| { x1 := b1[r1].x1; }
          } else {
            r2 := r2 + 1;
          }
        } else {
          if b1[r1].x2 > x1 {
            AddPiece(n, x1, b1[r1].x2, y1, y2);
          }
          r1 := r1 + 1;
          if r1 != |b1| { x1 := b1[r1].x1; }
        }
      }
      assert b2[|b2|..] == [];
      while r1 != |b1|
        invariant r1 <= |b1| && n <= |rects| && rects[..n] == old(rects)
        invariant IsStrip(rects[n..], y1, y2)
        invariant r1 < |b1| ==> r2 == |b2| && b1[r1].x1 <= x1 < b1[r1].x2 && LeftOf(rects[n..], x1)
        invariant forall x :: CoversX(rects[n..], x) || (Fenced(b1, r1, x1, x) && !CoversX(b2[r2..], x))
                              <==> CoversX(b1, x) && !CoversX(b2, x)
        decreases |b1| - r1
      {
        FencedCons(b1, r1);
        AddPiece(n, x1, b1[r1].x2, y1, y2);
        r1 := r1 + 1;
        if r1 != |b1| { x1 := b1[r1].x1; }
      }
    }
  }

  // ------------------------------------------------------------- the sweep

  /** overlapFunc: one band of each region, clipped to [y1, y2). */
  method Overlap(newReg: Region, op: Op, b1: seq<Box>, b2: seq<Box>, y1: int, y2: int)
    requires y1 < y2 && EndsBy(newReg.rects, y1) && Gapped(b1) && Gapped(b2) && b1 != []
    modifies newReg`rects
    ensures StripAdded(old(newReg.rects), newReg.rects, y1, y2)
    ensures forall x :: CoversX(newReg.rects[|old(newReg.rects)|..], x) <==> Combine(op, CoversX(b1, x), CoversX(b2, x))
  {
    match op
    case Union => newReg.UnionO(b1, b2, y1, y2);
    case Intersect => newReg.IntersectO(b1, b2, y1, y2);
    case Subtract => newReg.SubtractO(b1, b2, y1, y2);
  }

  /** What holds between two steps of miRegionOp. */
  ghost predicate Swept(op: Op, p: seq<Box>, q: seq<Box>, out: seq<Box>, prevBand: nat, y: int) {
    Sweep(op, p, q, out, y) && Coalesced(out) && LastBand(out, prevBand)
  }

  /** Merge the strip appended since curBand, if any, into the region. */
  method CloseBand(newReg: Region, prevBand: nat, curBand: nat, ghost op: Op, ghost p: seq<Box>, ghost q: seq<Box>,
                   ghost y: int, ghost lo: int, ghost hi: int)
    returns (band: nat)
    requires curBand <= |newReg.rects|
    requires Swept(op, p, q, newReg.rects[..curBand], prevBand, y)
    requires Sweep(op, p, q, newReg.rects, hi)
    requires curBand < |newReg.rects| ==> y <= lo < hi && IsStrip(newReg.rects[curBand..], lo, hi)
    modifies newReg`rects
    ensures Swept(op, p, q, newReg.rects, band, hi)
  {
    band := prevBand;
    if |newReg.rects| != curBand {
      StripAppended(newReg.rects[..curBand], newReg.rects, prevBand, y, lo, hi);
      band := newReg.Coalesce(prevBand, curBand);
    } else {
      assert newReg.rects[..curBand] == newReg.rects;
    }
  }

  /** miRegionOp: sweep two regions top to bottom, one source band at a time.
      nonOverlap1Func is absent for intersection, nonOverlap2Func for
      intersection and subtraction. */
  method RegionOp(newReg: Region, reg1: Region, reg2: Region, op: Op)
    requires reg1.Valid() && reg2.Valid() && reg1.rects != [] && reg2.rects != []
    requires !(newReg == reg1 && newReg == reg2)
    modifies newReg`rects
    ensures Banded(newReg.rects) && Coalesced(newReg.rects)
    ensures forall x, y :: Covered(newReg.rects, x, y) <==> Result(op, old(reg1.rects), old(reg2.rects), x, y)
  {
    var rs1, rs2 := reg1.rects, reg2.rects;
    var ybot := Min(reg1.extents.y1, reg2.extents.y1);
    newReg.rects := [];
    var r1, r2, prevBand := 0, 0, 0;
    StartSweep(op, rs1, rs2, reg1.extents, reg2.extents);
    while r1 != |rs1| && r2 != |rs2|
      invariant Cursors(rs1, rs2, r1, r2, ybot)
      invariant Swept(op, rs1, rs2, newReg.rects, prevBand, ybot)
      decreases |rs1| - r1 + |rs2| - r2
    {
      r1, r2, prevBand, ybot := SweepStep(newReg, op, rs1, rs2, r1, r2, prevBand, ybot);
    }
    SweepTail(newReg, op, rs1, rs2, r1, r2, prevBand, ybot);
  }

  /** One turn of the main loop of miRegionOp. */
  method SweepStep(newReg: Region, op: Op, rs1: seq<Box>, rs2: seq<Box>, r1: nat, r2: nat, prevBand: nat, ybot: int)
    returns (r1': nat, r2': nat, prevBand': nat, ybot': int)
    requires r1 < |rs1| && r2 < |rs2| && Cursors(rs1, rs2, r1, r2, ybot)
    requires Swept(op, rs1, rs2, newReg.rects, prevBand, ybot)
    modifies newReg`rects
    ensures Cursors(rs1, rs2, r1', r2', ybot') && r1 <= r1' && r2 <= r2' && r1 + r2 < r1' + r2'
    ensures Swept(op, rs1, rs2, newReg.rects, prevBand', ybot')
  {
    var r1BandEnd := FindBandEnd(rs1, r1);
    var r2BandEnd := FindBandEnd(rs2, r2);
    CursorBand(rs1, r1, ybot);
    CursorBand(rs2, r2, ybot);
    var b1, b2 := rs1[r1..r1BandEnd], rs2[r2..r2BandEnd];
    ghost var mid: int;
    var ytop: int;
    ytop, mid, prevBand' := NonOverlapPart(newReg, op, rs1, rs2, r1, r2, b1, b2, prevBand, ybot);
    ybot' := Min(rs1[r1].y2, rs2[r2].y2);
    var curBand := |newReg.rects|;
    ghost var out := newReg.rects;
    if ybot' > ytop {
      Overlap(newReg, op, b1, b2, ytop, ybot');
      forall x, v | ytop <= v < ybot'
        ensures Result(op, rs1, rs2, x, v) <==> CoversX(newReg.rects[curBand..], x)
      {
        BothBands(op, rs1, rs2, r1, r2, ybot, x, v);
      }
      AddStrip(op, rs1, rs2, out, newReg.rects, ytop, ytop, ybot');
    }
    assert newReg.rects[..curBand] == out;
    prevBand' := CloseBand(newReg, prevBand', curBand, op, rs1, rs2, mid, ytop, ybot');
    NextCursors(rs1, rs2, r1, r2, ybot);
    r1' := if rs1[r1].y2 == ybot' then r1BandEnd else r1;
    r2' := if rs2[r2].y2 == ybot' then r2BandEnd else r2;
  }

  /** The band that ends first is used up, or both are. */
  lemma NextCursors(rs1: seq<Box>, rs2: seq<Box>, r1: nat, r2: nat, y: int)
    requires r1 < |rs1| && r2 < |rs2| && Cursors(rs1, rs2, r1, r2, y)
    ensures var bot := Min(rs1[r1].y2, rs2[r2].y2);
      var r1' := if rs1[r1].y2 == bot then BandEnd(rs1, r1) else r1;
      var r2' := if rs2[r2].y2 == bot then BandEnd(rs2, r2) else r2;
      Cursors(rs1, rs2, r1', r2', bot) && r1 <= r1' && r2 <= r2' && r1 + r2 < r1' + r2'
  {
    CursorBand(rs1, r1, y);
    CursorBand(rs2, r2, y);
    BandBounds(rs1, r1, BandEnd(rs1, r1));
    BandBounds(rs2, r2, BandEnd(rs2, r2));
    hide BandEnd, Banded;
  }

  /** The part of a turn before the bands overlap.  Afterwards the result is
      finished down to `mid`, the smaller of ytop and the end of the upper band. */
  method NonOverlapPart(newReg: Region, op: Op, rs1: seq<Box>, rs2: seq<Box>, r1: nat, r2: nat,
                        b1: seq<Box>, b2: seq<Box>, prevBand: nat, ybot: int)
    returns (ytop: int, ghost mid: int, prevBand': nat)
    requires r1 < |rs1| && r2 < |rs2| && Cursors(rs1, rs2, r1, r2, ybot)
    requires b1 == rs1[r1..BandEnd(rs1, r1)] && b2 == rs2[r2..BandEnd(rs2, r2)]
    requires Swept(op, rs1, rs2, newReg.rects, prevBand, ybot)
    modifies newReg`rects
    ensures ytop == Max(rs1[r1].y1, rs2[r2].y1)
    ensures mid == Min(ytop, Min(rs1[r1].y2, rs2[r2].y2))
    ensures Swept(op, rs1, rs2, newReg.rects, prevBand', mid)
  {
    CursorBand(rs1, r1, ybot);
    CursorBand(rs2, r2, ybot);
    var curBand := |newReg.rects|;
    ghost var out := newReg.rects;
    ghost var top := ybot;
    if rs1[r1].y1 < rs2[r2].y1 {
      var lo, bot := Max(rs1[r1].y1, ybot), Min(rs1[r1].y2, rs2[r2].y1);
      if lo != bot && op != Intersect {
        newReg.CopyBand(b1, lo, bot);
      }
      OnlyFirstDone(op, rs1, rs2, r1, r2, ybot, out, newReg.rects, lo, bot);
      ytop := rs2[r2].y1;
      mid, top := bot, lo;
    } else if rs2[r2].y1 < rs1[r1].y1 {
      var lo, bot := Max(rs2[r2].y1, ybot), Min(rs2[r2].y2, rs1[r1].y1);
      if lo != bot && op == Union {
        newReg.CopyBand(b2, lo, bot);
      }
      OnlySecondDone(op, rs1, rs2, r1, r2, ybot, out, newReg.rects, lo, bot);
      ytop := rs1[r1].y1;
      mid, top := bot, lo;
    } else {
      ytop := rs1[r1].y1;
      mid := ytop;
      forall x, v | ybot <= v < mid ensures !Result(op, rs1, rs2, x, v) {
        OnlyFirst(op, rs1, rs2, r1, r2, ybot, x, v);
      }
      SkipTo(op, rs1, rs2, out, ybot, mid);
    }
    assert newReg.rects[..curBand] == out;
    prevBand' := CloseBand(newReg, prevBand, curBand, op, rs1, rs2, ybot, top, mid);
  }

  /** The end of miRegionOp: whichever region still has bands is copied, as far
      as the operation keeps it, and coalesced once. */
  method SweepTail(newReg: Region, op: Op, rs1: seq<Box>, rs2: seq<Box>, r1: nat, r2: nat, prevBand: nat, ybot: int)
    requires Cursors(rs1, rs2, r1, r2, ybot) && (r1 == |rs1| || r2 == |rs2|)
    requires Coalesced(rs1) && Coalesced(rs2)
    requires Swept(op, rs1, rs2, newReg.rects, prevBand, ybot)
    modifies newReg`rects
    ensures Banded(newReg.rects) && Coalesced(newReg.rects)
    ensures forall x, y :: Covered(newReg.rects, x, y) <==> Result(op, rs1, rs2, x, y)
  {
    hide Cursors, Covered, Coalesced, Banded, Sweep, Tail, EndsBy, LastBand, Appended;
    var curBand := |newReg.rects|;
    ghost var out := newReg.rects;
    ghost var rest, y := CopyRest(newReg, op, rs1, rs2, r1, r2, ybot);
    ghost var app := newReg.rects[curBand..];
    assert newReg.rects == out + app;
    SweepDone(op, rs1, rs2, newReg.rects, y);
    if |newReg.rects| != curBand {
      SweepEnds(op, rs1, rs2, out, ybot);
      SweepEnds(op, rs1, rs2, newReg.rects, y);
      TailAppended(rest, out, app, prevBand, ybot, y);
      var _ := newReg.Coalesce(prevBand, curBand);
    } else {
      assert newReg.rects == out;
      SweepEnds(op, rs1, rs2, out, y);
    }
  }

  lemma SweepEnds(op: Op, rs1: seq<Box>, rs2: seq<Box>, out: seq<Box>, y: int)
    requires Sweep(op, rs1, rs2, out, y)
    ensures Banded(out) && EndsBy(out, y)
  {
  }

  /** From scanline y on the result has no points. */
  ghost predicate NothingBelow(op: Op, rs1: seq<Box>, rs2: seq<Box>, y: int) {
    forall x, v :: y <= v ==> !Result(op, rs1, rs2, x, v)
  }

  /** The closing loop that applies, if any. */
  method CopyRest(newReg: Region, op: Op, rs1: seq<Box>, rs2: seq<Box>, r1: nat, r2: nat, ybot: int)
    returns (ghost rest: seq<Box>, ghost y: int)
    requires Cursors(rs1, rs2, r1, r2, ybot) && (r1 == |rs1| || r2 == |rs2|)
    requires Coalesced(rs1) && Coalesced(rs2) && Sweep(op, rs1, rs2, newReg.rects, ybot)
    modifies newReg`rects
    ensures |old(newReg.rects)| <= |newReg.rects| && newReg.rects[..|old(newReg.rects)|] == old(newReg.rects)
    ensures Sweep(op, rs1, rs2, newReg.rects, y) && NothingBelow(op, rs1, rs2, y)
    ensures newReg.rects != old(newReg.rects) ==> Tail(rest, newReg.rects[|old(newReg.rects)|..], ybot, y)
  {
    hide Coalesced, Sweep, Tail;
    rest, y := if r1 != |rs1| then rs1 else rs2, ybot;
    if r1 != |rs1| {
      if op != Intersect {
        y := CopyTail(newReg, op, rs1, rs2, rs1, r1, ybot);
      }
    } else if r2 != |rs2| && op == Union {
      y := CopyTail(newReg, op, rs1, rs2, rs2, r2, ybot);
    }
  }

  /** Below scanline y the result is exactly `rest`. */
  ghost predicate OnlyRest(op: Op, rs1: seq<Box>, rs2: seq<Box>, rest: seq<Box>, y: int) {
    forall x, v :: y <= v ==> (Result(op, rs1, rs2, x, v) <==> Covered(rest, x, v))
  }

  /** One of the two closing loops of miRegionOp. */
  method CopyTail(newReg: Region, ghost op: Op, ghost rs1: seq<Box>, ghost rs2: seq<Box>, rest: seq<Box>, start: nat,
                  ybot: int)
    returns (ghost y: int)
    requires Banded(rest) && Coalesced(rest) && Cursor(rest, start, ybot)
    requires OnlyRest(op, rs1, rs2, rest, ybot)
    requires Sweep(op, rs1, rs2, newReg.rects, ybot)
    modifies newReg`rects
    ensures |old(newReg.rects)| <= |newReg.rects| && newReg.rects[..|old(newReg.rects)|] == old(newReg.rects)
    ensures ybot <= y && Sweep(op, rs1, rs2, newReg.rects, y) && Cursor(rest, |rest|, y)
    ensures Tail(rest, newReg.rects[|old(newReg.rects)|..], ybot, y)
  {
    ghost var n := |newReg.rects|;
    var r := start;
    y := ybot;
    while r != |rest|
      invariant r <= |rest| && Cursor(rest, r, y)
      invariant ybot <= y && (y == ybot || r == |rest| || y <= rest[r].y1)
      invariant n <= |newReg.rects| && newReg.rects[..n] == old(newReg.rects)
      invariant Sweep(op, rs1, rs2, newReg.rects, y)
      invariant Tail(rest, newReg.rects[n..], ybot, y)
      decreases |rest| - r
    {
      var bandEnd := FindBandEnd(rest, r);
      CursorBand(rest, r, y);
      ghost var out := newReg.rects;
      newReg.CopyBand(rest[r..bandEnd], Max(rest[r].y1, ybot), rest[r].y2);
      TailSweep(op, rs1, rs2, rest, r, out, newReg.rects, ybot, y);
      assert newReg.rects[n..] == out[n..] + newReg.rects[|out|..];
      TailStep(rest, r, out[n..], newReg.rects[|out|..], ybot, y);
      if bandEnd < |rest| { BandBounds(rest, r, bandEnd); }
      y := rest[r].y2;
      r := bandEnd;
    }
  }

  lemma TailSweep(op: Op, rs1: seq<Box>, rs2: seq<Box>, rest: seq<Box>, r: nat,
                  out: seq<Box>, out': seq<Box>, ybot: int, y: int)
    requires Banded(rest) && Cursor(rest, r, y) && r < |rest| && ybot <= y
    requires y == ybot || y <= rest[r].y1
    requires OnlyRest(op, rs1, rs2, rest, ybot) && Sweep(op, rs1, rs2, out, y)
    requires StripAdded(out, out', Max(rest[r].y1, ybot), rest[r].y2)
    requires forall x :: CoversX(out'[|out|..], x) <==> CoversX(rest[r..BandEnd(rest, r)], x)
    ensures Sweep(op, rs1, rs2, out', rest[r].y2)
  {
    forall x, v | y <= v < rest[r].y2
      ensures Result(op, rs1, rs2, x, v) <==> rest[r].y1 <= v && CoversX(rest[r..BandEnd(rest, r)], x)
    {
      CursorCovers(rest, r, y, x, v);
    }
    AddStrip(op, rs1, rs2, out, out', y, Max(rest[r].y1, ybot), rest[r].y2);
  }

  lemma SweepDone(op: Op, rs1: seq<Box>, rs2: seq<Box>, out: seq<Box>, y: int)
    requires Sweep(op, rs1, rs2, out, y)
    requires NothingBelow(op, rs1, rs2, y)
    ensures forall x, v :: Covered(out, x, v) <==> Result(op, rs1, rs2, x, v)
  {
  }

  /** Every box of the strip ends left of x. */
  ghost predicate LeftOf(bs: seq<Box>, x: int) {
    forall k :: 0 <= k < |bs| ==> bs[k].x2 < x
  }

  /** The boxes from r on, without what lies left of the fence x1. */
  ghost predicate Fenced(bs: seq<Box>, r: nat, x1: int, x: int) {
    r < |bs| && (x1 <= x < bs[r].x2 || CoversX(bs[r + 1..], x))
  }

  /** Moving the fence to the start of the next box. */
  lemma FencedCons(bs: seq<Box>, r: nat)
    requires Gapped(bs) && r < |bs|
    ensures r + 1 < |bs| ==> bs[r].x2 < bs[r + 1].x1
    ensures forall x {:trigger CoversX(bs[r + 1..], x)} :: CoversX(bs[r + 1..], x) ==> bs[r].x2 < x
    ensures forall x {:trigger CoversX(bs[r + 1..], x)} :: CoversX(bs[r + 1..], x) <==>
              r + 1 < |bs| && Fenced(bs, r + 1, bs[r + 1].x1, x)
  {
    GappedCons(bs, r);
    if r + 1 < |bs| { GappedCons(bs, r + 1); }
  }

  lemma MergeGap(strip: seq<Box>, x: int)
    requires Gapped(strip) && (strip != [] ==> strip[|strip| - 1].x2 < x)
    ensures LeftOf(strip, x)
  {
    forall k | 0 <= k < |strip| ensures strip[k].x2 < x {
      if k < |strip| - 1 { assert strip[k].x2 < strip[|strip| - 1].x1; }
    }
  }

  lemma CopyCovers(band: seq<Box>, out: seq<Box>)
    requires |out| == |band| && forall k :: 0 <= k < |band| ==> SpanOf(out[k]) == SpanOf(band[k])
    ensures Spans(out) == Spans(band)
    ensures forall x :: CoversX(out, x) <==> CoversX(band, x)
  {
    forall x ensures CoversX(out, x) <==> CoversX(band, x) {
      if CoversX(out, x) {
        var i :| 0 <= i < |out| && out[i].x1 <= x < out[i].x2;
        assert SpanOf(out[i]) == SpanOf(band[i]);
      }
      if CoversX(band, x) {
        var i :| 0 <= i < |band| && band[i].x1 <= x < band[i].x2;
        assert SpanOf(out[i]) == SpanOf(band[i]);
      }
    }
  }

  ghost predicate BandRange(rs: seq<Box>, a: nat, b: nat) {
    && a < b <= |rs|
    && forall k :: a <= k < b ==> rs[k].y1 == rs[a].y1 && rs[k].y2 == rs[a].y2
  }

  lemma MergedShape(rs: seq<Box>, out: seq<Box>, p: nat, c: nat, e: nat)
    requires p < c < e <= |rs| && |out| == |rs| - e + c
    requires forall m :: 0 <= m < p ==> out[m] == rs[m]
    requires forall m :: p <= m < c ==> out[m] == rs[m].(y2 := rs[c].y2)
    requires forall m :: c <= m < |out| ==> out[m] == rs[m - c + e]
    ensures out == Merged(rs, p, c, e)
  {
    assert out[..p] == rs[..p];
    assert out[p..c] == Stretch(rs[p..c], rs[c].y2);
    assert out[c..] == rs[e..];
    assert out == out[..p] + out[p..c] + out[c..];
  }

  /** The band-end loops of miCoalesce and miRegionOp. */
  method FindBandEnd(rs: seq<Box>, i: nat) returns (e: nat)
    requires i < |rs|
    ensures e == BandEnd(rs, i)
  {
    e := i;
    while e != |rs| && rs[e].y1 == rs[i].y1
      invariant i <= e <= BandEnd(rs, i)
      invariant forall k :: i <= k < e ==> rs[k].y1 == rs[i].y1
      decreases |rs| - e
    {
      e := e + 1;
    }
  }

  /** The end of the first appended band, and the start of the last one. */
  method FindAppended(rs: seq<Box>, c: nat) returns (cur: nat, band: nat)
    requires c < |rs|
    ensures cur == BandEnd(rs, c)
    ensures if cur == |rs| then band == c else cur <= band && IsBand(rs, band, |rs|)
  {
    cur := FindBandEnd(rs, c);
    band := c;
    if cur != |rs| {
      band := FindLastBand(rs, cur);
    }
  }

  /** The backward loop of miCoalesce that finds the last appended band. */
  method FindLastBand(rs: seq<Box>, e: nat) returns (band: nat)
    requires 0 < e < |rs| && rs[e - 1].y1 != rs[e].y1
    ensures e <= band && IsBand(rs, band, |rs|)
  {
    band := |rs| - 1;
    while rs[band - 1].y1 == rs[band].y1
      invariant e <= band < |rs|
      invariant forall k :: band <= k < |rs| ==> rs[k].y1 == rs[band].y1
      decreases band
    {
      band := band - 1;
    }
  }

  lemma MergedFacts(rs: seq<Box>, p: nat, c: nat)
    requires Appended(rs, p, c) && c > 0
    requires SamePlaces(rs, p, c, BandEnd(rs, c))
    ensures Banded(Merged(rs, p, c, BandEnd(rs, c))) && Coalesced(Merged(rs, p, c, BandEnd(rs, c)))
    ensures forall x, y :: Covered(Merged(rs, p, c, BandEnd(rs, c)), x, y) <==> Covered(rs, x, y)
    ensures forall y :: EndsBy(rs, y) ==> EndsBy(Merged(rs, p, c, BandEnd(rs, c)), y)
    ensures !SeveralBands(rs, c) ==> LastBand(Merged(rs, p, c, BandEnd(rs, c)), p)
    ensures |Merged(rs, p, c, BandEnd(rs, c))| == |rs| - (BandEnd(rs, c) - c)
  {
    hide Row, Covered;
    var e := BandEnd(rs, c);
    var m := Merged(rs, p, c, e);
    MergedBanded(rs, p, c);
    MergedCoalesced(rs, p, c);
    forall y ensures Row(m, y) == Row(rs, y) { MergedRows(rs, p, c, y); }
    SameRowsSamePoints(m, rs);
    MergedEnds(rs, p, c);
    if e == |rs| { MergedLast(rs, p, c); }
  }

  lemma MergedEnds(rs: seq<Box>, p: nat, c: nat)
    requires p <= c < |rs|
    ensures forall y :: EndsBy(rs, y) ==> EndsBy(Merged(rs, p, c, BandEnd(rs, c)), y)
  {
    var m := Merged(rs, p, c, BandEnd(rs, c));
    forall y | EndsBy(rs, y) ensures EndsBy(m, y) {
      forall i | 0 <= i < |m| ensures m[i].y2 <= y {
        if p <= i < c { assert m[i] == Stretch(rs[p..c], rs[c].y2)[i - p]; }
      }
    }
  }

  lemma MergedLast(rs: seq<Box>, p: nat, c: nat)
    requires Appended(rs, p, c) && c > 0 && BandEnd(rs, c) == |rs|
    ensures LastBand(Merged(rs, p, c, |rs|), p)
  {
    hide Row, Covered, Coalesced;
    var m := Merged(rs, p, c, |rs|);
    AppendedTop(rs, p, c);
    forall i | p <= i < c ensures m[i].y1 == rs[i].y1 {
      assert m[i] == Stretch(rs[p..c], rs[c].y2)[i - p];
    }
  }

  /** After a merge with bands below, the old index of the last band is off. */
  lemma MergedIndex(rs: seq<Box>, p: nat, c: nat, band: nat)
    requires Appended(rs, p, c) && c > 0
    requires SamePlaces(rs, p, c, BandEnd(rs, c)) && SeveralBands(rs, c)
    requires BandEnd(rs, c) <= band && IsBand(rs, band, |rs|)
    ensures !LastBand(Merged(rs, p, c, BandEnd(rs, c)), band)
  {
    var e := BandEnd(rs, c);
    var m := Merged(rs, p, c, e);
    assert |m| == |rs| - (e - c);
  }

  lemma StartSweep(op: Op, rs1: seq<Box>, rs2: seq<Box>, e1: Box, e2: Box)
    requires Canonical(rs1, e1) && Canonical(rs2, e2) && rs1 != [] && rs2 != []
    ensures Cursors(rs1, rs2, 0, 0, Min(e1.y1, e2.y1))
    ensures Swept(op, rs1, rs2, [], 0, Min(e1.y1, e2.y1))
  {
    var y := Min(e1.y1, e2.y1);
    FirstIsTop(rs1, e1);
    FirstIsTop(rs2, e2);
    forall x, v | v < y ensures !Covered(rs1, x, v) && !Covered(rs2, x, v) {
    }
  }

  lemma FirstIsTop(rs: seq<Box>, e: Box)
    requires Banded(rs) && rs != [] && Tight(rs, e)
    ensures rs[0].y1 == e.y1
  {
    var i :| 0 <= i < |rs| && rs[i].y1 == e.y1;
    if i > 0 { assert Before(rs[0], rs[i]); }
  }

  lemma OnlyFirstDone(op: Op, p: seq<Box>, q: seq<Box>, i: nat, j: nat, y: int,
                      out: seq<Box>, out': seq<Box>, lo: int, bot: int)
    requires i < |p| && j < |q| && Cursors(p, q, i, j, y) && p[i].y1 < q[j].y1
    requires lo == Max(p[i].y1, y) && bot == Min(p[i].y2, q[j].y1)
    requires Sweep(op, p, q, out, y)
    requires lo < bot && op != Intersect ==>
      StripAdded(out, out', lo, bot) && forall x :: CoversX(out'[|out|..], x) <==> CoversX(p[i..BandEnd(p, i)], x)
    requires !(lo < bot && op != Intersect) ==> out' == out
    ensures Sweep(op, p, q, out', bot)
  {
    forall x, v | y <= v < bot
      ensures Result(op, p, q, x, v) <==> op != Intersect && p[i].y1 <= v && CoversX(p[i..BandEnd(p, i)], x)
    {
      OnlyFirst(op, p, q, i, j, y, x, v);
    }
    if lo != bot && op != Intersect {
      AddStrip(op, p, q, out, out', y, lo, bot);
    } else {
      SkipTo(op, p, q, out, y, bot);
    }
  }

  lemma OnlySecondDone(op: Op, p: seq<Box>, q: seq<Box>, i: nat, j: nat, y: int,
                       out: seq<Box>, out': seq<Box>, lo: int, bot: int)
    requires i < |p| && j < |q| && Cursors(p, q, i, j, y) && q[j].y1 < p[i].y1
    requires lo == Max(q[j].y1, y) && bot == Min(q[j].y2, p[i].y1)
    requires Sweep(op, p, q, out, y)
    requires lo < bot && op == Union ==>
      StripAdded(out, out', lo, bot) && forall x :: CoversX(out'[|out|..], x) <==> CoversX(q[j..BandEnd(q, j)], x)
    requires !(lo < bot && op == Union) ==> out' == out
    ensures Sweep(op, p, q, out', bot)
  {
    forall x, v | y <= v < bot
      ensures Result(op, p, q, x, v) <==> op == Union && q[j].y1 <= v && CoversX(q[j..BandEnd(q, j)], x)
    {
      OnlySecond(op, p, q, i, j, y, x, v);
    }
    if lo != bot && op == Union {
      AddStrip(op, p, q, out, out', y, lo, bot);
    } else {
      SkipTo(op, p, q, out, y, bot);
    }
  }
}
