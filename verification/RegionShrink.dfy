/** Translating, eroding and dilating a region. */
module RegionShrink {
  import opened Arithmetic
  import opened Banding
  import opened RegionSweep
  import opened XRegion
  import opened RegionAlgebra

  // ------------------------------------------------------------- translation

  function MoveBox(b: Box, dx: int, dy: int): Box {
    Box(b.x1 + dx, b.y1 + dy, b.x2 + dx, b.y2 + dy)
  }

  function MoveBoxes(rs: seq<Box>, dx: int, dy: int): (r: seq<Box>)
    ensures |r| == |rs| && forall i :: 0 <= i < |rs| ==> r[i] == MoveBox(rs[i], dx, dy)
  {
    seq(|rs|, i requires 0 <= i < |rs| => MoveBox(rs[i], dx, dy))
  }

  function MoveSpans(s: seq<Span>, dx: int): (r: seq<Span>)
    ensures |r| == |s| && forall i :: 0 <= i < |s| ==> r[i] == Span(s[i].lo + dx, s[i].hi + dx)
  {
    seq(|s|, i requires 0 <= i < |s| => Span(s[i].lo + dx, s[i].hi + dx))
  }

  lemma {:induction false} MoveRow(rs: seq<Box>, dx: int, dy: int, y: int)
    ensures Row(MoveBoxes(rs, dx, dy), y) == MoveSpans(Row(rs, y - dy), dx)
  {
    if rs != [] {
      MoveRow(rs[1..], dx, dy, y);
      assert MoveBoxes(rs, dx, dy)[1..] == MoveBoxes(rs[1..], dx, dy);
    }
  }

  lemma MoveCanonical(rs: seq<Box>, e: Box, dx: int, dy: int)
    requires Canonical(rs, e)
    ensures Canonical(MoveBoxes(rs, dx, dy), MoveBox(e, dx, dy))
  {
    MoveBanded(rs, dx, dy);
    var m := MoveBoxes(rs, dx, dy);
    forall i | 0 <= i < |m| ensures TopChanges(m, m[i].y1) {
      MovedTop(rs, dx, dy, i);
    }
    if rs != [] { MoveTight(rs, e, dx, dy); }
  }

  lemma MoveBanded(rs: seq<Box>, dx: int, dy: int)
    requires Banded(rs)
    ensures Banded(MoveBoxes(rs, dx, dy))
  {
    var m := MoveBoxes(rs, dx, dy);
    forall i, j | 0 <= i < j < |m| ensures Before(m[i], m[j]) {
      assert Before(rs[i], rs[j]);
    }
  }

  lemma MovedTop(rs: seq<Box>, dx: int, dy: int, i: nat)
    requires Coalesced(rs) && i < |rs|
    ensures TopChanges(MoveBoxes(rs, dx, dy), rs[i].y1 + dy)
  {
    var y := rs[i].y1;
    assert TopChanges(rs, y);
    MoveRow(rs, dx, dy, y + dy);
    MoveRow(rs, dx, dy, y + dy - 1);
    if MoveSpans(Row(rs, y), dx) == MoveSpans(Row(rs, y - 1), dx) {
      MoveSpansInjective(Row(rs, y), Row(rs, y - 1), dx);
    }
  }

  lemma MoveSpansInjective(a: seq<Span>, b: seq<Span>, dx: int)
    requires MoveSpans(a, dx) == MoveSpans(b, dx)
    ensures a == b
  {
    var a', b' := MoveSpans(a, dx), MoveSpans(b, dx);
    forall k | 0 <= k < |a| ensures a[k] == b[k] {
      assert a'[k] == b'[k];
    }
  }

  lemma MoveTight(rs: seq<Box>, e: Box, dx: int, dy: int)
    requires Tight(rs, e)
    ensures Tight(MoveBoxes(rs, dx, dy), MoveBox(e, dx, dy))
  {
    var m := MoveBoxes(rs, dx, dy);
    var a :| 0 <= a < |rs| && rs[a].x1 == e.x1;
    var b :| 0 <= b < |rs| && rs[b].x2 == e.x2;
    var c :| 0 <= c < |rs| && rs[c].y1 == e.y1;
    var d :| 0 <= d < |rs| && rs[d].y2 == e.y2;
    assert m[a].x1 == e.x1 + dx && m[b].x2 == e.x2 + dx && m[c].y1 == e.y1 + dy && m[d].y2 == e.y2 + dy;
  }

  lemma MoveCovered(rs: seq<Box>, dx: int, dy: int, x: int, y: int)
    ensures Covered(MoveBoxes(rs, dx, dy), x, y) <==> Covered(rs, x - dx, y - dy)
  {
    var m := MoveBoxes(rs, dx, dy);
    if Covered(m, x, y) {
      var i :| 0 <= i < |m| && InBox(m[i], x, y);
      assert InBox(rs[i], x - dx, y - dy);
    }
    if Covered(rs, x - dx, y - dy) {
      var i :| 0 <= i < |rs| && InBox(rs[i], x - dx, y - dy);
      assert InBox(m[i], x, y);
    }
  }

  /** The points of `rs'` are those of `rs` moved by (dx, dy). */
  ghost predicate MovedPoints(rs': seq<Box>, rs: seq<Box>, dx: int, dy: int) {
    forall x, y :: Covered(rs', x, y) <==> Covered(rs, x - dx, y - dy)
  }

  /** XOffsetRegion. */
  method OffsetRegion(pRegion: Region, x: int, y: int)
    requires pRegion.Valid()
    modifies pRegion
    ensures pRegion.Valid()
    ensures MovedPoints(pRegion.rects, old(pRegion.rects), x, y)
  {
    ghost var rs, e := pRegion.rects, pRegion.extents;
    var nbox := 0;
    while nbox < |pRegion.rects|
      invariant 0 <= nbox <= |pRegion.rects| == |rs|
      invariant pRegion.extents == e
      invariant forall k :: 0 <= k < nbox ==> pRegion.rects[k] == MoveBox(rs[k], x, y)
      invariant forall k :: nbox <= k < |rs| ==> pRegion.rects[k] == rs[k]
    {
      pRegion.rects := pRegion.rects[nbox := MoveBox(pRegion.rects[nbox], x, y)];
      nbox := nbox + 1;
    }
    pRegion.extents := MoveBox(pRegion.extents, x, y);
    assert pRegion.rects == MoveBoxes(rs, x, y);
    MoveCanonical(rs, e, x, y);
    forall u, v ensures Covered(pRegion.rects, u, v) <==> Covered(rs, u - x, v - y) {
      MoveCovered(rs, x, y, u, v);
    }
  }

  // ------------------------------------------------- runs and their doubling

  /** All of (or, growing, one of) the n+1 points from (x, y) on along one axis. */
  ghost predicate Run(rs: seq<Box>, x: int, y: int, n: int, xdir: bool, grow: bool) {
    if xdir then
      if grow then exists u :: x <= u <= x + n && Covered(rs, u, y)
      else forall u :: x <= u <= x + n ==> Covered(rs, u, y)
    else
      if grow then exists v :: y <= v <= y + n && Covered(rs, x, v)
      else forall v :: y <= v <= y + n ==> Covered(rs, x, v)
  }

  /** A run is a run of its first m points together with the run of the rest. */
  lemma RunJoin(rs: seq<Box>, x: int, y: int, m: int, n: int, xdir: bool, grow: bool)
    requires 0 < m && 0 <= n
    ensures Run(rs, x, y, m + n, xdir, grow) <==>
      var first := Run(rs, x, y, m - 1, xdir, grow);
      var rest := Run(rs, if xdir then x + m else x, if xdir then y else y + m, n, xdir, grow);
      if grow then first || rest else first && rest
  {
  }

  /** The points of `rs` are the heads of runs of n+1 points of `rs0`. */
  ghost predicate Runs(rs: seq<Box>, rs0: seq<Box>, n: int, xdir: bool, grow: bool) {
    forall x, y {:trigger Run(rs0, x, y, n, xdir, grow)} :: Covered(rs, x, y) <==> Run(rs0, x, y, n, xdir, grow)
  }

  /** One ZShiftRegion and ZOpRegion pair: shift `r` back and combine it with `s`. */
  method ShiftAndCombine(r: Region, s: Region, shift: int, xdir: bool, grow: bool, ghost rs0: seq<Box>, ghost n: int)
    returns (ghost ops: nat)
    requires r != s && r.Valid() && s.Valid() && shift > 0 && n >= 0
    requires Runs(r.rects, rs0, n, xdir, grow) && Runs(s.rects, rs0, shift - 1, xdir, grow)
    modifies r
    ensures r.Valid() && Runs(r.rects, rs0, n + shift, xdir, grow) && ops == 2
  {
    ghost var r0 := r.rects;
    ops := 0;
    if xdir { OffsetRegion(r, -shift, 0); } else { OffsetRegion(r, 0, -shift); }
    ops := ops + 1;
    ghost var r1 := r.rects;
    if grow { UnionRegion(r, s, r); } else { IntersectRegion(r, s, r); }
    ops := ops + 1;
    forall x, y ensures Covered(r.rects, x, y) <==> Run(rs0, x, y, n + shift, xdir, grow) {
      RunJoin(rs0, x, y, shift, n, xdir, grow);
      assert Covered(r1, x, y) <==> Covered(r0, if xdir then x + shift else x, if xdir then y else y + shift);
    }
  }

  /** The runs of 2 * shift points from the runs of shift points. */
  method DoubleRuns(s: Region, t: Region, shift: int, xdir: bool, grow: bool, ghost rs0: seq<Box>)
    returns (ghost ops: nat)
    requires s != t && s.Valid() && shift > 0
    requires Runs(s.rects, rs0, shift - 1, xdir, grow)
    modifies s, t
    ensures s.Valid() && Runs(s.rects, rs0, 2 * shift - 1, xdir, grow) && ops == 3
  {
    UnionRegion(s, s, t);
    ghost var more := ShiftAndCombine(s, t, shift, xdir, grow, rs0, shift - 1);
    ops := 1 + more;
  }

  /** One turn of Compress: take the bit of dx off the run length if it is set. */
  method TakeBit(r: Region, s: Region, dx: nat, shift: nat, xdir: bool, grow: bool,
                 ghost rs0: seq<Box>, ghost n: nat, ghost q: nat)
    returns (dx': nat, ghost q': nat, ghost ops: nat)
    requires r != s && r.Valid() && s.Valid() && shift > 0 && dx == Times(q, shift)
    requires Runs(r.rects, rs0, n, xdir, grow) && Runs(s.rects, rs0, shift - 1, xdir, grow)
    modifies r
    ensures r.Valid() && dx' <= dx && q' == q - q % 2 && dx' == Times(q', shift) && ops <= 2
    ensures Runs(r.rects, rs0, n + dx - dx', xdir, grow)
  {
    BitOf(q, shift);
    if (dx / shift) % 2 == 1 {
      ops := ShiftAndCombine(r, s, shift, xdir, grow, rs0, n);
      dx', q' := dx - shift, q - 1;
    } else {
      dx', q', ops := dx, q, 0;
    }
  }

  /** Runs of one point, in both. */
  method CopySingle(r: Region, s: Region, xdir: bool, grow: bool) returns (ghost ops: nat)
    requires r != s && r.Valid()
    modifies s
    ensures r.Valid() && s.Valid() && ops == 1
    ensures Runs(r.rects, r.rects, 0, xdir, grow) && Runs(s.rects, r.rects, 0, xdir, grow)
  {
    UnionRegion(r, r, s);
    ops := 1;
    SingleRuns(r.rects, r.rects, xdir, grow);
    SingleRuns(s.rects, r.rects, xdir, grow);
  }

  /** The number of binary digits of n. */
  ghost function Bits(n: nat): nat {
    if n == 0 then 0 else 1 + Bits(n / 2)
  }

  /** Compress: runs of dx+1 points by doubling, with at most five region
      operations for each binary digit of dx. */
  method Compress(r: Region, s: Region, t: Region, dx0: nat, xdir: bool, grow: bool) returns (ghost ops: nat)
    requires r != s && r != t && s != t && r.Valid()
    modifies r, s, t
    ensures r.Valid()
    ensures Runs(r.rects, old(r.rects), dx0, xdir, grow)
    ensures ops <= 1 + 5 * Bits(dx0)
  {
    hide *;
    ghost var rs0 := r.rects;
    ops := CopySingle(r, s, xdir, grow);
    var dx, shift := dx0, 1;
    ghost var q := dx0;
    TimesIsProduct(dx0, 1);
    while dx != 0
      invariant r.Valid() && s.Valid()
      invariant 0 < shift && dx <= dx0 && dx == Times(q, shift)
      invariant Runs(s.rects, rs0, shift - 1, xdir, grow)
      invariant Runs(r.rects, rs0, dx0 - dx, xdir, grow)
      invariant ops + 5 * Bits(q) <= 1 + 5 * Bits(dx0)
      decreases q
    {
      ghost var more, q0 := 0, q;
      BitsStep(q0, dx, shift);
      dx, q, more := TakeBit(r, s, dx, shift, xdir, grow, rs0, dx0 - dx, q);
      ops := ops + more;
      if dx == 0 { break; }
      more := DoubleRuns(s, t, shift, xdir, grow, rs0);
      ops := ops + more;
      HalfMultiple(q, shift);
      shift, q := 2 * shift, q / 2;
    }
  }

  /** With its lowest bit taken off, a number has one binary digit more than its half. */
  lemma BitsStep(q: nat, dx: nat, shift: nat)
    requires dx != 0 && dx == Times(q, shift)
    ensures q > 0 && (q - q % 2) % 2 == 0 && (q - q % 2) / 2 == q / 2 < q && Bits(q) == 1 + Bits(q / 2)
  {
  }

  /** For a power of two `shift`, `dx & shift` is the bit (dx / shift) % 2. */
  lemma {:induction false} BitOf(q: nat, shift: nat)
    requires shift > 0
    ensures Times(q, shift) / shift == q
  {
    TimesIsProduct(q, shift);
    Divide(q * shift, shift, q);
  }

  lemma {:induction false} HalfMultiple(q: nat, shift: nat)
    requires q % 2 == 0
    ensures Times(q, shift) == Times(q / 2, 2 * shift)
  {
    if q > 0 {
      HalfMultiple(q - 2, shift);
    }
  }

  lemma SingleRuns(rs: seq<Box>, rs0: seq<Box>, xdir: bool, grow: bool)
    requires forall x, y :: Covered(rs, x, y) <==> Covered(rs0, x, y)
    ensures Runs(rs, rs0, 0, xdir, grow)
  {
    forall x, y ensures Covered(rs, x, y) <==> Run(rs0, x, y, 0, xdir, grow) {
      if xdir {
        assert x <= x <= x + 0;
      } else {
        assert y <= y <= y + 0;
      }
    }
  }

  // ---------------------------------------------------------------- shrinking

  /** All points of row y within dx of x, or some point if dx is negative. */
  ghost predicate RowWindow(rs: seq<Box>, x: int, y: int, dx: int) {
    if dx >= 0 then forall u :: x - dx <= u <= x + dx ==> Covered(rs, u, y)
    else exists u :: x + dx <= u <= x - dx && Covered(rs, u, y)
  }

  /** Erosion by the (2|dx|+1) x (2|dy|+1) box around (x, y), or dilation on an
      axis whose argument is negative. */
  ghost predicate BoxWindow(rs: seq<Box>, x: int, y: int, dx: int, dy: int) {
    if dy >= 0 then forall v :: y - dy <= v <= y + dy ==> RowWindow(rs, x, v, dx)
    else exists v :: y + dy <= v <= y - dy && RowWindow(rs, x, v, dx)
  }

  function Abs(n: int): nat {
    if n < 0 then -n else n
  }

  /** XShrinkRegion, with a number of region operations logarithmic in dx and dy. */
  method ShrinkRegion(r: Region, dx: int, dy: int) returns (ghost ops: nat)
    requires r.Valid()
    modifies r
    ensures r.Valid()
    ensures ops <= 3 + 5 * (Bits(2 * Abs(dx)) + Bits(2 * Abs(dy)))
    ensures forall x, y :: Covered(r.rects, x, y) <==> BoxWindow(old(r.rects), x, y, dx, dy)
  {
    hide Covered, Canonical;
    ghost var rs0 := r.rects;
    ghost var xOps, yOps := 0, 0;
    ops := 0;
    if dx == 0 && dy == 0 {
      WindowSteps(rs0, rs0, rs0, 0, 0);
      return;
    }
    var s := new Region();
    var t := new Region();
    if dx != 0 {
      xOps := Compress(r, s, t, 2 * Abs(dx), true, dx < 0);
    } else {
      SingleRuns(r.rects, rs0, true, false);
    }
    ghost var rs1 := r.rects;
    if dy != 0 {
      yOps := Compress(r, s, t, 2 * Abs(dy), false, dy < 0);
    } else {
      SingleRuns(r.rects, rs1, false, false);
    }
    ghost var rs2 := r.rects;
    OffsetRegion(r, Abs(dx), Abs(dy));
    ops := xOps + yOps + 1;
    WindowSteps(rs0, rs1, rs2, dx, dy);
    assert forall x, y :: Covered(r.rects, x, y) <==> Covered(rs2, x - Abs(dx), y - Abs(dy));
  }

  lemma WindowSteps(rs0: seq<Box>, rs1: seq<Box>, rs2: seq<Box>, dx: int, dy: int)
    requires Runs(rs1, rs0, 2 * Abs(dx), true, dx < 0)
    requires Runs(rs2, rs1, 2 * Abs(dy), false, dy < 0)
    ensures forall x, y :: Covered(rs2, x - Abs(dx), y - Abs(dy)) <==> BoxWindow(rs0, x, y, dx, dy)
  {
    forall x, y ensures Covered(rs2, x - Abs(dx), y - Abs(dy)) <==> BoxWindow(rs0, x, y, dx, dy) {
      var x', y' := x - Abs(dx), y - Abs(dy);
      forall v ensures Covered(rs1, x', v) <==> RowWindow(rs0, x, v, dx) {
        assert Covered(rs1, x', v) <==> Run(rs0, x', v, 2 * Abs(dx), true, dx < 0);
      }
      assert Covered(rs2, x', y') <==> Run(rs1, x', y', 2 * Abs(dy), false, dy < 0);
    }
  }
}
