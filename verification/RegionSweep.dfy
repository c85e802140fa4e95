/** Facts about box lists that the band sweep needs: strips, merging two
    touching bands, and how far a sweep has got. */
module RegionSweep {
  import opened Banding

  datatype Op = Union | Intersect | Subtract

  /** What a region operation means at one point. */
  predicate Combine(op: Op, a: bool, b: bool) {
    match op
    case Union => a || b
    case Intersect => a && b
    case Subtract => a && !b
  }

  // -------------------------------------------------------------- strips

  ghost predicate CoversX(bs: seq<Box>, x: int) {
    exists i :: 0 <= i < |bs| && bs[i].x1 <= x < bs[i].x2
  }

  /** Boxes left to right with gaps. */
  ghost predicate Gapped(bs: seq<Box>) {
    && (forall i :: 0 <= i < |bs| ==> bs[i].x1 < bs[i].x2)
    && (forall i, j :: 0 <= i < j < |bs| ==> bs[i].x2 < bs[j].x1)
  }

  /** Boxes of one band [y1, y2), left to right with gaps. */
  ghost predicate IsStrip(bs: seq<Box>, y1: int, y2: int) {
    && (forall i :: 0 <= i < |bs| ==> bs[i].y1 == y1 && bs[i].y2 == y2)
    && Gapped(bs)
  }

  /** `out'` is `out` with one strip appended. */
  ghost predicate StripAdded(out: seq<Box>, out': seq<Box>, y1: int, y2: int) {
    && |out| <= |out'|
    && out'[..|out|] == out
    && IsStrip(out'[|out|..], y1, y2)
  }

  lemma CoversXCons(bs: seq<Box>, k: nat)
    requires k < |bs|
    ensures forall x :: CoversX(bs[k..], x) <==> bs[k].x1 <= x < bs[k].x2 || CoversX(bs[k + 1..], x)
  {
    forall x ensures CoversX(bs[k..], x) <==> bs[k].x1 <= x < bs[k].x2 || CoversX(bs[k + 1..], x) {
      if CoversX(bs[k..], x) {
        var i :| 0 <= i < |bs[k..]| && bs[k..][i].x1 <= x < bs[k..][i].x2;
        if i > 0 { assert bs[k + 1..][i - 1] == bs[k..][i]; }
      }
      if bs[k].x1 <= x < bs[k].x2 { assert bs[k..][0] == bs[k]; }
      if CoversX(bs[k + 1..], x) {
        var i :| 0 <= i < |bs[k + 1..]| && bs[k + 1..][i].x1 <= x < bs[k + 1..][i].x2;
        assert bs[k..][i + 1] == bs[k + 1..][i];
      }
    }
  }

  lemma CoversXSnoc(bs: seq<Box>, b: Box)
    ensures forall x :: CoversX(bs + [b], x) <==> CoversX(bs, x) || b.x1 <= x < b.x2
  {
    forall x ensures CoversX(bs + [b], x) <==> CoversX(bs, x) || b.x1 <= x < b.x2 {
      var cs := bs + [b];
      if CoversX(bs, x) {
        var i :| 0 <= i < |bs| && bs[i].x1 <= x < bs[i].x2;
        assert cs[i] == bs[i];
      }
      if b.x1 <= x < b.x2 { assert cs[|bs|] == b; }
    }
  }

  /** The first of the remaining boxes, and the ones to its right. */
  lemma GappedCons(bs: seq<Box>, k: nat)
    requires Gapped(bs) && k < |bs|
    ensures forall x :: CoversX(bs[k..], x) <==> bs[k].x1 <= x < bs[k].x2 || CoversX(bs[k + 1..], x)
    ensures forall x {:trigger CoversX(bs[k + 1..], x)} :: CoversX(bs[k + 1..], x) ==> bs[k].x2 < x
  {
    CoversXCons(bs, k);
  }

  lemma NothingCovered()
    ensures forall x :: !CoversX([], x)
  {
  }

  lemma StripSnoc(bs: seq<Box>, b: Box)
    requires IsStrip(bs, b.y1, b.y2) && b.x1 < b.x2
    requires forall k :: 0 <= k < |bs| ==> bs[k].x2 < b.x1
    ensures IsStrip(bs + [b], b.y1, b.y2)
    ensures forall x :: CoversX(bs + [b], x) <==> CoversX(bs, x) || b.x1 <= x < b.x2
  {
    CoversXSnoc(bs, b);
  }

  function Widen(bs: seq<Box>, x2: int): seq<Box>
    requires bs != []
  {
    bs[..|bs| - 1] + [bs[|bs| - 1].(x2 := x2)]
  }

  /** Widening the last box of a strip to the right adds exactly the new columns. */
  lemma StripWiden(bs: seq<Box>, x2: int, y1: int, y2: int)
    requires bs != [] && IsStrip(bs, y1, y2) && bs[|bs| - 1].x2 <= x2
    ensures IsStrip(Widen(bs, x2), y1, y2)
    ensures forall x :: CoversX(Widen(bs, x2), x) <==> CoversX(bs, x) || bs[|bs| - 1].x1 <= x < x2
    ensures forall x :: bs[|bs| - 1].x1 <= x < bs[|bs| - 1].x2 ==> CoversX(bs, x)
  {
    var n := |bs| - 1;
    assert bs == bs[..n] + [bs[n]];
    CoversXSnoc(bs[..n], bs[n].(x2 := x2));
    CoversXSnoc(bs[..n], bs[n]);
  }

  lemma StripCovered(bs: seq<Box>, y1: int, y2: int, x: int, y: int)
    requires IsStrip(bs, y1, y2)
    ensures Covered(bs, x, y) <==> y1 <= y < y2 && CoversX(bs, x)
  {
    if Covered(bs, x, y) {
      var i :| 0 <= i < |bs| && InBox(bs[i], x, y);
      assert bs[i].x1 <= x < bs[i].x2;
    }
    if y1 <= y < y2 && CoversX(bs, x) {
      var i :| 0 <= i < |bs| && bs[i].x1 <= x < bs[i].x2;
      assert InBox(bs[i], x, y);
    }
  }

  /** A band of a banded list is a strip. */
  lemma BandIsStrip(rs: seq<Box>, a: nat, b: nat)
    requires Banded(rs) && IsBand(rs, a, b)
    ensures IsStrip(rs[a..b], rs[a].y1, rs[a].y2)
  {
    BandBounds(rs, a, b);
    var bs := rs[a..b];
    forall i, j | 0 <= i < j < |bs| ensures bs[i].x2 < bs[j].x1 {
      assert Before(rs[a + i], rs[a + j]);
    }
  }

  // ------------------------------------------------------- banded pieces

  lemma BandedSlice(rs: seq<Box>, a: nat, b: nat)
    requires Banded(rs) && a <= b <= |rs|
    ensures Banded(rs[a..b])
  {
    forall i, j | 0 <= i < j < b - a ensures Before(rs[a..b][i], rs[a..b][j]) {
      assert Before(rs[a + i], rs[a + j]);
    }
  }

  ghost predicate EndsBy(rs: seq<Box>, y: int) {
    forall i :: 0 <= i < |rs| ==> rs[i].y2 <= y
  }

  ghost predicate StartsAt(rs: seq<Box>, y: int) {
    forall i :: 0 <= i < |rs| ==> y <= rs[i].y1
  }

  lemma BandedConcat(a: seq<Box>, b: seq<Box>, y: int)
    requires Banded(a) && Banded(b) && EndsBy(a, y) && StartsAt(b, y)
    ensures Banded(a + b)
  {
    var c := a + b;
    forall i, j | 0 <= i < j < |c| ensures Before(c[i], c[j]) {
      if j < |a| {
        assert Before(a[i], a[j]);
      } else if i >= |a| {
        assert Before(b[i - |a|], b[j - |a|]);
      }
    }
  }

  lemma StripBanded(bs: seq<Box>, y1: int, y2: int)
    requires IsStrip(bs, y1, y2) && y1 < y2
    ensures Banded(bs) && Coalesced(bs)
  {
    forall i | 0 <= i < |bs| ensures TopChanges(bs, bs[i].y1) {
      RowFull(bs, y1);
      RowEmpty(bs, y1 - 1);
      assert |Spans(bs)| == |bs|;
    }
  }

  /** `p` starts the last band of `rs`. */
  ghost predicate LastBand(rs: seq<Box>, p: nat) {
    if rs == [] then p == 0 else IsBand(rs, p, |rs|)
  }

  // ------------------------------------------------------------ coalescing

  /** The situation miCoalesce is called in: a coalesced part up to `c` whose
      last band starts at `p`, then newly appended bands from `c`. */
  ghost predicate Appended(rs: seq<Box>, p: nat, c: nat) {
    && p <= c < |rs|
    && Banded(rs)
    && Coalesced(rs[..c])
    && Coalesced(rs[c..])
    && LastBand(rs[..c], p)
    && (c > 0 ==> rs[c - 1].y1 != rs[c].y1)
  }

  /** Bands [p..c) and [c..e) touch and have boxes in the same places. */
  ghost predicate SamePlaces(rs: seq<Box>, p: nat, c: nat, e: nat)
    requires p <= c < e <= |rs|
  {
    && e - c == c - p
    && rs[p].y2 == rs[c].y1
    && forall k :: p <= k < c ==> SpanOf(rs[k]) == SpanOf(rs[k - p + c])
  }

  /** Bands [p..c) stretched down to y. */
  function Stretch(bs: seq<Box>, y: int): (r: seq<Box>)
    ensures |r| == |bs|
  {
    seq(|bs|, i requires 0 <= i < |bs| => bs[i].(y2 := y))
  }

  function Merged(rs: seq<Box>, p: nat, c: nat, e: nat): seq<Box>
    requires p <= c < e <= |rs|
  {
    rs[..p] + Stretch(rs[p..c], rs[c].y2) + rs[e..]
  }

  lemma AppendedBounds(rs: seq<Box>, p: nat, c: nat)
    requires Appended(rs, p, c)
    ensures p <= c < |rs| && (p == c ==> c == 0)
  {
  }

  lemma PrefixSuffixRows(rs: seq<Box>, c: nat, y: int)
    requires Banded(rs) && 0 < c < |rs| && rs[c - 1].y1 != rs[c].y1
    ensures Row(rs, y) == if y < rs[c].y1 then Row(rs[..c], y) else Row(rs[c..], y)
  {
    assert rs == rs[..c] + rs[c..];
    RowConcat(rs[..c], rs[c..], y);
    if y < rs[c].y1 {
      forall i | 0 <= i < |rs[c..]| ensures rs[c..][i].y1 > y {
        if i > 0 { assert Before(rs[c], rs[c + i]); }
      }
      RowEmpty(rs[c..], y);
    } else {
      forall i | 0 <= i < c ensures rs[i].y2 <= rs[c].y1 {
        assert Before(rs[c - 1], rs[c]) && Before(rs[i], rs[c]);
        if i < c - 1 { assert Before(rs[i], rs[c - 1]); }
      }
      RowEmpty(rs[..c], y);
    }
  }

  /** Rows of the three pieces around an appended band. */
  lemma AppendedTop(rs: seq<Box>, p: nat, c: nat)
    requires Appended(rs, p, c) && c > 0
    ensures IsBand(rs, p, c)
    ensures rs[p].y2 <= rs[c].y1
    ensures Row(rs, rs[c].y1 - 1) == if rs[p].y2 == rs[c].y1 then Spans(rs[p..c]) else []
  {
    hide Row, Coalesced, Spans;
    assert forall i :: 0 <= i < c ==> rs[..c][i] == rs[i];
    assert IsBand(rs[..c], p, c);
    assert IsBand(rs, p, c);
    BandBounds(rs, p, c);
    var y := rs[c].y1 - 1;
    if rs[p].y2 == rs[c].y1 {
      RowOfBand(rs, p, c, y);
    } else {
      forall i | 0 <= i < |rs| ensures !(rs[i].y1 <= y < rs[i].y2) {
        if i >= c { if i > c { assert Before(rs[c], rs[i]); } }
      }
      RowEmpty(rs, y);
    }
  }

  /** Bands that cannot be merged: the whole list is coalesced as it stands. */
  lemma NotMergedCoalesced(rs: seq<Box>, p: nat, c: nat)
    requires Appended(rs, p, c)
    requires !SamePlaces(rs, p, c, BandEnd(rs, c))
    ensures Banded(rs) && Coalesced(rs)
    ensures BandEnd(rs, c) == |rs| ==> LastBand(rs, c)
  {
    forall i | 0 <= i < |rs| ensures TopChanges(rs, rs[i].y1) {
      if c == 0 {
        assert rs == rs[c..];
        assert TopChanges(rs[c..], rs[i].y1);
      } else if rs[i].y1 == rs[c].y1 {
        SeamChanges(rs, p, c);
      } else {
        AwayFromSeam(rs, p, c, i);
      }
    }
  }

  lemma SeamChanges(rs: seq<Box>, p: nat, c: nat)
    requires Appended(rs, p, c) && c > 0
    requires !SamePlaces(rs, p, c, BandEnd(rs, c))
    ensures TopChanges(rs, rs[c].y1)
  {
    AppendedTop(rs, p, c);
    var e := BandEnd(rs, c);
    RowOfBand(rs, c, e, rs[c].y1);
    if rs[p].y2 == rs[c].y1 && Spans(rs[p..c]) == Spans(rs[c..e]) {
      EqualSpansSamePlaces(rs, p, c, e);
    }
  }

  lemma EqualSpansSamePlaces(rs: seq<Box>, p: nat, c: nat, e: nat)
    requires p <= c < e <= |rs|
    requires rs[p].y2 == rs[c].y1 && Spans(rs[p..c]) == Spans(rs[c..e])
    ensures SamePlaces(rs, p, c, e)
  {
    assert |Spans(rs[p..c])| == c - p && |Spans(rs[c..e])| == e - c;
    forall k | p <= k < c ensures SpanOf(rs[k]) == SpanOf(rs[k - p + c]) {
      assert Spans(rs[p..c])[k - p] == SpanOf(rs[k]);
      assert Spans(rs[c..e])[k - p] == SpanOf(rs[k - p + c]);
    }
  }

  lemma AwayFromSeam(rs: seq<Box>, p: nat, c: nat, i: nat)
    requires Appended(rs, p, c) && 0 < c && i < |rs| && rs[i].y1 != rs[c].y1
    ensures TopChanges(rs, rs[i].y1)
  {
    hide Row;
    var y := rs[i].y1;
    PrefixSuffixRows(rs, c, y);
    PrefixSuffixRows(rs, c, y - 1);
    if i < c {
      assert Before(rs[i], rs[c]);
      assert rs[..c][i] == rs[i];
      assert TopChanges(rs[..c], rs[..c][i].y1);
    } else {
      assert Before(rs[c], rs[i]);
      assert rs[c..][i - c] == rs[i];
      assert TopChanges(rs[c..], rs[c..][i - c].y1);
    }
  }

  // Merging keeps every scanline.

  lemma RowSplit4(rs: seq<Box>, p: nat, c: nat, e: nat, y: int)
    requires p <= c <= e <= |rs|
    ensures Row(rs, y) == Row(rs[..p], y) + Row(rs[p..c], y) + Row(rs[c..e], y) + Row(rs[e..], y)
  {
    RowSplit(rs, c, e, y);
    assert rs[..c] == rs[..p] + rs[p..c];
    RowConcat(rs[..p], rs[p..c], y);
  }

  lemma MergedSeam(rs: seq<Box>, p: nat, c: nat, e: nat, y: int)
    requires p <= c < e <= |rs|
    requires Row(Stretch(rs[p..c], rs[c].y2), y) == Row(rs[p..c], y) + Row(rs[c..e], y)
    ensures Row(Merged(rs, p, c, e), y) == Row(rs, y)
  {
    var st := Stretch(rs[p..c], rs[c].y2);
    assert Merged(rs, p, c, e) == rs[..p] + st + rs[e..];
    hide *;
    RowConcat(rs[..p] + st, rs[e..], y);
    RowConcat(rs[..p], st, y);
    RowSplit4(rs, p, c, e, y);
  }

  lemma MergedRows(rs: seq<Box>, p: nat, c: nat, y: int)
    requires Appended(rs, p, c) && c > 0
    requires SamePlaces(rs, p, c, BandEnd(rs, c))
    ensures Row(Merged(rs, p, c, BandEnd(rs, c)), y) == Row(rs, y)
  {
    AppendedBounds(rs, p, c);
    hide Row, Appended, SamePlaces, BandEnd, Stretch;
    var e := BandEnd(rs, c);
    StretchSeam(rs, p, c, y);
    MergedSeam(rs, p, c, e, y);
  }

  lemma StretchSeam(rs: seq<Box>, p: nat, c: nat, y: int)
    requires Appended(rs, p, c) && c > 0
    requires SamePlaces(rs, p, c, BandEnd(rs, c))
    ensures Row(Stretch(rs[p..c], rs[c].y2), y) == Row(rs[p..c], y) + Row(rs[c..BandEnd(rs, c)], y)
  {
    hide Row, Coalesced;
    var e := BandEnd(rs, c);
    AppendedTop(rs, p, c);
    BandBounds(rs, p, c);
    BandBounds(rs, c, e);
    var a, b := rs[p..c], rs[c..e];
    forall k | 0 <= k < |a| ensures SpanOf(a[k]) == SpanOf(b[k]) {
      assert a[k] == rs[p + k] && b[k] == rs[c + k];
      assert SpanOf(rs[p + k]) == SpanOf(rs[p + k - p + c]);
    }
    StretchRow(a, b, y);
  }

  /** Two stacked bands with boxes in the same places against one tall band. */
  lemma StretchRow(a: seq<Box>, b: seq<Box>, y: int)
    requires |a| == |b| > 0
    requires forall k :: 0 <= k < |a| ==> SpanOf(a[k]) == SpanOf(b[k])
    requires forall k :: 0 <= k < |a| ==> a[k].y1 == a[0].y1 && a[k].y2 == a[0].y2
    requires forall k :: 0 <= k < |b| ==> b[k].y1 == b[0].y1 && b[k].y2 == b[0].y2
    requires a[0].y1 < a[0].y2 == b[0].y1 < b[0].y2
    ensures Row(Stretch(a, b[0].y2), y) == Row(a, y) + Row(b, y)
  {
    var st := Stretch(a, b[0].y2);
    assert Spans(st) == Spans(a) == Spans(b);
    if a[0].y1 <= y < a[0].y2 {
      RowFull(st, y); RowFull(a, y); RowEmpty(b, y);
    } else if b[0].y1 <= y < b[0].y2 {
      RowFull(st, y); RowEmpty(a, y); RowFull(b, y);
    } else {
      RowEmpty(st, y); RowEmpty(a, y); RowEmpty(b, y);
    }
  }

  lemma MergedBanded(rs: seq<Box>, p: nat, c: nat)
    requires Appended(rs, p, c) && c > 0
    requires SamePlaces(rs, p, c, BandEnd(rs, c))
    ensures Banded(Merged(rs, p, c, BandEnd(rs, c)))
  {
    hide Row, Coalesced;
    var e := BandEnd(rs, c);
    AppendedTop(rs, p, c);
    BandBounds(rs, p, c);
    BandBounds(rs, c, e);
    BandIsStrip(rs, p, c);
    var st := Stretch(rs[p..c], rs[c].y2);
    assert IsStrip(st, rs[p].y1, rs[c].y2);
    StripBanded(st, rs[p].y1, rs[c].y2);
    BandedSlice(rs, 0, p);
    BandedSlice(rs, e, |rs|);
    assert rs[..p] == rs[0..p] && rs[e..] == rs[e..|rs|];
    BandedConcat(rs[..p], st, rs[p].y1);
    BandedConcat(rs[..p] + st, rs[e..], rs[c].y2);
  }

  lemma MergedCoalesced(rs: seq<Box>, p: nat, c: nat)
    requires Appended(rs, p, c) && c > 0
    requires SamePlaces(rs, p, c, BandEnd(rs, c))
    ensures Coalesced(Merged(rs, p, c, BandEnd(rs, c)))
  {
    var e := BandEnd(rs, c);
    var m := Merged(rs, p, c, e);
    forall i | 0 <= i < |m| ensures TopChanges(m, m[i].y1) {
      var k := MergedTop(rs, p, c, i);
      AwayFromSeam(rs, p, c, k);
      MergedRows(rs, p, c, m[i].y1);
      MergedRows(rs, p, c, m[i].y1 - 1);
    }
  }

  /** Each box of the merged list keeps the top edge of an old box outside [c..e). */
  lemma MergedTop(rs: seq<Box>, p: nat, c: nat, i: nat) returns (k: nat)
    requires Appended(rs, p, c)
    requires SamePlaces(rs, p, c, BandEnd(rs, c))
    requires i < |Merged(rs, p, c, BandEnd(rs, c))|
    ensures k < |rs| && rs[k].y1 == Merged(rs, p, c, BandEnd(rs, c))[i].y1 != rs[c].y1
  {
    var e := BandEnd(rs, c);
    var m := Merged(rs, p, c, e);
    k := if i < c then i else i - c + e;
    assert m[i].y1 == rs[k].y1 by {
      if p <= i < c { assert m[i] == Stretch(rs[p..c], rs[c].y2)[i - p]; }
    }
    if k < c {
      assert Before(rs[k], rs[c]);
      assert Before(rs[c - 1], rs[c]);
      if k < c - 1 { assert Before(rs[k], rs[c - 1]); }
    } else {
      assert Before(rs[c], rs[e]);
      if e < k { assert Before(rs[e], rs[k]); }
    }
  }

  /** Lists with the same scanlines cover the same points. */
  lemma SameRowsSamePoints(a: seq<Box>, b: seq<Box>)
    requires forall y :: Row(a, y) == Row(b, y)
    ensures forall x, y :: Covered(a, x, y) <==> Covered(b, x, y)
  {
    forall x, y ensures Covered(a, x, y) <==> Covered(b, x, y) {
      RowCovers(a, x, y);
      RowCovers(b, x, y);
    }
  }

  // --------------------------------------------------- progress of a sweep

  /** Boxes before i end by scanline y, the others reach below it. */
  ghost predicate Cursor(rs: seq<Box>, i: nat, y: int) {
    && i <= |rs|
    && (forall k :: 0 <= k < i ==> rs[k].y2 <= y)
    && (forall k :: i <= k < |rs| ==> y < rs[k].y2)
  }

  ghost predicate Result(op: Op, p: seq<Box>, q: seq<Box>, x: int, y: int) {
    Combine(op, Covered(p, x, y), Covered(q, x, y))
  }

  /** `out` is the finished result for every scanline above y, and nothing below. */
  ghost predicate Sweep(op: Op, p: seq<Box>, q: seq<Box>, out: seq<Box>, y: int) {
    && Banded(out)
    && EndsBy(out, y)
    && forall x, v :: v < y ==> (Covered(out, x, v) <==> Result(op, p, q, x, v))
  }

  lemma CursorIsBand(rs: seq<Box>, i: nat, y: int)
    requires Banded(rs) && Cursor(rs, i, y) && i < |rs|
    ensures IsBand(rs, i, BandEnd(rs, i))
  {
    if i > 0 { assert Before(rs[i - 1], rs[i]); }
  }

  lemma CursorBand(rs: seq<Box>, i: nat, y: int)
    requires Banded(rs) && Cursor(rs, i, y) && i < |rs|
    ensures IsBand(rs, i, BandEnd(rs, i))
    ensures IsStrip(rs[i..BandEnd(rs, i)], rs[i].y1, rs[i].y2)
    ensures Cursor(rs, BandEnd(rs, i), rs[i].y2)
  {
    CursorIsBand(rs, i, y);
    BandBounds(rs, i, BandEnd(rs, i));
    BandIsStrip(rs, i, BandEnd(rs, i));
  }

  /** The next band is all there is of `rs` down to its bottom edge. */
  lemma CursorCovers(rs: seq<Box>, i: nat, y: int, x: int, v: int)
    requires Banded(rs) && Cursor(rs, i, y) && i < |rs| && y <= v < rs[i].y2
    ensures Covered(rs, x, v) <==> rs[i].y1 <= v && CoversX(rs[i..BandEnd(rs, i)], x)
  {
    var e := BandEnd(rs, i);
    CursorIsBand(rs, i, y);
    BandBounds(rs, i, e);
    if Covered(rs, x, v) {
      var k :| 0 <= k < |rs| && InBox(rs[k], x, v);
      InNextBand(rs, i, e, k, x);
    }
    if rs[i].y1 <= v && CoversX(rs[i..e], x) {
      var k :| 0 <= k < e - i && rs[i..e][k].x1 <= x < rs[i..e][k].x2;
      assert rs[i..e][k] == rs[i + k];
      assert InBox(rs[i + k], x, v);
    }
  }

  lemma InNextBand(rs: seq<Box>, i: nat, e: nat, k: nat, x: int)
    requires i <= k < e <= |rs| && rs[k].x1 <= x < rs[k].x2
    ensures CoversX(rs[i..e], x)
  {
    assert rs[i..e][k - i] == rs[k];
  }

  lemma SkipTo(op: Op, p: seq<Box>, q: seq<Box>, out: seq<Box>, y: int, hi: int)
    requires Sweep(op, p, q, out, y) && y <= hi
    requires forall x, v :: y <= v < hi ==> !Result(op, p, q, x, v)
    ensures Sweep(op, p, q, out, hi)
  {
  }

  lemma AddStrip(op: Op, p: seq<Box>, q: seq<Box>, out: seq<Box>, out': seq<Box>, y: int, lo: int, hi: int)
    requires Sweep(op, p, q, out, y) && y <= lo < hi
    requires StripAdded(out, out', lo, hi)
    requires forall x, v :: y <= v < lo ==> !Result(op, p, q, x, v)
    requires forall x, v :: lo <= v < hi ==> (Result(op, p, q, x, v) <==> CoversX(out'[|out|..], x))
    ensures Sweep(op, p, q, out', hi)
  {
    var strip := out'[|out|..];
    assert out' == out + strip;
    StripBanded(strip, lo, hi);
    BandedConcat(out, strip, lo);
    forall x, v | v < hi ensures Covered(out', x, v) <==> Result(op, p, q, x, v) {
      CoveredConcat(out, strip, x, v);
      StripCovered(strip, lo, hi, x, v);
    }
  }

  /** A nonempty strip below a finished list is the situation miCoalesce expects. */
  lemma StripAppended(out: seq<Box>, out': seq<Box>, prev: nat, y: int, lo: int, hi: int)
    requires Banded(out') && Coalesced(out) && LastBand(out, prev) && EndsBy(out, y)
    requires StripAdded(out, out', lo, hi) && |out| < |out'| && y <= lo < hi
    ensures Appended(out', prev, |out|)
    ensures BandEnd(out', |out|) == |out'|
  {
    var c := |out|;
    StripBanded(out'[c..], lo, hi);
    assert out'[c] == out'[c..][0];
    if c > 0 {
      assert out'[c - 1] == out[c - 1];
    }
  }

  // ---------------------------------- one step of the sweep, by the cursors

  /** Both cursors are inside their lists and at most one band is part-used. */
  ghost predicate Cursors(p: seq<Box>, q: seq<Box>, i: nat, j: nat, y: int) {
    && Banded(p) && Banded(q)
    && Cursor(p, i, y) && Cursor(q, j, y)
    && (i < |p| && j < |q| ==> y <= p[i].y1 || y <= q[j].y1)
  }

  /** From y to hi only `p` has points: what its band gives to the result. */
  lemma OnlyFirst(op: Op, p: seq<Box>, q: seq<Box>, i: nat, j: nat, y: int, x: int, v: int)
    requires Cursors(p, q, i, j, y) && i < |p| && j < |q|
    requires y <= v < p[i].y2 && v < q[j].y1
    ensures Result(op, p, q, x, v) <==> op != Intersect && p[i].y1 <= v && CoversX(p[i..BandEnd(p, i)], x)
  {
    CursorCovers(p, i, y, x, v);
    CursorCovers(q, j, y, x, v);
  }

  lemma OnlySecond(op: Op, p: seq<Box>, q: seq<Box>, i: nat, j: nat, y: int, x: int, v: int)
    requires Cursors(p, q, i, j, y) && i < |p| && j < |q|
    requires y <= v < q[j].y2 && v < p[i].y1
    ensures Result(op, p, q, x, v) <==> op == Union && q[j].y1 <= v && CoversX(q[j..BandEnd(q, j)], x)
  {
    CursorCovers(p, i, y, x, v);
    CursorCovers(q, j, y, x, v);
  }

  lemma BothBands(op: Op, p: seq<Box>, q: seq<Box>, i: nat, j: nat, y: int, x: int, v: int)
    requires Cursors(p, q, i, j, y) && i < |p| && j < |q|
    requires y <= v && p[i].y1 <= v < p[i].y2 && q[j].y1 <= v < q[j].y2
    ensures Result(op, p, q, x, v)
            <==> Combine(op, CoversX(p[i..BandEnd(p, i)], x), CoversX(q[j..BandEnd(q, j)], x))
  {
    CursorCovers(p, i, y, x, v);
    CursorCovers(q, j, y, x, v);
  }

  // -------------------------------- the rest of one list, copied in one go

  /** The scanlines of `rs` from y0 to y, and nothing else. */
  ghost predicate TailRows(rs: seq<Box>, app: seq<Box>, y0: int, y: int) {
    forall v {:trigger Row(app, v)} :: Row(app, v) == if y0 <= v < y then Row(rs, v) else []
  }

  ghost predicate TailTops(rs: seq<Box>, app: seq<Box>, y0: int) {
    && StartsAt(app, y0)
    && forall k :: 0 <= k < |app| ==> app[k].y1 == y0 || TopChanges(rs, app[k].y1)
  }

  /** The bands of `rs` between scanlines y0 and y, the first one clipped. */
  ghost predicate Tail(rs: seq<Box>, app: seq<Box>, y0: int, y: int) {
    TailRows(rs, app, y0, y) && TailTops(rs, app, y0)
  }

  lemma TailCoalesced(rs: seq<Box>, app: seq<Box>, y0: int, y: int)
    requires Tail(rs, app, y0, y) && Banded(app)
    ensures Coalesced(app)
  {
    forall k | 0 <= k < |app| ensures TopChanges(app, app[k].y1) {
      TailTopChanges(rs, app, y0, y, k);
    }
  }

  lemma TailTopChanges(rs: seq<Box>, app: seq<Box>, y0: int, y: int, k: nat)
    requires Tail(rs, app, y0, y) && Banded(app) && k < |app|
    ensures TopChanges(app, app[k].y1)
  {
    var t := app[k].y1;
    RowNotEmpty(app, k, t);
    assert Row(app, t) == Row(rs, t);
    assert Row(app, t - 1) == if y0 <= t - 1 < y then Row(rs, t - 1) else [];
  }

  /** Where a band starts once everything above y0 is cut off. */
  function ClipTop(b: Box, y0: int): int {
    if b.y1 > y0 then b.y1 else y0
  }

  lemma TailStep(rs: seq<Box>, i: nat, app: seq<Box>, strip: seq<Box>, y0: int, y: int)
    requires Banded(rs) && Coalesced(rs) && Cursor(rs, i, y) && i < |rs| && y0 <= y
    requires y == y0 || y <= rs[i].y1
    requires Tail(rs, app, y0, y)
    requires IsStrip(strip, ClipTop(rs[i], y0), rs[i].y2)
    requires Spans(strip) == Spans(rs[i..BandEnd(rs, i)])
    ensures Tail(rs, app + strip, y0, rs[i].y2)
  {
    TailTopsStep(rs, i, app, strip, y0);
    forall v ensures Row(app + strip, v) == if y0 <= v < rs[i].y2 then Row(rs, v) else [] {
      TailRowStep(rs, i, app, strip, y0, y, v);
    }
  }

  lemma TailTopsStep(rs: seq<Box>, i: nat, app: seq<Box>, strip: seq<Box>, y0: int)
    requires Coalesced(rs) && i < |rs| && TailTops(rs, app, y0)
    requires IsStrip(strip, ClipTop(rs[i], y0), rs[i].y2)
    ensures TailTops(rs, app + strip, y0)
  {
    assert TopChanges(rs, rs[i].y1);
  }

  lemma TailRowStep(rs: seq<Box>, i: nat, app: seq<Box>, strip: seq<Box>, y0: int, y: int, v: int)
    requires Banded(rs) && Cursor(rs, i, y) && i < |rs| && y0 <= y
    requires y == y0 || y <= rs[i].y1
    requires TailRows(rs, app, y0, y)
    requires IsStrip(strip, ClipTop(rs[i], y0), rs[i].y2)
    requires Spans(strip) == Spans(rs[i..BandEnd(rs, i)])
    ensures Row(app + strip, v) == if y0 <= v < rs[i].y2 then Row(rs, v) else []
  {
    RowConcat(app, strip, v);
    TailStripRow(rs, i, strip, y0, y, v);
    assert Row(app, v) == if y0 <= v < y then Row(rs, v) else [];
  }

  lemma TailStripRow(rs: seq<Box>, i: nat, strip: seq<Box>, y0: int, y: int, v: int)
    requires Banded(rs) && Cursor(rs, i, y) && i < |rs| && y0 <= y
    requires y == y0 || y <= rs[i].y1
    requires IsStrip(strip, ClipTop(rs[i], y0), rs[i].y2)
    requires Spans(strip) == Spans(rs[i..BandEnd(rs, i)])
    ensures Row(strip, v) == if y <= v < rs[i].y2 then Row(rs, v) else []
  {
    var e := BandEnd(rs, i);
    CursorBand(rs, i, y);
    if y <= v < rs[i].y2 && rs[i].y1 <= v {
      RowFull(strip, v);
      RowOfBand(rs, i, e, v);
    } else {
      RowEmpty(strip, v);
      if y <= v < rs[i].y1 {
        BandBounds(rs, i, e);
        RowEmpty(rs, v);
      }
    }
  }

  /** After the tail: the situation miCoalesce is called in for the last time. */
  lemma TailAppended(rs: seq<Box>, out: seq<Box>, app: seq<Box>, prev: nat, y0: int, y: int)
    requires Banded(out + app) && Coalesced(out) && LastBand(out, prev) && EndsBy(out, y0)
    requires Tail(rs, app, y0, y) && app != []
    ensures Appended(out + app, prev, |out|)
  {
    var all := out + app;
    BandedSlice(all, |out|, |all|);
    assert all[|out|..|all|] == app == all[|out|..] && all[..|out|] == out;
    TailCoalesced(rs, app, y0, y);
    if out != [] {
      assert all[|out| - 1] == out[|out| - 1] && all[|out|] == app[0];
    }
  }
}
