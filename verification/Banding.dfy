/** Boxes, scanlines and the y-x-banded form.

    A region is a sequence of boxes.  `Row(rs, y)` reads off the horizontal
    spans of scanline `y`; everything else is stated with it, so that a band
    sweep over two regions can be specified one scanline at a time. */
module Banding {

  /** Half-open rectangle: x2 and y2 are outside. */
  datatype Box = Box(x1: int, y1: int, x2: int, y2: int)

  datatype Span = Span(lo: int, hi: int)

  predicate InBox(b: Box, x: int, y: int) {
    b.x1 <= x < b.x2 && b.y1 <= y < b.y2
  }

  ghost predicate Covered(rs: seq<Box>, x: int, y: int) {
    exists i :: 0 <= i < |rs| && InBox(rs[i], x, y)
  }

  ghost predicate SpansCover(spans: seq<Span>, x: int) {
    exists i :: 0 <= i < |spans| && spans[i].lo <= x < spans[i].hi
  }

  /** `a` lies before `b`: to its left in the same band with a gap, or in an earlier band. */
  predicate Before(a: Box, b: Box) {
    (a.y1 == b.y1 && a.y2 == b.y2 && a.x2 < b.x1) || a.y2 <= b.y1
  }

  predicate NonEmptyBox(b: Box) {
    b.x1 < b.x2 && b.y1 < b.y2
  }

  /** Sorted by y then x, equal top edge iff same band, boxes of a band never touching. */
  ghost predicate Banded(rs: seq<Box>) {
    && (forall i :: 0 <= i < |rs| ==> NonEmptyBox(rs[i]))
    && (forall i, j {:trigger Before(rs[i], rs[j])} :: 0 <= i < j < |rs| ==> Before(rs[i], rs[j]))
  }

  function SpanOf(b: Box): Span {
    Span(b.x1, b.x2)
  }

  function Spans(rs: seq<Box>): (s: seq<Span>) {
    seq(|rs|, i requires 0 <= i < |rs| => SpanOf(rs[i]))
  }

  /** The spans of scanline y, in order. */
  function Row(rs: seq<Box>, y: int): seq<Span> {
    if rs == [] then []
    else (if rs[0].y1 <= y < rs[0].y2 then [SpanOf(rs[0])] else []) + Row(rs[1..], y)
  }

  /** No band repeats the spans of the scanline just above it, so no two
      vertically touching bands could be merged. */
  ghost predicate Coalesced(rs: seq<Box>) {
    forall i {:trigger TopChanges(rs, rs[i].y1)} :: 0 <= i < |rs| ==> TopChanges(rs, rs[i].y1)
  }

  ghost predicate TopChanges(rs: seq<Box>, y: int) {
    Row(rs, y) != Row(rs, y - 1)
  }

  /** Spans in increasing order with a gap between neighbours. */
  ghost predicate Separated(s: seq<Span>) {
    && (forall i :: 0 <= i < |s| ==> s[i].lo < s[i].hi)
    && (forall i, j :: 0 <= i < j < |s| ==> s[i].hi < s[j].lo)
  }

  // ---------------------------------------------------------------- rows

  lemma {:induction false} RowConcat(a: seq<Box>, b: seq<Box>, y: int)
    ensures Row(a + b, y) == Row(a, y) + Row(b, y)
  {
    if a == [] {
      assert a + b == b;
    } else {
      assert (a + b)[1..] == a[1..] + b;
      RowConcat(a[1..], b, y);
    }
  }

  /** A scanline missed by every box is empty. */
  lemma {:induction false} RowEmpty(rs: seq<Box>, y: int)
    requires forall i :: 0 <= i < |rs| ==> !(rs[i].y1 <= y < rs[i].y2)
    ensures Row(rs, y) == []
  {
    if rs != [] {
      RowEmpty(rs[1..], y);
    }
  }

  /** A scanline crossed by every box holds all the spans. */
  lemma {:induction false} RowFull(rs: seq<Box>, y: int)
    requires forall i :: 0 <= i < |rs| ==> rs[i].y1 <= y < rs[i].y2
    ensures Row(rs, y) == Spans(rs)
  {
    if rs != [] {
      RowFull(rs[1..], y);
      assert Spans(rs) == [SpanOf(rs[0])] + Spans(rs[1..]);
    }
  }

  lemma {:induction false} RowCovers(rs: seq<Box>, x: int, y: int)
    ensures Covered(rs, x, y) <==> SpansCover(Row(rs, y), x)
  {
    if rs != [] {
      RowCovers(rs[1..], x, y);
      var head := if rs[0].y1 <= y < rs[0].y2 then [SpanOf(rs[0])] else [];
      SpansCoverConcat(head, Row(rs[1..], y), x);
      assert rs == [rs[0]] + rs[1..];
      CoveredConcat([rs[0]], rs[1..], x, y);
      assert Covered([rs[0]], x, y) <==> InBox(rs[0], x, y) by {
        if InBox(rs[0], x, y) { assert InBox([rs[0]][0], x, y); }
      }
      assert SpansCover(head, x) <==> InBox(rs[0], x, y) by {
        if InBox(rs[0], x, y) { assert head[0].lo <= x < head[0].hi; }
      }
    }
  }

  lemma CoveredConcat(a: seq<Box>, b: seq<Box>, x: int, y: int)
    ensures Covered(a + b, x, y) <==> Covered(a, x, y) || Covered(b, x, y)
  {
    if Covered(a, x, y) {
      var i :| 0 <= i < |a| && InBox(a[i], x, y);
      assert InBox((a + b)[i], x, y);
    }
    if Covered(b, x, y) {
      var i :| 0 <= i < |b| && InBox(b[i], x, y);
      assert InBox((a + b)[|a| + i], x, y);
    }
  }

  lemma NoPoints()
    ensures forall x, y :: !Covered([], x, y)
  {
  }

  lemma SpansCoverConcat(a: seq<Span>, b: seq<Span>, x: int)
    ensures SpansCover(a + b, x) <==> SpansCover(a, x) || SpansCover(b, x)
  {
    if SpansCover(a, x) {
      var i :| 0 <= i < |a| && a[i].lo <= x < a[i].hi;
      assert (a + b)[i].lo <= x < (a + b)[i].hi;
    }
    if SpansCover(b, x) {
      var i :| 0 <= i < |b| && b[i].lo <= x < b[i].hi;
      assert (a + b)[|a| + i].lo <= x < (a + b)[|a| + i].hi;
    }
  }

  /** In banded form every scanline is a separated list of spans. */
  lemma {:induction false} RowSeparated(rs: seq<Box>, y: int)
    requires Banded(rs)
    ensures Separated(Row(rs, y))
    ensures rs != [] && rs[0].y1 <= y < rs[0].y2 ==>
      forall i :: 0 < i < |Row(rs, y)| ==> rs[0].x2 < Row(rs, y)[i].lo
  {
    if rs != [] {
      var tail := rs[1..];
      RowSeparated(tail, y);
      if rs[0].y1 <= y < rs[0].y2 {
        RestToTheRight(rs, y);
        SpanBefore(SpanOf(rs[0]), Row(tail, y));
      }
    }
  }

  /** The span s lies to the left of all of `row`, with a gap. */
  ghost predicate Precedes(s: Span, row: seq<Span>) {
    s.lo < s.hi && forall i :: 0 <= i < |row| ==> s.hi < row[i].lo
  }

  lemma SpanBefore(s: Span, row: seq<Span>)
    requires Separated(row) && Precedes(s, row)
    ensures Separated([s] + row)
  {
  }

  lemma RestToTheRight(rs: seq<Box>, y: int)
    requires Banded(rs) && rs != [] && rs[0].y1 <= y < rs[0].y2
    ensures Precedes(SpanOf(rs[0]), Row(rs[1..], y))
  {
    var tail := rs[1..];
    forall i | 0 <= i < |Row(tail, y)| ensures rs[0].x2 < Row(tail, y)[i].lo {
      var k := RowOrigin(tail, y, i);
      assert Before(rs[0], rs[k + 1]);
    }
  }

  /** Every span of a scanline comes from a box that crosses it. */
  lemma {:induction false} RowOrigin(rs: seq<Box>, y: int, i: nat) returns (k: nat)
    requires i < |Row(rs, y)|
    ensures k < |rs| && rs[k].y1 <= y < rs[k].y2 && SpanOf(rs[k]) == Row(rs, y)[i]
  {
    if rs[0].y1 <= y < rs[0].y2 {
      if i == 0 {
        k := 0;
      } else {
        var k' := RowOrigin(rs[1..], y, i - 1);
        k := k' + 1;
      }
    } else {
      var k' := RowOrigin(rs[1..], y, i);
      k := k' + 1;
    }
  }

  /** Row splits at any two indices. */
  lemma RowSplit(rs: seq<Box>, a: nat, b: nat, y: int)
    requires a <= b <= |rs|
    ensures Row(rs, y) == Row(rs[..a], y) + Row(rs[a..b], y) + Row(rs[b..], y)
  {
    assert rs == rs[..a] + (rs[a..b] + rs[b..]);
    RowConcat(rs[..a], rs[a..b] + rs[b..], y);
    RowConcat(rs[a..b], rs[b..], y);
  }

  lemma RowEmptySlice(rs: seq<Box>, a: nat, b: nat, y: int)
    requires a <= b <= |rs|
    requires forall i :: a <= i < b ==> !(rs[i].y1 <= y < rs[i].y2)
    ensures Row(rs[a..b], y) == []
  {
    RowEmpty(rs[a..b], y);
  }

  /** The boxes [a..b) make up one whole band. */
  ghost predicate IsBand(rs: seq<Box>, a: nat, b: nat) {
    && a < b <= |rs|
    && (forall i :: a <= i < b ==> rs[i].y1 == rs[a].y1)
    && (a > 0 ==> rs[a - 1].y1 != rs[a].y1)
    && (b < |rs| ==> rs[b].y1 != rs[a].y1)
  }

  /** The boxes [a..b) of one band are the scanline for every y they span. */
  lemma RowOfBand(rs: seq<Box>, a: nat, b: nat, y: int)
    requires Banded(rs) && IsBand(rs, a, b)
    requires rs[a].y1 <= y < rs[a].y2
    ensures Row(rs, y) == Spans(rs[a..b]) != []
  {
    hide Row;
    BandBounds(rs, a, b);
    RowSplit(rs, a, b, y);
    RowEmptySlice(rs, 0, a, y);
    RowEmptySlice(rs, b, |rs|, y);
    assert rs[..a] == rs[0..a] && rs[b..] == rs[b..|rs|];
    RowFull(rs[a..b], y);
  }

  /** Everything before a band ends above it, everything after starts below it. */
  lemma BandBounds(rs: seq<Box>, a: nat, b: nat)
    requires Banded(rs) && IsBand(rs, a, b)
    ensures forall i :: a <= i < b ==> rs[i].y2 == rs[a].y2
    ensures forall i :: 0 <= i < a ==> rs[i].y2 <= rs[a].y1
    ensures forall i :: b <= i < |rs| ==> rs[a].y2 <= rs[i].y1
  {
    forall i | 0 <= i < a ensures rs[i].y2 <= rs[a].y1 {
      assert Before(rs[i], rs[a]) && Before(rs[a - 1], rs[a]);
      if i < a - 1 { assert Before(rs[i], rs[a - 1]); }
    }
    forall i | a < i < b ensures rs[i].y2 == rs[a].y2 {
      assert Before(rs[a], rs[i]);
    }
    forall i | b <= i < |rs| ensures rs[a].y2 <= rs[i].y1 {
      assert Before(rs[a], rs[i]) && Before(rs[a], rs[b]);
      if b < i { assert Before(rs[b], rs[i]); }
    }
  }

  // ---------------------------------------------- uniqueness of the form

  lemma FirstSpanCovers(s: seq<Span>, x: int)
    ensures s != [] && s[0].lo <= x < s[0].hi ==> SpansCover(s, x)
  {
    if s != [] && s[0].lo <= x < s[0].hi {
      assert s[0].lo <= x;
    }
  }

  /** The point just after the first span is free. */
  lemma FirstSpanEnds(s: seq<Span>)
    requires Separated(s) && s != []
    ensures !SpansCover(s, s[0].hi)
    ensures forall x :: SpansCover(s, x) ==> s[0].lo <= x
  {
  }

  /** One scanline: two separated span lists with the same points are equal. */
  lemma {:induction false} SpansUnique(s: seq<Span>, t: seq<Span>)
    requires Separated(s) && Separated(t)
    requires forall x :: SpansCover(s, x) <==> SpansCover(t, x)
    ensures s == t
  {
    if s == [] {
      if t != [] { FirstSpanCovers(t, t[0].lo); }
    } else if t == [] {
      FirstSpanCovers(s, s[0].lo);
    } else {
      FirstSpanReach(s, t);
      FirstSpanReach(t, s);
      assert s[0] == t[0];
      forall x ensures SpansCover(s[1..], x) <==> SpansCover(t[1..], x) {
        DropFirstSpan(s, x);
        DropFirstSpan(t, x);
      }
      SpansUnique(s[1..], t[1..]);
    }
  }

  /** The first span of s starts no later and, if it starts level, ends no
      sooner than the first span of t. */
  lemma FirstSpanReach(s: seq<Span>, t: seq<Span>)
    requires Separated(s) && Separated(t) && s != [] && t != []
    requires forall x :: SpansCover(s, x) <==> SpansCover(t, x)
    ensures s[0].lo <= t[0].lo
    ensures s[0].lo == t[0].lo ==> t[0].hi <= s[0].hi
  {
    hide SpansCover;
    FirstSpanEnds(s);
    FirstSpanCovers(t, t[0].lo);
    FirstSpanCovers(t, s[0].hi);
  }

  lemma DropFirstSpan(s: seq<Span>, x: int)
    requires Separated(s) && s != []
    ensures SpansCover(s[1..], x) <==> SpansCover(s, x) && !(s[0].lo <= x < s[0].hi)
  {
    assert s == [s[0]] + s[1..];
    SpansCoverConcat([s[0]], s[1..], x);
    assert SpansCover([s[0]], x) <==> s[0].lo <= x < s[0].hi by {
      if s[0].lo <= x < s[0].hi { assert [s[0]][0].lo <= x; }
    }
  }

  /** Same points, same scanlines. */
  lemma SamePointsSameRow(p: seq<Box>, q: seq<Box>, y: int)
    requires Banded(p) && Banded(q)
    requires forall x :: Covered(p, x, y) <==> Covered(q, x, y)
    ensures Row(p, y) == Row(q, y)
  {
    RowSeparated(p, y);
    RowSeparated(q, y);
    forall x ensures SpansCover(Row(p, y), x) <==> SpansCover(Row(q, y), x) {
      RowCovers(p, x, y);
      RowCovers(q, x, y);
    }
    SpansUnique(Row(p, y), Row(q, y));
  }

  /** Number of boxes in the first band. */
  function FirstBand(rs: seq<Box>): (n: nat)
    requires rs != []
    ensures 0 < n <= |rs|
    ensures forall i :: 0 <= i < n ==> rs[i].y1 == rs[0].y1
    ensures n < |rs| ==> rs[n].y1 != rs[0].y1
  {
    BandEnd(rs, 0)
  }

  /** First index at or after i whose box is not in the band of box i. */
  function BandEnd(rs: seq<Box>, i: nat): (n: nat)
    requires i < |rs|
    ensures i < n <= |rs|
    ensures forall k :: i <= k < n ==> rs[k].y1 == rs[i].y1
    ensures n < |rs| ==> rs[n].y1 != rs[i].y1
    decreases |rs| - i
  {
    if i + 1 == |rs| || rs[i + 1].y1 != rs[i].y1 then i + 1 else BandEnd(rs, i + 1)
  }

  /** Dropping the first band clears its scanlines and nothing else. */
  lemma DropFirstBand(rs: seq<Box>, y: int)
    requires Banded(rs) && rs != []
    ensures Row(rs[FirstBand(rs)..], y) == if y < rs[0].y2 then [] else Row(rs, y)
  {
    var n := FirstBand(rs);
    BandBounds(rs, 0, n);
    assert rs == rs[..n] + rs[n..];
    RowConcat(rs[..n], rs[n..], y);
    if y < rs[0].y2 {
      RowEmpty(rs[n..], y);
    } else {
      RowEmpty(rs[..n], y);
    }
  }

  lemma RestCoalesced(rs: seq<Box>)
    requires Banded(rs) && Coalesced(rs) && rs != []
    ensures Banded(rs[FirstBand(rs)..]) && Coalesced(rs[FirstBand(rs)..])
  {
    var n := FirstBand(rs);
    forall i | 0 <= i < |rs[n..]| ensures TopChanges(rs[n..], rs[n..][i].y1) {
      BandBounds(rs, 0, n);
      RestTopChanges(rs, n + i);
    }
  }

  lemma RestTopChanges(rs: seq<Box>, k: nat)
    requires Banded(rs) && rs != [] && k < |rs| && rs[0].y2 <= rs[k].y1
    requires TopChanges(rs, rs[k].y1)
    ensures TopChanges(rs[FirstBand(rs)..], rs[k].y1)
  {
    DropFirstBand(rs, rs[k].y1);
    DropFirstBand(rs, rs[k].y1 - 1);
    RowNotEmpty(rs, k, rs[k].y1);
  }

  lemma {:induction false} RowNotEmpty(rs: seq<Box>, i: nat, y: int)
    requires i < |rs| && rs[i].y1 <= y < rs[i].y2
    ensures Row(rs, y) != []
  {
    if i > 0 {
      RowNotEmpty(rs[1..], i - 1, y);
    }
  }

  lemma NoRepeat(rs: seq<Box>, i: nat)
    requires Coalesced(rs) && i < |rs|
    ensures Row(rs, rs[i].y1) != Row(rs, rs[i].y1 - 1)
  {
    assert TopChanges(rs, rs[i].y1);
  }

  /** First bands with the same top edge: the one of p ends no later. */
  lemma FirstBandEnds(p: seq<Box>, q: seq<Box>)
    requires Banded(p) && Coalesced(p) && Banded(q) && p != [] && q != []
    requires forall y :: Row(p, y) == Row(q, y)
    requires p[0].y1 == q[0].y1
    ensures q[0].y2 <= p[0].y2
  {
    hide Row, Spans;
    if p[0].y2 < q[0].y2 {
      var y := p[0].y2;
      RowOfBand(q, 0, FirstBand(q), y);
      RowOfBand(q, 0, FirstBand(q), y - 1);
      var k := RowOrigin(p, y, 0);
      assert Before(p[0], p[k]);
      NoRepeat(p, k);
    }
  }

  /** The top scanline of p is not above the top scanline of q. */
  lemma TopRow(p: seq<Box>, q: seq<Box>)
    requires Banded(p) && Banded(q) && p != [] && q != []
    requires forall y :: Row(p, y) == Row(q, y)
    ensures q[0].y1 <= p[0].y1
  {
    RowNotEmpty(p, 0, p[0].y1);
    var k := RowOrigin(q, p[0].y1, 0);
    if k > 0 { assert Before(q[0], q[k]); }
  }

  /** Same scanlines, same first band. */
  lemma FirstBandsEqual(p: seq<Box>, q: seq<Box>)
    requires Banded(p) && Coalesced(p) && Banded(q) && Coalesced(q) && p != [] && q != []
    requires forall y :: Row(p, y) == Row(q, y)
    ensures p[..FirstBand(p)] == q[..FirstBand(q)]
  {
    TopRow(p, q);
    TopRow(q, p);
    FirstBandEnds(p, q);
    FirstBandEnds(q, p);
    BandFromRow(p, q);
  }

  lemma BandFromRow(p: seq<Box>, q: seq<Box>)
    requires Banded(p) && Banded(q) && p != [] && q != []
    requires p[0].y1 == q[0].y1 && p[0].y2 == q[0].y2
    requires Row(p, p[0].y1) == Row(q, p[0].y1)
    ensures p[..FirstBand(p)] == q[..FirstBand(q)]
  {
    var m, n := FirstBand(p), FirstBand(q);
    RowOfBand(p, 0, m, p[0].y1);
    RowOfBand(q, 0, n, q[0].y1);
    BandBounds(p, 0, m);
    BandBounds(q, 0, n);
    var s, t := Spans(p[0..m]), Spans(q[0..n]);
    assert s == t && |s| == m && |t| == n;
    forall i | 0 <= i < m ensures p[i] == q[i] {
      assert s[i] == SpanOf(p[i]) && t[i] == SpanOf(q[i]);
    }
  }

  lemma {:induction false} SameRowsSameBoxes(p: seq<Box>, q: seq<Box>)
    requires Banded(p) && Coalesced(p) && Banded(q) && Coalesced(q)
    requires forall y :: Row(p, y) == Row(q, y)
    ensures p == q
    decreases |p|
  {
    if p == [] {
      if q != [] { RowNotEmpty(q, 0, q[0].y1); }
    } else if q == [] {
      RowNotEmpty(p, 0, p[0].y1);
    } else {
      var m, n := FirstBand(p), FirstBand(q);
      FirstBandsEqual(p, q);
      RestCoalesced(p);
      RestCoalesced(q);
      assert p[0] == p[..m][0] && q[0] == q[..n][0];
      forall y ensures Row(p[m..], y) == Row(q[n..], y) {
        DropFirstBand(p, y);
        DropFirstBand(q, y);
      }
      SameRowsSameBoxes(p[m..], q[n..]);
      assert p == p[..m] + p[m..] && q == q[..n] + q[n..];
    }
  }

  /** The canonical form is unique: two banded, coalesced box lists cover the
      same points exactly when they are the same list. */
  lemma CanonicalUnique(p: seq<Box>, q: seq<Box>)
    requires Banded(p) && Coalesced(p) && Banded(q) && Coalesced(q)
    ensures p == q <==> forall x, y :: Covered(p, x, y) <==> Covered(q, x, y)
  {
    if forall x, y :: Covered(p, x, y) <==> Covered(q, x, y) {
      forall y ensures Row(p, y) == Row(q, y) {
        SamePointsSameRow(p, q, y);
      }
      SameRowsSameBoxes(p, q);
    }
  }

  /** Boxes of a banded list do not overlap. */
  lemma BandedApart(rs: seq<Box>, k: nat, x: int, y: int)
    requires Banded(rs) && k < |rs| && Covered(rs[..k], x, y)
    ensures !InBox(rs[k], x, y)
  {
    var i :| 0 <= i < k && InBox(rs[..k][i], x, y);
    assert Before(rs[i], rs[k]);
  }
}
