/** Counting the colours and the runs of a strided rectangle of pixels. */
module RectAnalysis {
  import opened Arithmetic
  import opened Palettes

  class RectInfo {
    var rleRuns: nat
    const palette: Palette

    constructor ()
      ensures palette.Valid() && fresh(palette) && fresh(palette.list) && fresh(palette.hash) && fresh(palette.entry)
    {
      rleRuns := 0;
      palette := new Palette();
    }
  }

  // ---------------------------------------------------------- specification

  /** The pixels in scan order, without the padding between rows. */
  ghost function Scan(px: seq<Colour>, width: nat, height: nat, stride: nat): (scan: seq<Colour>)
    requires Fits(px, width, height, stride)
    ensures |scan| == Times(height, width)
  {
    if height == 0 then [] else
      Scan(px, width, height - 1, stride) + px[Times(height - 1, stride)..Times(height - 1, stride) + width]
  }

  /** A last row need not be padded. */
  ghost predicate Fits(px: seq<Colour>, width: nat, height: nat, stride: nat) {
    width <= stride && (height > 0 ==> Times(height - 1, stride) + width <= |px|)
  }

  function Colours(scan: seq<Colour>): set<Colour> {
    set c | c in scan
  }

  /** How often the next pixel has another colour. */
  ghost function Changes(scan: seq<Colour>): nat {
    if |scan| < 2 then 0 else
      Changes(scan[..|scan| - 1]) + if scan[|scan| - 2] != scan[|scan| - 1] then 1 else 0
  }

  /** Every colour with the number of its pixels. */
  ghost predicate Counts(totals: map<Colour, int>, scan: seq<Colour>) {
    && totals.Keys == Colours(scan)
    && forall c :: c in totals ==> totals[c] == multiset(scan)[c]
  }

  /** The scan reads the rows one after the other, each from left to right. */
  lemma {:induction false} ScanAt(px: seq<Colour>, width: nat, height: nat, stride: nat, x: nat, y: nat)
    requires Fits(px, width, height, stride) && x < width && y < height
    ensures Times(y, width) + x < |Scan(px, width, height, stride)| && Times(y, stride) + x < |px|
    ensures Scan(px, width, height, stride)[Times(y, width) + x] == px[Times(y, stride) + x]
  {
    if y < height - 1 {
      ScanAt(px, width, height - 1, stride, x, y);
    } else {
      var start := Times(y, stride);
      assert px[start..start + width][x] == px[start + x];
    }
  }

  /** The places where the colour differs from that of the pixel before. */
  ghost function ChangesIn(scan: seq<Colour>): set<int> {
    set i | 1 <= i < |scan| && ChangeAt(scan, i)
  }

  predicate ChangeAt(scan: seq<Colour>, i: int)
    requires 1 <= i < |scan|
  {
    scan[i - 1] != scan[i]
  }

  lemma {:induction false} ChangesCounted(scan: seq<Colour>)
    ensures Changes(scan) == |ChangesIn(scan)|
  {
    if |scan| < 2 {
      assert ChangesIn(scan) == {};
    } else {
      var n, rest := |scan| - 1, scan[..|scan| - 1];
      ChangesCounted(rest);
      if scan[n - 1] != scan[n] {
        assert ChangesIn(scan) == ChangesIn(rest) + {n};
      } else {
        assert ChangesIn(scan) == ChangesIn(rest);
      }
    }
  }

  // ------------------------------------------------------------- invariants

  /** The pixels seen are those in the map and the current run. */
  ghost predicate Accounted(totals: map<Colour, int>, colour: Colour, count: nat, seen: seq<Colour>) {
    && (count == 0 <==> seen == [])
    && (seen != [] ==> seen[|seen| - 1] == colour)
    && (seen == [] ==> totals == map[])
    && (forall c :: c in totals ==> c in seen)
    && (forall c :: c in seen ==> c in totals || c == colour)
    && (forall c :: (if c in totals then totals[c] else 0) + (if c == colour then count else 0) == multiset(seen)[c])
  }

  ghost predicate Within(scan: seq<Colour>, all: seq<Colour>) {
    forall c :: c in scan ==> c in all
  }

  lemma AllWithin(all: seq<Colour>)
    ensures Within(all, all)
  {
  }

  lemma WithinPrefix(prefix: seq<Colour>, scan: seq<Colour>, all: seq<Colour>)
    requires prefix <= scan && Within(scan, all)
    ensures Within(prefix, all)
  {
  }

  lemma NothingSeen(colour: Colour)
    ensures Accounted(map[], colour, 0, []) && Changes([]) == 0
  {
  }

  lemma RunGrows(totals: map<Colour, int>, colour: Colour, count: nat, seen: seq<Colour>)
    requires Accounted(totals, colour, count, seen)
    ensures Accounted(totals, colour, count + 1, seen + [colour])
    ensures Changes(seen + [colour]) == Changes(seen)
  {
    assert (seen + [colour])[..|seen|] == seen;
  }

  lemma RunEnds(totals: map<Colour, int>, colour: Colour, count: nat, seen: seq<Colour>, next: Colour)
    requires Accounted(totals, colour, count, seen) && next != colour && seen != []
    ensures Accounted(Added(totals, colour, count), next, 1, seen + [next])
    ensures Changes(seen + [next]) == Changes(seen) + 1
  {
    assert (seen + [next])[..|seen|] == seen;
  }

  lemma LastRunEnds(totals: map<Colour, int>, colour: Colour, count: nat, seen: seq<Colour>)
    requires Accounted(totals, colour, count, seen) && seen != []
    ensures Counts(Added(totals, colour, count), seen)
    ensures |Colours(seen)| == |Added(totals, colour, count)|
  {
    var totals' := Added(totals, colour, count);
    assert |totals'| == |totals'.Keys|;
  }

  lemma {:induction false} SubsetSize<T>(a: set<T>, b: set<T>)
    requires a <= b
    ensures |a| <= |b|
  {
    if a != {} {
      var x :| x in a;
      SubsetSize(a - {x}, b - {x});
    }
  }

  /** Keys that all occur in a scan bound the number of its colours. */
  lemma AtLeast(totals: map<Colour, int>, scan: seq<Colour>)
    requires forall c :: c in totals ==> c in scan
    ensures |Colours(scan)| >= |totals|
  {
    SubsetSize(totals.Keys, Colours(scan));
  }

  lemma ScanStep(px: seq<Colour>, width: nat, height: nat, stride: nat, rows: nat)
    requires Fits(px, width, height, stride) && rows < height
    ensures Fits(px, width, rows, stride) && Fits(px, width, rows + 1, stride)
    ensures Times(rows, stride) + width <= |px|
    ensures rows + 1 < height ==> Times(rows, stride) + stride <= |px|
    ensures Scan(px, width, 0, stride) == []
    ensures Scan(px, width, rows + 1, stride)
      == Scan(px, width, rows, stride) + px[Times(rows, stride)..Times(rows, stride) + width]
    decreases height
  {
    if rows + 1 < height {
      ScanStep(px, width, height - 1, stride, rows);
    }
  }

  /** What has been scanned so far is the start of the whole scan. */
  lemma ScanPrefix(px: seq<Colour>, width: nat, height: nat, stride: nat, rows: nat)
    requires Fits(px, width, height, stride) && rows <= height && Fits(px, width, rows, stride)
    ensures Within(Scan(px, width, rows, stride), Scan(px, width, height, stride))
  {
    if rows < height {
      ScanStep(px, width, height, stride, rows);
      ScanPrefix(px, width, height - 1, stride, rows);
    }
  }

  // -------------------------------------------------------------- algorithm

  method AnalyseRect(width: nat, height: nat, buffer: seq<Colour>, stride: nat, info: RectInfo, maxColours: int)
    returns (ok: bool)
    requires width > 0 && height > 0 && Fits(buffer, width, height, stride) && info.palette.Valid()
    modifies info, info.palette, info.palette.list, info.palette.hash, info.palette.entry
    ensures info.palette.Valid()
    ensures ok <==> |Colours(Scan(buffer, width, height, stride))| <= Min(maxColours, 256)
    ensures ok ==> Counts(info.palette.totals, Scan(buffer, width, height, stride))
    ensures ok ==> info.rleRuns == Changes(Scan(buffer, width, height, stride))
  {
    hide Palette.Valid, Scan, Changes, Accounted, Counts, Colours, Within;
    info.rleRuns := 0;
    info.palette.Clear();
    var pad := stride - width;
    var at := 0;
    ScanStep(buffer, width, height, stride, 0);
    var colour, count := buffer[0], 0;
    ghost var all := Scan(buffer, width, height, stride);
    ghost var seen: seq<Colour> := [];
    NothingSeen(colour);
    for row := 0 to height
      invariant info.palette.Valid()
      invariant at == Times(row, stride) && Fits(buffer, width, row, stride)
      invariant seen == Scan(buffer, width, row, stride) && |seen| == Times(row, width)
      invariant row == 0 ==> colour == buffer[0]
      invariant Accounted(info.palette.totals, colour, count, seen)
      invariant info.rleRuns == Changes(seen)
    {
      ScanStep(buffer, width, height, stride, row);
      ScanPrefix(buffer, width, height, stride, row + 1);
      assert row > 0 ==> seen != [];
      ok, colour, count := AnalyseRow(buffer[at..at + width], colour, count, info, maxColours, seen, all);
      if !ok { return; }
      seen := seen + buffer[at..at + width];
      at := at + width + pad;
    }
    assert seen == all;
    AllWithin(all);
    LastRunEnds(info.palette.totals, colour, count, seen);
    ok := EndRun(info, colour, count, seen, all, maxColours);
  }

  /** One line of pixels, carrying the current run in and out. */
  method AnalyseRow(line: seq<Colour>, colour0: Colour, count0: nat, info: RectInfo, maxColours: int,
                    ghost before: seq<Colour>, ghost all: seq<Colour>)
    returns (ok: bool, colour: Colour, count: nat)
    requires info.palette.Valid() && info.rleRuns == Changes(before)
    requires before == [] ==> line != [] && colour0 == line[0]
    requires Accounted(info.palette.totals, colour0, count0, before)
    requires Within(before + line, all)
    modifies info, info.palette, info.palette.list, info.palette.hash, info.palette.entry
    ensures info.palette.Valid()
    ensures ok ==> Accounted(info.palette.totals, colour, count, before + line)
    ensures ok ==> info.rleRuns == Changes(before + line)
    ensures !ok ==> |Colours(all)| > Min(maxColours, SIZE)
  {
    hide Palette.Valid, Changes, Accounted, Colours, Within;
    ok, colour, count := true, colour0, count0;
    assert before + line[..0] == before;
    for col := 0 to |line|
      invariant info.palette.Valid() && ok
      invariant before == [] && col == 0 ==> colour == line[0]
      invariant Accounted(info.palette.totals, colour, count, before + line[..col])
      invariant info.rleRuns == Changes(before + line[..col])
    {
      ghost var seen := before + line[..col];
      WithinPrefix(seen, before + line, all);
      TakeNext(before, line, col);
      ok, colour, count := AnalysePixel(line[col], colour, count, info, maxColours, seen, all);
      if !ok { return; }
    }
    assert line[..|line|] == line;
  }

  lemma TakeNext(before: seq<Colour>, line: seq<Colour>, col: nat)
    requires col < |line|
    ensures before + line[..col + 1] == before + line[..col] + [line[col]]
  {
  }

  method AnalysePixel(next: Colour, colour0: Colour, count0: nat, info: RectInfo, maxColours: int,
                      ghost seen: seq<Colour>, ghost all: seq<Colour>)
    returns (ok: bool, colour: Colour, count: nat)
    requires info.palette.Valid() && info.rleRuns == Changes(seen)
    requires seen == [] ==> next == colour0
    requires Accounted(info.palette.totals, colour0, count0, seen) && Within(seen, all)
    modifies info, info.palette, info.palette.list, info.palette.hash, info.palette.entry
    ensures info.palette.Valid()
    ensures ok ==> Accounted(info.palette.totals, colour, count, seen + [next])
    ensures ok ==> info.rleRuns == Changes(seen + [next])
    ensures !ok ==> |Colours(all)| > Min(maxColours, SIZE)
  {
    hide Palette.Valid, Changes, Accounted, Colours, Within, Added;
    ok, colour, count := true, colour0, count0;
    if next != colour {
      ghost var totals := info.palette.totals;
      ok := EndRun(info, colour, count, seen, all, maxColours);
      if !ok { return; }
      RunEnds(totals, colour, count, seen, next);
      info.rleRuns := info.rleRuns + 1;
      colour, count := next, 0;
    } else {
      RunGrows(info.palette.totals, colour, count, seen);
    }
    count := count + 1;
  }

  /** Enter a finished run into the palette; false when there are too many colours. */
  method EndRun(info: RectInfo, colour: Colour, count: nat, ghost seen: seq<Colour>, ghost all: seq<Colour>,
                maxColours: int)
    returns (ok: bool)
    requires info.palette.Valid() && seen != []
    requires Accounted(info.palette.totals, colour, count, seen) && Within(seen, all)
    modifies info.palette, info.palette.list, info.palette.hash, info.palette.entry
    ensures info.palette.Valid()
    ensures ok ==> info.palette.totals == Added(old(info.palette.totals), colour, count)
    ensures ok ==> |info.palette.totals| <= Min(maxColours, SIZE)
    ensures !ok ==> |Colours(all)| > Min(maxColours, SIZE)
  {
    hide Palette.Valid, Colours;
    ok := info.palette.Insert(colour, count);
    AtLeast(Added(old(info.palette.totals), colour, count), all);
    if !ok { return; }
    if info.palette.Size() > maxColours { return false; }
  }

  // ---------------------------------------------------------- sum of counts

  /** The counts add up to the number of pixels. */
  lemma {:induction false} CountsAddUp(totals: map<Colour, int>, ranking: seq<Colour>, rest: multiset<Colour>)
    requires forall c :: c in ranking ==> c in totals && totals[c] == rest[c]
    requires forall c :: c in rest ==> c in ranking
    requires forall i, j :: 0 <= i < j < |ranking| ==> ranking[i] != ranking[j]
    ensures SumOf(totals, ranking) == |rest|
  {
    if ranking == [] {
      assert rest == multiset{};
    } else {
      var n := |ranking| - 1;
      CountsAddUp(totals, ranking[..n], rest[ranking[n] := 0]);
    }
  }

  /** After a full analysis the counts of the palette entries sum to the size
      of the rectangle. */
  lemma AllPixelsCounted(palette: Palette, px: seq<Colour>, width: nat, height: nat, stride: nat)
    requires palette.Valid() && Fits(px, width, height, stride)
    requires Counts(palette.totals, Scan(px, width, height, stride))
    ensures forall c :: c in palette.Ranking() ==> c in palette.totals
    ensures SumOf(palette.totals, palette.Ranking()) == height * width
  {
    hide Palette.Valid, Palette.Ranking;
    var scan := Scan(px, width, height, stride);
    palette.RankingIsTotals();
    CountsAddUp(palette.totals, palette.Ranking(), multiset(scan));
    TimesIsProduct(height, width);
  }

  ghost function SumOf(totals: map<Colour, int>, ranking: seq<Colour>): int
    requires forall c :: c in ranking ==> c in totals
  {
    if ranking == [] then 0 else
      SumOf(totals, ranking[..|ranking| - 1]) + totals[ranking[|ranking| - 1]]
  }
}
