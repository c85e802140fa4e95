/** The colour palette: a hash table with chains, an array of colours sorted by
    how often they occur, and indices pointing both ways. */
module Palettes {

  type Colour = c: int | 0 <= c < 0x1_0000_0000

  const SIZE := 256
  const NULL := -1

  /** `next` is an index into list[] in place of a pointer. */
  datatype PaletteListNode = PaletteListNode(next: int, idx: int, colour: Colour)

  datatype PaletteEntry = PaletteEntry(listNode: int, numPixels: int)

  /** djb2 over the four bytes, in an unsigned char. */
  function GenHash(colour: Colour): (key: nat)
    ensures key < SIZE
  {
    var h1 := Mix(5, colour);
    var h2 := Mix(h1, colour / 0x100);
    var h3 := Mix(h2, colour / 0x1_0000);
    Mix(h3, colour / 0x100_0000) as nat
  }

  function Mix(key: bv8, rest: nat): bv8 {
    ((key << 5) + key) ^ ((rest % 0x100) as bv8)
  }

  // ------------------------------------------------------------ hash chains

  function Last(chain: seq<nat>): int {
    if chain == [] then NULL else chain[|chain| - 1]
  }

  /** `chain` is the list of nodes hanging off `first`. */
  ghost predicate IsChain(list: seq<PaletteListNode>, first: int, chain: seq<nat>) {
    && first == (if chain == [] then NULL else chain[0])
    && (forall k :: 0 <= k < |chain| ==> chain[k] < |list|)
    && (forall k :: 0 <= k < |chain| ==>
          list[chain[k]].next == if k == |chain| - 1 then NULL else chain[k + 1])
  }

  /** The chain of key h holds the nodes of the colours with that key, once each. */
  ghost predicate ChainOf(list: seq<PaletteListNode>, first: int, chain: seq<nat>, h: int, n: nat) {
    && n <= |list|
    && IsChain(list, first, chain)
    && (forall m :: m in chain <==> 0 <= m < n && GenHash(list[m].colour) == h)
    && (forall j, k :: 0 <= j < k < |chain| ==> chain[j] != chain[k])
  }

  /** The first k nodes of a chain have other colours; pnode is the next one. */
  ghost predicate Walked(list: seq<PaletteListNode>, chain: seq<nat>, k: nat, colour: Colour, pnode: int, prev: int) {
    && k <= |chain| && pnode == (if k < |chain| then chain[k] else NULL) && prev == Last(chain[..k])
    && forall j :: 0 <= j < k ==> chain[j] < |list| && list[chain[j]].colour != colour
  }

  lemma WalkOn(list: seq<PaletteListNode>, first: int, chain: seq<nat>, h: int, n: nat, k: nat, colour: Colour,
               pnode: int, prev: int)
    requires ChainOf(list, first, chain, h, n) && Walked(list, chain, k, colour, pnode, prev) && pnode != NULL
    ensures 0 <= pnode < n && k < |chain|
    ensures list[pnode].colour != colour ==> Walked(list, chain, k + 1, colour, list[pnode].next, pnode)
  {
    hide GenHash;
    assert chain[k] in chain;
    assert list[chain[k]].next == if k == |chain| - 1 then NULL else chain[k + 1];
    assert chain[..k + 1] == chain[..k] + [chain[k]];
  }

  /** A colour that is not in its own chain is in no node. */
  lemma WalkedAll(list: seq<PaletteListNode>, first: int, chain: seq<nat>, h: int, n: nat, k: nat, colour: Colour,
                  prev: int)
    requires ChainOf(list, first, chain, h, n) && h == GenHash(colour) && Walked(list, chain, k, colour, NULL, prev)
    ensures prev == Last(chain) && !HasColour(list, n, colour)
  {
    hide GenHash, IsChain;
    assert chain[..k] == chain;
    forall m | 0 <= m < n ensures list[m].colour != colour {
      assert list[m].colour == colour ==> m in chain;
    }
  }

  ghost predicate HasColour(list: seq<PaletteListNode>, n: nat, colour: Colour)
    requires n <= |list|
  {
    exists m :: 0 <= m < n && list[m].colour == colour
  }

  lemma Found(list: seq<PaletteListNode>, n: nat, m: nat)
    requires m < n <= |list|
    ensures HasColour(list, n, list[m].colour)
  {
  }

  lemma TotalsKnow(list: seq<PaletteListNode>, entry: seq<PaletteEntry>, n: nat, totals: map<Colour, int>,
                   colour: Colour)
    requires n <= |list| && Totals(list, entry, n, totals)
    ensures colour in totals <==> HasColour(list, n, colour)
  {
    hide CountOf;
  }

  ghost predicate Hashed(list: seq<PaletteListNode>, hash: seq<int>, chains: seq<seq<nat>>, n: nat) {
    && |chains| == |hash| == SIZE && n <= |list|
    && (forall h :: 0 <= h < SIZE ==> ChainOf(list, hash[h], chains[h], h, n))
  }

  ghost predicate Distinct(list: seq<PaletteListNode>, n: nat) {
    n <= |list| && forall a, b :: 0 <= a < b < n ==> list[a].colour != list[b].colour
  }

  /** Changing idx fields leaves the chains alone. */
  lemma HashedFrame(list: seq<PaletteListNode>, list': seq<PaletteListNode>, hash: seq<int>, chains: seq<seq<nat>>,
                    n: nat)
    requires Hashed(list, hash, chains, n) && |list'| == |list|
    requires forall m :: 0 <= m < n ==> list'[m].next == list[m].next && list'[m].colour == list[m].colour
    ensures Hashed(list', hash, chains, n)
  {
    hide GenHash;
    forall h | 0 <= h < SIZE ensures ChainOf(list', hash[h], chains[h], h, n) {
      assert ChainOf(list, hash[h], chains[h], h, n);
      forall k | 0 <= k < |chains[h]| ensures chains[h][k] < n { assert chains[h][k] in chains[h]; }
    }
  }

  /** Linking a new node behind the last node of its chain. */
  lemma LinkNode(list: seq<PaletteListNode>, list': seq<PaletteListNode>, first: int, first': int,
                 chain: seq<nat>, h: int, n: nat)
    requires ChainOf(list, first, chain, h, n) && n < |list| == |list'|
    requires GenHash(list'[n].colour) == h && list'[n].next == NULL
    requires forall m :: 0 <= m < n ==> list'[m].colour == list[m].colour
    requires forall m :: 0 <= m < n ==> list'[m].next == if m == Last(chain) then n else list[m].next
    requires first' == if chain == [] then n else first
    ensures ChainOf(list', first', chain + [n], h, n + 1)
  {
    hide GenHash;
    var chain' := chain + [n];
    forall k | 0 <= k < |chain| ensures chain[k] < n { assert chain[k] in chain; }
    forall m | m in chain' ensures 0 <= m < n + 1 && GenHash(list'[m].colour) == h {}
    forall m | 0 <= m < n + 1 && GenHash(list'[m].colour) == h ensures m in chain' {
      if m < n { assert m in chain; }
    }
    assert IsChain(list', first', chain');
  }

  /** The other chains do not change. */
  lemma OtherChain(list: seq<PaletteListNode>, list': seq<PaletteListNode>, first: int,
                   chain: seq<nat>, h: int, n: nat, touched: int)
    requires ChainOf(list, first, chain, h, n) && n < |list| == |list'|
    requires GenHash(list'[n].colour) != h && touched !in chain
    requires forall m :: 0 <= m < n ==> list'[m].colour == list[m].colour
    requires forall m :: 0 <= m < n && m != touched ==> list'[m].next == list[m].next
    ensures ChainOf(list', first, chain, h, n + 1)
  {
    hide GenHash;
    forall k | 0 <= k < |chain| ensures chain[k] < n && chain[k] != touched { assert chain[k] in chain; }
    forall m | m in chain ensures 0 <= m < n + 1 && GenHash(list'[m].colour) == h {}
  }

  lemma NothingHashed(list: seq<PaletteListNode>, hash: seq<int>)
    requires |hash| == SIZE && forall h :: 0 <= h < SIZE ==> hash[h] == NULL
    ensures Hashed(list, hash, seq(SIZE, _ => []), 0)
  {
    hide GenHash;
    var chains: seq<seq<nat>> := seq(SIZE, _ => []);
    forall h | 0 <= h < SIZE ensures ChainOf(list, hash[h], chains[h], h, 0) {}
  }

  lemma LastNode(list: seq<PaletteListNode>, hash: seq<int>, chains: seq<seq<nat>>, key: nat, n: nat)
    requires Hashed(list, hash, chains, n) && key < SIZE
    ensures NULL <= Last(chains[key]) < n
    ensures Last(chains[key]) == NULL <==> chains[key] == []
  {
    hide GenHash;
    assert ChainOf(list, hash[key], chains[key], key, n);
    if chains[key] != [] { assert chains[key][|chains[key]| - 1] in chains[key]; }
  }

  lemma HashedLink(list: seq<PaletteListNode>, list': seq<PaletteListNode>, hash: seq<int>, hash': seq<int>,
                   chains: seq<seq<nat>>, key: nat, n: nat)
    requires Hashed(list, hash, chains, n) && n < |list| == |list'| && |hash'| == SIZE
    requires key == GenHash(list'[n].colour) && list'[n].next == NULL
    requires forall m :: 0 <= m < n ==> list'[m].colour == list[m].colour
    requires forall m :: 0 <= m < n ==> list'[m].next == if m == Last(chains[key]) then n else list[m].next
    requires forall h :: 0 <= h < SIZE ==> hash'[h] == if h == key && chains[key] == [] then n else hash[h]
    ensures Hashed(list', hash', chains[key := chains[key] + [n]], n + 1)
  {
    hide GenHash, IsChain;
    forall h | 0 <= h < SIZE
      ensures ChainOf(list', hash'[h], chains[key := chains[key] + [n]][h], h, n + 1)
    {
      assert ChainOf(list, hash[h], chains[h], h, n) && ChainOf(list, hash[key], chains[key], key, n);
      if h == key {
        LinkNode(list, list', hash[h], hash'[h], chains[h], h, n);
      } else {
        if chains[key] != [] { assert chains[key][|chains[key]| - 1] in chains[key]; }
        OtherChain(list, list', hash[h], chains[h], h, n, Last(chains[key]));
      }
    }
  }

  // -------------------------------------------------------------- the ranks

  /** Position i of entry[] points at a node that points back. */
  ghost predicate EntryLinked(list: seq<PaletteListNode>, entry: seq<PaletteEntry>, n: nat, p: int, i: int) {
    && 0 <= i < |entry| && 0 <= entry[i].listNode < n <= |list|
    && entry[i].listNode != p && list[entry[i].listNode].idx == i
  }

  /** Node m points at a position of entry[] that points back. */
  ghost predicate NodeLinked(list: seq<PaletteListNode>, entry: seq<PaletteEntry>, n: nat, hole: int, m: int) {
    && 0 <= m < |list| && 0 <= list[m].idx < n <= |entry|
    && list[m].idx != hole && entry[list[m].idx].listNode == m
  }

  /** entry[] and list[] point at each other, except that position `hole` of
      entry[] and node p are not in use. */
  ghost predicate Linked(list: seq<PaletteListNode>, entry: seq<PaletteEntry>, n: nat, hole: int, p: int) {
    && n <= |list| && n <= |entry|
    && (forall i :: 0 <= i < n && i != hole ==> EntryLinked(list, entry, n, p, i))
    && (forall m :: 0 <= m < n && m != p ==> NodeLinked(list, entry, n, hole, m))
  }

  /** The most common colour comes first. */
  ghost predicate Descending(entry: seq<PaletteEntry>, n: nat, hole: int) {
    && n <= |entry|
    && (forall i, j :: 0 <= i < j < n && i != hole && j != hole ==> entry[i].numPixels >= entry[j].numPixels)
  }

  /** No position and no node is unused. */
  ghost predicate Ranked(list: seq<PaletteListNode>, entry: seq<PaletteEntry>, n: nat) {
    Linked(list, entry, n, NULL, NULL) && Descending(entry, n, NULL)
  }

  /** Node p with so many pixels belongs at the hole or further down. */
  ghost predicate Holed(list: seq<PaletteListNode>, entry: seq<PaletteEntry>, n: nat, hole: int, p: int,
                        numPixels: int) {
    && Linked(list, entry, n, hole, p) && Descending(entry, n, hole)
    && 0 <= hole < n && 0 <= p < n
    && (forall i :: hole < i < n ==> entry[i].numPixels <= numPixels)
  }

  ghost function ColoursAt(list: seq<PaletteListNode>, entry: seq<PaletteEntry>): (colours: seq<Colour>)
    ensures |colours| == |entry|
  {
    seq(|entry|, i requires 0 <= i < |entry| =>
      if 0 <= entry[i].listNode < |list| then list[entry[i].listNode].colour else 0)
  }

  ghost function CountOf(list: seq<PaletteListNode>, entry: seq<PaletteEntry>, m: int): int {
    if 0 <= m < |list| && 0 <= list[m].idx < |entry| then entry[list[m].idx].numPixels else 0
  }

  /** The plain map from colour to total that the palette stands for. */
  ghost predicate Totals(list: seq<PaletteListNode>, entry: seq<PaletteEntry>, n: nat, totals: map<Colour, int>) {
    && n <= |list|
    && |totals| == n
    && (forall m :: 0 <= m < n ==> list[m].colour in totals)
    && (forall c :: c in totals ==> exists m :: 0 <= m < n && list[m].colour == c)
    && (forall m :: 0 <= m < n ==> totals[list[m].colour] == CountOf(list, entry, m))
  }

  /** Taking out node p opens a hole at its rank. */
  lemma OpenHole(list: seq<PaletteListNode>, entry: seq<PaletteEntry>, n: nat, p: int)
    requires Ranked(list, entry, n) && 0 <= p < n
    ensures 0 <= list[p].idx < n && entry[list[p].idx].listNode == p
    ensures forall numPixels :: numPixels >= entry[list[p].idx].numPixels ==>
      Holed(list, entry, n, list[p].idx, p, numPixels)
  {
    assert NodeLinked(list, entry, n, NULL, p);
    var hole := list[p].idx;
    forall i | 0 <= i < n && i != hole ensures EntryLinked(list, entry, n, p, i) {
      assert EntryLinked(list, entry, n, NULL, i);
    }
    forall m | 0 <= m < n && m != p ensures NodeLinked(list, entry, n, hole, m) {
      assert NodeLinked(list, entry, n, NULL, m);
    }
  }

  /** A colour that is still to be ranked comes last. */
  lemma OpenLast(list: seq<PaletteListNode>, entry: seq<PaletteEntry>, n: nat, list': seq<PaletteListNode>,
                 numPixels: int)
    requires Ranked(list, entry, n) && n < |list| == |list'| && n < |entry|
    requires forall m :: 0 <= m < n ==> list'[m].idx == list[m].idx
    ensures Holed(list', entry, n + 1, n, n, numPixels)
  {
    var more := n + 1;
    forall i | 0 <= i < n ensures EntryLinked(list', entry, more, n, i) {
      assert EntryLinked(list, entry, n, NULL, i);
    }
    forall m | 0 <= m < n ensures NodeLinked(list', entry, more, n, m) {
      assert NodeLinked(list, entry, n, NULL, m);
    }
    assert Linked(list', entry, more, n, n);
  }

  /** The entry before the hole moves up, and the hole moves down. */
  lemma ShiftStep(list: seq<PaletteListNode>, entry: seq<PaletteEntry>, n: nat, hole: int, p: int, numPixels: int)
    requires Holed(list, entry, n, hole, p, numPixels) && 0 < hole
    requires entry[hole - 1].numPixels < numPixels
    ensures var q := entry[hole - 1].listNode;
      && 0 <= q < n && q != p
      && var list', entry' := list[q := list[q].(idx := hole)], entry[hole := entry[hole - 1]];
         && Holed(list', entry', n, hole - 1, p, numPixels)
         && forall m :: 0 <= m < n && m != p ==> CountOf(list', entry', m) == CountOf(list, entry, m)
  {
    assert EntryLinked(list, entry, n, p, hole - 1);
    var q := entry[hole - 1].listNode;
    var list', entry' := list[q := list[q].(idx := hole)], entry[hole := entry[hole - 1]];
    forall i | 0 <= i < n && i != hole - 1 ensures EntryLinked(list', entry', n, p, i) {
      if i != hole { assert EntryLinked(list, entry, n, p, i); }
    }
    var down := hole - 1;
    forall m | 0 <= m < n && m != p
      ensures NodeLinked(list', entry', n, down, m)
      ensures CountOf(list', entry', m) == CountOf(list, entry, m)
    {
      assert NodeLinked(list, entry, n, hole, m);
    }
    assert Linked(list', entry', n, down, p);
  }

  /** Putting p into the hole. */
  lemma Plug(list: seq<PaletteListNode>, entry: seq<PaletteEntry>, n: nat, hole: int, p: int, numPixels: int)
    requires Holed(list, entry, n, hole, p, numPixels)
    requires hole == 0 || entry[hole - 1].numPixels >= numPixels
    ensures var list', entry' := list[p := list[p].(idx := hole)], entry[hole := PaletteEntry(p, numPixels)];
      && Ranked(list', entry', n)
      && forall m :: 0 <= m < n ==>
           CountOf(list', entry', m) == if m == p then numPixels else CountOf(list, entry, m)
  {
    var list', entry' := list[p := list[p].(idx := hole)], entry[hole := PaletteEntry(p, numPixels)];
    forall i | 0 <= i < n ensures EntryLinked(list', entry', n, NULL, i) {
      if i != hole { assert EntryLinked(list, entry, n, p, i); }
    }
    forall m | 0 <= m < n
      ensures NodeLinked(list', entry', n, NULL, m)
      ensures CountOf(list', entry', m) == if m == p then numPixels else CountOf(list, entry, m)
    {
      if m != p { assert NodeLinked(list, entry, n, hole, m); }
    }
    forall i | 0 <= i < hole ensures entry[i].numPixels >= numPixels {}
  }

  // ------------------------------------------------------------- the totals

  /** The map with more pixels of one colour. */
  ghost function Added(totals: map<Colour, int>, colour: Colour, more: int): map<Colour, int> {
    totals[colour := more + if colour in totals then totals[colour] else 0]
  }

  /** One node's count grows. */
  lemma TotalsGrow(list: seq<PaletteListNode>, entry: seq<PaletteEntry>, n: nat, totals: map<Colour, int>,
                   list': seq<PaletteListNode>, entry': seq<PaletteEntry>, p: int, more: int)
    requires Totals(list, entry, n, totals) && Distinct(list, n) && 0 <= p < n <= |list'|
    requires forall m :: 0 <= m < n ==> list'[m].colour == list[m].colour
    requires forall m :: 0 <= m < n ==>
      CountOf(list', entry', m) == CountOf(list, entry, m) + if m == p then more else 0
    ensures Totals(list', entry', n, Added(totals, list[p].colour, more))
  {
    hide CountOf;
    var totals' := Added(totals, list[p].colour, more);
    assert list[p].colour in totals;
    assert totals'.Keys == totals.Keys;
    assert |totals'| == |totals'.Keys| == |totals.Keys| == |totals|;
    forall m | 0 <= m < n ensures totals'[list'[m].colour] == CountOf(list', entry', m) {
      assert totals[list[m].colour] == CountOf(list, entry, m);
      if m != p { assert list[m].colour != list[p].colour; }
    }
    forall c | c in totals' ensures exists m :: 0 <= m < n && list'[m].colour == c {
      var m :| 0 <= m < n && list[m].colour == c;
      assert list'[m].colour == c;
    }
  }

  /** One node more. */
  lemma TotalsAppend(list: seq<PaletteListNode>, entry: seq<PaletteEntry>, n: nat, totals: map<Colour, int>,
                     list': seq<PaletteListNode>, entry': seq<PaletteEntry>, colour: Colour)
    requires Totals(list, entry, n, totals) && n < |list| == |list'|
    requires list'[n].colour == colour && colour !in totals
    requires forall m :: 0 <= m < n ==> list'[m].colour == list[m].colour
    requires forall m :: 0 <= m < n ==> CountOf(list', entry', m) == CountOf(list, entry, m)
    ensures Totals(list', entry', n + 1, Added(totals, colour, CountOf(list', entry', n)))
  {
    hide CountOf;
    var totals' := totals[colour := CountOf(list', entry', n)];
    forall m | 0 <= m <= n
      ensures list'[m].colour in totals' && totals'[list'[m].colour] == CountOf(list', entry', m)
    {
      if m < n { assert totals[list[m].colour] == CountOf(list, entry, m); }
    }
    forall c | c in totals' ensures exists m :: 0 <= m <= n && list'[m].colour == c {
      if c in totals {
        var m :| 0 <= m < n && list[m].colour == c;
        assert list'[m].colour == c;
      }
    }
  }

  lemma DistinctAppend(list: seq<PaletteListNode>, entry: seq<PaletteEntry>, n: nat, totals: map<Colour, int>,
                       list': seq<PaletteListNode>)
    requires Distinct(list, n) && Totals(list, entry, n, totals) && n < |list| == |list'|
    requires forall m :: 0 <= m < n ==> list'[m].colour == list[m].colour
    requires list'[n].colour !in totals
    ensures Distinct(list', n + 1)
  {
    hide CountOf;
    forall a, b | 0 <= a < b < n + 1 ensures list'[a].colour != list'[b].colour {
      assert list[a].colour in totals;
    }
  }

  // ---------------------------------------------------------------- palette

  class Palette {
    var numColours: nat
    const list: array<PaletteListNode>
    const hash: array<int>
    const entry: array<PaletteEntry>
    ghost var chains: seq<seq<nat>>
    ghost var totals: map<Colour, int>

    ghost predicate Valid()
      reads this, list, hash, entry
    {
      && list.Length == SIZE && hash.Length == SIZE && entry.Length == SIZE
      && numColours <= SIZE
      && Hashed(list[..], hash[..], chains, numColours)
      && Distinct(list[..], numColours)
      && Ranked(list[..], entry[..], numColours)
      && Totals(list[..], entry[..], numColours, totals)
    }

    constructor ()
      ensures Valid() && totals == map[]
      ensures fresh(list) && fresh(hash) && fresh(entry)
    {
      numColours := 0;
      list := new PaletteListNode[SIZE](_ => PaletteListNode(NULL, 0, 0));
      hash := new int[SIZE](_ => NULL);
      entry := new PaletteEntry[SIZE](_ => PaletteEntry(NULL, 0));
      chains := seq(SIZE, _ => []);
      totals := map[];
    }

    method Clear()
      requires Valid()
      modifies this, hash
      ensures Valid() && totals == map[]
    {
      hide Hashed, CountOf;
      numColours := 0;
      for h := 0 to SIZE
        invariant forall k :: 0 <= k < h ==> hash[k] == NULL
        invariant numColours == 0
      {
        hash[h] := NULL;
      }
      NothingHashed(list[..], hash[..]);
      chains := seq(SIZE, _ => []);
      totals := map[];
    }

    function Size(): (size: nat)
      requires Valid()
      reads this, list, hash, entry
      ensures size == |totals| <= 256
    {
      numColours
    }

    /** Walk the chain of a colour, to its node or past its last node. */
    method Find(colour: Colour) returns (pnode: int, prev: int)
      requires Valid()
      ensures pnode == NULL || (0 <= pnode < numColours && list[pnode].colour == colour)
      ensures pnode == NULL <==> colour !in totals
      ensures pnode == NULL ==> prev == Last(chains[GenHash(colour)])
    {
      hide GenHash, CountOf;
      var key := GenHash(colour);
      ghost var nodes, chain, k := list[..], chains[key], 0;
      TotalsKnow(nodes, entry[..], numColours, totals, colour);
      assert ChainOf(nodes, hash[..][key], chain, key, numColours);
      pnode, prev := hash[key], NULL;
      assert Walked(nodes, chain, 0, colour, pnode, prev);
      hide ChainOf, Hashed, Distinct, Ranked, Totals, Walked, Last, HasColour;
      while pnode != NULL
        invariant Walked(nodes, chain, k, colour, pnode, prev)
        decreases |chain| - k
      {
        WalkOn(nodes, hash[..][key], chain, key, numColours, k, colour, pnode, prev);
        if list[pnode].colour == colour {
          Found(nodes, numColours, pnode);
          return;
        }
        prev := pnode;
        pnode := list[pnode].next;
        k := k + 1;
      }
      WalkedAll(nodes, hash[..][key], chain, key, numColours, k, colour, prev);
    }

    /** The index of a stored colour. */
    method Lookup(colour: Colour) returns (index: nat)
      requires Valid() && colour in totals
      ensures index < |Ranking()| && Ranking()[index] == colour
    {
      hide GenHash, Hashed, Descending, Totals;
      var pnode, prev := Find(colour);
      assert NodeLinked(list[..], entry[..], numColours, NULL, pnode);
      index := list[pnode].idx;
    }

    method GetColour(index: nat) returns (colour: Colour)
      requires Valid() && index < Size()
      ensures colour == Ranking()[index]
    {
      hide GenHash, Hashed, Descending, Totals;
      assert EntryLinked(list[..], entry[..], numColours, NULL, index);
      colour := list[entry[index].listNode].colour;
    }

    method GetCount(index: nat) returns (count: int)
      requires Valid() && index < Size()
      ensures Ranking()[index] in totals && count == totals[Ranking()[index]]
    {
      RankingAt(index);
      count := entry[index].numPixels;
    }

    /** The colours in the order of their indices. */
    ghost function Ranking(): (ranking: seq<Colour>)
      reads this, list, hash, entry
      requires Valid()
      ensures |ranking| == Size()
    {
      ColoursAt(list[..], entry[..numColours])
    }

    lemma RankingAt(i: nat)
      requires Valid() && i < Size()
      ensures 0 <= entry[i].listNode < numColours && Ranking()[i] == list[entry[i].listNode].colour
      ensures list[entry[i].listNode].idx == i
      ensures Ranking()[i] in totals && totals[Ranking()[i]] == entry[i].numPixels
    {
      hide GenHash, Hashed, Descending;
      assert EntryLinked(list[..], entry[..], numColours, NULL, i);
      assert CountOf(list[..], entry[..], entry[i].listNode) == entry[i].numPixels;
    }

    /** The ranking lists each colour of the map once, most common first. */
    lemma RankingIsTotals()
      requires Valid()
      ensures forall c :: c in Ranking() <==> c in totals
      ensures forall i, j :: 0 <= i < j < |Ranking()| ==> Ranking()[i] != Ranking()[j]
      ensures forall i :: 0 <= i < |Ranking()| ==> Ranking()[i] in totals
      ensures forall i, j :: 0 <= i < j < |Ranking()| ==> totals[Ranking()[i]] >= totals[Ranking()[j]]
    {
      hide GenHash, Hashed;
      forall i, j | 0 <= i < j < Size()
        ensures Ranking()[i] != Ranking()[j]
        ensures Ranking()[i] in totals && Ranking()[j] in totals
        ensures totals[Ranking()[i]] >= totals[Ranking()[j]]
      {
        RankingAt(i);
        RankingAt(j);
      }
      forall i | 0 <= i < Size() ensures Ranking()[i] in totals { RankingAt(i); }
      forall c | c in totals ensures c in Ranking() {
        var m :| 0 <= m < numColours && list[..][m].colour == c;
        assert NodeLinked(list[..], entry[..], numColours, NULL, m);
        RankingAt(list[m].idx);
      }
    }

    /** Move the entries with lesser counts up by one, from the hole down. */
    method Shift(n: nat, hole: nat, ghost p: nat, numPixels: int) returns (idx: nat)
      requires list.Length == SIZE && entry.Length == SIZE && n <= SIZE
      requires Holed(list[..], entry[..], n, hole, p, numPixels)
      modifies list, entry
      ensures idx <= hole && Holed(list[..], entry[..], n, idx, p, numPixels)
      ensures idx == 0 || entry[idx - 1].numPixels >= numPixels
      ensures forall m :: 0 <= m < SIZE ==> list[m].(idx := 0) == old(list[m].(idx := 0))
      ensures list[p] == old(list[p])
      ensures idx == hole ==> entry[hole] == old(entry[hole])
      ensures forall m :: 0 <= m < n && m != p ==>
        CountOf(list[..], entry[..], m) == CountOf(old(list[..]), old(entry[..]), m)
    {
      hide Linked, Descending, CountOf;
      idx := hole;
      while idx > 0
        invariant idx <= hole && Holed(list[..], entry[..], n, idx, p, numPixels)
        invariant forall m :: 0 <= m < SIZE ==> list[m].(idx := 0) == old(list[m].(idx := 0))
        invariant list[p] == old(list[p])
        invariant idx == hole ==> entry[hole] == old(entry[hole])
        invariant forall m :: 0 <= m < n && m != p ==>
          CountOf(list[..], entry[..], m) == CountOf(old(list[..]), old(entry[..]), m)
      {
        if entry[idx - 1].numPixels >= numPixels { break; }
        ghost var list0, entry0 := list[..], entry[..];
        ShiftStep(list0, entry0, n, idx, p, numPixels);
        entry[idx] := entry[idx - 1];
        list[entry[idx].listNode] := list[entry[idx].listNode].(idx := idx);
        assert entry[..] == entry0[idx := entry0[idx - 1]];
        assert list[..] == list0[entry0[idx - 1].listNode := list0[entry0[idx - 1].listNode].(idx := idx)];
        idx := idx - 1;
      }
    }

    /** Add pixels of a colour; refused only for a new colour in a full palette. */
    method Insert(colour: Colour, numPixels: int) returns (ok: bool)
      requires Valid() && numPixels >= 0
      modifies this, list, hash, entry
      ensures Valid()
      ensures ok <==> colour in old(totals) || |old(totals)| < 256
      ensures totals == if ok then Added(old(totals), colour, numPixels) else old(totals)
    {
      hide GenHash, Hashed, Distinct, Ranked;
      var pnode, prev := Find(colour);
      if pnode != NULL {
        AddPixels(pnode, numPixels);
        return true;
      }
      if numColours == SIZE { return false; }
      AddColour(colour, numPixels, prev);
      ok := true;
    }

    method AddPixels(pnode: int, more: int)
      requires Valid() && 0 <= pnode < numColours && more >= 0
      modifies this`totals, list, entry
      ensures Valid()
      ensures totals == old(Added(totals, list[pnode].colour, more))
    {
      hide GenHash, Linked, Descending, Hashed, Totals;
      ghost var list0, entry0 := list[..], entry[..];
      ghost var colour := list[pnode].colour;
      var n := numColours;
      OpenHole(list0, entry0, n, pnode);
      var idx := list[pnode].idx;
      var numPixels := entry[idx].numPixels + more;
      idx := Shift(n, idx, pnode, numPixels);
      ghost var list1, entry1 := list[..], entry[..];
      Plug(list1, entry1, n, idx, pnode, numPixels);
      if idx != list[pnode].idx {
        entry[idx] := entry[idx].(listNode := pnode);
        list[pnode] := list[pnode].(idx := idx);
      }
      entry[idx] := entry[idx].(numPixels := numPixels);
      assert list[..] == list1[pnode := list1[pnode].(idx := idx)];
      assert entry[..] == entry1[idx := PaletteEntry(pnode, numPixels)];
      HashedFrame(list0, list[..], hash[..], chains, n);
      TotalsGrow(list0, entry0, n, totals, list[..], entry[..], pnode, more);
      totals := Added(totals, colour, more);
    }

    method AddColour(colour: Colour, numPixels: int, prev: int)
      requires Valid() && numColours < SIZE && colour !in totals && prev == Last(chains[GenHash(colour)])
      modifies this, list, hash, entry
      ensures Valid()
      ensures totals == old(Added(totals, colour, numPixels))
    {
      hide GenHash, Linked, Descending, Hashed, Totals;
      ghost var list0, entry0 := list[..], entry[..];
      LinkColour(colour, prev);
      ghost var list1 := list[..];
      var n := numColours;
      OpenLast(list0, entry0, n, list1, numPixels);
      var idx := Shift(n + 1, n, n, numPixels);
      ghost var list2, entry2 := list[..], entry[..];
      Plug(list2, entry2, n + 1, idx, n, numPixels);
      list[n] := list[n].(idx := idx);
      entry[idx] := PaletteEntry(n, numPixels);
      assert list[..] == list2[n := list2[n].(idx := idx)];
      assert entry[..] == entry2[idx := PaletteEntry(n, numPixels)];
      HashedFrame(list1, list[..], hash[..], chains, n + 1);
      TotalsAppend(list0, entry0, n, totals, list[..], entry[..], colour);
      DistinctAppend(list0, entry0, n, totals, list[..]);
      numColours := n + 1;
      totals := Added(totals, colour, numPixels);
    }

    /** A new node at the end of its chain, without a rank. */
    method LinkColour(colour: Colour, prev: int)
      requires Valid() && numColours < SIZE && prev == Last(chains[GenHash(colour)])
      modifies this`chains, list, hash
      ensures Hashed(list[..], hash[..], chains, numColours + 1)
      ensures forall m :: 0 <= m < numColours ==> list[m].(next := 0) == old(list[m].(next := 0))
      ensures list[numColours].colour == colour
    {
      hide GenHash, ChainOf, Ranked, Totals, Distinct;
      var n := numColours;
      var key := GenHash(colour);
      ghost var list0, hash0 := list[..], hash[..];
      ghost var chain := chains[key];
      LastNode(list0, hash0, chains, key, n);
      list[n] := PaletteListNode(NULL, 0, colour);
      if prev != NULL {
        list[prev] := list[prev].(next := n);
      } else {
        hash[key] := n;
      }
      HashedLink(list0, list[..], hash0, hash[..], chains, key, n);
      chains := chains[key := chain + [n]];
    }
  }
}
