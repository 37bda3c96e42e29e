/** Linking chunks into and out of the treebins keeps the bins in order. */
module HeapLargeBins {
  import opened Words
  import opened HeapWords
  import opened HeapBinMaps
  import opened HeapRings
  import opened HeapTries
  import opened HeapTrieMem
  import opened HeapBins
  import opened HeapSmallBins

  lemma HeadIs(b: Bins, s: int)
    requires Members(b) && s in b.rings
    ensures s in Heads(b) && Heads(b)[s] == b.rings[s][0] == At(Heads(b), s) && InRing(b, s, b.rings[s][0])
  {
    assert RingOk(b, s);
    assert InRing(b, s, b.rings[s][0]);
  }

  lemma HeadsFine(b: Bins, msp: int, hi: int)
    requires Places(b.free, msp, hi) && Members(b) && TrieKeys(b) && msp > 0 && msp % 8 == 0
    ensures HeadsOk(Heads(b), b.trie, msp)
  {
    var h := Heads(b);
    RingSizes(b, msp, hi);
    forall s | s in b.trie
      ensures HeadOk(h, msp, s)
    {
      HeadIs(b, s);
      assert PlaceOk(h[s], s, msp, hi);
    }
    forall s, z | s in b.trie && z in b.trie && s != z
      ensures HeadsApart(h, s, z)
    {
      HeadIs(b, s);
      HeadIs(b, z);
      assert PlaceOk(h[s], s, msp, hi) && Apart(b.free, h[s], s);
    }
  }

  /** A chunk that overlaps no binned chunk is clear of the tree. */
  lemma NewHeadFine(b: Bins, msp: int, hi: int, p: int, s: int)
    requires Places(b.free, msp, hi) && Members(b) && TrieKeys(b)
    requires Insertable(b, msp, hi, p, s) && s >= MIN_LARGE_SIZE
    ensures NewHead(Heads(b), b.trie, msp, p)
  {
    var h := Heads(b);
    forall z | z in b.trie && z in h
      ensures h[z] + 32 <= p || p + 32 <= h[z]
    {
      HeadIs(b, z);
      assert PlaceOk(h[z], z, msp, hi);
    }
  }

  // ---------------------------------------------------------------- a new node

  /** The bins after `insert_large_chunk` made `p` a new tree node. */
  ghost function NodeAdded(b: Bins, p: int, s: int, t: Trie, roots: seq<int>): Bins {
    AddMember(b, p, s, [p]).(trie := t, roots := roots)
  }

  /** The words that point at tree nodes: the slots and the child words. */
  datatype Place = AtSlot(i: int) | AtChild(u: int, bit: int)

  ghost predicate PlaceIn(b: Bins, pl: Place) {
    match pl
    case AtSlot(i) => 0 <= i < 32
    case AtChild(u, bit) => u in b.trie && 0 <= bit <= 1
  }

  ghost function Addr(b: Bins, msp: int, pl: Place): int {
    match pl
    case AtSlot(i) => Slot(msp, i)
    case AtChild(u, bit) => At(Heads(b), u) + 16 + 4 * bit
  }

  /** No word a ring or a chain is made of is a place. */
  lemma PlaceWordApart(b: Bins, msp: int, hi: int, pl: Place, q: int)
    requires Places(b.free, msp, hi) && Members(b) && TrieKeys(b) && msp % 8 == 0 && PlaceIn(b, pl)
    requires q in b.free
    ensures var a := Addr(b, msp, pl);
            && a != q + 8 && a != q + 12 && a != q + 24 && a != q + 28
            && (b.free[q] >= MIN_LARGE_SIZE && q != At(Heads(b), b.free[q]) ==> a != q + 16 && a != q + 20)
  {
    assert PlaceOk(q, b.free[q], msp, hi) && Apart(b.free, q, b.free[q]);
    if pl.AtChild? {
      HeadIs(b, pl.u);
      var x := At(Heads(b), pl.u);
      assert PlaceOk(x, pl.u, msp, hi) && Apart(b.free, x, pl.u);
    }
  }

  lemma PlaceWordNotHeader(b: Bins, msp: int, hi: int, pl: Place, z: int)
    requires Places(b.free, msp, hi) && Members(b) && TrieKeys(b) && PlaceIn(b, pl) && 0 <= z < MIN_LARGE_SIZE
             && z % 8 == 0
    ensures var a := Addr(b, msp, pl); a != Header(msp, z) + 8 && a != Header(msp, z) + 12
  {
    if pl.AtChild? {
      HeadIs(b, pl.u);
      assert PlaceOk(At(Heads(b), pl.u), pl.u, msp, hi);
    }
  }

  /** A place lies outside any chunk not yet binned. */
  lemma PlaceWordOutside(b: Bins, msp: int, hi: int, pl: Place, p: int, s: int)
    requires Places(b.free, msp, hi) && Members(b) && TrieKeys(b) && PlaceIn(b, pl)
    requires Insertable(b, msp, hi, p, s)
    ensures var a := Addr(b, msp, pl); a + 4 <= p || p + s <= a
  {
    if pl.AtChild? {
      HeadIs(b, pl.u);
      assert PlaceOk(At(Heads(b), pl.u), pl.u, msp, hi);
    }
  }

  lemma NodeAddedLinks(m: Mem, b: Bins, msp: int, hi: int, p: Word, s: int, i: Word, up: Word, pl: Place)
    requires Places(b.free, msp, hi) && Members(b) && TrieKeys(b) && msp % 8 == 0
    requires Insertable(b, msp, hi, p, s) && s >= MIN_LARGE_SIZE && PlaceIn(b, pl)
    ensures OtherLinks(m, NewNodeMem(m, p, i, up, Addr(b, msp, pl)), b, msp, s)
  {
    hide NewNodeMem;
    var m' := NewNodeMem(m, p, i, up, Addr(b, msp, pl));
    forall q | q in b.free
      ensures SameLinks(m, m', q)
    {
      PlaceWordApart(b, msp, hi, pl, q);
      assert PlaceOk(q, b.free[q], msp, hi);
      NewNodeWords(m, p, i, up, Addr(b, msp, pl), q + 8);
      NewNodeWords(m, p, i, up, Addr(b, msp, pl), q + 12);
    }
    forall z | 0 <= z < MIN_LARGE_SIZE && z % 8 == 0
      ensures SameLinks(m, m', Header(msp, z))
    {
      PlaceWordNotHeader(b, msp, hi, pl, z);
      NewNodeWords(m, p, i, up, Addr(b, msp, pl), Header(msp, z) + 8);
      NewNodeWords(m, p, i, up, Addr(b, msp, pl), Header(msp, z) + 12);
    }
  }

  lemma NodeAddedRings(m: Mem, b: Bins, msp: int, hi: int, p: Word, s: int, i: Word, up: Word, pl: Place, t: Trie,
                       roots: seq<int>)
    requires Places(b.free, msp, hi) && Members(b) && TrieKeys(b) && msp % 8 == 0 && RingsLinked(m, b, msp)
    requires Insertable(b, msp, hi, p, s) && s >= MIN_LARGE_SIZE && PlaceIn(b, pl) && s !in b.rings
    ensures RingsLinked(NewNodeMem(m, p, i, up, Addr(b, msp, pl)), NodeAdded(b, p, s, t, roots), msp)
    ensures Members(NodeAdded(b, p, s, t, roots))
  {
    hide NewNodeMem;
    hide Addr;
    hide TrieKeys;
    hide OtherLinks;
    var m', b' := NewNodeMem(m, p, i, up, Addr(b, msp, pl)), NodeAdded(b, p, s, t, roots);
    NodeAddedLinks(m, b, msp, hi, p, s, i, up, pl);
    OtherRings(m, m', b, msp, hi, s);
    MembersInsert(b, p, s, [p]);
    PlaceWordOutside(b, msp, hi, pl, p, s);
    NewNodeOwn(m, p, i, up, Addr(b, msp, pl));
    assert Members(b');
    SingleRing(m', p);
    forall z | z in b'.rings
      ensures Linked(m', Ring(b', msp, z))
    {
      if z != s {
        assert Ring(b', msp, z) == Ring(b, msp, z);
      }
    }
  }

  lemma SingleRing(m: Mem, p: int)
    requires Rd(m, p + 8) == p && Rd(m, p + 12) == p
    ensures Linked(m, [p])
  {
    var r := [p];
    assert LinkAt(m, r, 0);
  }

  lemma NodeAddedChains(m: Mem, b: Bins, msp: int, hi: int, p: Word, s: int, i: Word, up: Word, pl: Place, t: Trie,
                        roots: seq<int>)
    requires Places(b.free, msp, hi) && Members(b) && TrieKeys(b) && msp % 8 == 0 && Chains(m, b)
    requires Insertable(b, msp, hi, p, s) && s >= MIN_LARGE_SIZE && PlaceIn(b, pl) && s !in b.rings
    ensures Chains(NewNodeMem(m, p, i, up, Addr(b, msp, pl)), NodeAdded(b, p, s, t, roots))
  {
    hide NewNodeMem;
    hide Addr;
    hide Idx;
    var m', b' := NewNodeMem(m, p, i, up, Addr(b, msp, pl)), NodeAdded(b, p, s, t, roots);
    forall z | z in b'.rings && z >= MIN_LARGE_SIZE
      ensures ChainMem(m', b', z)
    {
      if z != s {
        assert ChainMem(m, b, z) && RingOk(b, z);
        forall j | 1 <= j < |b.rings[z]|
          ensures TreeWords(m', b.rings[z][j], 0, 0, 0, Idx(z))
        {
          var q := b.rings[z][j];
          assert InRing(b, z, q) && TreeWords(m, q, 0, 0, 0, Idx(z));
          HeadIs(b, z);
          PlaceWordApart(b, msp, hi, pl, q);
          assert PlaceOk(q, z, msp, hi);
          NewNodeTree(m, p, i, up, Addr(b, msp, pl), q);
        }
      }
    }
  }

  lemma NewNodeTree(m: Mem, p: Word, i: Word, up: Word, a: int, q: int)
    requires q + 32 <= p || p + 32 <= q
    requires a != q + 16 && a != q + 20 && a != q + 24 && a != q + 28
    ensures SameTree(m, NewNodeMem(m, p, i, up, a), q)
  {
    hide NewNodeMem;
    NewNodeWords(m, p, i, up, a, q + 16);
    NewNodeWords(m, p, i, up, a, q + 20);
    NewNodeWords(m, p, i, up, a, q + 24);
    NewNodeWords(m, p, i, up, a, q + 28);
  }

  lemma NodeAddedFrame(m: Mem, b: Bins, msp: int, hi: int, p: Word, s: int, i: Word, up: Word, pl: Place)
    requires Members(b) && TrieKeys(b) && PlaceIn(b, pl) && s >= MIN_LARGE_SIZE && p !in b.free
    ensures Frame(m, NewNodeMem(m, p, i, up, Addr(b, msp, pl)), b.free[p := s], msp)
  {
    var m', free', x := NewNodeMem(m, p, i, up, Addr(b, msp, pl)), b.free[p := s], Addr(b, msp, pl);
    if pl.AtChild? {
      HeadIs(b, pl.u);
    }
    forall a | !Owned(free', msp, a)
      ensures Rd(m', a) == Rd(m, a)
    {
      assert p in free' && free'[p] == s;
      assert pl.AtChild? ==> At(Heads(b), pl.u) in free' && free'[At(Heads(b), pl.u)] == pl.u;
      assert a != x;
    }
  }

  lemma SlotIn(m: Mem, msp: int, hi: int, i: int)
    requires DomOk(m, msp, hi) && msp + STATE_SIZE <= hi && 0 <= i < 32
    ensures Slot(msp, i) in m
  {
    hide DomOk;
    DomFacts(m, msp, hi);
    SlotMod(msp, i);
    WordIn(m, msp, hi, msp, 312 + 4 * i);
  }

  lemma SlotMod(msp: int, i: int)
    requires msp % 8 == 0
    ensures msp % 4 == 0 && (312 + 4 * i) % 4 == 0
  {
    assert 312 + 4 * i == 4 * (78 + i);
  }

  lemma PlaceDom(m: Mem, b: Bins, msp: int, hi: int, pl: Place)
    requires DomOk(m, msp, hi) && msp + STATE_SIZE <= hi && Places(b.free, msp, hi) && Members(b) && TrieKeys(b)
             && PlaceIn(b, pl)
    ensures Addr(b, msp, pl) in m
    ensures 0 < Addr(b, msp, pl) < W
    ensures pl.AtChild? ==> 0 < At(Heads(b), pl.u) < W
  {
    hide DomOk;
    hide Places;
    hide Members;
    hide At;
    hide Heads;
    DomFacts(m, msp, hi);
    if pl.AtChild? {
      HeadIs(b, pl.u);
      FreeFacts(b, msp, hi, At(Heads(b), pl.u));
      PlaceWords(m, msp, hi, At(Heads(b), pl.u), pl.u);
    } else {
      SlotIn(m, msp, hi, pl.i);
    }
  }

  lemma NewNodeDom(m: Mem, lo: int, hi: int, p: Word, i: Word, up: Word, a: int)
    requires DomOk(m, lo, hi) && a in m
    requires p + 8 in m && p + 12 in m && p + 16 in m && p + 20 in m && p + 24 in m && p + 28 in m
    ensures DomOk(NewNodeMem(m, p, i, up, a), lo, hi)
  {
    var m' := NewNodeMem(m, p, i, up, a);
    assert forall q :: q in m' <==> q in m;
  }

  lemma NodeAddedHeads(b: Bins, p: int, s: int, t: Trie, roots: seq<int>)
    ensures Heads(NodeAdded(b, p, s, t, roots)) == Heads(b)[s := p]
  {
  }

  lemma NodeAddedKeys(b: Bins, p: int, s: int, t: Trie, roots: seq<int>)
    requires TrieKeys(b) && s >= MIN_LARGE_SIZE && t.Keys == b.trie.Keys + {s}
    ensures TrieKeys(NodeAdded(b, p, s, t, roots))
  {
    var b' := NodeAdded(b, p, s, t, roots);
    forall z
      ensures z in b'.trie <==> z in b'.rings && z >= MIN_LARGE_SIZE
    {
      assert z in t <==> z in t.Keys;
    }
  }

  lemma RootMapsOk(smallmap: Word, treemap: Word, b: Bins, p: int, s: int, i: int, t: Trie)
    requires MapsOk(smallmap, treemap, b) && s >= MIN_LARGE_SIZE && 0 <= i < 32
    ensures Or(treemap, IdxBit(i)) < W
    ensures MapsOk(smallmap, Or(treemap, IdxBit(i)), NodeAdded(b, p, s, t, b.roots[i := s]))
  {
    OrWord(treemap, i);
    var b', tm := NodeAdded(b, p, s, t, b.roots[i := s]), Or(treemap, IdxBit(i));
    forall j: nat | j < 32
      ensures Marked(tm, j) <==> b'.roots[j] != 0
    {
      MarkBit(treemap, i, j);
    }
  }

  lemma BelowMapsOk(smallmap: Word, treemap: Word, b: Bins, p: int, s: int, t: Trie)
    requires MapsOk(smallmap, treemap, b) && s >= MIN_LARGE_SIZE
    ensures MapsOk(smallmap, treemap, NodeAdded(b, p, s, t, b.roots))
  {
  }

  lemma InsertableFacts(m: Mem, b: Bins, msp: int, hi: int, p: int, s: int)
    requires DomOk(m, msp, hi) && Places(b.free, msp, hi) && Members(b) && Insertable(b, msp, hi, p, s)
             && s >= MIN_LARGE_SIZE
    ensures 0 < p < W && LargeSize(s) && s != 0 && 0 !in b.rings && msp > 0 && msp % 8 == 0
    ensures p + 8 in m && p + 12 in m && p + 16 in m && p + 20 in m && p + 24 in m && p + 28 in m
    ensures Places(b.free[p := s], msp, hi)
  {
    PlaceWords(m, msp, hi, p, s);
    RingSizes(b, msp, hi);
    PlacesInsert(b.free, msp, hi, p, s);
  }

  lemma RootTrieMem(m: Mem, b: Bins, msp: int, hi: int, p: Word, s: int, i: Word, a: Word)
    requires DomOk(m, msp, hi) && Places(b.free, msp, hi) && Members(b) && Wf(b.trie, b.roots) && TrieMem(m, b, msp)
    requires Insertable(b, msp, hi, p, s) && s >= MIN_LARGE_SIZE
    requires i == Idx(s) && |b.roots| == 32 && b.roots[i] == 0 && a == Slot(msp, i)
    ensures var b' := NodeAdded(b, p, s, InsertRoot(b.trie, s), b.roots[i := s]);
            TrieMem(NewNodeMem(m, p, i, a, a), b', msp) && Wf(b'.trie, b'.roots) && s !in b.rings
  {
    hide Wf;
    hide Members;
    hide Places;
    hide NodesMem;
    hide Chains;
    hide NewNodeMem;
    hide Insertable;
    hide Idx;
    hide DomOk;
    InsertableFacts(m, b, msp, hi, p, s);
    HeadsFine(b, msp, hi);
    NewHeadFine(b, msp, hi, p, s);
    InsertRootOk(b.trie, b.roots, s);
    NodeAddedHeads(b, p, s, InsertRoot(b.trie, s), b.roots[i := s]);
    NodeAddedKeys(b, p, s, InsertRoot(b.trie, s), b.roots[i := s]);
    NodeAddedChains(m, b, msp, hi, p, s, i, a, AtSlot(i), InsertRoot(b.trie, s), b.roots[i := s]);
    InsertRootMem(m, Heads(b), b.trie, b.roots, msp, p, s, i, a);
  }

  /** `insert_large_chunk` into an empty treebin. */
  lemma InsertRootBins(m: Mem, smallmap: Word, treemap: Word, b: Bins, msp: int, hi: int, p: Word, s: int, i: Word,
                       a: Word)
    requires BinsOk(m, smallmap, treemap, b, msp, hi) && Insertable(b, msp, hi, p, s) && s >= MIN_LARGE_SIZE
    requires i == Idx(s) && |b.roots| == 32 && b.roots[i] == 0 && a == Slot(msp, i)
    ensures Or(treemap, IdxBit(i)) < W
    ensures var b' := NodeAdded(b, p, s, InsertRoot(b.trie, s), b.roots[i := s]);
            && BinsOk(NewNodeMem(m, p, i, a, a), smallmap, Or(treemap, IdxBit(i)), b', msp, hi)
            && b'.free == b.free[p := s]
            && Frame(m, NewNodeMem(m, p, i, a, a), b'.free, msp)
  {
    hide *;
    var t, roots, pl := InsertRoot(b.trie, s), b.roots[i := s], AtSlot(i);
    AtSlotIs(b, msp, i);
    BinsParts(m, smallmap, treemap, b, msp, hi);
    TrieMemParts(m, b, msp);
    InsertableFacts(m, b, msp, hi, p, s);
    RootTrieMem(m, b, msp, hi, p, s, i, a);
    PlaceDom(m, b, msp, hi, pl);
    NewNodeDom(m, msp, hi, p, i, a, a);
    NodeAddedRings(m, b, msp, hi, p, s, i, a, pl, t, roots);
    NodeAddedParts(b, msp, hi, p, s, t, roots);
    NodeAddedFrame(m, b, msp, hi, p, s, i, a, pl);
    RootMapsOk(smallmap, treemap, b, p, s, i, t);
    BinsParts(NewNodeMem(m, p, i, a, a), smallmap, Or(treemap, IdxBit(i)), NodeAdded(b, p, s, t, roots), msp, hi);
  }

  lemma AtSlotIs(b: Bins, msp: int, i: int)
    requires 0 <= i < 32
    ensures PlaceIn(b, AtSlot(i)) && Addr(b, msp, AtSlot(i)) == Slot(msp, i)
  {
  }

  lemma TrieMemParts(m: Mem, b: Bins, msp: int)
    ensures TrieMem(m, b, msp) <==> TrieKeys(b) && NodesMem(m, Heads(b), b.trie, b.roots, msp) && Chains(m, b)
  {
  }

  lemma NodeAddedParts(b: Bins, msp: int, hi: int, p: int, s: int, t: Trie, roots: seq<int>)
    requires Insertable(b, msp, hi, p, s)
    ensures var b' := NodeAdded(b, p, s, t, roots); b'.free == b.free[p := s] && b'.trie == t && b'.roots == roots
    ensures p !in b.free
  {
  }

  // ---------------------------------------------------------------- a new node below another

  /** Where the insertion walk for `s` stops: at `u`, whose child on the side of `s` is missing. */
  ghost predicate WalkEnd(b: Bins, u: int, s: int) {
    && u in b.trie && u != s && s !in b.trie && b.trie[u].level > 0
    && Idx(u) == Idx(s) && Pfx(u, b.trie[u].level) == Pfx(s, b.trie[u].level)
    && Child(b.trie[u], Bit(s, b.trie[u].level - 1)) == 0
  }

  ghost function BelowPlace(b: Bins, u: int, s: int): Place
    requires u in b.trie && b.trie[u].level > 0
  {
    AtChild(u, Bit(s, b.trie[u].level - 1))
  }

  ghost function AddedBelow(b: Bins, p: int, u: int, s: int): Bins
    requires u in b.trie && b.trie[u].level > 0
  {
    NodeAdded(b, p, s, InsertBelow(b.trie, u, s), b.roots)
  }

  lemma WalkEndFacts(b: Bins, msp: int, u: int, s: int)
    requires WalkEnd(b, u, s) && TrieKeys(b) && s >= MIN_LARGE_SIZE
    ensures u in b.trie && b.trie[u].level > 0 && s !in b.rings && s !in b.trie && s !in Heads(b)
    ensures PlaceIn(b, BelowPlace(b, u, s))
    ensures Addr(b, msp, BelowPlace(b, u, s)) == At(Heads(b), u) + 16 + 4 * Bit(s, b.trie[u].level - 1)
    ensures InsertBelow(b.trie, u, s).Keys == b.trie.Keys + {s}
  {
    hide Bit;
    hide Idx;
  }

  lemma BelowTrieMem(m: Mem, b: Bins, msp: int, hi: int, p: Word, s: int, i: Word, u: int, up: Word)
    requires DomOk(m, msp, hi) && Places(b.free, msp, hi) && Members(b) && Wf(b.trie, b.roots) && TrieMem(m, b, msp)
    requires Insertable(b, msp, hi, p, s) && s >= MIN_LARGE_SIZE && WalkEnd(b, u, s)
    requires i == Idx(s) && up == At(Heads(b), u) && 0 <= Addr(b, msp, BelowPlace(b, u, s)) < W
    ensures var b' := AddedBelow(b, p, u, s);
            && TrieMem(NewNodeMem(m, p, i, up, Addr(b, msp, BelowPlace(b, u, s))), b', msp)
            && Wf(b'.trie, b'.roots)
  {
    hide Wf;
    hide Members;
    hide Places;
    hide NodesMem;
    hide Chains;
    hide NewNodeMem;
    hide Insertable;
    hide Idx;
    hide DomOk;
    hide Bit;
    hide Pfx;
    hide InsertBelow;
    hide Heads;
    hide At;
    InsertableFacts(m, b, msp, hi, p, s);
    WalkEndFacts(b, msp, u, s);
    HeadsFine(b, msp, hi);
    NewHeadFine(b, msp, hi, p, s);
    var t, pl := InsertBelow(b.trie, u, s), BelowPlace(b, u, s);
    InsertBelowOk(b.trie, b.roots, u, s);
    NodeAddedHeads(b, p, s, t, b.roots);
    NodeAddedKeys(b, p, s, t, b.roots);
    NodeAddedChains(m, b, msp, hi, p, s, i, up, pl, t, b.roots);
    InsertBelowMem(m, Heads(b), b.trie, b.roots, msp, p, s, i, u, Addr(b, msp, pl));
  }

  /** `insert_large_chunk` at the end of its walk. */
  lemma InsertBelowBins(m: Mem, smallmap: Word, treemap: Word, b: Bins, msp: int, hi: int, p: Word, s: int, i: Word,
                        u: int, up: Word)
    requires BinsOk(m, smallmap, treemap, b, msp, hi) && Insertable(b, msp, hi, p, s) && s >= MIN_LARGE_SIZE
    requires WalkEnd(b, u, s) && i == Idx(s) && up == At(Heads(b), u)
    ensures var b' := AddedBelow(b, p, u, s);
            var m' := NewNodeMem(m, p, i, up, Addr(b, msp, BelowPlace(b, u, s)));
            && BinsOk(m', smallmap, treemap, b', msp, hi)
            && b'.free == b.free[p := s]
            && Frame(m, m', b'.free, msp)
    ensures Addr(b, msp, BelowPlace(b, u, s)) == At(Heads(b), u) + 16 + 4 * Bit(s, b.trie[u].level - 1)
    ensures Addr(b, msp, BelowPlace(b, u, s)) in m
  {
    hide *;
    BinsParts(m, smallmap, treemap, b, msp, hi);
    TrieMemParts(m, b, msp);
    WalkEndFacts(b, msp, u, s);
    AddedBelowIs(b, p, u, s);
    var t, pl := InsertBelow(b.trie, u, s), BelowPlace(b, u, s);
    InsertableFacts(m, b, msp, hi, p, s);
    PlaceDom(m, b, msp, hi, pl);
    BelowTrieMem(m, b, msp, hi, p, s, i, u, up);
    NewNodeDom(m, msp, hi, p, i, up, Addr(b, msp, pl));
    NodeAddedRings(m, b, msp, hi, p, s, i, up, pl, t, b.roots);
    NodeAddedParts(b, msp, hi, p, s, t, b.roots);
    NodeAddedFrame(m, b, msp, hi, p, s, i, up, pl);
    BelowMapsOk(smallmap, treemap, b, p, s, t);
    BinsParts(NewNodeMem(m, p, i, up, Addr(b, msp, pl)), smallmap, treemap, NodeAdded(b, p, s, t, b.roots), msp, hi);
  }

  lemma AddedBelowIs(b: Bins, p: int, u: int, s: int)
    requires u in b.trie && b.trie[u].level > 0
    ensures AddedBelow(b, p, u, s) == NodeAdded(b, p, s, InsertBelow(b.trie, u, s), b.roots)
  {
  }

  // ---------------------------------------------------------------- a chained chunk

  /** The words `insert_large_chunk` sets when it chains chunk `p` behind the node at `T`. */
  function ChainedMem(m: Mem, p: Word, i: Word, T: Word, F: Word): Mem {
    InsertMem(m[p + 28 := i][p + 16 := 0][p + 20 := 0], T, F, p)[p + 24 := 0]
  }

  ghost function Chained(b: Bins, p: int, s: int): Bins
    requires s in b.rings && |b.rings[s]| > 0
  {
    AddMember(b, p, s, InsertSeq(b.rings[s], p))
  }

  lemma ChainedWords(m: Mem, p: Word, i: Word, T: Word, F: Word, q: int)
    requires q + 4 <= p || p + 32 <= q
    requires T + 32 <= p || p + 32 <= T
    requires F + 32 <= p || p + 32 <= F
    ensures Rd(ChainedMem(m, p, i, T, F), q) == if q == F + 12 || q == T + 8 then p else Rd(m, q)
  {
  }

  lemma ChainedOwn(m: Mem, p: Word, i: Word, T: Word, F: Word)
    requires T + 32 <= p || p + 32 <= T
    requires F + 32 <= p || p + 32 <= F
    ensures TreeWords(ChainedMem(m, p, i, T, F), p, 0, 0, 0, i)
    ensures SameLinks(InsertMem(m, T, F, p), ChainedMem(m, p, i, T, F), p)
  {
  }

  /** The ring that `p` joins: its node at `T` and the node's successor `F`. */
  lemma ChainRing(m: Mem, b: Bins, msp: int, hi: int, p: int, s: int)
    requires DomOk(m, msp, hi) && Places(b.free, msp, hi) && Members(b) && RingsLinked(m, b, msp)
    requires Insertable(b, msp, hi, p, s) && s >= MIN_LARGE_SIZE && s in b.rings
    ensures var r := b.rings[s];
            && |r| > 0 && Distinct(r) && Aligned(r) && p !in r && p % 8 == 0
            && Linked(m, r) && InRing(b, s, r[0])
            && Fd(m, r[0]) == r[if |r| == 1 then 0 else 1]
            && InRing(b, s, Fd(m, r[0]))
  {
    var r := b.rings[s];
    assert RingOk(b, s);
    assert Ring(b, msp, s) == r;
    forall j | 0 <= j < |r|
      ensures InRing(b, s, r[j]) && r[j] % 8 == 0
    {
      assert InRing(b, s, r[j]);
      assert PlaceOk(r[j], s, msp, hi);
    }
    assert LinkAt(m, r, 0);
  }

  /** Chunks of the ring are clear of `p`, and their words are in memory. */
  lemma ChainClear(m: Mem, b: Bins, msp: int, hi: int, p: int, s: int, q: int)
    requires DomOk(m, msp, hi) && Places(b.free, msp, hi) && Insertable(b, msp, hi, p, s) && s >= MIN_LARGE_SIZE
    requires InRing(b, s, q)
    ensures q + 32 <= p || p + 32 <= q
    ensures 0 < q < W && q + 8 in m && q + 12 in m && q % 8 == 0 && q >= msp + STATE_SIZE
  {
    assert PlaceOk(q, s, msp, hi);
    PlaceWords(m, msp, hi, q, s);
  }

  lemma ChainedOwnRing(m: Mem, b: Bins, msp: int, hi: int, p: Word, s: int, i: Word, T: Word, F: Word)
    requires DomOk(m, msp, hi) && Places(b.free, msp, hi) && Members(b) && RingsLinked(m, b, msp)
    requires Insertable(b, msp, hi, p, s) && s >= MIN_LARGE_SIZE && s in b.rings
    requires |b.rings[s]| > 0 && T == b.rings[s][0] && F == Fd(m, T)
    ensures Linked(ChainedMem(m, p, i, T, F), InsertSeq(b.rings[s], p))
  {
    hide Linked;
    hide RingsLinked;
    hide Members;
    hide DomOk;
    hide Places;
    hide Insertable;
    hide InsertMem;
    hide ChainedMem;
    var r := b.rings[s];
    ChainRing(m, b, msp, hi, p, s);
    ChainClear(m, b, msp, hi, p, s, T);
    ChainClear(m, b, msp, hi, p, s, F);
    InsertLinked(m, r, p, T, F);
    var m1, m', r' := InsertMem(m, T, F, p), ChainedMem(m, p, i, T, F), InsertSeq(r, p);
    forall j | 0 <= j < |r'|
      ensures SameLinks(m1, m', r'[j])
    {
      if r'[j] == p {
        ChainedOwn(m, p, i, T, F);
      } else {
        var k := if j == 0 then 0 else j - 1;
        assert r'[j] == r[k];
        ChainMember(b, s, k);
        ChainClear(m, b, msp, hi, p, s, r[k]);
        ChainedLinks(m, p, i, T, F, r[k]);
      }
    }
    LinkedFrame(m1, m', r');
  }

  lemma ChainMember(b: Bins, s: int, k: int)
    requires Members(b) && s in b.rings && 0 <= k < |b.rings[s]|
    ensures InRing(b, s, b.rings[s][k])
  {
    assert RingOk(b, s);
  }

  lemma ChainedLinks(m: Mem, p: Word, i: Word, T: Word, F: Word, q: int)
    requires q + 32 <= p || p + 32 <= q
    requires T + 32 <= p || p + 32 <= T
    requires F + 32 <= p || p + 32 <= F
    requires q % 8 == 0 && T % 8 == 0 && F % 8 == 0 && p % 8 == 0
    ensures SameLinks(InsertMem(m, T, F, p), ChainedMem(m, p, i, T, F), q)
    ensures q != T && q != F ==> SameLinks(m, ChainedMem(m, p, i, T, F), q)
    ensures SameTree(m, ChainedMem(m, p, i, T, F), q) || q + 8 == T || q + 16 == T || q + 8 == F || q + 16 == F
  {
    hide ChainedMem;
    hide InsertMem;
    ChainedWords(m, p, i, T, F, q + 8);
    ChainedWords(m, p, i, T, F, q + 12);
    ChainedWords(m, p, i, T, F, q + 16);
    ChainedWords(m, p, i, T, F, q + 20);
    ChainedWords(m, p, i, T, F, q + 24);
    ChainedWords(m, p, i, T, F, q + 28);
    InsertMemWords(m, T, F, p, q);
  }

  /** Binned chunks of another size are clear of the ring. */
  lemma ChainedOther(m: Mem, b: Bins, msp: int, hi: int, p: Word, s: int, i: Word, T: Word, F: Word, q: int)
    requires DomOk(m, msp, hi) && Places(b.free, msp, hi) && Insertable(b, msp, hi, p, s) && s >= MIN_LARGE_SIZE
    requires InRing(b, s, T) && InRing(b, s, F) && q in b.free
    ensures b.free[q] != s ==> SameLinks(m, ChainedMem(m, p, i, T, F), q)
    ensures b.free[q] >= MIN_LARGE_SIZE ==> SameTree(m, ChainedMem(m, p, i, T, F), q)
  {
    hide ChainedMem;
    ChainClear(m, b, msp, hi, p, s, T);
    ChainClear(m, b, msp, hi, p, s, F);
    assert PlaceOk(q, b.free[q], msp, hi) && Apart(b.free, q, b.free[q]);
    if b.free[q] >= MIN_LARGE_SIZE {
      ChainedLinks(m, p, i, T, F, q);
    } else {
      ChainedWords(m, p, i, T, F, q + 8);
      ChainedWords(m, p, i, T, F, q + 12);
    }
  }

  lemma ChainedKept(m: Mem, b: Bins, msp: int, hi: int, p: Word, s: int, i: Word, T: Word, F: Word)
    requires DomOk(m, msp, hi) && Places(b.free, msp, hi) && Insertable(b, msp, hi, p, s) && s >= MIN_LARGE_SIZE
    requires InRing(b, s, T) && InRing(b, s, F)
    ensures OtherLinks(m, ChainedMem(m, p, i, T, F), b, msp, s)
    ensures TreeKept(m, ChainedMem(m, p, i, T, F), b, msp)
  {
    hide ChainedMem;
    hide SameTree;
    hide SameLinks;
    var m' := ChainedMem(m, p, i, T, F);
    ChainClear(m, b, msp, hi, p, s, T);
    ChainClear(m, b, msp, hi, p, s, F);
    forall q | q in b.free
      ensures b.free[q] != s ==> SameLinks(m, m', q)
      ensures b.free[q] >= MIN_LARGE_SIZE ==> SameTree(m, m', q)
    {
      ChainedOther(m, b, msp, hi, p, s, i, T, F, q);
    }
    forall z | 0 <= z < MIN_LARGE_SIZE
      ensures SameLinks(m, m', Header(msp, z))
    {
      ChainedState(m, msp, p, i, T, F, Header(msp, z) + 8);
      ChainedState(m, msp, p, i, T, F, Header(msp, z) + 12);
      LinksAre(m, m', Header(msp, z));
    }
    forall j | 0 <= j < 32
      ensures Rd(m, Slot(msp, j)) == Rd(m', Slot(msp, j))
    {
      ChainedState(m, msp, p, i, T, F, Slot(msp, j));
    }
  }

  lemma LinksAre(m: Mem, m': Mem, q: int)
    requires Rd(m, q + 8) == Rd(m', q + 8) && Rd(m, q + 12) == Rd(m', q + 12)
    ensures SameLinks(m, m', q)
  {
  }

  lemma ChainedState(m: Mem, msp: int, p: Word, i: Word, T: Word, F: Word, a: int)
    requires a + 4 <= msp + STATE_SIZE && p >= msp + STATE_SIZE && T >= msp + STATE_SIZE && F >= msp + STATE_SIZE
    requires T + 32 <= p || p + 32 <= T
    requires F + 32 <= p || p + 32 <= F
    ensures Rd(ChainedMem(m, p, i, T, F), a) == Rd(m, a)
  {
    ChainedWords(m, p, i, T, F, a);
  }

  /** A ring that keeps its first chunk keeps the tree. */
  lemma RingChanged(m: Mem, m': Mem, b: Bins, b': Bins, msp: int, hi: int, s: int)
    requires Places(b.free, msp, hi) && Members(b) && Wf(b.trie, b.roots) && TrieMem(m, b, msp)
             && TreeKept(m, m', b, msp)
    requires s in b.rings && s >= MIN_LARGE_SIZE
    requires b'.trie == b.trie && b'.roots == b.roots && b'.rings.Keys == b.rings.Keys
    requires forall z :: z in b.rings && z != s ==> b'.rings[z] == b.rings[z]
    requires |b'.rings[s]| > 0 && b'.rings[s][0] == b.rings[s][0]
    requires ChainMem(m', b', s)
    ensures TrieMem(m', b', msp)
  {
    hide Wf;
    hide NodesMem;
    hide Idx;
    hide Rd;
    hide ChainMem;
    hide Places;
    RingSizes(b, msp, hi);
    forall z | z in b.rings
      ensures z in b'.rings && |b.rings[z]| > 0 && |b'.rings[z]| > 0 && b'.rings[z][0] == b.rings[z][0]
    {
      assert z in b'.rings.Keys;
      assert RingOk(b, z);
    }
    forall z | z in b.trie
      ensures At(Heads(b'), z) == At(Heads(b), z) && SameTree(m, m', At(Heads(b), z))
    {
      HeadIs(b, z);
    }
    NodesKept(m, m', Heads(b), Heads(b'), b.trie, b.roots, msp);
    forall z | z in b'.rings && z >= MIN_LARGE_SIZE
      ensures ChainMem(m', b', z)
    {
      assert z in b'.rings.Keys;
      if z != s {
        assert ChainMem(m, b, z);
        ChainKept(m, m', b, b', msp, z);
      }
    }
    forall z
      ensures z in b'.trie <==> z in b'.rings && z >= MIN_LARGE_SIZE
    {
      assert z in b'.rings <==> z in b'.rings.Keys;
    }
  }

  lemma InsertSeqElems(r: seq<int>, p: int)
    requires |r| > 0 && Distinct(r) && p !in r
    ensures Distinct(InsertSeq(r, p))
    ensures forall q :: q in InsertSeq(r, p) <==> q == p || q in r
  {
    var r' := InsertSeq(r, p);
    forall q | q in r
      ensures q in r'
    {
      var k :| 0 <= k < |r| && r[k] == q;
      assert r'[if k == 0 then 0 else k + 1] == q;
    }
    forall q | q in r' && q != p
      ensures q in r
    {
      var k :| 0 <= k < |r'| && r'[k] == q;
      assert r[if k == 0 then 0 else k - 1] == q;
    }
    assert r'[1] == p;
  }

  lemma ChainedMembers(m: Mem, b: Bins, msp: int, hi: int, p: int, s: int)
    requires DomOk(m, msp, hi) && Places(b.free, msp, hi) && Members(b) && RingsLinked(m, b, msp)
    requires Insertable(b, msp, hi, p, s) && s >= MIN_LARGE_SIZE && s in b.rings
    ensures |b.rings[s]| > 0 && Members(Chained(b, p, s)) && p !in b.free
  {
    hide Linked;
    hide RingsLinked;
    hide Places;
    hide DomOk;
    hide Members;
    hide Distinct;
    ChainRing(m, b, msp, hi, p, s);
    InsertSeqElems(b.rings[s], p);
    MembersInsert(b, p, s, InsertSeq(b.rings[s], p));
  }

  lemma ChainedChain(m: Mem, b: Bins, msp: int, hi: int, p: Word, s: int, i: Word, T: Word, F: Word)
    requires DomOk(m, msp, hi) && Places(b.free, msp, hi) && Members(b) && Insertable(b, msp, hi, p, s)
    requires s >= MIN_LARGE_SIZE && s in b.rings && |b.rings[s]| > 0 && i == Idx(s)
    requires InRing(b, s, T) && InRing(b, s, F) && ChainMem(m, b, s)
    ensures ChainMem(ChainedMem(m, p, i, T, F), Chained(b, p, s), s)
  {
    hide Idx;
    hide Rd;
    hide ChainedMem;
    var m', r := ChainedMem(m, p, i, T, F), b.rings[s];
    var r' := InsertSeq(r, p);
    ChainClear(m, b, msp, hi, p, s, T);
    ChainClear(m, b, msp, hi, p, s, F);
    forall j | 1 <= j < |r'|
      ensures TreeWords(m', r'[j], 0, 0, 0, i)
    {
      if j == 1 {
        ChainedOwn(m, p, i, T, F);
      } else {
        assert r'[j] == r[j - 1];
        ChainMember(b, s, j - 1);
        ChainedOther(m, b, msp, hi, p, s, i, T, F, r[j - 1]);
        assert TreeWords(m, r[j - 1], 0, 0, 0, i);
      }
    }
  }

  lemma ChainedFrame(m: Mem, b: Bins, msp: int, p: Word, s: int, i: Word, T: Word, F: Word)
    requires s >= MIN_LARGE_SIZE && InRing(b, s, T) && InRing(b, s, F) && p !in b.free
    ensures Frame(m, ChainedMem(m, p, i, T, F), b.free[p := s], msp)
  {
    var m', free' := ChainedMem(m, p, i, T, F), b.free[p := s];
    forall a | !Owned(free', msp, a)
      ensures Rd(m', a) == Rd(m, a)
    {
      assert p in free' && free'[p] == s;
      assert T in free' && free'[T] == s && F in free' && free'[F] == s;
    }
  }

  lemma ChainedDom(m: Mem, lo: int, hi: int, p: Word, i: Word, T: Word, F: Word)
    requires DomOk(m, lo, hi) && T + 8 in m && F + 12 in m
    requires p + 8 in m && p + 12 in m && p + 16 in m && p + 20 in m && p + 24 in m && p + 28 in m
    ensures DomOk(ChainedMem(m, p, i, T, F), lo, hi)
  {
    var m' := ChainedMem(m, p, i, T, F);
    assert forall q :: q in m' <==> q in m;
  }

  lemma ChainedRings(m: Mem, b: Bins, msp: int, hi: int, p: Word, s: int, i: Word, T: Word, F: Word)
    requires DomOk(m, msp, hi) && Places(b.free, msp, hi) && Members(b) && RingsLinked(m, b, msp)
    requires Insertable(b, msp, hi, p, s) && s >= MIN_LARGE_SIZE && s in b.rings
    requires |b.rings[s]| > 0 && T == b.rings[s][0] && F == Fd(m, T)
    ensures RingsLinked(ChainedMem(m, p, i, T, F), Chained(b, p, s), msp)
  {
    hide Linked;
    hide DomOk;
    hide Places;
    hide Members;
    hide Insertable;
    hide OtherLinks;
    hide TreeKept;
    hide ChainedMem;
    hide Distinct;
    DomFacts(m, msp, hi);
    ChainRing(m, b, msp, hi, p, s);
    ChainedOwnRing(m, b, msp, hi, p, s, i, T, F);
    ChainedKept(m, b, msp, hi, p, s, i, T, F);
    var m', b' := ChainedMem(m, p, i, T, F), Chained(b, p, s);
    OtherRings(m, m', b, msp, hi, s);
    forall z | z in b'.rings
      ensures Linked(m', Ring(b', msp, z))
    {
      if z != s {
        assert Ring(b', msp, z) == Ring(b, msp, z);
      }
    }
  }

  lemma ChainedMaps(smallmap: Word, treemap: Word, b: Bins, p: int, s: int)
    requires MapsOk(smallmap, treemap, b) && s in b.rings && |b.rings[s]| > 0
    ensures MapsOk(smallmap, treemap, Chained(b, p, s))
  {
  }

  lemma ChainedIs(b: Bins, p: int, s: int)
    requires s in b.rings && |b.rings[s]| > 0
    ensures var b' := Chained(b, p, s);
            && b'.free == b.free[p := s] && b'.trie == b.trie && b'.roots == b.roots && b'.rings.Keys == b.rings.Keys
            && (forall z :: z in b.rings && z != s ==> b'.rings[z] == b.rings[z])
            && |b'.rings[s]| > 0 && b'.rings[s][0] == b.rings[s][0]
  {
  }

  lemma ChainOf(m: Mem, b: Bins, s: int)
    requires Chains(m, b) && s in b.rings && s >= MIN_LARGE_SIZE
    ensures ChainMem(m, b, s)
  {
  }

  /** `insert_large_chunk` next to a node of the same size. */
  lemma ChainBins(m: Mem, smallmap: Word, treemap: Word, b: Bins, msp: int, hi: int, p: Word, s: int, i: Word, T: Word,
                  F: Word)
    requires BinsOk(m, smallmap, treemap, b, msp, hi) && Insertable(b, msp, hi, p, s) && s >= MIN_LARGE_SIZE
    requires s in b.rings && i == Idx(s) && T == At(Heads(b), s) && F == Fd(m, T)
    ensures |b.rings[s]| > 0 && T + 8 in m && F + 12 in m
    ensures var b', m' := Chained(b, p, s), ChainedMem(m, p, i, T, F);
            && BinsOk(m', smallmap, treemap, b', msp, hi)
            && b'.free == b.free[p := s]
            && Frame(m, m', b'.free, msp)
  {
    hide *;
    BinsParts(m, smallmap, treemap, b, msp, hi);
    TrieMemParts(m, b, msp);
    HeadIs(b, s);
    InsertableFacts(m, b, msp, hi, p, s);
    ChainedMembers(m, b, msp, hi, p, s);
    ChainRing(m, b, msp, hi, p, s);
    ChainClear(m, b, msp, hi, p, s, T);
    ChainClear(m, b, msp, hi, p, s, F);
    ChainedKept(m, b, msp, hi, p, s, i, T, F);
    ChainOf(m, b, s);
    ChainedChain(m, b, msp, hi, p, s, i, T, F);
    ChainedIs(b, p, s);
    RingChanged(m, ChainedMem(m, p, i, T, F), b, Chained(b, p, s), msp, hi, s);
    ChainedRings(m, b, msp, hi, p, s, i, T, F);
    ChainedDom(m, msp, hi, p, i, T, F);
    ChainedMaps(smallmap, treemap, b, p, s);
    ChainedFrame(m, b, msp, p, s, i, T, F);
    BinsParts(ChainedMem(m, p, i, T, F), smallmap, treemap, Chained(b, p, s), msp, hi);
  }
}
