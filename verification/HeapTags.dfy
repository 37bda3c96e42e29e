/** How writes to heads, feet and bins leave the boundary tags and the bins in order. */
module HeapTags {
  import opened Words
  import opened HeapWords
  import opened HeapRings
  import opened HeapTrieMem
  import opened HeapBins
  import opened HeapSmallBins
  import opened HeapLargeBins
  import opened HeapArena

  /** The memories differ at most from the head of the chunk at `lo` to the head of the chunk at `e`. */
  ghost predicate Local(m: Mem, m': Mem, lo: int, e: int) {
    forall a :: a < lo + 4 || e + 8 <= a ==> Rd(m', a) == Rd(m, a)
  }

  function Bits(inuse: bool, pinuse: bool): int {
    (if inuse then 2 else 0) + (if pinuse then 1 else 0)
  }

  // ---------------------------------------------------------------- primitives

  lemma FuseTag(m: Mem, m': Mem, C: Arena, msp: int, top: int, last: int, lo: int, e: int, inuse: bool, q: int)
    requires ArenaOk(C, msp, top, last) && Fusable(C, msp, top, lo, e, inuse) && Tags(m, C) && Local(m, m', lo, e)
    requires Rd(m', lo + 4) == e - lo + Bits(inuse, PInuse(C, lo))
    requires e in C ==> Rd(m', e + 4) == C[e].size + Bits(C[e].inuse, inuse)
    requires !inuse ==> Rd(m', e) == e - lo
    requires q in Fuse(C, lo, e, inuse)
    ensures TagOk(m', Fuse(C, lo, e, inuse), q)
  {
    hide Rd;
    if q == lo {
      FuseOwn(C, msp, top, last, lo, e, inuse);
    } else {
      assert TagOk(m, C, q);
      FuseOther(C, msp, top, last, lo, e, inuse, q);
    }
  }

  lemma FuseOwn(C: Arena, msp: int, top: int, last: int, lo: int, e: int, inuse: bool)
    requires ArenaOk(C, msp, top, last) && Fusable(C, msp, top, lo, e, inuse)
    ensures var C' := Fuse(C, lo, e, inuse);
            && lo in C' && C'[lo].size == e - lo && C'[lo].inuse == inuse
            && HeadWord(C', lo) == e - lo + Bits(inuse, PInuse(C, lo))
  {
    ChunkFacts(C, msp, top, last, lo);
    ChunkFacts(C, msp, top, last, C[lo].prev);
  }

  lemma FuseOther(C: Arena, msp: int, top: int, last: int, lo: int, e: int, inuse: bool, q: int)
    requires ArenaOk(C, msp, top, last) && Fusable(C, msp, top, lo, e, inuse) && q in Fuse(C, lo, e, inuse) && q != lo
    ensures var C' := Fuse(C, lo, e, inuse);
            && q in C && C'[q].size == C[q].size && C'[q].inuse == C[q].inuse
            && HeadWord(C', q) == (if q == e then C[q].size + Bits(C[q].inuse, inuse) else HeadWord(C, q))
            && (End(C, q) < lo + 4 || e + 8 <= End(C, q))
            && (q == e || q + 4 < lo + 4 || e + 8 <= q + 4)
  {
    FusableFacts(C, msp, top, last, lo, e, inuse);
    ChunkFacts(C, msp, top, last, q);
    if q < lo {
      EdgeApart(C, msp, top, last, lo, q);
    } else if q > e {
      assert NoOverlap(C, e, q);
      ChunkFacts(C, msp, top, last, e);
    }
    if q != msp {
      var u := C[q].prev;
      ChunkFacts(C, msp, top, last, u);
      if u < e {
        EdgeApart(C, msp, top, last, e, u);
      }
    }
  }

  lemma FuseTags(m: Mem, m': Mem, C: Arena, msp: int, top: int, last: int, lo: int, e: int, inuse: bool)
    requires ArenaOk(C, msp, top, last) && Fusable(C, msp, top, lo, e, inuse) && Tags(m, C) && Local(m, m', lo, e)
    requires Rd(m', lo + 4) == e - lo + Bits(inuse, PInuse(C, lo))
    requires e in C ==> Rd(m', e + 4) == C[e].size + Bits(C[e].inuse, inuse)
    requires !inuse ==> Rd(m', e) == e - lo
    ensures Tags(m', Fuse(C, lo, e, inuse))
  {
    hide TagOk;
    hide Rd;
    hide ArenaOk;
    hide Tags;
    hide Local;
    var C' := Fuse(C, lo, e, inuse);
    forall q | q in C'
      ensures TagOk(m', C', q)
    {
      FuseTag(m, m', C, msp, top, last, lo, e, inuse, q);
    }
    TagsIntro(m', C');
  }

  lemma TagsIntro(m: Mem, C: Arena)
    requires forall q :: q in C ==> TagOk(m, C, q)
    ensures Tags(m, C)
  {
  }

  lemma CutTag(m: Mem, m': Mem, C: Arena, msp: int, top: int, last: int, p: int, n: int, inuse1: bool, inuse2: bool,
               q: int)
    requires ArenaOk(C, msp, top, last) && Cuttable(C, msp, p, n, inuse1, inuse2) && Tags(m, C)
             && Local(m, m', p, End(C, p))
    requires Rd(m', p + 4) == n + Bits(inuse1, PInuse(C, p))
    requires Rd(m', p + n + 4) == C[p].size - n + Bits(inuse2, inuse1)
    requires End(C, p) in C ==> Rd(m', End(C, p) + 4) == C[End(C, p)].size + Bits(C[End(C, p)].inuse, inuse2)
    requires !inuse1 ==> Rd(m', p + n) == n
    requires !inuse2 ==> Rd(m', End(C, p)) == C[p].size - n
    requires q in Cut(C, p, n, inuse1, inuse2)
    ensures TagOk(m', Cut(C, p, n, inuse1, inuse2), q)
  {
    hide Rd;
    CutFresh(C, msp, top, last, p, n);
    ChunkFacts(C, msp, top, last, p);
    if q != p && q != p + n {
      assert TagOk(m, C, q);
      CutOther(C, msp, top, last, p, n, inuse1, inuse2, q);
    } else {
      CutOwn(C, msp, top, last, p, n, inuse1, inuse2);
    }
  }

  lemma CutOwn(C: Arena, msp: int, top: int, last: int, p: int, n: int, inuse1: bool, inuse2: bool)
    requires ArenaOk(C, msp, top, last) && Cuttable(C, msp, p, n, inuse1, inuse2)
    ensures var C' := Cut(C, p, n, inuse1, inuse2);
            && p in C' && p + n in C' && C'[p].size == n && C'[p].inuse == inuse1
            && C'[p + n].size == C[p].size - n && C'[p + n].inuse == inuse2
            && HeadWord(C', p) == n + Bits(inuse1, PInuse(C, p))
            && HeadWord(C', p + n) == C[p].size - n + Bits(inuse2, inuse1)
  {
    CutFresh(C, msp, top, last, p, n);
    ChunkFacts(C, msp, top, last, p);
    ChunkFacts(C, msp, top, last, C[p].prev);
  }

  /** The other chunks keep their tags, but for the in-use bit of the next chunk's predecessor. */
  lemma CutOther(C: Arena, msp: int, top: int, last: int, p: int, n: int, inuse1: bool, inuse2: bool, q: int)
    requires ArenaOk(C, msp, top, last) && Cuttable(C, msp, p, n, inuse1, inuse2)
    requires q in C && q != p && q != p + n
    ensures var C' := Cut(C, p, n, inuse1, inuse2);
            && q in C' && C'[q].size == C[q].size && C'[q].inuse == C[q].inuse
            && HeadWord(C', q) == (if q == End(C, p) then C[q].size + Bits(C[q].inuse, inuse2) else HeadWord(C, q))
            && (End(C, q) < p + 4 || End(C, p) + 8 <= End(C, q))
            && (q + 4 < p + 4 || End(C, p) + 4 <= q + 4)
            && (q == End(C, p) || q + 4 < p + 4 || End(C, p) + 8 <= q + 4)
  {
    CutFresh(C, msp, top, last, p, n);
    ChunkFacts(C, msp, top, last, p);
    ChunkFacts(C, msp, top, last, q);
    Elsewhere(C, msp, top, last, p, q);
    if q != msp {
      ChunkFacts(C, msp, top, last, C[q].prev);
    }
  }

  /** The head and the foot of another chunk lie outside of those of `p`. */
  lemma Elsewhere(C: Arena, msp: int, top: int, last: int, p: int, q: int)
    requires ArenaOk(C, msp, top, last) && p in C && q in C && q != p
    ensures End(C, q) < p + 4 || End(C, p) + 8 <= End(C, q)
    ensures q + 4 < p + 4 || End(C, p) + 4 <= q + 4
    ensures q == End(C, p) || q + 4 < p + 4 || End(C, p) + 8 <= q + 4
  {
    ChunkFacts(C, msp, top, last, p);
    ChunkFacts(C, msp, top, last, q);
    assert NoOverlap(C, p, q) && NoOverlap(C, q, p);
    hide ArenaOk;
    EightPlus(p, C[p].size);
    EightApart(End(C, p), q);
  }

  lemma EightApart(a: int, b: int)
    requires a % 8 == 0 && b % 8 == 0
    ensures a < b ==> a + 8 <= b
  {
    var x, y := a / 8, b / 8;
    assert a == 8 * x && b == 8 * y;
  }

  lemma CutTags(m: Mem, m': Mem, C: Arena, msp: int, top: int, last: int, p: int, n: int, inuse1: bool, inuse2: bool)
    requires ArenaOk(C, msp, top, last) && Cuttable(C, msp, p, n, inuse1, inuse2) && Tags(m, C)
             && Local(m, m', p, End(C, p))
    requires Rd(m', p + 4) == n + Bits(inuse1, PInuse(C, p))
    requires Rd(m', p + n + 4) == C[p].size - n + Bits(inuse2, inuse1)
    requires End(C, p) in C ==> Rd(m', End(C, p) + 4) == C[End(C, p)].size + Bits(C[End(C, p)].inuse, inuse2)
    requires !inuse1 ==> Rd(m', p + n) == n
    requires !inuse2 ==> Rd(m', End(C, p)) == C[p].size - n
    ensures Tags(m', Cut(C, p, n, inuse1, inuse2))
  {
    hide TagOk;
    hide Rd;
    hide ArenaOk;
    hide Tags;
    hide Local;
    var C' := Cut(C, p, n, inuse1, inuse2);
    forall q | q in C'
      ensures TagOk(m', C', q)
    {
      CutTag(m, m', C, msp, top, last, p, n, inuse1, inuse2, q);
    }
    TagsIntro(m', C');
  }

  lemma AbsorbTags(m: Mem, m': Mem, C: Arena, msp: int, top: int, last: int, lo: int)
    requires ArenaOk(C, msp, top, last) && lo in C && Tags(m, C)
    requires forall a :: a < lo + 4 ==> Rd(m', a) == Rd(m, a)
    ensures Tags(m', Absorb(C, lo))
  {
    hide Rd;
    var C' := Absorb(C, lo);
    forall q | q in C'
      ensures TagOk(m', C', q)
    {
      assert TagOk(m, C, q);
      ChunkFacts(C, msp, top, last, q);
      EdgeApart(C, msp, top, last, lo, q);
      if q != msp {
        ChunkFacts(C, msp, top, last, C[q].prev);
      }
    }
  }

  lemma CarveTags(m: Mem, m': Mem, C: Arena, msp: int, top: int, last: int, n: int)
    requires ArenaOk(C, msp, top, last) && Tags(m, C) && MIN_CHUNK_SIZE <= n
    requires forall a :: a < top + 4 ==> Rd(m', a) == Rd(m, a)
    requires Rd(m', top + 4) == n + 3
    ensures Tags(m', Carve(C, top, n, last))
  {
    hide Rd;
    var C' := Carve(C, top, n, last);
    TopNotChunk(C, msp, top, last);
    forall q | q in C'
      ensures TagOk(m', C', q)
    {
      if q != top {
        assert TagOk(m, C, q);
        ChunkFacts(C, msp, top, last, q);
      }
    }
  }

  // ---------------------------------------------------------------- bins and arena

  /** The free chunks with their sizes, but for those in `out`. */
  ghost function FreeMap(C: Arena, out: set<int>): map<int, int> {
    map p | p in C && !C[p].inuse && p !in out :: C[p].size
  }

  /** Some of the free chunks, with their sizes. */
  ghost predicate SomeFree(C: Arena, free: map<int, int>) {
    forall p :: p in free ==> p in C && !C[p].inuse && free[p] == C[p].size
  }

  /** Head and foot words are not the bins' own. */
  lemma TagNotOwned(C: Arena, msp: int, top: int, last: int, free: map<int, int>, e: int)
    requires ArenaOk(C, msp, top, last) && SomeFree(C, free) && Edge(C, top, e)
    ensures !Owned(free, msp, e) && !Owned(free, msp, e + 4)
  {
    assert ChunkOk(C, msp, msp, top);
    if e in C {
      ChunkFacts(C, msp, top, last, e);
      assert NoOverlap(C, msp, e);
    }
    forall x | x in free
      ensures e + 4 < x + 8 || x + free[x] <= e
    {
      ChunkFacts(C, msp, top, last, x);
      if x < e {
        EdgeApart(C, msp, top, last, e, x);
      }
    }
  }

  lemma TagsFrame(m: Mem, m': Mem, C: Arena, msp: int, top: int, last: int, free: map<int, int>)
    requires ArenaOk(C, msp, top, last) && SomeFree(C, free) && Frame(m, m', free, msp) && Tags(m, C)
    ensures Tags(m', C)
  {
    hide Rd;
    hide Owned;
    forall q | q in C
      ensures TagOk(m', C, q)
    {
      assert TagOk(m, C, q);
      ChunkFacts(C, msp, top, last, q);
      TagNotOwned(C, msp, top, last, free, q);
      TagNotOwned(C, msp, top, last, free, End(C, q));
    }
  }

  lemma TopFrame(m: Mem, m': Mem, C: Arena, msp: int, top: int, last: int, free: map<int, int>, topsize: int, hi: int)
    requires ArenaOk(C, msp, top, last) && SomeFree(C, free) && Frame(m, m', free, msp) && TopOk(m, top, topsize, hi)
    ensures TopOk(m', top, topsize, hi)
  {
    TagNotOwned(C, msp, top, last, free, top);
    AboveNotOwned(C, msp, top, last, free, top + topsize + 4);
  }

  lemma AboveNotOwned(C: Arena, msp: int, top: int, last: int, free: map<int, int>, a: int)
    requires ArenaOk(C, msp, top, last) && SomeFree(C, free) && top <= a
    ensures !Owned(free, msp, a)
  {
    assert ChunkOk(C, msp, msp, top);
    forall x | x in free
      ensures x + free[x] <= top
    {
      ChunkFacts(C, msp, top, last, x);
    }
  }

  /** Writes outside the bins' own words leave the bins in order. */
  lemma BinsFrame(m: Mem, m': Mem, smallmap: Word, treemap: Word, b: Bins, msp: int, hi: int)
    requires BinsOk(m, smallmap, treemap, b, msp, hi) && DomOk(m', msp, hi)
    requires forall a :: Owned(b.free, msp, a) ==> Rd(m', a) == Rd(m, a)
    ensures BinsOk(m', smallmap, treemap, b, msp, hi)
  {
    hide *;
    BinsParts(m, smallmap, treemap, b, msp, hi);
    TrieMemParts(m, b, msp);
    DomFacts(m, msp, hi);
    BinsSame(m, m', b, msp, hi);
    RingsSame(m, m', b, msp, hi);
    NoZeroRing(b, msp, hi);
    TrieKept(m, m', b, b, msp);
    BinsParts(m', smallmap, treemap, b, msp, hi);
  }

  lemma NoZeroRing(b: Bins, msp: int, hi: int)
    requires Places(b.free, msp, hi) && Members(b)
    ensures 0 !in b.rings
  {
    RingSizes(b, msp, hi);
  }

  lemma BinsSame(m: Mem, m': Mem, b: Bins, msp: int, hi: int)
    requires Places(b.free, msp, hi)
    requires forall a :: Owned(b.free, msp, a) ==> Rd(m', a) == Rd(m, a)
    ensures OtherLinks(m, m', b, msp, -1) && TreeKept(m, m', b, msp)
  {
    hide Rd;
    forall q | q in b.free
      ensures SameLinks(m, m', q)
      ensures b.free[q] >= MIN_LARGE_SIZE ==> SameTree(m, m', q)
    {
      assert PlaceOk(q, b.free[q], msp, hi);
      assert Owned(b.free, msp, q + 8) && Owned(b.free, msp, q + 12);
      if b.free[q] >= MIN_LARGE_SIZE {
        assert Owned(b.free, msp, q + 16) && Owned(b.free, msp, q + 20) && Owned(b.free, msp, q + 24)
            && Owned(b.free, msp, q + 28);
      }
    }
    forall z | 0 <= z < MIN_LARGE_SIZE && z % 8 == 0
      ensures SameLinks(m, m', Header(msp, z))
    {
      assert Owned(b.free, msp, Header(msp, z) + 8) && Owned(b.free, msp, Header(msp, z) + 12);
    }
    forall i | 0 <= i < 32
      ensures Rd(m, Slot(msp, i)) == Rd(m', Slot(msp, i))
    {
      assert Owned(b.free, msp, Slot(msp, i));
    }
  }

  lemma RingsSame(m: Mem, m': Mem, b: Bins, msp: int, hi: int)
    requires Places(b.free, msp, hi) && Members(b) && RingsLinked(m, b, msp) && msp % 8 == 0
    requires OtherLinks(m, m', b, msp, -1)
    ensures RingsLinked(m', b, msp)
  {
    hide Linked;
    hide OtherLinks;
    hide Places;
    hide Members;
    RingSizes(b, msp, hi);
    OtherRings(m, m', b, msp, hi, -1);
  }

  /** Writes inside a region that holds no binned chunk miss the bins' own words. */
  lemma RegionNotOwned(C: Arena, msp: int, top: int, last: int, free: map<int, int>, lo: int, e: int, a: int)
    requires ArenaOk(C, msp, top, last) && SomeFree(C, free) && lo in C && lo != msp && Edge(C, top, e)
    requires forall x :: x in free ==> x < lo || e <= x
    requires lo + 4 <= a < e + 8
    ensures !Owned(free, msp, a)
  {
    assert ChunkOk(C, msp, msp, top) && NoOverlap(C, msp, lo);
    ChunkFacts(C, msp, top, last, lo);
    forall x | x in free
      ensures a < x + 8 || x + free[x] <= a
    {
      ChunkFacts(C, msp, top, last, x);
      if x < lo {
        EdgeApart(C, msp, top, last, lo, x);
      }
    }
  }
}
