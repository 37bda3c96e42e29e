/** The invariant of a whole space, and the steps the allocator composes its operations from. */
module HeapState {
  import opened Words
  import opened HeapWords
  import opened HeapTrieMem
  import opened HeapBins
  import opened HeapArena
  import opened HeapTags

  /** Bins, chunks, tags and top agree; the binned chunks are some of the free ones. */
  ghost predicate Core(m: Mem, smallmap: Word, treemap: Word, top: int, topsize: int, C: Arena, last: int, b: Bins,
                       msp: int, hi: int) {
    && BinsOk(m, smallmap, treemap, b, msp, hi)
    && ArenaOk(C, msp, top, last)
    && Tags(m, C)
    && TopOk(m, top, topsize, hi)
    && SomeFree(C, b.free)
  }

  /** The designated victim is a free chunk kept out of the bins. */
  ghost predicate DvOk(C: Arena, dv: int, dvsize: int) {
    if dvsize == 0 then dv == 0 else dv in C && !C[dv].inuse && C[dv].size == dvsize
  }

  /** The blocks handed out: chunks in use other than the state chunk, with their sizes. */
  ghost function Live(C: Arena, msp: int): map<int, int> {
    map p | p in C && C[p].inuse && p != msp :: C[p].size
  }

  /** The payload of the block at chunk `p` of size `s` is the same in both memories. */
  ghost predicate Kept(m: Mem, m': Mem, p: int, s: int) {
    forall a :: p + 8 <= a < p + s + 4 ==> Rd(m', a) == Rd(m, a)
  }

  /** Every block of `live` keeps its payload. */
  ghost predicate AllKept(m: Mem, m': Mem, live: map<int, int>) {
    forall p {:trigger Kept(m, m', p, live[p])} :: p in live ==> Kept(m, m', p, live[p])
  }

  lemma CoreParts(m: Mem, smallmap: Word, treemap: Word, top: int, topsize: int, C: Arena, last: int, b: Bins,
                  msp: int, hi: int)
    ensures Core(m, smallmap, treemap, top, topsize, C, last, b, msp, hi) <==>
            && BinsOk(m, smallmap, treemap, b, msp, hi) && ArenaOk(C, msp, top, last) && Tags(m, C)
            && TopOk(m, top, topsize, hi) && SomeFree(C, b.free)
    ensures BinsOk(m, smallmap, treemap, b, msp, hi) ==>
            DomOk(m, msp, hi) && msp + STATE_SIZE <= hi && Places(b.free, msp, hi) && Members(b)
  {
  }

  /** After a bin operation on free chunks. */
  lemma BinStep(m: Mem, m': Mem, smallmap: Word, treemap: Word, smallmap': Word, treemap': Word, top: int, topsize: int,
                C: Arena, last: int, b: Bins, b': Bins, msp: int, hi: int, free: map<int, int>)
    requires Core(m, smallmap, treemap, top, topsize, C, last, b, msp, hi)
    requires BinsOk(m', smallmap', treemap', b', msp, hi) && Frame(m, m', free, msp) && SomeFree(C, free)
             && SomeFree(C, b'.free)
    ensures Core(m', smallmap', treemap', top, topsize, C, last, b', msp, hi)
    ensures AllKept(m, m', Live(C, msp))
  {
    hide BinsOk;
    hide ArenaOk;
    hide Tags;
    hide TopOk;
    hide Frame;
    hide Live;
    hide AllKept;
    TagsFrame(m, m', C, msp, top, last, free);
    TopFrame(m, m', C, msp, top, last, free, topsize, hi);
    FrameKept(m, m', C, msp, top, last, free);
  }

  lemma FrameKept(m: Mem, m': Mem, C: Arena, msp: int, top: int, last: int, free: map<int, int>)
    requires ArenaOk(C, msp, top, last) && SomeFree(C, free) && Frame(m, m', free, msp)
    ensures AllKept(m, m', Live(C, msp))
  {
    var live := Live(C, msp);
    forall p | p in live
      ensures Kept(m, m', p, live[p])
    {
      ChunkFacts(C, msp, top, last, p);
      assert NoOverlap(C, msp, p);
      forall a | p + 8 <= a < p + live[p] + 4
        ensures Rd(m', a) == Rd(m, a)
      {
        PayloadNotOwned(C, msp, top, last, free, p, a);
      }
    }
  }

  lemma PayloadNotOwned(C: Arena, msp: int, top: int, last: int, free: map<int, int>, p: int, a: int)
    requires ArenaOk(C, msp, top, last) && SomeFree(C, free) && p in C && C[p].inuse && p != msp
    requires p + 8 <= a < End(C, p) + 4
    ensures !Owned(free, msp, a)
  {
    ChunkFacts(C, msp, top, last, p);
    assert NoOverlap(C, msp, p);
    forall x | x in free
      ensures a < x + 8 || x + free[x] <= a
    {
      ChunkFacts(C, msp, top, last, x);
      assert NoOverlap(C, p, x) && NoOverlap(C, x, p);
    }
  }

  /** Blocks outside a region keep their payload when writes stay inside it. */
  lemma LocalKept(m: Mem, m': Mem, C: Arena, msp: int, top: int, last: int, lo: int, e: int, live: map<int, int>)
    requires ArenaOk(C, msp, top, last) && lo in C && Edge(C, top, e) && Local(m, m', lo, e)
    requires forall p :: p in live ==> p in C && live[p] == C[p].size && (p < lo || e <= p)
    ensures AllKept(m, m', live)
  {
    hide Rd;
    forall p | p in live
      ensures Kept(m, m', p, live[p])
    {
      ChunkFacts(C, msp, top, last, p);
      if p < lo {
        EdgeApart(C, msp, top, last, lo, p);
      }
    }
  }

  lemma KeptTrans(m: Mem, m1: Mem, m2: Mem, live: map<int, int>, live1: map<int, int>, live2: map<int, int>)
    requires AllKept(m, m1, live1) && AllKept(m1, m2, live2)
    requires forall p :: p in live ==> p in live1 && p in live2 && live1[p] == live[p] && live2[p] == live[p]
    ensures AllKept(m, m2, live)
  {
    hide Rd;
    forall p | p in live
      ensures Kept(m, m2, p, live[p])
    {
      assert Kept(m, m1, p, live1[p]) && Kept(m1, m2, p, live2[p]);
    }
  }

  /** No binned chunk lies in [lo, e). */
  ghost predicate Clear(free: map<int, int>, lo: int, e: int) {
    forall x :: x in free ==> x < lo || e <= x
  }

  lemma RegionBins(m: Mem, m': Mem, smallmap: Word, treemap: Word, b: Bins, C: Arena, msp: int, top: int, last: int,
                   hi: int,
                   lo: int, e: int)
    requires BinsOk(m, smallmap, treemap, b, msp, hi) && DomOk(m', msp, hi)
    requires ArenaOk(C, msp, top, last) && SomeFree(C, b.free) && lo in C && lo != msp && Edge(C, top, e)
    requires Local(m, m', lo, e) && Clear(b.free, lo, e)
    ensures BinsOk(m', smallmap, treemap, b, msp, hi)
  {
    hide BinsOk;
    hide ArenaOk;
    hide Owned;
    hide Rd;
    hide DomOk;
    forall a | Owned(b.free, msp, a)
      ensures Rd(m', a) == Rd(m, a)
    {
      if lo + 4 <= a < e + 8 {
        RegionNotOwned(C, msp, top, last, b.free, lo, e, a);
      }
    }
    BinsFrame(m, m', smallmap, treemap, b, msp, hi);
  }

  /** The chunks of [lo, e) become one. */
  lemma FuseStep(m: Mem, m': Mem, smallmap: Word, treemap: Word, top: int, topsize: int, C: Arena, last: int, b: Bins,
                 msp: int, hi: int, lo: int, e: int, inuse: bool)
    requires Core(m, smallmap, treemap, top, topsize, C, last, b, msp, hi) && DomOk(m', msp, hi)
    requires Fusable(C, msp, top, lo, e, inuse) && Local(m, m', lo, e) && Clear(b.free, lo, e)
    requires Rd(m', lo + 4) == e - lo + Bits(inuse, PInuse(C, lo))
    requires e in C ==> Rd(m', e + 4) == C[e].size + Bits(C[e].inuse, inuse)
    requires e == top ==> Rd(m', e + 4) == Rd(m, e + 4)
    requires !inuse ==> Rd(m', e) == e - lo
    ensures Core(m', smallmap, treemap, top, topsize, Fuse(C, lo, e, inuse), if e == top then lo else last, b, msp, hi)
  {
    hide *;
    CoreParts(m, smallmap, treemap, top, topsize, C, last, b, msp, hi);
    FusableFacts(C, msp, top, last, lo, e, inuse);
    FusableEdge(C, msp, top, lo, e, inuse);
    RegionBins(m, m', smallmap, treemap, b, C, msp, top, last, hi, lo, e);
    FuseOk(C, msp, top, last, lo, e, inuse);
    FuseTags(m, m', C, msp, top, last, lo, e, inuse);
    TopLocal(m, m', C, msp, top, last, topsize, hi, lo, e);
    FuseFree(C, lo, e, inuse, b.free);
    CoreParts(m', smallmap, treemap, top, topsize, Fuse(C, lo, e, inuse), if e == top then lo else last, b, msp, hi);
  }

  lemma FusableEdge(C: Arena, msp: int, top: int, lo: int, e: int, inuse: bool)
    requires Fusable(C, msp, top, lo, e, inuse)
    ensures lo in C && lo != msp && Edge(C, top, e) && lo < e && (e == top || e in C)
  {
  }

  lemma FuseFree(C: Arena, lo: int, e: int, inuse: bool, free: map<int, int>)
    requires lo in C && SomeFree(C, free) && Clear(free, lo, e) && lo < e
    ensures SomeFree(Fuse(C, lo, e, inuse), free)
  {
  }

  lemma TopLocal(m: Mem, m': Mem, C: Arena, msp: int, top: int, last: int, topsize: int, hi: int, lo: int, e: int)
    requires ArenaOk(C, msp, top, last) && TopOk(m, top, topsize, hi) && lo in C && Edge(C, top, e)
             && Local(m, m', lo, e)
    requires e == top ==> Rd(m', e + 4) == Rd(m, e + 4)
    ensures TopOk(m', top, topsize, hi)
  {
    if e in C {
      ChunkFacts(C, msp, top, last, e);
    }
  }

  /** A chunk becomes two. */
  lemma CutStep(m: Mem, m': Mem, smallmap: Word, treemap: Word, top: int, topsize: int, C: Arena, last: int, b: Bins,
                msp: int, hi: int, p: int, n: int, inuse1: bool, inuse2: bool)
    requires Core(m, smallmap, treemap, top, topsize, C, last, b, msp, hi) && DomOk(m', msp, hi)
    requires Cuttable(C, msp, p, n, inuse1, inuse2) && Local(m, m', p, End(C, p)) && p !in b.free
    requires Rd(m', p + 4) == n + Bits(inuse1, PInuse(C, p))
    requires Rd(m', p + n + 4) == C[p].size - n + Bits(inuse2, inuse1)
    requires End(C, p) in C ==> Rd(m', End(C, p) + 4) == C[End(C, p)].size + Bits(C[End(C, p)].inuse, inuse2)
    requires End(C, p) == top ==> Rd(m', End(C, p) + 4) == Rd(m, End(C, p) + 4)
    requires !inuse1 ==> Rd(m', p + n) == n
    requires !inuse2 ==> Rd(m', End(C, p)) == C[p].size - n
    ensures Core(m', smallmap, treemap, top, topsize, Cut(C, p, n, inuse1, inuse2),
                 if End(C, p) == top then p + n else last, b, msp, hi)
  {
    hide *;
    CoreParts(m, smallmap, treemap, top, topsize, C, last, b, msp, hi);
    CutEdge(C, msp, top, last, p, n, inuse1, inuse2, b.free);
    RegionBins(m, m', smallmap, treemap, b, C, msp, top, last, hi, p, End(C, p));
    CutOk(C, msp, top, last, p, n, inuse1, inuse2);
    CutTags(m, m', C, msp, top, last, p, n, inuse1, inuse2);
    TopLocal(m, m', C, msp, top, last, topsize, hi, p, End(C, p));
    CoreParts(m', smallmap, treemap, top, topsize, Cut(C, p, n, inuse1, inuse2), if End(C, p) == top then p + n
        else last, b, msp, hi);
  }

  lemma CutEdge(C: Arena, msp: int, top: int, last: int, p: int, n: int, inuse1: bool, inuse2: bool,
                free: map<int, int>)
    requires ArenaOk(C, msp, top, last) && Cuttable(C, msp, p, n, inuse1, inuse2) && SomeFree(C, free) && p !in free
    ensures p in C && p != msp && Edge(C, top, End(C, p)) && Clear(free, p, End(C, p))
    ensures SomeFree(Cut(C, p, n, inuse1, inuse2), free)
  {
    ChunkFacts(C, msp, top, last, p);
    CutFresh(C, msp, top, last, p, n);
    forall x | x in free
      ensures x < p || End(C, p) <= x
    {
      assert NoOverlap(C, p, x);
    }
  }

  /** The chunks from `lo` on join top. */
  lemma AbsorbStep(m: Mem, m': Mem, smallmap: Word, treemap: Word, top: int, topsize: int, C: Arena, last: int, b: Bins,
                   msp: int, hi: int, lo: int)
    requires Core(m, smallmap, treemap, top, topsize, C, last, b, msp, hi) && DomOk(m', msp, hi)
    requires lo in C && lo != msp && C[lo].prev in C && C[C[lo].prev].inuse && Clear(b.free, lo, top)
    requires forall a :: a != lo + 4 ==> Rd(m', a) == Rd(m, a)
    requires Rd(m', lo + 4) == topsize + (top - lo) + 1
    ensures Core(m', smallmap, treemap, lo, topsize + (top - lo), Absorb(C, lo), C[lo].prev, b, msp, hi)
  {
    hide *;
    CoreParts(m, smallmap, treemap, top, topsize, C, last, b, msp, hi);
    TopEdge(C, top);
    AbsorbEdge(C, msp, top, last, lo, b.free);
    OneWordLocal(m, m', lo, top, lo + 4);
    RegionBins(m, m', smallmap, treemap, b, C, msp, top, last, hi, lo, top);
    AbsorbOk(C, msp, top, last, lo);
    AbsorbTags(m, m', C, msp, top, last, lo);
    AbsorbTop(m, m', C, msp, top, last, topsize, hi, lo);
    CoreParts(m', smallmap, treemap, lo, topsize + (top - lo), Absorb(C, lo), C[lo].prev, b, msp, hi);
  }

  lemma TopEdge(C: Arena, top: int)
    ensures Edge(C, top, top)
  {
  }

  lemma OneWordLocal(m: Mem, m': Mem, lo: int, e: int, w: int)
    requires forall a :: a != w ==> Rd(m', a) == Rd(m, a)
    requires lo + 4 <= w < e + 8
    ensures Local(m, m', lo, e)
  {
  }

  lemma AbsorbEdge(C: Arena, msp: int, top: int, last: int, lo: int, free: map<int, int>)
    requires ArenaOk(C, msp, top, last) && lo in C && SomeFree(C, free) && Clear(free, lo, top)
    ensures SomeFree(Absorb(C, lo), free) && lo + 16 <= top
  {
    ChunkFacts(C, msp, top, last, lo);
    forall x | x in free
      ensures x in Absorb(C, lo)
    {
      ChunkFacts(C, msp, top, last, x);
    }
  }

  lemma AbsorbTop(m: Mem, m': Mem, C: Arena, msp: int, top: int, last: int, topsize: int, hi: int, lo: int)
    requires ArenaOk(C, msp, top, last) && TopOk(m, top, topsize, hi) && lo in C
    requires forall a :: a != lo + 4 ==> Rd(m', a) == Rd(m, a)
    requires Rd(m', lo + 4) == topsize + (top - lo) + 1
    ensures TopOk(m', lo, topsize + (top - lo), hi)
  {
    ChunkFacts(C, msp, top, last, lo);
    ChunkFacts(C, msp, top, last, last);
    EightPlus(last, C[last].size);
    assert top == last + C[last].size;
    hide ArenaOk;
    EightMinus(top, lo);
    FourPlus(top - lo, topsize);
  }

  lemma EightMinus(a: int, b: int)
    requires a % 8 == 0 && b % 8 == 0
    ensures (a - b) % 8 == 0
  {
    var x, y := a / 8, b / 8;
    assert a - b == 8 * (x - y);
  }

  /** A chunk in use is carved off top. */
  lemma CarveStep(m: Mem, m': Mem, smallmap: Word, treemap: Word, top: int, topsize: int, C: Arena, last: int, b: Bins,
                  msp: int, hi: int, n: int)
    requires Core(m, smallmap, treemap, top, topsize, C, last, b, msp, hi) && DomOk(m', msp, hi)
    requires n % 8 == 0 && MIN_CHUNK_SIZE <= n < topsize
    requires forall a :: a != top + 4 && a != top + n + 4 ==> Rd(m', a) == Rd(m, a)
    requires Rd(m', top + 4) == n + 3 && Rd(m', top + n + 4) == topsize - n + 1
    ensures Core(m', smallmap, treemap, top + n, topsize - n, Carve(C, top, n, last), top, b, msp, hi)
    ensures top !in C
  {
    hide *;
    CoreParts(m, smallmap, treemap, top, topsize, C, last, b, msp, hi);
    CarveBins(m, m', smallmap, treemap, b, C, msp, top, last, hi, n);
    CarveOk(C, msp, top, last, n);
    CarveTags(m, m', C, msp, top, last, n);
    CarveTop(m, m', C, msp, top, last, topsize, hi, n, b.free);
    CoreParts(m', smallmap, treemap, top + n, topsize - n, Carve(C, top, n, last), top, b, msp, hi);
  }

  lemma CarveBins(m: Mem, m': Mem, smallmap: Word, treemap: Word, b: Bins, C: Arena, msp: int, top: int, last: int,
                  hi: int, n: int)
    requires BinsOk(m, smallmap, treemap, b, msp, hi) && DomOk(m', msp, hi)
    requires ArenaOk(C, msp, top, last) && SomeFree(C, b.free) && n >= 0
    requires forall a :: a != top + 4 && a != top + n + 4 ==> Rd(m', a) == Rd(m, a)
    ensures BinsOk(m', smallmap, treemap, b, msp, hi)
  {
    hide BinsOk;
    hide ArenaOk;
    hide Owned;
    hide Rd;
    hide DomOk;
    AboveNotOwned(C, msp, top, last, b.free, top + 4);
    AboveNotOwned(C, msp, top, last, b.free, top + n + 4);
    BinsFrame(m, m', smallmap, treemap, b, msp, hi);
  }

  lemma CarveTop(m: Mem, m': Mem, C: Arena, msp: int, top: int, last: int, topsize: int, hi: int, n: int,
                 free: map<int, int>)
    requires TopOk(m, top, topsize, hi) && n % 8 == 0 && MIN_CHUNK_SIZE <= n < topsize && SomeFree(C, free) && top !in C
    requires forall a :: a != top + 4 && a != top + n + 4 ==> Rd(m', a) == Rd(m, a)
    requires Rd(m', top + n + 4) == topsize - n + 1
    ensures TopOk(m', top + n, topsize - n, hi) && SomeFree(Carve(C, top, n, last), free)
  {
  }
}
