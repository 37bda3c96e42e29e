/** Freeing a block: the chunks that coalesce and what becomes of the free ones. */
module HeapRelease {
  import opened Words
  import opened HeapWords
  import opened HeapBins
  import opened HeapSmallBins
  import opened HeapArena
  import opened HeapTags
  import opened HeapState
  import opened HeapWalk

  predicate PBit(head: Word) { head % 2 == 1 }

  predicate CBit(head: Word) { head / 2 % 2 == 1 }

  /** `head & ~PINUSE_BIT`. */
  function ClearP(head: Word): Word { head - head % 2 }

  /** `head | PINUSE_BIT`. */
  function SetP(head: Word): Word { head - head % 2 + 1 }

  lemma DivEight(k: int, f: int)
    requires 0 <= f < 8
    ensures (8 * k + f) / 8 == k
  {
  }

  lemma ModTwo(k: int, f: int)
    ensures (2 * k + f) % 2 == f % 2
  {
  }

  lemma DivTwo(k: int, f: int)
    ensures (2 * k + f) / 2 == k + f / 2
  {
  }

  lemma LowBits(k: int, f: int)
    requires 0 <= f < 8
    ensures (8 * k + f) / 8 == k
    ensures (8 * k + f) % 2 == f % 2
    ensures (8 * k + f) / 2 == 4 * k + f / 2
    ensures (4 * k + f / 2) % 2 == f / 2 % 2
  {
    DivEight(k, f);
    ModTwo(4 * k, f);
    DivTwo(4 * k, f);
    ModTwo(2 * k, f / 2);
  }

  lemma HeadBits(s: int, inuse: bool, pinuse: bool)
    requires s % 8 == 0 && 0 <= s && s + 8 <= W
    ensures var h := s + Bits(inuse, pinuse);
            && 0 <= h < W && ChunkSize(h) == s && (CBit(h) <==> inuse) && (PBit(h) <==> pinuse)
            && ClearP(h) == s + Bits(inuse, false) && SetP(h) == s + Bits(inuse, true)
  {
    var k := s / 8;
    assert s == 8 * k;
    LowBits(k, Bits(inuse, pinuse));
  }

  lemma TopBits(s: int)
    requires s % 4 == 0 && 0 <= s && s + 4 <= W
    ensures 0 <= s + 1 < W && !CBit(s + 1) && PBit(s + 1) && SetP(s + 1) == s + 1
  {
    var k := s / 8;
    var f := s - 8 * k;
    assert f == 0 || f == 4;
    LowBits(k, f + 1);
  }

  /** What the head word of a chunk says. */
  lemma HeadReads(m: Mem, C: Arena, msp: int, top: int, last: int, topsize: int, hi: int, p: int)
    requires DomOk(m, msp, hi) && ArenaOk(C, msp, top, last) && Tags(m, C) && TopOk(m, top, topsize, hi) && p in C
    ensures p in m && p + 4 in m && End(C, p) in m && End(C, p) + 4 in m
    ensures ChunkSize(m[p + 4]) == C[p].size && (CBit(m[p + 4]) <==> C[p].inuse) && (PBit(m[p + 4]) <==> PInuse(C, p))
    ensures m[p + 4] == C[p].size + Bits(C[p].inuse, PInuse(C, p))
    ensures !C[p].inuse ==> m[End(C, p)] == C[p].size
    ensures End(C, p) == p + C[p].size && 0 < p && C[p].size % 8 == 0 && 16 <= C[p].size
            && End(C, p) + TOP_FOOT_SIZE < hi <= W && p % 8 == 0 && End(C, p) % 8 == 0
  {
    hide CBit;
    hide PBit;
    hide ChunkSize;
    ChunkFacts(C, msp, top, last, p);
    assert TagOk(m, C, p);
    ChunkDom(m, msp, hi, p, 0);
    ChunkDom(m, msp, hi, p, 4);
    EightPlus(p, C[p].size);
    ChunkDom(m, msp, hi, End(C, p), 0);
    ChunkDom(m, msp, hi, End(C, p), 4);
    HeadBits(C[p].size, C[p].inuse, PInuse(C, p));
  }

  lemma ChunkDom(m: Mem, msp: int, hi: int, p: int, d: int)
    requires DomOk(m, msp, hi) && msp <= p && p + d < hi && p % 8 == 0 && (d == 0 || d == 4 || d == 8)
    ensures p + d in m
  {
    EightFour(p);
    WordIn(m, msp, hi, p, d);
  }

  /** What the head word after a chunk says, whether it is another chunk's or top's. */
  lemma NextReads(m: Mem, C: Arena, msp: int, top: int, last: int, topsize: int, hi: int, p: int)
    requires DomOk(m, msp, hi) && ArenaOk(C, msp, top, last) && Tags(m, C) && TopOk(m, top, topsize, hi) && p in C
    ensures var n := End(C, p);
            && n + 4 in m && (n == top <==> n !in C)
            && (CBit(m[n + 4]) <==> n in C && C[n].inuse) && (PBit(m[n + 4]) <==> C[p].inuse)
  {
    hide CBit;
    hide PBit;
    hide ChunkSize;
    HeadReads(m, C, msp, top, last, topsize, hi, p);
    ChunkFacts(C, msp, top, last, p);
    TopNotChunk(C, msp, top, last);
    var n := End(C, p);
    if n in C {
      HeadReads(m, C, msp, top, last, topsize, hi, n);
      ChunkFacts(C, msp, top, last, n);
    } else {
      CutLast(C, msp, top, last, p);
      TopBits(topsize);
    }
  }

  /** The foot before a chunk leads to its free predecessor. */
  lemma PrevReads(m: Mem, C: Arena, msp: int, top: int, last: int, topsize: int, hi: int, p: int)
    requires DomOk(m, msp, hi) && ArenaOk(C, msp, top, last) && Tags(m, C) && TopOk(m, top, topsize, hi) && p in C
    requires !PInuse(C, p)
    ensures p in m &&
            var q := C[p].prev;
            q in C && !C[q].inuse && End(C, q) == p && m[p] == C[q].size && q == p - m[p] && q != msp
  {
    ChunkFacts(C, msp, top, last, p);
    HeadReads(m, C, msp, top, last, topsize, hi, C[p].prev);
  }

  // ---------------------------------------------------------------- regions

  /**
    Chunk `p` in use with a free chunk before it, if `lo` is not `p`, and a free one after it, if `e` is not its end.
   */
  ghost predicate Region(C: Arena, lo: int, p: int, e: int) {
    && lo in C && p in C && C[p].inuse
    && (lo == p || (End(C, lo) == p && !C[lo].inuse))
    && (e == End(C, p) || (End(C, p) in C && !C[End(C, p)].inuse && e == End(C, End(C, p))))
  }

  /** A region grows as far as it can when what lies around it is in use. */
  ghost predicate Closed(C: Arena, lo: int, e: int)
    requires lo in C
  {
    C[lo].prev in C && C[C[lo].prev].inuse && e in C && C[e].inuse
  }

  lemma RegionChunks(C: Arena, msp: int, top: int, last: int, lo: int, p: int, e: int)
    requires ArenaOk(C, msp, top, last) && Region(C, lo, p, e) && p != msp
    ensures lo in C && p in C && lo < e && Edge(C, top, e) && lo != msp && msp < lo
    ensures lo <= p < End(C, p) <= e
    ensures forall x :: x in C && lo <= x < e ==> x == lo || x == p || (x == End(C, p) && e != End(C, p))
  {
    ChunkFacts(C, msp, top, last, lo);
    ChunkFacts(C, msp, top, last, p);
    var n := End(C, p);
    if e != n {
      ChunkFacts(C, msp, top, last, n);
    }
    forall x | x in C && lo <= x < e
      ensures x == lo || x == p || (x == n && e != n)
    {
      ChunkFacts(C, msp, top, last, x);
      assert NoOverlap(C, lo, x) && NoOverlap(C, p, x);
      if e != n {
        assert NoOverlap(C, n, x);
      }
    }
  }

  /** What fusing a region into a free chunk does to the live and the free chunks. */
  lemma RegionFused(C: Arena, msp: int, top: int, last: int, lo: int, p: int, e: int)
    requires ArenaOk(C, msp, top, last) && Region(C, lo, p, e) && p != msp && Closed(C, lo, e)
    ensures Fusable(C, msp, top, lo, e, false)
    ensures Live(Fuse(C, lo, e, false), msp) == Live(C, msp) - {p}
    ensures forall out :: FreeMap(Fuse(C, lo, e, false), out + {lo}) == FreeMap(C, out + {lo, End(C, p)})
  {
    hide ArenaOk;
    RegionChunks(C, msp, top, last, lo, p, e);
    var C' := Fuse(C, lo, e, false);
    forall x
      ensures x in Live(C', msp) <==> x in Live(C, msp) && x != p
      ensures x in C' && x != lo && !C'[x].inuse <==> x in C && x != lo && x != End(C, p) && !C[x].inuse
    {
      if x in C && lo <= x < e {
        assert x == lo || x == p || x == End(C, p);
      }
    }
  }

  /** What giving a region to top does. */
  lemma RegionAbsorbed(C: Arena, msp: int, top: int, last: int, lo: int, p: int)
    requires ArenaOk(C, msp, top, last) && Region(C, lo, p, top) && End(C, p) == top && p != msp
    ensures Live(Absorb(C, lo), msp) == Live(C, msp) - {p}
    ensures forall out :: FreeMap(Absorb(C, lo), out) == FreeMap(C, out + {lo})
  {
    RegionChunks(C, msp, top, last, lo, p, top);
    var C' := Absorb(C, lo);
    forall x
      ensures x in Live(C', msp) <==> x in Live(C, msp) && x != p
      ensures x in C' && !C'[x].inuse <==> x in C && x != lo && !C[x].inuse
    {
      if x in C && lo <= x {
        ChunkFacts(C, msp, top, last, x);
        assert x == lo || x == p;
      }
    }
  }

  /** A region holds no binned chunk once its free chunks are out of the bins. */
  lemma RegionClear(C: Arena, msp: int, top: int, last: int, lo: int, p: int, e: int, free: map<int, int>)
    requires ArenaOk(C, msp, top, last) && Region(C, lo, p, e) && p != msp && SomeFree(C, free)
    requires lo !in free && (e != End(C, p) ==> End(C, p) !in free)
    ensures Clear(free, lo, e)
  {
    RegionChunks(C, msp, top, last, lo, p, e);
  }

  /** A free chunk that is not binned may be. */
  lemma CanInsert(C: Arena, msp: int, top: int, last: int, hi: int, b: Bins, p: int)
    requires ArenaOk(C, msp, top, last) && SomeFree(C, b.free) && p in C && !C[p].inuse && p !in b.free && top <= hi
    ensures Insertable(b, msp, hi, p, C[p].size)
  {
    ChunkFacts(C, msp, top, last, p);
    assert p != msp && NoOverlap(C, msp, p);
    forall q | q in b.free && q != p
      ensures q + b.free[q] <= p || p + C[p].size <= q
    {
      assert NoOverlap(C, p, q) && NoOverlap(C, q, p);
    }
  }

  /** Head words give the sizes of the binned chunks. */
  lemma CoreSized(m: Mem, C: Arena, msp: int, top: int, last: int, topsize: int, hi: int, free: map<int, int>)
    requires DomOk(m, msp, hi) && ArenaOk(C, msp, top, last) && Tags(m, C) && TopOk(m, top, topsize, hi)
             && SomeFree(C, free)
    ensures Sized(m, free)
  {
    hide ChunkSize;
    forall q | q in free
      ensures ChunkSize(Rd(m, q + 4)) == free[q]
    {
      HeadReads(m, C, msp, top, last, topsize, hi, q);
      RdAt(m, q + 4);
    }
  }

  lemma SomeFreeMinus(C: Arena, free: map<int, int>, p: int)
    requires SomeFree(C, free)
    ensures SomeFree(C, free - {p})
  {
  }

  lemma SomeFreePlus(C: Arena, free: map<int, int>, p: int)
    requires SomeFree(C, free) && p in C && !C[p].inuse
    ensures SomeFree(C, free[p := C[p].size])
  {
  }

  lemma IsSmall(s: Word)
    ensures s / 8 < 32 <==> s < MIN_LARGE_SIZE
  {
  }

  lemma TopBound(m: Mem, top: int, topsize: int, hi: int)
    requires TopOk(m, top, topsize, hi)
    ensures 0 < topsize && topsize % 4 == 0 && top + topsize + TOP_FOOT_SIZE == hi && top <= hi
    ensures Rd(m, top + 4) == topsize + 1
  {
  }

  // ---------------------------------------------------------------- writes

  /** `set_free_with_pinuse`, or without `clear` `set_size_and_pinuse_of_free_chunk`, for the chunk [lo, e). */
  function FreeMem(m: Mem, lo: int, e: int, clear: bool): Mem
    requires 0 <= e - lo && e - lo + 1 < W && (clear ==> e + 4 in m)
  {
    (if clear then m[e + 4 := ClearP(m[e + 4])] else m)[lo + 4 := e - lo + 1][e := e - lo]
  }

  lemma FreeMemWords(m: Mem, lo: int, e: int, clear: bool)
    requires 16 <= e - lo && e - lo + 1 < W && e + 4 in m
    ensures var m' := FreeMem(m, lo, e, clear);
            && Local(m, m', lo, e) && Rd(m', lo + 4) == e - lo + 1 && Rd(m', e) == e - lo
            && Rd(m', e + 4) == if clear then ClearP(m[e + 4]) else m[e + 4]
  {
  }

  lemma FreeMemDom(m: Mem, msp: int, hi: int, lo: int, e: int, clear: bool)
    requires DomOk(m, msp, hi) && 0 <= e - lo && e - lo + 1 < W && e + 4 in m && lo + 4 in m && e in m
    ensures DomOk(FreeMem(m, lo, e, clear), msp, hi)
  {
    var m' := FreeMem(m, lo, e, clear);
    assert forall q :: q in m' <==> q in m;
  }

  /** The head after the region, once its predecessor is free. */
  lemma RegionNext(m: Mem, C: Arena, msp: int, top: int, last: int, topsize: int, hi: int, lo: int, p: int, e: int,
                   clear: bool)
    requires DomOk(m, msp, hi) && ArenaOk(C, msp, top, last) && Tags(m, C) && TopOk(m, top, topsize, hi)
    requires Region(C, lo, p, e) && p != msp && Closed(C, lo, e) && (clear <==> e == End(C, p))
    ensures e + 4 in m && lo + 4 in m && e in m && 16 <= e - lo && e - lo + 1 < W
    ensures (if clear then ClearP(m[e + 4]) else m[e + 4]) == C[e].size + Bits(C[e].inuse, false)
    ensures PInuse(C, lo)
  {
    hide ChunkSize;
    hide CBit;
    hide PBit;
    hide ClearP;
    RegionChunks(C, msp, top, last, lo, p, e);
    HeadReads(m, C, msp, top, last, topsize, hi, lo);
    HeadReads(m, C, msp, top, last, topsize, hi, e);
    HeadReads(m, C, msp, top, last, topsize, hi, p);
    ChunkFacts(C, msp, top, last, e);
    ChunkFacts(C, msp, top, last, p);
    HeadBits(C[e].size, C[e].inuse, PInuse(C, e));
    if !clear {
      ChunkFacts(C, msp, top, last, End(C, p));
    }
  }

  lemma FreeStep(m: Mem, smallmap: Word, treemap: Word, top: int, topsize: int, C: Arena, last: int, b: Bins,
                 msp: int, hi: int, lo: int, p: int, e: int, clear: bool)
    requires Core(m, smallmap, treemap, top, topsize, C, last, b, msp, hi)
    requires Region(C, lo, p, e) && p != msp && Closed(C, lo, e) && (clear <==> e == End(C, p)) && Clear(b.free, lo, e)
    ensures lo in C && e + 4 in m && 16 <= e - lo && e - lo + 1 < W
    ensures var m' := FreeMem(m, lo, e, clear);
            && Core(m', smallmap, treemap, top, topsize, Fuse(C, lo, e, false), last, b, msp, hi)
            && AllKept(m, m', Live(Fuse(C, lo, e, false), msp))
  {
    hide *;
    CoreParts(m, smallmap, treemap, top, topsize, C, last, b, msp, hi);
    RegionNext(m, C, msp, top, last, topsize, hi, lo, p, e, clear);
    RegionChunks(C, msp, top, last, lo, p, e);
    RegionFused(C, msp, top, last, lo, p, e);
    FusableFacts(C, msp, top, last, lo, e, false);
    FreeMemWords(m, lo, e, clear);
    FreeMemDom(m, msp, hi, lo, e, clear);
    BitsAre();
    var m' := FreeMem(m, lo, e, clear);
    FuseStep(m, m', smallmap, treemap, top, topsize, C, last, b, msp, hi, lo, e, false);
    FusedLive(C, msp, lo, e, p);
    LocalKept(m, m', C, msp, top, last, lo, e, Live(Fuse(C, lo, e, false), msp));
  }

  lemma BitsAre()
    ensures Bits(false, true) == 1 && Bits(true, true) == 3 && Bits(true, false) == 2 && Bits(false, false) == 0
  {
  }

  /** The blocks left after a region was fused lie outside it. */
  lemma FusedLive(C: Arena, msp: int, lo: int, e: int, p: int)
    requires lo in C && lo < e
    ensures var live := Live(Fuse(C, lo, e, false), msp);
            forall q :: q in live ==> q in C && live[q] == C[q].size && (q < lo || e <= q)
  {
  }

  lemma AbsorbedStep(m: Mem, smallmap: Word, treemap: Word, top: int, topsize: int, C: Arena, last: int, b: Bins,
                     msp: int, hi: int, lo: int, p: int, size: int)
    requires Core(m, smallmap, treemap, top, topsize, C, last, b, msp, hi)
    requires Region(C, lo, p, top) && End(C, p) == top && p != msp && C[lo].prev in C && C[C[lo].prev].inuse
    requires lo !in b.free && size == top - lo
    ensures 0 < topsize + size && topsize + size + 1 < W && lo + 4 in m
    ensures var m' := m[lo + 4 := topsize + size + 1];
            && Core(m', smallmap, treemap, lo, topsize + size, Absorb(C, lo), C[lo].prev, b, msp, hi)
            && AllKept(m, m', Live(Absorb(C, lo), msp))
  {
    hide *;
    CoreParts(m, smallmap, treemap, top, topsize, C, last, b, msp, hi);
    RegionChunks(C, msp, top, last, lo, p, top);
    RegionClear(C, msp, top, last, lo, p, top, b.free);
    TopBound(m, top, topsize, hi);
    HeadReads(m, C, msp, top, last, topsize, hi, lo);
    DomFacts2(m, msp, hi);
    var m' := m[lo + 4 := topsize + size + 1];
    DomStore(m, msp, hi, lo + 4, topsize + size + 1);
    OneStore(m, lo + 4, topsize + size + 1);
    AbsorbStep(m, m', smallmap, treemap, top, topsize, C, last, b, msp, hi, lo);
    OneWordLocal(m, m', lo, top, lo + 4);
    AbsorbedLive(C, msp, lo);
    TopEdge(C, top);
    AbsorbedOutside(C, msp, top, last, lo);
    LocalKept(m, m', C, msp, top, last, lo, top, Live(Absorb(C, lo), msp));
  }

  lemma DomFacts2(m: Mem, msp: int, hi: int)
    requires DomOk(m, msp, hi)
    ensures hi <= W && 0 < msp && TOP_FOOT_SIZE == 40
  {
  }

  lemma OneStore(m: Mem, a: int, v: Word)
    ensures forall q :: q != a ==> Rd(m[a := v], q) == Rd(m, q)
    ensures Rd(m[a := v], a) == v
  {
  }

  lemma AbsorbedLive(C: Arena, msp: int, lo: int)
    ensures var live := Live(Absorb(C, lo), msp); forall q :: q in live ==> q in C && live[q] == C[q].size && q < lo
  {
  }

  lemma AbsorbedOutside(C: Arena, msp: int, top: int, last: int, lo: int)
    requires ArenaOk(C, msp, top, last) && lo in C
    ensures lo < top
  {
    ChunkFacts(C, msp, top, last, lo);
  }

  // ---------------------------------------------------------------- the victim and the binned chunks

  lemma FreeMapIs(C: Arena, out: set<int>, x: int)
    ensures x in FreeMap(C, out) <==> x in C && !C[x].inuse && x !in out
    ensures x in FreeMap(C, out) ==> FreeMap(C, out)[x] == C[x].size
  {
  }

  lemma FreeMapMinus(C: Arena, out: set<int>, x: int)
    ensures FreeMap(C, out) - {x} == FreeMap(C, out + {x})
  {
  }

  lemma FreeMapPlus(C: Arena, out: set<int>, x: int)
    requires x in C && !C[x].inuse && x !in out
    ensures FreeMap(C, out + {x})[x := C[x].size] == FreeMap(C, out)
  {
  }

  /** Leaving out what is not free changes nothing. */
  lemma FreeMapSkip(C: Arena, out: set<int>, x: int)
    requires x in C ==> C[x].inuse
    ensures FreeMap(C, out + {x}) == FreeMap(C, out)
  {
  }

  lemma NoChunkZero(C: Arena, msp: int, top: int, last: int)
    requires ArenaOk(C, msp, top, last)
    ensures 0 !in C
  {
    if 0 in C {
      ChunkFacts(C, msp, top, last, 0);
    }
  }

  lemma DvFacts(C: Arena, dv: int, dvsize: int)
    requires DvOk(C, dv, dvsize) && 0 !in C
    ensures dv in C <==> dvsize != 0
    ensures dv in C ==> !C[dv].inuse && C[dv].size == dvsize
    ensures dv !in C ==> dv == 0
  {
  }

  /** The victim `dv` is the chunk that the victim `was` has become a part of; there is none if that went into top. */
  ghost predicate VictimKept(C: Arena, top: int, was: int, dv: int) {
    if was == 0 || was >= top then dv == 0 else dv in C && dv <= was < End(C, dv)
  }

  lemma VictimSame(C: Arena, msp: int, top: int, last: int, dv: int, dvsize: int)
    requires ArenaOk(C, msp, top, last) && DvOk(C, dv, dvsize)
    ensures VictimKept(C, top, dv, dv)
  {
    NoChunkZero(C, msp, top, last);
    DvFacts(C, dv, dvsize);
    if dv in C {
      ChunkFacts(C, msp, top, last, dv);
    }
  }

  /** A chunk in front of the victim has become one with it. */
  lemma VictimGrew(C: Arena, msp: int, top: int, last: int, was: int, dv: int)
    requires ArenaOk(C, msp, top, last) && dv in C && 0 < dv < was < dv + C[dv].size
    ensures VictimKept(C, top, was, dv)
  {
    ChunkFacts(C, msp, top, last, dv);
  }

  lemma VictimGone(C: Arena, top: int, was: int)
    requires was >= top
    ensures VictimKept(C, top, was, 0)
  {
  }

  lemma FusedDv(C: Arena, msp: int, top: int, last: int, lo: int, p: int, e: int, dv: int, dvsize: int)
    requires ArenaOk(C, msp, top, last) && Region(C, lo, p, e) && p != msp && Closed(C, lo, e) && DvOk(C, dv, dvsize)
    ensures var C' := Fuse(C, lo, e, false);
            && lo in C' && !C'[lo].inuse && C'[lo].size == e - lo && DvOk(C', lo, e - lo)
            && (dv != lo && dv != End(C, p) ==> DvOk(C', dv, dvsize))
  {
    RegionChunks(C, msp, top, last, lo, p, e);
  }

  lemma AbsorbedDv(C: Arena, msp: int, top: int, last: int, lo: int, p: int, dv: int, dvsize: int)
    requires ArenaOk(C, msp, top, last) && Region(C, lo, p, top) && End(C, p) == top && p != msp && DvOk(C, dv, dvsize)
    ensures dv != lo ==> DvOk(Absorb(C, lo), dv, dvsize)
    ensures DvOk(Absorb(C, lo), 0, 0)
  {
    RegionChunks(C, msp, top, last, lo, p, top);
    if dvsize != 0 {
      ChunkFacts(C, msp, top, last, dv);
    }
  }

  /** A region that ends at its chunk grows by the free chunk after it. */
  lemma RegionGrows(C: Arena, msp: int, top: int, last: int, lo: int, p: int)
    requires ArenaOk(C, msp, top, last) && p in C && Region(C, lo, p, End(C, p)) && End(C, p) in C
             && !C[End(C, p)].inuse
    requires C[lo].prev in C && C[C[lo].prev].inuse
    ensures End(C, End(C, p)) == End(C, p) + C[End(C, p)].size && Region(C, lo, p, End(C, End(C, p)))
            && Closed(C, lo, End(C, End(C, p))) && End(C, End(C, p)) > End(C, p)
  {
    ChunkFacts(C, msp, top, last, End(C, p));
  }

  lemma RegionShut(C: Arena, lo: int, p: int)
    requires p in C && Region(C, lo, p, End(C, p)) && End(C, p) in C && C[End(C, p)].inuse
    requires C[lo].prev in C && C[C[lo].prev].inuse
    ensures Closed(C, lo, End(C, p))
  {
  }

  lemma RegionBasics(C: Arena, lo: int, p: int)
    requires p in C && Region(C, lo, p, End(C, p))
    ensures lo in C && p in C && C[p].inuse && (lo == p || !C[lo].inuse)
  {
  }

  /** Filing a fused region: what the bins held before and what they hold after. */
  lemma FusedFiled(C: Arena, msp: int, top: int, last: int, lo: int, p: int, e: int, dv: int)
    requires ArenaOk(C, msp, top, last) && p in C && Region(C, lo, p, e) && p != msp && Closed(C, lo, e) && dv != lo
    ensures var C' := Fuse(C, lo, e, false);
            && FreeMap(C, {dv} + {lo, End(C, p)})[lo := e - lo] == FreeMap(C', {dv})
            && lo !in FreeMap(C, {dv} + {lo, End(C, p)})
  {
    hide *;
    RegionChunks(C, msp, top, last, lo, p, e);
    RegionFused(C, msp, top, last, lo, p, e);
    NoDv(C);
    FusedDv(C, msp, top, last, lo, p, e, 0, 0);
    var C' := Fuse(C, lo, e, false);
    FreeMapPlus(C', {dv}, lo);
    FreeMapIs(C, {dv} + {lo, End(C, p)}, lo);
  }

  lemma NoDv(C: Arena)
    ensures DvOk(C, 0, 0)
  {
  }

  lemma RegionAlone(C: Arena, msp: int, top: int, last: int, p: int)
    requires ArenaOk(C, msp, top, last) && p in C && p != msp && C[p].inuse && PInuse(C, p)
    ensures Region(C, p, p, End(C, p)) && C[p].prev in C && C[C[p].prev].inuse
  {
    ChunkFacts(C, msp, top, last, p);
  }

  lemma RegionWithPrev(C: Arena, msp: int, top: int, last: int, p: int)
    requires ArenaOk(C, msp, top, last) && p in C && p != msp && C[p].inuse && !PInuse(C, p)
    ensures var q := C[p].prev; q in C && Region(C, q, p, End(C, p)) && C[q].prev in C && C[C[q].prev].inuse
  {
    ChunkFacts(C, msp, top, last, p);
    ChunkFacts(C, msp, top, last, C[p].prev);
  }

  lemma PrevIs(C: Arena, msp: int, top: int, last: int, q: int)
    requires ArenaOk(C, msp, top, last) && q in C && End(C, q) in C
    ensures C[End(C, q)].prev == q && (PInuse(C, End(C, q)) <==> C[q].inuse)
  {
    ChunkFacts(C, msp, top, last, q);
  }

  lemma LiveIs(C: Arena, msp: int, p: int)
    ensures p in Live(C, msp) <==> p in C && C[p].inuse && p != msp
    ensures p in Live(C, msp) ==> Live(C, msp)[p] == C[p].size
  {
  }

  lemma KeptSame(m: Mem, live: map<int, int>)
    ensures AllKept(m, m, live)
  {
  }
}
