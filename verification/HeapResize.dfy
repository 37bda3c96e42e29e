/** Resizing a block in place: splitting blocks, growing them over free neighbours, and writing to them. */
module HeapResize {
  import opened Words
  import opened HeapWords
  import opened HeapBins
  import opened HeapArena
  import opened HeapTags
  import opened HeapState
  import opened HeapWalk
  import opened HeapRelease
  import opened HeapAlloc

  /** `set_inuse`. */
  function InuseMem(m: Mem, p: int, s: int): Mem
    requires 16 <= s && s + 3 < W && p + 4 in m && p + s + 4 in m
  {
    m[p + 4 := s + 2 + m[p + 4] % 2][p + s + 4 := SetP(m[p + s + 4])]
  }

  /** `set_inuse` for the first `n` bytes and then for the rest of the chunk of size `s`. */
  function SplitInuseMem(m: Mem, p: int, n: int, s: int): Mem
    requires 16 <= n && n + 3 < W && p + 4 in m && p + n + 4 in m
    requires 16 <= s - n && s - n + 3 < W && p + s + 4 in m
  {
    InuseMem(InuseMem(m, p, n), p + n, s - n)
  }

  /** The heads of a chunk, of what a split leaves, and of the next chunk are all that changes. */
  ghost predicate HeadsOnly(m: Mem, m': Mem, p: int, n: int, e: int) {
    forall a :: a != p + 4 && a != p + n + 4 && a != e + 4 ==> Rd(m', a) == Rd(m, a)
  }

  lemma InuseMemWords(m: Mem, p: int, s: int, msp: int, hi: int)
    requires DomOk(m, msp, hi) && 16 <= s && s + 3 < W && p + 4 in m && p + s + 4 in m
    ensures var m' := InuseMem(m, p, s);
            && DomOk(m', msp, hi) && Rd(m', p + 4) == s + 2 + m[p + 4] % 2 && Rd(m', p + s + 4) == SetP(m[p + s + 4])
            && HeadsOnly(m, m', p, s, p + s)
  {
    var m' := InuseMem(m, p, s);
    assert forall a :: a in m' <==> a in m;
  }

  lemma SetPOdd(w: Word)
    ensures SetP(w) % 2 == 1 && SetP(SetP(w)) == SetP(w)
  {
  }

  lemma SplitInuseWords(m: Mem, p: int, n: int, s: int, msp: int, hi: int)
    requires DomOk(m, msp, hi) && 16 <= n && n + 3 < W && p + 4 in m && p + n + 4 in m
    requires 16 <= s - n && s - n + 3 < W && p + s + 4 in m
    ensures var m' := SplitInuseMem(m, p, n, s);
            && DomOk(m', msp, hi) && Rd(m', p + 4) == n + 2 + m[p + 4] % 2 && Rd(m', p + n + 4) == s - n + 3
            && Rd(m', p + s + 4) == SetP(m[p + s + 4]) && HeadsOnly(m, m', p, n, p + s)
  {
    hide SetP;
    var m1 := InuseMem(m, p, n);
    InuseMemWords(m, p, n, msp, hi);
    SetPOdd(m[p + n + 4]);
    InuseMemWords(m1, p + n, s - n, msp, hi);
  }

  lemma HeadsLocal(m: Mem, m': Mem, p: int, n: int, e: int)
    requires HeadsOnly(m, m', p, n, e) && 0 <= n <= e - p
    ensures Local(m, m', p, e)
  {
  }

  /** Blocks outside the chunks of [p, e) keep their payload, and so does the block `p` up to size `k`. */
  lemma HeadsKept(m: Mem, m': Mem, C: Arena, msp: int, top: int, last: int, p: int, k: int, n: int, e: int,
                  live: map<int, int>)
    requires ArenaOk(C, msp, top, last) && p in C && Edge(C, top, e) && 0 <= k <= n <= e - p
             && HeadsOnly(m, m', p, n, e)
    requires forall q :: q in live ==>
               if q == p then live[q] == k else q in C && live[q] == C[q].size && (q < p || e <= q)
    ensures AllKept(m, m', live)
  {
    hide Rd;
    forall q | q in live
      ensures Kept(m, m', q, live[q])
    {
      if q != p {
        ChunkFacts(C, msp, top, last, q);
        if q < p {
          EdgeApart(C, msp, top, last, p, q);
        }
      }
    }
  }

  // ---------------------------------------------------------------- splitting a block

  /** A block becomes two. */
  ghost function Parted(C: Arena, p: int, n: int): Arena
    requires p in C
  {
    Cut(C, p, n, true, true)
  }

  lemma PartedIs(C: Arena, msp: int, top: int, last: int, p: int, n: int)
    requires ArenaOk(C, msp, top, last) && p in C && p != msp && C[p].inuse && n % 8 == 0 && 16 <= n
             && 16 <= C[p].size - n
    ensures Cuttable(C, msp, p, n, true, true)
    ensures var C' := Parted(C, p, n);
            && p + n in C' && C'[p + n].inuse && C'[p + n].size == C[p].size - n && p + n !in C && p + n != msp
            && p in C' && C'[p].inuse && C'[p].size == n
            && Live(C', msp) == Live(C, msp)[p := n][p + n := C[p].size - n]
            && (forall out :: FreeMap(C', out) == FreeMap(C, out))
            && (forall dv, dvsize :: DvOk(C, dv, dvsize) ==> DvOk(C', dv, dvsize))
  {
    ChunkFacts(C, msp, top, last, p);
    CutFresh(C, msp, top, last, p, n);
    assert MIN_CHUNK_SIZE == 16;
    PartedLive(C, msp, p, n);
    hide ArenaOk;
    hide Live;
    var C' := Parted(C, p, n);
    forall out
      ensures FreeMap(C', out) == FreeMap(C, out)
    {
    }
  }

  lemma PartedLive(C: Arena, msp: int, p: int, n: int)
    requires p in C && p != msp && C[p].inuse && p + n !in C && p + n != msp && 0 < n < C[p].size
    ensures Live(Parted(C, p, n), msp) == Live(C, msp)[p := n][p + n := C[p].size - n]
  {
  }

  lemma PartedCut(C: Arena, p: int, n: int)
    requires p in C
    ensures Parted(C, p, n) == Cut(C, p, n, true, true)
  {
  }

  /** The head after a block is the same with its P bit set again. */
  lemma NextHead(m: Mem, C: Arena, msp: int, top: int, last: int, topsize: int, hi: int, p: int)
    requires DomOk(m, msp, hi) && ArenaOk(C, msp, top, last) && Tags(m, C) && TopOk(m, top, topsize, hi) && p in C
             && C[p].inuse
    ensures var e := End(C, p);
            && e + 4 in m && SetP(m[e + 4]) == m[e + 4] && (e in C ==> m[e + 4] == C[e].size + Bits(C[e].inuse, true))
            && Edge(C, top, e) && e == p + C[p].size
  {
    hide CBit;
    hide PBit;
    hide ChunkSize;
    hide SetP;
    NextReads(m, C, msp, top, last, topsize, hi, p);
    ChunkFacts(C, msp, top, last, p);
    var e := End(C, p);
    if e in C {
      HeadReads(m, C, msp, top, last, topsize, hi, e);
      HeadBits(C[e].size, C[e].inuse, true);
    } else {
      TopBits(topsize);
    }
  }

  lemma BlockHead(m: Mem, C: Arena, msp: int, top: int, last: int, topsize: int, hi: int, p: int)
    requires DomOk(m, msp, hi) && ArenaOk(C, msp, top, last) && Tags(m, C) && TopOk(m, top, topsize, hi) && p in C
             && C[p].inuse
    ensures p + 4 in m && p in m && m[p + 4] % 2 == Bits(false, PInuse(C, p)) && p % 8 == 0 && 0 <= p < W
    ensures C[p].size % 8 == 0 && 16 <= C[p].size && C[p].size + 8 <= W && End(C, p) in m
            && ChunkSize(m[p + 4]) == C[p].size
  {
    HeadReads(m, C, msp, top, last, topsize, hi, p);
  }

  /**
    Splits the block `p`.  The writes start from `x`, which may still lack the size of the block and the P bit of
    the next head.
   */
  lemma PartStep(m: Mem, x: Mem, smallmap: Word, treemap: Word, top: int, topsize: int, C: Arena, last: int, b: Bins,
                 msp: int, hi: int, p: int, n: int)
    requires Core(m, smallmap, treemap, top, topsize, C, last, b, msp, hi) && DomOk(x, msp, hi)
    requires p in C && p != msp && C[p].inuse && n % 8 == 0 && 16 <= n && 16 <= C[p].size - n
    requires HeadsOnly(m, x, p, C[p].size, End(C, p))
    requires Rd(x, p + 4) % 2 == Rd(m, p + 4) % 2 && SetP(Rd(x, End(C, p) + 4)) == Rd(m, End(C, p) + 4)
    ensures n + 3 < W && p + 4 in x && p + n + 4 in x && C[p].size - n + 3 < W && p + C[p].size + 4 in x
            && 0 <= p + n < W
    ensures var x' := SplitInuseMem(x, p, n, C[p].size);
            && Core(x', smallmap, treemap, top, topsize, Parted(C, p, n), if End(C, p) == top then p + n
               else last, b, msp, hi)
            && HeadsOnly(x, x', p, n, End(C, p))
  {
    hide *;
    CoreParts(m, smallmap, treemap, top, topsize, C, last, b, msp, hi);
    BlockHead(m, C, msp, top, last, topsize, hi, p);
    NextHead(m, C, msp, top, last, topsize, hi, p);
    PartedIs(C, msp, top, last, p, n);
    PartedCut(C, p, n);
    SplitDom(m, msp, hi, p, n, C[p].size);
    DomSame(m, x, msp, hi);
    SplitInuseWords(x, p, n, C[p].size, msp, hi);
    var x' := SplitInuseMem(x, p, n, C[p].size);
    HeadsTrans(m, x, x', p, n, C[p].size);
    HeadsLocal(m, x', p, n, End(C, p));
    RdAt(m, p + 4);
    RdAt(x, p + 4);
    RdAt(m, End(C, p) + 4);
    RdAt(x, End(C, p) + 4);
    BitsAre();
    BlockClear(C, b.free, p);
    HeadWordBound(m, C, msp, top, last, topsize, hi, p, n);
    CutStep(m, x', smallmap, treemap, top, topsize, C, last, b, msp, hi, p, n, true, true);
  }

  lemma BlockClear(C: Arena, free: map<int, int>, p: int)
    requires SomeFree(C, free) && p in C && C[p].inuse
    ensures p !in free
  {
  }

  lemma HeadWordBound(m: Mem, C: Arena, msp: int, top: int, last: int, topsize: int, hi: int, p: int, n: int)
    requires DomOk(m, msp, hi) && ArenaOk(C, msp, top, last) && Tags(m, C) && TopOk(m, top, topsize, hi) && p in C
             && C[p].inuse
    ensures PInuse(C, p) ==> Bits(false, PInuse(C, p)) + 2 == Bits(true, PInuse(C, p))
    ensures !PInuse(C, p) ==> Bits(false, PInuse(C, p)) + 2 == Bits(true, PInuse(C, p))
    ensures 0 <= p && p + n < p + C[p].size ==> p + n < W
  {
    HeadReads(m, C, msp, top, last, topsize, hi, p);
  }

  lemma DomSame(m: Mem, x: Mem, msp: int, hi: int)
    requires DomOk(m, msp, hi) && DomOk(x, msp, hi)
    ensures forall a :: a in x <==> a in m
  {
  }

  lemma HeadsTrans(m: Mem, x: Mem, x': Mem, p: int, n: int, s: int)
    requires HeadsOnly(m, x, p, s, p + s) && HeadsOnly(x, x', p, n, p + s)
    ensures HeadsOnly(m, x', p, n, p + s)
  {
  }

  // ---------------------------------------------------------------- growing over the next free chunk

  /** The block `p` takes in the free chunk after it. */
  ghost function Joined(C: Arena, p: int): Arena
    requires p in C && End(C, p) in C
  {
    Fuse(C, p, End(C, End(C, p)), true)
  }

  lemma JoinedIs(C: Arena, msp: int, top: int, last: int, p: int)
    requires ArenaOk(C, msp, top, last) && p in C && p != msp && C[p].inuse && End(C, p) in C && !C[End(C, p)].inuse
    ensures var n, e := End(C, p), End(C, End(C, p));
            && Fusable(C, msp, top, p, e, true) && e in C && C[e].inuse && e != top && e == p + C[p].size + C[n].size
               && p < n < e
            && var C' := Joined(C, p);
            && p in C' && C'[p].inuse && C'[p].size == C[p].size + C[n].size && End(C', p) == e
            && Live(C', msp) == Live(C, msp)[p := C[p].size + C[n].size]
            && (forall out :: FreeMap(C', out) == FreeMap(C, out + {n}))
            && (forall dv, dvsize :: DvOk(C, dv, dvsize) && dv != n ==> DvOk(C', dv, dvsize))
  {
    var n, e := End(C, p), End(C, End(C, p));
    ChunkFacts(C, msp, top, last, p);
    ChunkFacts(C, msp, top, last, n);
    TopNotChunk(C, msp, top, last);
    var C' := Joined(C, p);
    forall x
      ensures x in C' <==> x in C && x != n
      ensures x in C' && x != p ==> C'[x].size == C[x].size && C'[x].inuse == C[x].inuse
    {
      if x in C {
        assert NoOverlap(C, p, x) && NoOverlap(C, n, x);
      }
    }
    assert Live(C', msp) == Live(C, msp)[p := C[p].size + C[n].size];
    forall out
      ensures FreeMap(C', out) == FreeMap(C, out + {n})
    {
    }
  }

  lemma JoinedFuse(C: Arena, p: int)
    requires p in C && End(C, p) in C
    ensures Joined(C, p) == Fuse(C, p, End(C, End(C, p)), true)
  {
  }

  /** Grows the block `p` over the free chunk after it, which is in no bin. */
  lemma JoinStep(m: Mem, smallmap: Word, treemap: Word, top: int, topsize: int, C: Arena, last: int, b: Bins,
                 msp: int, hi: int, p: int)
    requires Core(m, smallmap, treemap, top, topsize, C, last, b, msp, hi)
    requires p in C && p != msp && C[p].inuse && End(C, p) in C && !C[End(C, p)].inuse && End(C, p) !in b.free
    ensures var s, e := C[p].size + C[End(C, p)].size, End(C, End(C, p));
            && e == p + s && 16 <= s && s + 3 < W && p + 4 in m && p + s + 4 in m
               && SetP(m[e + 4]) == Rd(InuseMem(m, p, s), e + 4)
            && Rd(InuseMem(m, p, s), p + 4) % 2 == m[p + 4] % 2
            && Core(InuseMem(m, p, s), smallmap, treemap, top, topsize, Joined(C, p), last, b, msp, hi)
            && HeadsOnly(m, InuseMem(m, p, s), p, s, e)
  {
    hide *;
    CoreParts(m, smallmap, treemap, top, topsize, C, last, b, msp, hi);
    var n, e := End(C, p), End(C, End(C, p));
    BlockHead(m, C, msp, top, last, topsize, hi, p);
    FreeNext(m, C, msp, top, last, topsize, hi, n);
    NextHead(m, C, msp, top, last, topsize, hi, p);
    JoinedIs(C, msp, top, last, p);
    JoinedFuse(C, p);
    SizeBound(m, C, msp, top, last, topsize, hi, p);
    var s := C[p].size + C[n].size;
    InuseMemWords(m, p, s, msp, hi);
    var m' := InuseMem(m, p, s);
    HeadsLocal(m, m', p, s, e);
    BitsAre();
    HeadWordBound(m, C, msp, top, last, topsize, hi, p, 0);
    BlockClear(C, b.free, p);
    PairClear(C, msp, top, last, p, b.free);
    ParityOf(s, m[p + 4]);
    FuseStep(m, m', smallmap, treemap, top, topsize, C, last, b, msp, hi, p, e, true);
  }

  lemma ParityOf(s: int, w: Word)
    requires s % 8 == 0
    ensures (s + 2 + w % 2) % 2 == w % 2
  {
    var k := s / 8;
    assert s == 8 * k;
    ModTwo(4 * k + 1, w % 2);
  }

  lemma SizeBound(m: Mem, C: Arena, msp: int, top: int, last: int, topsize: int, hi: int, p: int)
    requires DomOk(m, msp, hi) && ArenaOk(C, msp, top, last) && TopOk(m, top, topsize, hi) && p in C && End(C, p) in C
    ensures var s := C[p].size + C[End(C, p)].size; 16 <= s && s + 8 <= W && s % 8 == 0
  {
    ChunkFacts(C, msp, top, last, p);
    ChunkFacts(C, msp, top, last, End(C, p));
    EightPlus(C[p].size, C[End(C, p)].size);
  }

  lemma PairClear(C: Arena, msp: int, top: int, last: int, p: int, free: map<int, int>)
    requires ArenaOk(C, msp, top, last) && p in C && End(C, p) in C && SomeFree(C, free) && p !in free
             && End(C, p) !in free
    ensures Clear(free, p, End(C, End(C, p)))
  {
    forall x | x in free
      ensures x < p || End(C, End(C, p)) <= x
    {
      assert NoOverlap(C, p, x) && NoOverlap(C, End(C, p), x);
    }
  }

  // ---------------------------------------------------------------- growing into the designated victim

  /** The back of a block becomes free. */
  ghost function Trimmed(C: Arena, p: int, n: int): Arena
    requires p in C
  {
    Cut(C, p, n, true, false)
  }

  lemma TrimmedIs(C: Arena, msp: int, top: int, last: int, p: int, n: int)
    requires ArenaOk(C, msp, top, last) && p in C && p != msp && C[p].inuse && n % 8 == 0 && 16 <= n
             && 16 <= C[p].size - n
    requires End(C, p) in C && C[End(C, p)].inuse
    ensures Cuttable(C, msp, p, n, true, false)
    ensures var C' := Trimmed(C, p, n);
            && Live(C', msp) == Live(C, msp)[p := n]
            && (forall out :: FreeMap(C', out + {p + n}) == FreeMap(C, out))
            && DvOk(C', p + n, C[p].size - n)
  {
    ChunkFacts(C, msp, top, last, p);
    CutFresh(C, msp, top, last, p, n);
    assert MIN_CHUNK_SIZE == 16;
    var C' := Trimmed(C, p, n);
    assert p + n != msp;
    assert Live(C', msp) == Live(C, msp)[p := n];
    forall out
      ensures FreeMap(C', out + {p + n}) == FreeMap(C, out)
    {
    }
  }

  lemma TrimmedCut(C: Arena, p: int, n: int)
    requires p in C
    ensures Trimmed(C, p, n) == Cut(C, p, n, true, false)
  {
  }

  /** `set_inuse`, `set_size_and_pinuse_of_free_chunk` for the rest of [p, p + s), and `clear_pinuse` after it. */
  function ReplaceMem(m: Mem, p: int, n: int, s: int): Mem
    requires 16 <= n && n + 3 < W && p + 4 in m && p + n + 4 in m && 16 <= s - n && s - n + 1 < W && p + s + 4 in m
  {
    var m1 := InuseMem(m, p, n)[p + n + 4 := s - n + 1][p + s := s - n];
    m1[p + s + 4 := ClearP(m1[p + s + 4])]
  }

  lemma ReplaceMemWords(m: Mem, p: int, n: int, s: int, msp: int, hi: int)
    requires DomOk(m, msp, hi) && 16 <= n && n + 3 < W && p + 4 in m && p + n + 4 in m && 16 <= s - n && s - n + 1 < W
    requires p + s + 4 in m && p + s in m
    ensures var m' := ReplaceMem(m, p, n, s);
            && DomOk(m', msp, hi) && Rd(m', p + 4) == n + 2 + m[p + 4] % 2 && Rd(m', p + n + 4) == s - n + 1
            && Rd(m', p + s) == s - n && Rd(m', p + s + 4) == ClearP(m[p + s + 4])
            && (forall a :: a != p + 4 && a != p + n + 4 && a != p + s && a != p + s + 4 ==> Rd(m', a) == Rd(m, a))
  {
    var m' := ReplaceMem(m, p, n, s);
    assert forall a :: a in m' <==> a in m;
  }

  /** Grows the block `p` to size `n` into the free chunk after it, whose rest stays free. */
  lemma ReplaceStep(m: Mem, smallmap: Word, treemap: Word, top: int, topsize: int, C: Arena, last: int, b: Bins,
                    msp: int, hi: int, p: int, n: int, s: int)
    requires Core(m, smallmap, treemap, top, topsize, C, last, b, msp, hi)
    requires p in C && p != msp && C[p].inuse && End(C, p) in C && !C[End(C, p)].inuse && End(C, p) !in b.free
    requires s == C[p].size + C[End(C, p)].size && n % 8 == 0 && C[p].size <= n && 16 <= s - n
    ensures 16 <= n && n + 3 < W && p + 4 in m && p + n + 4 in m && s - n + 1 < W && p + s + 4 in m && 0 <= p + n < W
    ensures p in Joined(C, p)
    ensures var m' := ReplaceMem(m, p, n, s);
            && Core(m', smallmap, treemap, top, topsize, Trimmed(Joined(C, p), p, n), last, b, msp, hi)
            && AllKept(m, m', Live(C, msp))
  {
    hide *;
    CoreParts(m, smallmap, treemap, top, topsize, C, last, b, msp, hi);
    JoinStep(m, smallmap, treemap, top, topsize, C, last, b, msp, hi, p);
    JoinedIs(C, msp, top, last, p);
    var C1, m1, e := Joined(C, p), InuseMem(m, p, s), End(C, End(C, p));
    CoreParts(m1, smallmap, treemap, top, topsize, C1, last, b, msp, hi);
    ReplaceWords(m, C, msp, top, last, topsize, hi, p, n, s);
    ReplaceMemWords(m, p, n, s, msp, hi);
    var m' := ReplaceMem(m, p, n, s);
    JoinedTop(C, p);
    TrimmedIs(C1, msp, top, last, p, n);
    TrimmedCut(C1, p, n);
    BitsAre();
    RegionLocal(m, m1, m', p, n, s);
    BlockClear(C, b.free, p);
    CutStep(m1, m', smallmap, treemap, top, topsize, C1, last, b, msp, hi, p, n, true, false);
    ReplaceKept(m, m', C, msp, top, last, p, n, s);
  }

  lemma ReplaceWords(m: Mem, C: Arena, msp: int, top: int, last: int, topsize: int, hi: int, p: int, n: int, s: int)
    requires DomOk(m, msp, hi) && ArenaOk(C, msp, top, last) && Tags(m, C) && TopOk(m, top, topsize, hi)
    requires p in C && p != msp && C[p].inuse && End(C, p) in C && !C[End(C, p)].inuse
    requires s == C[p].size + C[End(C, p)].size && n % 8 == 0 && C[p].size <= n && 16 <= s - n
    ensures 16 <= n && n + 3 < W && p + 4 in m && p + n + 4 in m && s - n + 1 < W && p + s + 4 in m && p + s in m
            && 0 <= p + n < W
    ensures n + 2 + m[p + 4] % 2 == n + Bits(true, PInuse(C, p))
    ensures var e := p + s; e in C && C[e].inuse && ClearP(m[e + 4]) == C[e].size + Bits(C[e].inuse, false)
    ensures PInuse(Joined(C, p), p) == PInuse(C, p) && p in Joined(C, p)
  {
    hide ChunkSize;
    hide CBit;
    hide PBit;
    hide SetP;
    hide ClearP;
    BlockHead(m, C, msp, top, last, topsize, hi, p);
    FreeNext(m, C, msp, top, last, topsize, hi, End(C, p));
    SizeBound(m, C, msp, top, last, topsize, hi, p);
    SplitDom(m, msp, hi, p, n, s);
    ChunkFacts(C, msp, top, last, p);
    ChunkFacts(C, msp, top, last, C[p].prev);
    var e := p + s;
    ChunkFacts(C, msp, top, last, e);
    HeadReads(m, C, msp, top, last, topsize, hi, e);
    HeadBits(C[e].size, true, false);
  }

  lemma JoinedTop(C: Arena, p: int)
    requires p in C && End(C, p) in C && End(C, End(C, p)) in C && p < End(C, p) < End(C, End(C, p))
    ensures var e, C' := End(C, End(C, p)), Joined(C, p);
            e in C' && C'[e].size == C[e].size && C'[e].inuse == C[e].inuse
  {
  }

  lemma RegionLocal(m: Mem, m1: Mem, m': Mem, p: int, n: int, s: int)
    requires HeadsOnly(m, m1, p, s, p + s) && 16 <= n && 16 <= s - n
    requires forall a :: a != p + 4 && a != p + n + 4 && a != p + s && a != p + s + 4 ==> Rd(m', a) == Rd(m, a)
    ensures Local(m1, m', p, p + s)
  {
    hide Rd;
  }

  lemma ReplaceKept(m: Mem, m': Mem, C: Arena, msp: int, top: int, last: int, p: int, n: int, s: int)
    requires ArenaOk(C, msp, top, last) && p in C && C[p].inuse && End(C, p) in C && !C[End(C, p)].inuse
    requires s == C[p].size + C[End(C, p)].size && C[p].size <= n && 16 <= s - n
    requires forall a :: a != p + 4 && a != p + n + 4 && a != p + s && a != p + s + 4 ==> Rd(m', a) == Rd(m, a)
    ensures AllKept(m, m', Live(C, msp))
  {
    hide Rd;
    var live := Live(C, msp);
    ChunkFacts(C, msp, top, last, p);
    ChunkFacts(C, msp, top, last, End(C, p));
    forall q | q in live
      ensures Kept(m, m', q, live[q])
    {
      ChunkFacts(C, msp, top, last, q);
      assert NoOverlap(C, p, q) && NoOverlap(C, q, p) && NoOverlap(C, End(C, p), q);
    }
  }

  // ---------------------------------------------------------------- growing into top

  /** The last block grows to size `n`. */
  ghost function Grown(C: Arena, p: int, n: int): Arena
    requires p in C
  {
    C[p := C[p].(size := n)]
  }

  lemma GrownOk(C: Arena, msp: int, top: int, last: int, n: int)
    requires ArenaOk(C, msp, top, last) && last != msp && n % 8 == 0 && C[last].size <= n
    ensures ArenaOk(Grown(C, last, n), msp, last + n, last)
  {
    var C' := Grown(C, last, n);
    ChunkFacts(C, msp, top, last, last);
    TopNotChunk(C, msp, top, last);
    forall q | q in C'
      ensures ChunkOk(C', q, msp, last + n)
    {
      GrownChunk(C, msp, top, last, n, q);
    }
    forall p, q | p in C' && q in C'
      ensures NoOverlap(C', p, q)
    {
      assert NoOverlap(C, p, q);
      ChunkFacts(C, msp, top, last, q);
    }
  }

  lemma GrownChunk(C: Arena, msp: int, top: int, last: int, n: int, q: int)
    requires ArenaOk(C, msp, top, last) && last != msp && n % 8 == 0 && C[last].size <= n && q in C
    ensures ChunkOk(Grown(C, last, n), q, msp, last + n)
  {
    var C' := Grown(C, last, n);
    ChunkFacts(C, msp, top, last, last);
    ChunkFacts(C, msp, top, last, q);
    CutLast(C, msp, top, last, q);
    assert NoOverlap(C, last, q);
    if q == last {
      assert last + n in C ==> ChunkOk(C, last + n, msp, top);
    } else if q != msp {
      ChunkFacts(C, msp, top, last, C[q].prev);
    }
  }

  lemma GrownTags(m: Mem, m': Mem, C: Arena, msp: int, top: int, last: int, n: int)
    requires ArenaOk(C, msp, top, last) && Tags(m, C) && C[last].size <= n
    requires HeadsOnly(m, m', last, n, last + n) && Rd(m', last + 4) == n + Bits(true, PInuse(C, last))
    ensures Tags(m', Grown(C, last, n))
  {
    hide Rd;
    var C' := Grown(C, last, n);
    ChunkFacts(C, msp, top, last, last);
    forall q | q in C'
      ensures TagOk(m', C', q)
    {
      ChunkFacts(C, msp, top, last, q);
      if q != last {
        assert TagOk(m, C, q);
        assert NoOverlap(C, q, last) && NoOverlap(C, last, q);
      }
    }
  }

  lemma GrownIs(C: Arena, msp: int, p: int, n: int)
    requires p in C && p != msp && C[p].inuse
    ensures var C' := Grown(C, p, n);
            && Live(C', msp) == Live(C, msp)[p := n]
            && (forall out :: FreeMap(C', out) == FreeMap(C, out))
            && (forall dv, dvsize :: DvOk(C, dv, dvsize) ==> DvOk(C', dv, dvsize))
            && (forall free :: SomeFree(C, free) ==> SomeFree(C', free))
  {
    var C' := Grown(C, p, n);
    assert Live(C', msp) == Live(C, msp)[p := n];
    forall out
      ensures FreeMap(C', out) == FreeMap(C, out)
    {
    }
  }

  /**
    `set_inuse` for the grown block, then the head of the smaller top; the P bit `set_inuse` wrote there is
    overwritten.
   */
  function GrowMem(m: Mem, p: int, n: int, newtopsize: int): Mem
    requires 16 <= n && n + 3 < W && p + 4 in m && p + n + 4 in m && 0 <= newtopsize && newtopsize + 1 < W
  {
    InuseMem(m, p, n)[p + n + 4 := newtopsize + 1]
  }

  lemma GrowMemWords(m: Mem, p: int, n: int, newtopsize: int, msp: int, hi: int)
    requires DomOk(m, msp, hi) && 16 <= n && n + 3 < W && p + 4 in m && p + n + 4 in m && 0 <= newtopsize
             && newtopsize + 1 < W
    ensures var m' := GrowMem(m, p, n, newtopsize);
            && DomOk(m', msp, hi) && Rd(m', p + 4) == n + 2 + m[p + 4] % 2 && Rd(m', p + n + 4) == newtopsize + 1
            && HeadsOnly(m, m', p, n, p + n)
  {
    var m' := GrowMem(m, p, n, newtopsize);
    assert forall a :: a in m' <==> a in m;
  }

  lemma GrowWords(m: Mem, C: Arena, msp: int, top: int, last: int, topsize: int, hi: int, n: int)
    requires DomOk(m, msp, hi) && ArenaOk(C, msp, top, last) && Tags(m, C) && TopOk(m, top, topsize, hi)
    requires n % 8 == 0 && C[last].size < n < C[last].size + topsize
    ensures 16 <= n && n + 3 < W && last + 4 in m && last + n + 4 in m && topsize + C[last].size - n + 1 < W
            && 0 <= last && last + n < W
    ensures last + C[last].size == top && m[last + 4] % 2 == Bits(false, PInuse(C, last)) && top <= last + n
  {
    hide ChunkSize;
    BlockHead(m, C, msp, top, last, topsize, hi, last);
    ChunkFacts(C, msp, top, last, last);
    EightPlus(last, n);
    EightFour(last + n);
    WordIn(m, msp, hi, last + n, 4);
  }

  lemma GrowTop(m: Mem, m': Mem, C: Arena, last: int, top: int, topsize: int, hi: int, n: int)
    requires TopOk(m, top, topsize, hi) && last in C && End(C, last) == top && n % 8 == 0 && C[last].size % 8 == 0
             && 0 <= C[last].size
    requires C[last].size < n < C[last].size + topsize && 0 <= last
    requires HeadsOnly(m, m', last, n, last + n) && Rd(m', last + n + 4) == topsize + C[last].size - n + 1
    ensures TopOk(m', last + n, topsize + C[last].size - n, hi)
  {
    hide Rd;
    FourMod(topsize, C[last].size, n);
    var a := top + topsize + 4;
    assert a == last + n + (topsize + C[last].size - n) + 4;
    assert Rd(m', a) == Rd(m, a);
  }

  lemma FourMod(a: int, b: int, c: int)
    requires a % 4 == 0 && b % 8 == 0 && c % 8 == 0
    ensures (a + b - c) % 4 == 0
  {
    var x, y, z := a / 4, b / 8, c / 8;
    assert a + b - c == 4 * (x + 2 * y - 2 * z);
  }

  lemma GrowBins(m: Mem, m': Mem, smallmap: Word, treemap: Word, b: Bins, C: Arena, msp: int, top: int, last: int,
                 hi: int, n: int)
    requires BinsOk(m, smallmap, treemap, b, msp, hi) && DomOk(m', msp, hi)
    requires ArenaOk(C, msp, top, last) && SomeFree(C, b.free) && top <= last + n && last in C && C[last].inuse
    requires HeadsOnly(m, m', last, n, last + n)
    ensures BinsOk(m', smallmap, treemap, b, msp, hi)
  {
    hide BinsOk;
    hide ArenaOk;
    hide Owned;
    hide Rd;
    hide DomOk;
    TagNotOwned(C, msp, top, last, b.free, last);
    AboveNotOwned(C, msp, top, last, b.free, last + n + 4);
    BinsFrame(m, m', smallmap, treemap, b, msp, hi);
  }

  /** Grows the last block into top. */
  lemma GrowStep(m: Mem, smallmap: Word, treemap: Word, top: int, topsize: int, C: Arena, last: int, b: Bins, msp: int,
                 hi: int, n: int)
    requires Core(m, smallmap, treemap, top, topsize, C, last, b, msp, hi) && last in C && last != msp
    requires n % 8 == 0 && C[last].size < n < C[last].size + topsize
    ensures 16 <= n && n + 3 < W && last + 4 in m && last + n + 4 in m && topsize + C[last].size - n + 1 < W
            && 0 <= last && last + n < W
    ensures var m' := GrowMem(m, last, n, topsize + C[last].size - n);
            && Core(m', smallmap, treemap, last + n, topsize + C[last].size - n, Grown(C, last, n), last, b, msp, hi)
            && AllKept(m, m', Live(C, msp))
  {
    hide *;
    CoreParts(m, smallmap, treemap, top, topsize, C, last, b, msp, hi);
    LastIs(C, msp, top, last);
    GrowWords(m, C, msp, top, last, topsize, hi, n);
    GrownIs(C, msp, last, n);
    var ts := topsize + C[last].size - n;
    GrowMemWords(m, last, n, ts, msp, hi);
    var m' := GrowMem(m, last, n, ts);
    HeadWordBound(m, C, msp, top, last, topsize, hi, last, 0);
    GrowBins(m, m', smallmap, treemap, b, C, msp, top, last, hi, n);
    GrownOk(C, msp, top, last, n);
    GrownTags(m, m', C, msp, top, last, n);
    GrowTop(m, m', C, last, top, topsize, hi, n);
    CoreParts(m', smallmap, treemap, last + n, ts, Grown(C, last, n), last, b, msp, hi);
    GrowKept(m, m', C, msp, top, last, n);
  }

  lemma LastIs(C: Arena, msp: int, top: int, last: int)
    requires ArenaOk(C, msp, top, last)
    ensures last in C && C[last].inuse && End(C, last) == top && C[last].size % 8 == 0 && 0 <= C[last].size && 0 <= last
  {
    ChunkFacts(C, msp, top, last, last);
  }

  lemma GrowKept(m: Mem, m': Mem, C: Arena, msp: int, top: int, last: int, n: int)
    requires ArenaOk(C, msp, top, last) && HeadsOnly(m, m', last, n, last + n) && top <= last + n
    ensures AllKept(m, m', Live(C, msp))
  {
    hide Rd;
    var live := Live(C, msp);
    forall q | q in live
      ensures Kept(m, m', q, live[q])
    {
      ChunkFacts(C, msp, top, last, q);
      assert NoOverlap(C, q, last) && NoOverlap(C, last, q);
    }
  }

  // ---------------------------------------------------------------- writing to a block

  /** A word of the payload of the block `p`. */
  ghost predicate InPayload(C: Arena, msp: int, p: int, a: int) {
    p in C && C[p].inuse && p != msp && p + 8 <= a < End(C, p) + 4
  }

  /** Writing to a block disturbs nothing. */
  lemma WriteStep(m: Mem, smallmap: Word, treemap: Word, top: int, topsize: int, C: Arena, last: int, b: Bins,
                  msp: int, hi: int,
                  p: int, a: int, v: Word)
    requires Core(m, smallmap, treemap, top, topsize, C, last, b, msp, hi) && InPayload(C, msp, p, a) && a in m
    ensures Core(m[a := v], smallmap, treemap, top, topsize, C, last, b, msp, hi)
    ensures AllKept(m, m[a := v], Live(C, msp) - {p})
  {
    hide *;
    CoreParts(m, smallmap, treemap, top, topsize, C, last, b, msp, hi);
    var m' := m[a := v];
    DomStore(m, msp, hi, a, v);
    OneStore(m, a, v);
    WriteBins(m, m', smallmap, treemap, b, C, msp, top, last, hi, p, a);
    WriteTags(m, m', C, msp, top, last, p, a);
    WriteTop(m, m', C, msp, top, last, topsize, hi, p, a);
    WriteKept(m, m', C, msp, top, last, p, a);
    CoreParts(m', smallmap, treemap, top, topsize, C, last, b, msp, hi);
  }

  lemma WriteBins(m: Mem, m': Mem, smallmap: Word, treemap: Word, b: Bins, C: Arena, msp: int, top: int, last: int,
                  hi: int, p: int, a: int)
    requires BinsOk(m, smallmap, treemap, b, msp, hi) && DomOk(m', msp, hi) && ArenaOk(C, msp, top, last)
             && SomeFree(C, b.free)
    requires InPayload(C, msp, p, a) && forall q :: q != a ==> Rd(m', q) == Rd(m, q)
    ensures BinsOk(m', smallmap, treemap, b, msp, hi)
  {
    hide BinsOk;
    hide ArenaOk;
    hide Owned;
    hide Rd;
    hide DomOk;
    PayloadNotOwned(C, msp, top, last, b.free, p, a);
    BinsFrame(m, m', smallmap, treemap, b, msp, hi);
  }

  lemma WriteTags(m: Mem, m': Mem, C: Arena, msp: int, top: int, last: int, p: int, a: int)
    requires ArenaOk(C, msp, top, last) && Tags(m, C) && InPayload(C, msp, p, a) && forall q :: q != a ==>
               Rd(m', q) == Rd(m, q)
    ensures Tags(m', C)
  {
    hide Rd;
    ChunkFacts(C, msp, top, last, p);
    forall q | q in C
      ensures TagOk(m', C, q)
    {
      assert TagOk(m, C, q);
      ChunkFacts(C, msp, top, last, q);
      assert NoOverlap(C, p, q) && NoOverlap(C, q, p);
    }
  }

  lemma WriteTop(m: Mem, m': Mem, C: Arena, msp: int, top: int, last: int, topsize: int, hi: int, p: int, a: int)
    requires ArenaOk(C, msp, top, last) && TopOk(m, top, topsize, hi) && InPayload(C, msp, p, a)
    requires forall q :: q != a ==> Rd(m', q) == Rd(m, q)
    ensures TopOk(m', top, topsize, hi)
  {
    ChunkFacts(C, msp, top, last, p);
  }

  lemma WriteKept(m: Mem, m': Mem, C: Arena, msp: int, top: int, last: int, p: int, a: int)
    requires ArenaOk(C, msp, top, last) && InPayload(C, msp, p, a) && forall q :: q != a ==> Rd(m', q) == Rd(m, q)
    ensures AllKept(m, m', Live(C, msp) - {p})
  {
    hide Rd;
    var live := Live(C, msp) - {p};
    forall q | q in live
      ensures Kept(m, m', q, live[q])
    {
      ChunkFacts(C, msp, top, last, p);
      ChunkFacts(C, msp, top, last, q);
      assert NoOverlap(C, p, q) && NoOverlap(C, q, p);
    }
  }

  // ---------------------------------------------------------------- contracts

  /** The block `p` has a new size that meets a request of `nb`; the other blocks stay. */
  ghost predicate Resized(live: map<int, int>, live': map<int, int>, p: int, nb: int) {
    && p in live && p in live' && nb <= live'[p] < nb + MIN_CHUNK_SIZE
    && live' == live[p := live'[p]]
  }

  function Min(a: int, b: int): int { if a <= b then a else b }

  /** The old blocks, `p` as far as its old and its new size reach. */
  ghost function Common(live: map<int, int>, live': map<int, int>, p: int): map<int, int>
    requires p in live && p in live'
  {
    live[p := Min(live[p], live'[p])]
  }

  /** There is room for the block `p` to become a chunk of size `nb` where it is. */
  ghost predicate RoomInPlace(C: Arena, top: int, topsize: int, p: int, nb: int)
    requires p in C
  {
    || nb <= C[p].size
    || (End(C, p) == top && nb < C[p].size + topsize)
    || (End(C, p) in C && !C[End(C, p)].inuse && nb <= C[p].size + C[End(C, p)].size)
  }

  lemma RoomIs(C: Arena, top: int, topsize: int, p: int, nb: int)
    requires p in C
    ensures RoomInPlace(C, top, topsize, p, nb) <==>
            || nb <= C[p].size
            || (End(C, p) == top && nb < C[p].size + topsize)
            || (End(C, p) in C && !C[End(C, p)].inuse && nb <= C[p].size + C[End(C, p)].size)
  {
  }

  lemma ResizedIs(live: map<int, int>, p: int, n: int, nb: int)
    requires p in live && nb <= n < nb + 16
    ensures Resized(live, live[p := n], p, nb)
    ensures Common(live, live[p := n], p) == live[p := Min(live[p], n)]
    ensures n <= live[p] ==> Common(live, live[p := n], p) == live[p := n]
    ensures live[p] <= n ==> Common(live, live[p := n], p) == live
  {
  }

  /** Keeping a block up to its old size and then up to a smaller one. */
  lemma PartKept(m: Mem, x: Mem, C: Arena, msp: int, top: int, last: int, p: int, n: int)
    requires ArenaOk(C, msp, top, last) && p in C && p != msp && C[p].inuse && 16 <= n <= C[p].size
             && HeadsOnly(m, x, p, n, End(C, p))
    ensures AllKept(m, x, Live(C, msp)[p := n])
  {
    ChunkFacts(C, msp, top, last, p);
    forall q | q in C && q != p
      ensures q < p || End(C, p) <= q
    {
      assert NoOverlap(C, p, q);
    }
    HeadsKept(m, x, C, msp, top, last, p, n, n, End(C, p), Live(C, msp)[p := n]);
  }

  lemma LivePart(live: map<int, int>, p: int, n: int, r: int, s: int)
    requires r !in live && p in live && r != p
    ensures live[p := n][r := s] - {r} == live[p := n]
  {
  }

  lemma LiveNot(C: Arena, msp: int, r: int)
    requires r !in C
    ensures r !in Live(C, msp)
  {
  }

  lemma NoHeads(m: Mem, p: int, s: int, e: int)
    ensures HeadsOnly(m, m, p, s, e)
  {
  }

  lemma SameUpdate(live: map<int, int>, p: int)
    requires p in live
    ensures live[p := live[p]] == live
  {
  }

  lemma CommonIs(live: map<int, int>, live': map<int, int>, p: int)
    requires p in live && p in live' && live[p] <= live'[p]
    ensures Common(live, live', p) == live
  {
  }

  lemma JoinKept(m: Mem, m': Mem, C: Arena, msp: int, top: int, last: int, p: int, n: int, s: int)
    requires ArenaOk(C, msp, top, last) && p in C && p != msp && C[p].inuse && End(C, p) in C && !C[End(C, p)].inuse
    requires s == C[p].size + C[End(C, p)].size && C[p].size <= n <= s && HeadsOnly(m, m', p, n, p + s)
    ensures AllKept(m, m', Live(C, msp))
  {
    ChunkFacts(C, msp, top, last, p);
    ChunkFacts(C, msp, top, last, End(C, p));
    forall q | q in C && C[q].inuse && q != p
      ensures q < p || p + s <= q
    {
      assert NoOverlap(C, p, q) && NoOverlap(C, End(C, p), q);
    }
    HeadsKept(m, m', C, msp, top, last, p, C[p].size, n, p + s, Live(C, msp));
  }

  lemma JoinedOk(m: Mem, smallmap: Word, treemap: Word, top: int, topsize: int, C: Arena, last: int, b: Bins, msp: int,
                 hi: int, p: int)
    requires Core(m, smallmap, treemap, top, topsize, C, last, b, msp, hi)
    requires p in C && p != msp && C[p].inuse && End(C, p) in C && !C[End(C, p)].inuse
    ensures ArenaOk(Joined(C, p), msp, top, last)
  {
    hide *;
    CoreParts(m, smallmap, treemap, top, topsize, C, last, b, msp, hi);
    JoinedIs(C, msp, top, last, p);
    JoinedFuse(C, p);
    FuseOk(C, msp, top, last, p, End(C, End(C, p)), true);
  }

  /** The memory before `set_inuse` as the start of a split of the joined block. */
  lemma JoinSource(m: Mem, m1: Mem, msp: int, hi: int, p: int, s: int)
    requires 16 <= s && s + 3 < W && p + 4 in m && p + s + 4 in m && m1 == InuseMem(m, p, s) && s % 8 == 0
    ensures HeadsOnly(m1, m, p, s, p + s) && Rd(m, p + 4) % 2 == Rd(m1, p + 4) % 2 && SetP(Rd(m, p + s + 4)) == Rd(m1,
            p + s + 4)
  {
    hide SetP;
    ParityOf(s, m[p + 4]);
  }

  lemma SplitNotLive(C: Arena, msp: int, top: int, last: int, p: int, n: int)
    requires ArenaOk(C, msp, top, last) && p in C && C[p].inuse && End(C, p) in C && !C[End(C, p)].inuse
    requires C[p].size <= n < C[p].size + C[End(C, p)].size
    ensures p + n !in Live(C, msp)
  {
    ChunkFacts(C, msp, top, last, p);
    if p + n in C {
      assert NoOverlap(C, End(C, p), p + n);
    }
  }

  lemma JoinedKept(m: Mem, m1: Mem, m2: Mem, m3: Mem, live: map<int, int>, live': map<int, int>, p: int, n: int)
    requires AllKept(m, m1, live) && AllKept(m1, m2, live) && AllKept(m2, m3, live') && p in live
             && live' == live[p := n] && live[p] <= n
    ensures AllKept(m, m3, live)
  {
    KeptTrans(m, m1, m2, live, live, live);
    hide Rd;
    forall q | q in live
      ensures Kept(m, m3, q, live[q])
    {
      assert Kept(m, m2, q, live[q]) && Kept(m2, m3, q, live'[q]);
    }
  }

  lemma ResizedIn(live: map<int, int>, live': map<int, int>, p: int, nb: int)
    requires Resized(live, live', p, nb)
    ensures p in live && p in live' && nb <= live'[p] < nb + 16
  {
  }

  lemma TwoUpdates(live: map<int, int>, p: int, a: int, b: int)
    ensures live[p := a][p := b] == live[p := b]
  {
  }

  // ---------------------------------------------------------------- moving a block

  /** The first `n` bytes at `dst` are what the first `n` bytes at `src` were, word by word. */
  ghost predicate Copied(m: Mem, m': Mem, src: int, dst: int, n: int) {
    forall j :: 0 <= j < n && j % 4 == 0 ==> Rd(m', dst + j) == Rd(m, src + j)
  }

  /** The block `p` is replaced by the block `q`, which meets a request of `nb`; the other blocks stay. */
  ghost predicate Moved(live: map<int, int>, live': map<int, int>, p: int, q: int, nb: int) {
    && p in live && (q == p || q !in live) && q in live' && nb <= live'[q] < nb + MIN_CHUNK_SIZE
    && live' == (live - {p})[q := live'[q]]
  }

  /** Copying one more word. */
  lemma CopyStep(m: Mem, m1: Mem, m2: Mem, live: map<int, int>, p: int, s: int, src: int, dst: int, n: int)
    requires Copied(m, m1, src, dst, n) && AllKept(m, m1, live) && p in live && live[p] == s && src == p + 8
    requires 0 <= n && n + 4 <= s - 4 && src + n in m1 && m2 == m1[dst + n := m1[src + n]] && n % 4 == 0
    ensures Copied(m, m2, src, dst, n + 4)
  {
    assert Kept(m, m1, p, live[p]);
    forall j | 0 <= j < n + 4 && j % 4 == 0
      ensures Rd(m2, dst + j) == Rd(m, src + j)
    {
      if j >= n {
        NextWord(j, n);
      } else {
        assert dst + j != dst + n;
      }
    }
  }

  lemma NextWord(j: int, n: int)
    requires n <= j < n + 4 && j % 4 == 0 && n % 4 == 0
    ensures j == n
  {
  }

  lemma PayloadWord(m: Mem, C: Arena, msp: int, top: int, last: int, topsize: int, hi: int, p: int, i: int)
    requires DomOk(m, msp, hi) && ArenaOk(C, msp, top, last) && Tags(m, C) && TopOk(m, top, topsize, hi)
    requires p in Live(C, msp) && 0 <= i && i + 4 <= Live(C, msp)[p] - 4 && i % 4 == 0
    ensures p + 8 + i in m && InPayload(C, msp, p, p + 8 + i)
  {
    hide ChunkSize;
    HeadReads(m, C, msp, top, last, topsize, hi, p);
    hide DomOk;
    EightFour(p);
    PlusEight(i);
    WordIn(m, msp, hi, p, 8 + i);
  }

  lemma PlusEight(i: int)
    requires i % 4 == 0
    ensures (8 + i) % 4 == 0
  {
  }

  /** A word-aligned address in a block is a word of its payload. */
  lemma PayloadAt(m: Mem, C: Arena, msp: int, top: int, last: int, topsize: int, hi: int, p: int, a: int)
    requires DomOk(m, msp, hi) && ArenaOk(C, msp, top, last) && Tags(m, C) && TopOk(m, top, topsize, hi)
    requires p in Live(C, msp) && p + 8 <= a < p + Live(C, msp)[p] + 4 && a % 4 == 0
    ensures a in m && InPayload(C, msp, p, a)
  {
    hide *;
    LiveIs(C, msp, p);
    HeadReads(m, C, msp, top, last, topsize, hi, p);
    WordMod(p, Live(C, msp)[p], a);
    PayloadWord(m, C, msp, top, last, topsize, hi, p, a - p - 8);
  }

  lemma WordMod(p: int, s: int, a: int)
    requires p % 8 == 0 && s % 8 == 0 && a % 4 == 0
    ensures (a - p - 8) % 4 == 0
    ensures a < p + s + 4 ==> a + 4 <= p + s + 4
  {
    var x, y, z := p / 8, s / 8, a / 4;
    assert a - p - 8 == 4 * (z - 2 * x - 2) && p + s + 4 - a == 4 * (2 * x + 2 * y + 1 - z);
  }

  /** A block kept in place is a copy of itself. */
  lemma KeptCopied(m: Mem, m': Mem, live: map<int, int>, p: int)
    requires AllKept(m, m', live) && p in live
    ensures Copied(m, m', p + 8, p + 8, live[p] - 4)
  {
    assert Kept(m, m', p, live[p]);
  }

  lemma CopiedKept(m: Mem, m1: Mem, m2: Mem, src: int, live: map<int, int>, q: int, n: int)
    requires Copied(m, m1, src, q + 8, n) && AllKept(m1, m2, live) && q in live && n <= live[q] - 4
    ensures Copied(m, m2, src, q + 8, n)
  {
    assert Kept(m1, m2, q, live[q]);
  }

  lemma CopiedFrom(m: Mem, m1: Mem, m2: Mem, live: map<int, int>, p: int, dst: int, n: int)
    requires AllKept(m, m1, live) && p in live && Copied(m1, m2, p + 8, dst, n) && n <= live[p] - 4
    ensures Copied(m, m2, p + 8, dst, n)
  {
    assert Kept(m, m1, p, live[p]);
  }

  lemma KeptMinus(m: Mem, m': Mem, live: map<int, int>, p: int)
    requires AllKept(m, m', live)
    ensures AllKept(m, m', live - {p})
  {
    forall q | q in live - {p}
      ensures Kept(m, m', q, (live - {p})[q])
    {
      assert Kept(m, m', q, live[q]);
    }
  }

  /** Resizing in place is a move to the same place. */
  lemma ResizedMoved(m: Mem, m': Mem, live: map<int, int>, live': map<int, int>, p: int, nb: int)
    requires Resized(live, live', p, nb) && AllKept(m, m', Common(live, live', p))
    ensures Moved(live, live', p, p, nb)
    ensures Copied(m, m', p + 8, p + 8, Min(live[p], live'[p]) - 4)
    ensures AllKept(m, m', live - {p})
  {
    var c := Common(live, live', p);
    KeptCopied(m, m', c, p);
    KeptMinus(m, m', c, p);
    assert live' == (live - {p})[p := live'[p]];
    assert c - {p} == live - {p};
  }

  /** A grant, a copy and a release move a block. */
  lemma GrantedMoved(live: map<int, int>, live1: map<int, int>, live2: map<int, int>, p: int, q: int, nb: int)
    requires Granted(live, live1, q, nb) && p in live && live2 == live1 - {p}
    ensures p != q && p in live1 && live1[p] == live[p] && q in live1 && nb <= live1[q]
    ensures Moved(live, live2, p, q, nb) && q in live2 && live2[q] == live1[q]
    ensures forall x :: x in live && x != p ==>
              x in live1 && x in live2 && x != q && live1[x] == live[x] && live2[x] == live[x]
  {
    assert live2 == (live - {p})[q := live2[q]];
  }

  /** A block that has to move is shorter than the request: all of it is copied, in whole words. */
  lemma CopyLength(bytes: Word, oldsize: int)
    requires bytes < MAX_REQUEST && oldsize % 8 == 0 && 16 <= oldsize < RequestSize(bytes)
    ensures oldsize - CHUNK_OVERHEAD < bytes && (oldsize - CHUNK_OVERHEAD) % 4 == 0
  {
    hide RequestSize;
    RequestFits(bytes);
    EightBelow(oldsize, RequestSize(bytes));
  }

  lemma EightBelow(a: int, b: int)
    requires a % 8 == 0 && b % 8 == 0 && a < b
    ensures a <= b - 8 && (a - 4) % 4 == 0
  {
    var x, y := a / 8, b / 8;
    assert a == 8 * x && b == 8 * y && a - 4 == 4 * (2 * x - 1);
  }

  lemma MovedKept(m: Mem, m1: Mem, m2: Mem, m3: Mem, live: map<int, int>, live1: map<int, int>, live3: map<int, int>,
                  p: int, q: int)
    requires AllKept(m, m1, live) && AllKept(m1, m2, live1 - {q}) && AllKept(m2, m3, live3)
    requires forall x :: x in live && x != p ==>
               x in live1 && x in live3 && x != q && live1[x] == live[x] && live3[x] == live[x]
    ensures AllKept(m, m3, live - {p})
  {
    KeptMinus(m, m1, live, p);
    KeptTrans(m, m1, m2, live - {p}, live - {p}, live1 - {q});
    KeptTrans(m, m2, m3, live - {p}, live - {p}, live3);
  }

  lemma NothingCopied(m: Mem, src: int, dst: int)
    ensures Copied(m, m, src, dst, 0)
  {
  }

  lemma WordStep(i: int, n: int)
    requires i < n && i % 4 == 0 && n % 4 == 0
    ensures i + 4 <= n && (i + 4) % 4 == 0
  {
  }

  lemma OverheadIs()
    ensures CHUNK_OVERHEAD == 4 && MIN_CHUNK_SIZE == 16
  {
  }

  lemma MinIs(a: int, b: int)
    ensures a <= b ==> Min(a, b) == a
  {
  }

  // ---------------------------------------------------------------- aligned blocks

  /** `set_inuse` for the back of a chunk of size `s` and then for its first `n` bytes. */
  function LeadMem(m: Mem, p: int, n: int, s: int): Mem
    requires 16 <= n && n + 3 < W && p + 4 in m && p + n + 4 in m
    requires 16 <= s - n && s - n + 3 < W && p + s + 4 in m
  {
    InuseMem(InuseMem(m, p + n, s - n), p, n)
  }

  lemma SetPEven(s: int, b: int)
    requires s % 8 == 0 && 0 <= b <= 1 && 0 <= s && s + 3 < W
    ensures SetP(s + 2 + b) == s + 3
  {
    var k := s / 8;
    assert s == 8 * k;
    ModTwo(4 * k + 1, b);
  }

  /** The order of the two does not matter: either way the back ends up with its P bit set. */
  lemma LeadIs(m: Mem, p: int, n: int, s: int)
    requires 16 <= n && n + 3 < W && p + 4 in m && p + n + 4 in m && n % 8 == 0 && s % 8 == 0
    requires 16 <= s - n && s - n + 3 < W && p + s + 4 in m
    ensures LeadMem(m, p, n, s) == SplitInuseMem(m, p, n, s)
  {
    hide SetP;
    EightMinus(s, n);
    SetPEven(s - n, m[p + n + 4] % 2);
    SetPOdd(m[p + n + 4]);
    var a, b := LeadMem(m, p, n, s), SplitInuseMem(m, p, n, s);
    assert a.Keys == b.Keys;
    assert a[p + n + 4] == b[p + n + 4] && a[p + 4] == b[p + 4] && a[p + s + 4] == b[p + s + 4];
    assert forall q :: q in a && q != p + 4 && q != p + n + 4 && q != p + s + 4 ==> a[q] == m[q] == b[q];
  }

  lemma LiveLead(live: map<int, int>, p: int, n: int, r: int, s: int)
    requires r !in live && p in live && r != p
    ensures live[p := n][r := s] - {p} == (live - {p})[r := s]
    ensures live[p := n] - {p} == live - {p}
  {
  }

  /** A grant that may leave up to a minimum chunk over. */
  ghost predicate GrantedAligned(live: map<int, int>, live': map<int, int>, p: int, nb: int) {
    && p !in live && p in live' && nb <= live'[p] <= nb + MIN_CHUNK_SIZE
    && live' == live[p := live'[p]]
  }

  /** A grant whose front is given back. */
  lemma GrantedLead(live: map<int, int>, live1: map<int, int>, p: int, nb: int, r: int, s: int)
    requires Granted(live, live1, p, nb) && r !in live1
    ensures (live1 - {p})[r := s] == live[r := s] && r !in live && live1 - {p} == live
  {
  }

  lemma AlignedIs(live: map<int, int>, p: int, s: int, nb: int)
    requires p !in live && nb <= s <= nb + 16
    ensures GrantedAligned(live, live[p := s], p, nb)
  {
  }

  /** The request that leaves room for an aligned chunk. */
  lemma AlignedRequest(bytes: Word, a: int, req: int)
    requires 16 <= a <= 0x8000_0000 && a % 8 == 0 && bytes < MAX_REQUEST - a
             && req == RequestSize(bytes) + a + MIN_CHUNK_SIZE - CHUNK_OVERHEAD
    ensures 0 <= req < W && RequestSize(bytes) % 8 == 0 && 16 <= RequestSize(bytes)
    ensures req < MAX_REQUEST ==> RequestSize(req) == RequestSize(bytes) + a + 16
  {
    RequestFits(bytes);
    AlignedPad(RequestSize(bytes), a);
  }

  lemma AlignedPad(nb: int, a: int)
    requires nb % 8 == 0 && a % 8 == 0
    ensures (nb + a + 16 - 4 + 4 + 7) / 8 * 8 == nb + a + 16
  {
    var x := (nb + a) / 8;
    assert nb + a == 8 * x;
  }

  lemma GrantedParts(live: map<int, int>, live': map<int, int>, p: int, nb: int)
    requires Granted(live, live', p, nb)
    ensures p !in live && p in live' && nb <= live'[p] < nb + 16 && live' == live[p := live'[p]]
  {
  }

  lemma LiveBack(live: map<int, int>, r: int, s: int)
    requires r !in live
    ensures live[r := s] - {r} == live
  {
  }

  /** The leader is a chunk, and leaves enough behind it. */
  lemma Leads(p: int, br: int, a: int)
    requires p % 8 == 0 && a % 8 == 0 && 16 <= a && (br + 8) % 8 == 0 && p + 8 <= br + 8 < p + 8 + a && br + 8 != p + 8
    ensures var pos := if br - p >= 16 then br else br + a;
            && (pos - p) % 8 == 0 && 16 <= pos - p <= a + 8
  {
    var x, y, z := p / 8, (br + 8) / 8, a / 8;
    assert p == 8 * x && br == 8 * y - 8 && a == 8 * z;
  }
}
