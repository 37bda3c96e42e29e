/** Handing out a block: a free chunk whole, the front of a free chunk, or the front of top. */
module HeapAlloc {
  import opened Words
  import opened HeapWords
  import opened HeapTries
  import opened HeapBins
  import opened HeapArena
  import opened HeapTags
  import opened HeapState
  import opened HeapWalk
  import opened HeapRelease

  /** A request of `nb` bytes is met by the new block at `p`; the other blocks stay. */
  ghost predicate Granted(live: map<int, int>, live': map<int, int>, p: int, nb: int) {
    && p !in live && p in live' && nb <= live'[p] < nb + MIN_CHUNK_SIZE
    && live' == live[p := live'[p]]
  }

  /** `set_inuse_and_pinuse`. */
  function TakeMem(m: Mem, p: int, s: int): Mem
    requires 0 <= s && s + 3 < W && p + s + 4 in m
  {
    m[p + 4 := s + 3][p + s + 4 := SetP(m[p + s + 4])]
  }

  /**
    `set_size_and_pinuse_of_inuse_chunk` for the first `n` bytes and `set_size_and_pinuse_of_free_chunk` for the rest.
   */
  function SplitMem(m: Mem, p: int, n: int, s: int): Mem
    requires 0 <= n && n + 3 < W && 0 <= s - n && s - n + 1 < W
  {
    m[p + 4 := n + 3][p + n + 4 := s - n + 1][p + s := s - n]
  }

  /** The words before and after a free chunk. */
  lemma FreeNext(m: Mem, C: Arena, msp: int, top: int, last: int, topsize: int, hi: int, p: int)
    requires DomOk(m, msp, hi) && ArenaOk(C, msp, top, last) && Tags(m, C) && TopOk(m, top, topsize, hi)
    requires p in C && !C[p].inuse
    ensures var e := End(C, p);
            && p != msp && PInuse(C, p) && C[p].prev in C && C[C[p].prev].inuse
            && e in C && C[e].inuse && e != top && Edge(C, top, e)
            && e == p + C[p].size && p + 4 in m && e + 4 in m && e in m && 16 <= C[p].size && C[p].size + 8 <= W
               && C[p].size % 8 == 0
            && m[e + 4] == C[e].size + 2 && SetP(m[e + 4]) == C[e].size + 3
            && 0 <= p < W && 0 < e < W && p % 8 == 0
  {
    hide ChunkSize;
    hide CBit;
    hide PBit;
    hide SetP;
    hide ClearP;
    ChunkFacts(C, msp, top, last, p);
    HeadReads(m, C, msp, top, last, topsize, hi, p);
    HeadReads(m, C, msp, top, last, topsize, hi, End(C, p));
    ChunkFacts(C, msp, top, last, End(C, p));
    TopNotChunk(C, msp, top, last);
    HeadBits(C[End(C, p)].size, true, false);
  }

  lemma TakeMemWords(m: Mem, p: int, s: int, msp: int, hi: int)
    requires 16 <= s && s + 3 < W && p + s + 4 in m && p + 4 in m && DomOk(m, msp, hi)
    ensures var m' := TakeMem(m, p, s);
            && Local(m, m', p, p + s) && Rd(m', p + 4) == s + 3 && Rd(m', p + s + 4) == SetP(m[p + s + 4])
               && DomOk(m', msp, hi)
  {
    var m' := TakeMem(m, p, s);
    assert forall q :: q in m' <==> q in m;
  }

  lemma SplitMemWords(m: Mem, p: int, n: int, s: int, msp: int, hi: int)
    requires 16 <= n && n + 3 < W && 16 <= s - n && s - n + 1 < W
    requires p + s in m && p + 4 in m && p + n + 4 in m && DomOk(m, msp, hi)
    ensures var m' := SplitMem(m, p, n, s);
            && Local(m, m', p, p + s) && Rd(m', p + 4) == n + 3 && Rd(m', p + n + 4) == s - n + 1
               && Rd(m', p + s) == s - n
            && Rd(m', p + s + 4) == Rd(m, p + s + 4) && DomOk(m', msp, hi)
  {
    var m' := SplitMem(m, p, n, s);
    assert forall q :: q in m' <==> q in m;
  }

  /** A free chunk becomes a block. */
  ghost function Taken(C: Arena, p: int): Arena
    requires p in C
  {
    Fuse(C, p, End(C, p), true)
  }

  /** The front of a free chunk becomes a block. */
  ghost function Halved(C: Arena, p: int, n: int): Arena
    requires p in C
  {
    Cut(C, p, n, true, false)
  }

  lemma TakenIs(C: Arena, msp: int, top: int, last: int, p: int)
    requires ArenaOk(C, msp, top, last) && p in C && !C[p].inuse
    ensures Fusable(C, msp, top, p, End(C, p), true)
    ensures Live(Taken(C, p), msp) == Live(C, msp)[p := C[p].size] && p !in Live(C, msp)
    ensures forall out :: FreeMap(Taken(C, p), out) == FreeMap(C, out + {p})
    ensures forall dv, dvsize :: DvOk(C, dv, dvsize) && dv != p ==> DvOk(Taken(C, p), dv, dvsize)
  {
    ChunkFacts(C, msp, top, last, p);
    var C' := Taken(C, p);
    forall x
      ensures x in C' <==> x in C
      ensures x in C ==> C'[x].size == C[x].size && C'[x].inuse == (x == p || C[x].inuse)
    {
      if x in C {
        assert NoOverlap(C, p, x);
      }
    }
    assert Live(C', msp) == Live(C, msp)[p := C[p].size];
    forall out
      ensures FreeMap(C', out) == FreeMap(C, out + {p})
    {
    }
  }

  lemma HalvedIs(C: Arena, msp: int, top: int, last: int, p: int, n: int)
    requires ArenaOk(C, msp, top, last) && p in C && !C[p].inuse && n % 8 == 0 && 16 <= n && 16 <= C[p].size - n
    ensures Cuttable(C, msp, p, n, true, false)
    ensures var C' := Halved(C, p, n);
            && p + n in C' && !C'[p + n].inuse && C'[p + n].size == C[p].size - n && p + n !in C
            && Live(C', msp) == Live(C, msp)[p := n] && p !in Live(C, msp)
            && (forall out :: FreeMap(C', out + {p + n}) == FreeMap(C, out + {p}))
            && (forall dv, dvsize :: DvOk(C, dv, dvsize) && dv != p ==> DvOk(C', dv, dvsize))
            && DvOk(C', p + n, C[p].size - n)
  {
    ChunkFacts(C, msp, top, last, p);
    CutFresh(C, msp, top, last, p, n);
    assert MIN_CHUNK_SIZE == 16;
    var C' := Halved(C, p, n);
    assert p + n != msp;
    assert Live(C', msp) == Live(C, msp)[p := n];
    forall out
      ensures FreeMap(C', out + {p + n}) == FreeMap(C, out + {p})
    {
    }
  }

  lemma LiveOutside(C: Arena, msp: int, top: int, last: int, p: int)
    requires ArenaOk(C, msp, top, last) && p in C && !C[p].inuse
    ensures var live := Live(C, msp); forall q :: q in live ==>
              q in C && live[q] == C[q].size && (q < p || End(C, p) <= q)
  {
    forall q | q in C && q != p
      ensures q < p || End(C, p) <= q
    {
      assert NoOverlap(C, p, q);
    }
  }

  lemma TakeStep(m: Mem, smallmap: Word, treemap: Word, top: int, topsize: int, C: Arena, last: int, b: Bins, msp: int,
                 hi: int, p: int)
    requires Core(m, smallmap, treemap, top, topsize, C, last, b, msp, hi) && p in C && !C[p].inuse && p !in b.free
    ensures 0 <= C[p].size && C[p].size + 3 < W && p + C[p].size + 4 in m
    ensures var m' := TakeMem(m, p, C[p].size);
            && Core(m', smallmap, treemap, top, topsize, Taken(C, p), last, b, msp, hi)
            && AllKept(m, m', Live(C, msp))
  {
    hide *;
    CoreParts(m, smallmap, treemap, top, topsize, C, last, b, msp, hi);
    FreeNext(m, C, msp, top, last, topsize, hi, p);
    TakenIs(C, msp, top, last, p);
    TakeMemWords(m, p, C[p].size, msp, hi);
    LiveOutside(C, msp, top, last, p);
    BitsAre();
    ChunkClear(C, msp, top, last, p, b.free);
    TakenFuse(C, p);
    var m' := TakeMem(m, p, C[p].size);
    FuseStep(m, m', smallmap, treemap, top, topsize, C, last, b, msp, hi, p, End(C, p), true);
    LocalKept(m, m', C, msp, top, last, p, End(C, p), Live(C, msp));
  }

  lemma TakenFuse(C: Arena, p: int)
    requires p in C
    ensures Taken(C, p) == Fuse(C, p, End(C, p), true)
  {
  }

  lemma HalvedCut(C: Arena, p: int, n: int)
    requires p in C
    ensures Halved(C, p, n) == Cut(C, p, n, true, false)
  {
  }

  lemma ChunkClear(C: Arena, msp: int, top: int, last: int, p: int, free: map<int, int>)
    requires ArenaOk(C, msp, top, last) && p in C && SomeFree(C, free) && p !in free
    ensures Clear(free, p, End(C, p))
  {
    forall x | x in free
      ensures x < p || End(C, p) <= x
    {
      assert NoOverlap(C, p, x);
    }
  }

  lemma SplitStep(m: Mem, smallmap: Word, treemap: Word, top: int, topsize: int, C: Arena, last: int, b: Bins,
                  msp: int, hi: int,
                  p: int, n: int)
    requires Core(m, smallmap, treemap, top, topsize, C, last, b, msp, hi) && p in C && !C[p].inuse && p !in b.free
    requires n % 8 == 0 && 16 <= n && 16 <= C[p].size - n
    ensures n + 3 < W && C[p].size - n + 1 < W && 0 <= p + n < W
    ensures var m' := SplitMem(m, p, n, C[p].size);
            && Core(m', smallmap, treemap, top, topsize, Halved(C, p, n), last, b, msp, hi)
            && AllKept(m, m', Live(C, msp))
  {
    hide *;
    CoreParts(m, smallmap, treemap, top, topsize, C, last, b, msp, hi);
    FreeNext(m, C, msp, top, last, topsize, hi, p);
    HalvedIs(C, msp, top, last, p, n);
    HeadReads(m, C, msp, top, last, topsize, hi, p);
    SplitDom(m, msp, hi, p, n, C[p].size);
    SplitMemWords(m, p, n, C[p].size, msp, hi);
    LiveOutside(C, msp, top, last, p);
    BitsAre();
    HalvedCut(C, p, n);
    RdAt(m, End(C, p) + 4);
    var m' := SplitMem(m, p, n, C[p].size);
    CutStep(m, m', smallmap, treemap, top, topsize, C, last, b, msp, hi, p, n, true, false);
    LocalKept(m, m', C, msp, top, last, p, End(C, p), Live(C, msp));
  }

  lemma SplitDom(m: Mem, msp: int, hi: int, p: int, n: int, s: int)
    requires DomOk(m, msp, hi) && p in m && p + s in m && 16 <= n && 16 <= s - n && p % 8 == 0 && n % 8 == 0
    ensures p + n + 4 in m
  {
    EightPlus(p, n);
    EightFour(p + n);
    WordIn(m, msp, hi, p + n, 4);
  }

  // ---------------------------------------------------------------- top

  lemma TopStep(m: Mem, smallmap: Word, treemap: Word, top: Word, topsize: Word, C: Arena, last: int, b: Bins,
                msp: int, hi: int, n: int)
    requires Core(m, smallmap, treemap, top, topsize, C, last, b, msp, hi) && n % 8 == 0 && 16 <= n < topsize
    ensures n + 3 < W && topsize - n + 1 < W && 0 <= top + n < W && top + 8 < W && top + 4 in m && top + n + 4 in m
    ensures var m' := m[top + n + 4 := topsize - n + 1][top + 4 := n + 3];
            && Core(m', smallmap, treemap, top + n, topsize - n, Carve(C, top, n, last), top, b, msp, hi)
            && AllKept(m, m', Live(C, msp))
    ensures top !in C && top != msp
  {
    hide *;
    CoreParts(m, smallmap, treemap, top, topsize, C, last, b, msp, hi);
    TopWords(m, C, msp, top, last, topsize, hi, n);
    var m1 := m[top + n + 4 := topsize - n + 1];
    var m' := m1[top + 4 := n + 3];
    DomStore(m, msp, hi, top + n + 4, topsize - n + 1);
    DomStore(m1, msp, hi, top + 4, n + 3);
    TwoStores(m, top + n + 4, topsize - n + 1, top + 4, n + 3);
    MinChunk();
    CarveStep(m, m', smallmap, treemap, top, topsize, C, last, b, msp, hi, n);
    CarveKept(m, m', C, msp, top, last);
  }

  lemma MinChunk()
    ensures MIN_CHUNK_SIZE == 16
  {
  }

  lemma TwoStores(m: Mem, a: int, v: Word, b: int, w: Word)
    requires a != b
    ensures var m' := m[a := v][b := w]; Rd(m', a) == v && Rd(m', b) == w && forall q :: q != a && q != b ==>
              Rd(m', q) == Rd(m, q)
  {
  }

  lemma TopWords(m: Mem, C: Arena, msp: int, top: int, last: int, topsize: int, hi: int, n: int)
    requires DomOk(m, msp, hi) && ArenaOk(C, msp, top, last) && TopOk(m, top, topsize, hi) && n % 8 == 0
             && 16 <= n < topsize
    ensures 0 <= n && n + 3 < W && topsize - n + 1 < W && top + n < W && 0 <= top && top + 8 < W && top + 4 in m
            && top + n + 4 in m && top + n + 4 != top + 4
    ensures top !in C && top != msp
  {
    ChunkFacts(C, msp, top, last, last);
    EightPlus(last, C[last].size);
    ChunkDom(m, msp, hi, top, 4);
    EightPlus(top, n);
    EightFour(top + n);
    WordIn(m, msp, hi, top + n, 4);
    TopNotChunk(C, msp, top, last);
  }

  lemma CarveKept(m: Mem, m': Mem, C: Arena, msp: int, top: int, last: int)
    requires ArenaOk(C, msp, top, last)
    requires forall a :: a < top + 4 ==> Rd(m', a) == Rd(m, a)
    ensures AllKept(m, m', Live(C, msp))
  {
    hide Rd;
    var live := Live(C, msp);
    forall q | q in live
      ensures Kept(m, m', q, live[q])
    {
      ChunkFacts(C, msp, top, last, q);
    }
  }

  lemma CarveIs(C: Arena, msp: int, top: int, n: int, last: int)
    requires top !in C && top != msp
    ensures var C' := Carve(C, top, n, last);
            && Live(C', msp) == Live(C, msp)[top := n] && top !in Live(C, msp)
            && (forall out :: FreeMap(C', out) == FreeMap(C, out))
            && (forall dv, dvsize :: DvOk(C, dv, dvsize) ==> DvOk(C', dv, dvsize))
  {
    var C' := Carve(C, top, n, last);
    assert Live(C', msp) == Live(C, msp)[top := n];
    forall out
      ensures FreeMap(C', out) == FreeMap(C, out)
    {
    }
  }

  // ---------------------------------------------------------------- requests

  /** `pad_request`: room for the head word, rounded up to the alignment. */
  function PadRequest(bytes: Word): Word {
    (bytes + CHUNK_OVERHEAD + 7) % W / 8 * 8
  }

  /** The chunk size a request asks for; a request that is too big asks for more than there can be. */
  function RequestSize(bytes: Word): Word {
    if bytes < MIN_REQUEST then MIN_CHUNK_SIZE
    else if bytes >= MAX_REQUEST then MAX_SIZE_T
    else PadRequest(bytes)
  }

  /** A chunk of the requested size has room for the request, and no chunk of a smaller valid size does. */
  lemma RequestFits(bytes: Word)
    requires bytes < MAX_REQUEST
    ensures var nb := RequestSize(bytes);
            && nb % 8 == 0 && MIN_CHUNK_SIZE <= nb && bytes + CHUNK_OVERHEAD <= nb
            && (nb == MIN_CHUNK_SIZE || nb - 8 < bytes + CHUNK_OVERHEAD)
            && (bytes <= MAX_SMALL_REQUEST <==> nb < MIN_LARGE_SIZE)
  {
  }

  /** `p` is a smallest binned chunk that fits. */
  ghost predicate BestBinned(binned: map<int, int>, nb: int, p: int) {
    && p in binned && binned[p] >= nb
    && forall q :: q in binned && binned[q] >= nb ==> binned[p] <= binned[q]
  }

  /**
    The victim goes before a binned chunk of size `s`: it leaves no more over, or the chunk is no remainderless fit.
   */
  predicate VictimPreferred(nb: int, dvsize: int, s: int) {
    if nb < MIN_LARGE_SIZE then nb + MIN_CHUNK_SIZE <= s || MIN_LARGE_SIZE <= s else dvsize <= s
  }

  /** `p` is a smallest binned chunk that fits, and the victim is too small or does not go before it. */
  ghost predicate Chosen(binned: map<int, int>, dvsize: int, nb: int, p: int) {
    BestBinned(binned, nb, p) && (dvsize < nb || !VictimPreferred(nb, dvsize, binned[p]))
  }

  /** A small request passes the victim by only for a chunk of its bin or the next, a large one for a better fit. */
  lemma ChosenIs(binned: map<int, int>, dvsize: int, nb: int, p: int)
    requires BestBinned(binned, nb, p)
    ensures Chosen(binned, dvsize, nb, p) <==>
            || dvsize < nb
            || if nb < MIN_LARGE_SIZE then binned[p] < nb + 16 && binned[p] < MIN_LARGE_SIZE else binned[p] < dvsize
  {
  }

  /**
    Where a block comes from: the smallest binned chunk that fits, unless the designated victim goes before it; or that
    victim, when no smallbin has a remainderless fit for a small request or no treebin a better one for a large request;
    or top, when no free chunk fits.  Only one of the three is the case.
   */
  ghost predicate WellPlaced(binned: map<int, int>, dv: int, dvsize: int, top: int, nb: int, p: int) {
    || Chosen(binned, dvsize, nb, p)
    || (p == dv && nb <= dvsize
        && forall q :: q in binned ==> binned[q] < nb || VictimPreferred(nb, dvsize, binned[q]))
    || (p == top && dvsize < nb && forall q :: q in binned ==> binned[q] < nb)
  }

  /** A designated victim and its size. */
  datatype Victim = Victim(dv: int, dvsize: int)

  /**
    The designated victim after a block was placed at `p`: what is left of the old one, or of a binned chunk that a
    small request was cut from; otherwise it stays.
   */
  function NextVictim(binned: map<int, int>, dv: int, dvsize: int, nb: int, p: int): Victim {
    if p in binned then
      if nb < MIN_LARGE_SIZE && nb + MIN_CHUNK_SIZE <= binned[p] then Victim(p + nb, binned[p] - nb)
      else Victim(dv, dvsize)
    else if p == dv && nb <= dvsize then
      if nb + MIN_CHUNK_SIZE <= dvsize then Victim(dv + nb, dvsize - nb) else Victim(0, 0)
    else Victim(dv, dvsize)
  }

  lemma NextVictimIs(binned: map<int, int>, dv: int, dvsize: int, nb: int, p: int)
    ensures var v := NextVictim(binned, dv, dvsize, nb, p);
            && (p in binned && nb < MIN_LARGE_SIZE && nb + 16 <= binned[p] ==> v == Victim(p + nb, binned[p] - nb))
            && (p in binned && (nb >= MIN_LARGE_SIZE || binned[p] < nb + 16) ==> v == Victim(dv, dvsize))
            && (p !in binned && p == dv && nb + 16 <= dvsize ==> v == Victim(dv + nb, dvsize - nb))
            && (p !in binned && p == dv && nb <= dvsize < nb + 16 ==> v == Victim(0, 0))
            && (p !in binned && (p != dv || dvsize < nb) ==> v == Victim(dv, dvsize))
  {
  }

  lemma GrantedElsewhere(live: map<int, int>, live': map<int, int>, p: int, q: int, nb: int)
    requires Granted(live, live', q, nb) && p in live
    ensures p != q
  {
  }

  lemma BestFits(binned: map<int, int>, nb: int, p: int)
    requires BestBinned(binned, nb, p)
    ensures p in binned && nb <= binned[p]
  {
  }

  /** Neither a free chunk nor top has room for a chunk of size `nb`. */
  ghost predicate NothingFits(C: Arena, topsize: int, nb: int) {
    topsize <= nb && forall p :: p in C && !C[p].inuse ==> C[p].size < nb
  }

  lemma GrantedIs(live: map<int, int>, p: int, s: int, nb: int)
    requires p !in live && nb <= s < nb + 16
    ensures Granted(live, live[p := s], p, nb)
  {
  }

  /** The old blocks keep their payload when the bins change after the grant. */
  lemma GrantKept(m: Mem, m1: Mem, m2: Mem, live: map<int, int>, live': map<int, int>, p: int, nb: int)
    requires AllKept(m, m1, live) && AllKept(m1, m2, live') && Granted(live, live', p, nb)
    ensures AllKept(m, m2, live)
  {
    KeptTrans(m, m1, m2, live, live, live');
  }

  lemma VictimIs(C: Arena, r: int)
    requires r in C && !C[r].inuse
    ensures C[r].size != 0 ==> DvOk(C, r, C[r].size)
  {
  }

  lemma DetachKept(m: Mem, m1: Mem, m2: Mem, live: map<int, int>)
    requires AllKept(m, m1, live) && AllKept(m1, m2, live)
    ensures AllKept(m, m2, live)
  {
    KeptTrans(m, m1, m2, live, live, live);
  }

  lemma SmallIndexOf(nb: Word)
    requires nb % 8 == 0 && nb < MIN_LARGE_SIZE
    ensures nb / 8 < 32 && 8 * (nb / 8) == nb
  {
  }

  /** The bins have nothing to offer that fits, or the victim comes first. */
  ghost predicate PassedOver(binned: map<int, int>, nb: int, dvsize: int) {
    forall q :: q in binned ==> binned[q] < nb || (nb <= dvsize && VictimPreferred(nb, dvsize, binned[q]))
  }

  /** Any large chunk, and any small one that is no remainderless fit, comes after the victim. */
  lemma PreferredAll(binned: map<int, int>, nb: int, dvsize: int)
    requires nb < MIN_LARGE_SIZE && nb <= dvsize
    requires forall q :: q in binned && binned[q] < MIN_LARGE_SIZE ==> binned[q] < nb || nb + 16 <= binned[q]
    ensures PassedOver(binned, nb, dvsize)
  {
  }

  lemma PassedAll(binned: map<int, int>, nb: int, dvsize: int)
    requires forall q :: q in binned ==> binned[q] < nb
    ensures PassedOver(binned, nb, dvsize)
  {
  }

  lemma PassedLarge(binned: map<int, int>, nb: int, dvsize: int)
    requires nb >= MIN_LARGE_SIZE
    requires forall q :: q in binned ==> binned[q] < nb || nb <= dvsize <= binned[q]
    ensures PassedOver(binned, nb, dvsize)
  {
  }

  lemma PlacedByBin(C: Arena, binned: map<int, int>, dv: int, dvsize: int, top: int, topsize: int, nb: int, p: int)
    requires binned == FreeMap(C, {dv})
    ensures Chosen(binned, dvsize, nb, p) ==> WellPlaced(binned, dv, dvsize, top, nb, p) && !NothingFits(C, topsize, nb)
  {
  }

  lemma PlacedElsewhere(C: Arena, binned: map<int, int>, dv: int, dvsize: int, top: int, topsize: int, nb: int)
    requires binned == FreeMap(C, {dv}) && DvOk(C, dv, dvsize) && PassedOver(binned, nb, dvsize) && 0 < nb && 0 !in C
    ensures nb <= dvsize ==> WellPlaced(binned, dv, dvsize, top, nb, dv) && !NothingFits(C, topsize, nb)
    ensures dvsize < nb ==> WellPlaced(binned, dv, dvsize, top, nb, top)
    ensures dvsize < nb ==> (NothingFits(C, topsize, nb) <==> topsize <= nb)
  {
    if dvsize < nb {
      forall p | p in C && !C[p].inuse
        ensures C[p].size < nb
      {
        assert p != dv ==> p in binned;
        assert p == dv ==> C[p].size == dvsize;
      }
    }
  }

  lemma RequestIs(bytes: Word)
    ensures MIN_REQUEST <= MAX_SMALL_REQUEST < MAX_REQUEST && 0 <= MIN_CHUNK_SIZE < W && 0 <= MAX_SIZE_T == W - 1
    ensures RequestSize(bytes) == if bytes <= MAX_SMALL_REQUEST then (if bytes < MIN_REQUEST then MIN_CHUNK_SIZE
            else PadRequest(bytes))
                                  else if bytes >= MAX_REQUEST then MAX_SIZE_T else PadRequest(bytes)
    ensures bytes < MAX_REQUEST ==> RequestSize(bytes) % 8 == 0 && 16 <= RequestSize(bytes)
    ensures bytes <= MAX_SMALL_REQUEST ==> RequestSize(bytes) < MIN_LARGE_SIZE
    ensures MAX_SMALL_REQUEST < bytes < MAX_REQUEST ==> LargeSize(RequestSize(bytes))
  {
    if bytes < MAX_REQUEST {
      RequestFits(bytes);
    }
  }

  /** No chunk is as large as what a request that is too big asks for. */
  lemma TooBig(C: Arena, msp: int, top: int, last: int, hi: int, dv: int, dvsize: int)
    requires ArenaOk(C, msp, top, last) && DvOk(C, dv, dvsize) && top <= hi <= W
    ensures dvsize < MAX_SIZE_T && PassedOver(FreeMap(C, {dv}), MAX_SIZE_T, dvsize)
  {
    forall p | p in C
      ensures C[p].size < MAX_SIZE_T
    {
      ChunkFacts(C, msp, top, last, p);
    }
  }
}
